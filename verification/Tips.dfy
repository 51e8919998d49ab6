/** landing/tips.go: the classifier that takes the joined program string apart again. */
module Tips {
  import opened Strings

  const SYSTEM: string := "11111111111111111111111111111111"
  const COMPUTE_BUDGET: string := "ComputeBudget111111111111111111111111111111"

  predicate Overhead(program: string) {
    var p := TrimSpace(program);
    p == "" || p == SYSTEM || p == COMPUTE_BUDGET
  }

  ghost predicate OnlyOverhead(programs: string) { forall p | p in Split(programs, COMMA) :: Overhead(p) }

  method IsBareTipLeg(programs: string, tip: nat) returns (bare: bool)
    ensures bare <==> tip > 0 && OnlyOverhead(programs)
  {
    if tip == 0 { return false; }
    var parts := Split(programs, COMMA);
    for i := 0 to |parts|
      invariant forall k | 0 <= k < i :: Overhead(parts[k])
    {
      if !Overhead(parts[i]) {
        assert parts[i] in parts;
        return false;
      }
    }
    return true;
  }

  /** On the listing of any set of comma-free names, the classifier sees that set. */
  lemma SeesTheSet(names: set<string>, programs: string)
    requires Lists(names, programs) && forall p | p in names :: CommaFree(p)
    ensures OnlyOverhead(programs) <==> forall p | p in names :: Overhead(p)
  {
    var parts :| Sorted(parts) && Members(parts) == names && programs == Join(parts, COMMA);
    assert forall p | p in parts :: p in names;
    SplitJoin(parts, COMMA);
    assert forall p | p in names :: p in parts;
  }

  /** A name as the chain has them: not empty, with no comma and no white space. */
  predicate Plain(name: string) { name != "" && CommaFree(name) && forall c | c in name :: !IsSpace(c) }

  /** On plain names that is: nothing but System and ComputeBudget. */
  lemma SeesTwoPrograms(names: set<string>, programs: string)
    requires Lists(names, programs) && forall p | p in names :: Plain(p)
    ensures OnlyOverhead(programs) <==> names <= {SYSTEM, COMPUTE_BUDGET}
  {
    SeesTheSet(names, programs);
    forall p | p in names ensures TrimSpace(p) == p && p != "" {
      assert Plain(p) && p[0] in p && p[|p| - 1] in p;
    }
  }
}
