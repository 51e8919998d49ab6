/** Go's strings as the extractor uses them: byte order, sorting, Join, Split and TrimSpace. */
module Strings {

  const COMMA: char := ','

  // ---- Order ----

  /** String comparison: lexicographic by byte. */
  predicate Less(a: string, b: string) {
    b != [] && (a == [] || a[0] < b[0] || (a[0] == b[0] && Less(a[1..], b[1..])))
  }

  /** The first `k` characters agree, and then `a` ends or has the smaller one. */
  ghost predicate DiffersAt(a: string, b: string, k: nat) {
    && k <= |a| && k < |b| && (forall i | 0 <= i < k :: a[i] == b[i])
    && (k == |a| || a[k] < b[k])
  }

  /** The order is that of the first difference. */
  lemma {:induction false} LessMeans(a: string, b: string)
    ensures Less(a, b) <==> exists k :: DiffersAt(a, b, k)
  {
    if b != [] && (a == [] || a[0] < b[0]) {
      assert DiffersAt(a, b, 0);
    } else if a != [] && b != [] && a[0] == b[0] {
      LessMeans(a[1..], b[1..]);
      if k: nat :| DiffersAt(a[1..], b[1..], k) {
        forall i | 0 <= i < k + 1 ensures a[i] == b[i] {
          if i > 0 { assert a[1..][i - 1] == b[1..][i - 1]; }
        }
        assert DiffersAt(a, b, k + 1);
      }
      if k: nat :| DiffersAt(a, b, k) {
        assert k > 0;
        assert DiffersAt(a[1..], b[1..], k - 1);
      }
    }
  }

  lemma {:induction false} LessTransitive(a: string, b: string, c: string)
    requires Less(a, b) && Less(b, c)
    ensures Less(a, c)
  {
    if a != [] && a[0] == b[0] && b[0] == c[0] { LessTransitive(a[1..], b[1..], c[1..]); }
  }

  lemma {:induction false} LessTotal(a: string, b: string)
    ensures a == b || Less(a, b) || Less(b, a)
  {
    if a != [] && b != [] && a[0] == b[0] {
      LessTotal(a[1..], b[1..]);
      if a[1..] == b[1..] { assert a == [a[0]] + a[1..] && b == [b[0]] + b[1..]; }
    }
  }

  lemma {:induction false} LessIrreflexive(a: string)
    ensures !Less(a, a)
  {
    if a != [] { LessIrreflexive(a[1..]); }
  }

  /** Strictly ascending: sorted and without repeats. */
  ghost predicate Sorted(s: seq<string>) { forall i, j | 0 <= i < j < |s| :: Less(s[i], s[j]) }

  function Members(s: seq<string>): set<string> { set x | x in s }

  lemma NoMembers(a: seq<string>)
    ensures a == [] <==> Members(a) == {}
  {
    if a != [] { assert a[0] in Members(a); }
  }

  lemma HeadIsLeast(a: seq<string>, b: seq<string>)
    requires Sorted(a) && Sorted(b) && Members(a) == Members(b) && a != [] && b != []
    ensures a[0] == b[0]
  {
    assert a[0] in Members(a) && b[0] in Members(b);
    var i :| 0 <= i < |b| && b[i] == a[0];
    var j :| 0 <= j < |a| && a[j] == b[0];
    if 0 < i && 0 < j {
      LessTransitive(a[0], b[0], a[0]);
      LessIrreflexive(a[0]);
    }
  }

  /** A set has one strictly ascending listing. */
  lemma {:induction false} ListingUnique(a: seq<string>, b: seq<string>)
    requires Sorted(a) && Sorted(b) && Members(a) == Members(b)
    ensures a == b
  {
    NoMembers(a);
    NoMembers(b);
    if a != [] {
      HeadIsLeast(a, b);
      SortedTail(a);
      SortedTail(b);
      ListingUnique(a[1..], b[1..]);
      assert a == [a[0]] + a[1..] && b == [b[0]] + b[1..];
    }
  }

  lemma SortedTail(a: seq<string>)
    requires Sorted(a) && a != []
    ensures Sorted(a[1..]) && Members(a[1..]) == Members(a) - {a[0]}
  {
    LessIrreflexive(a[0]);
    forall x ensures x in Members(a[1..]) <==> x in Members(a) - {a[0]} {
      if x in a && x != a[0] {
        var i :| 0 <= i < |a| && a[i] == x;
        assert a[1..][i - 1] == x;
      }
    }
  }

  /** `x` goes between what is before it and what is after. */
  lemma Inserted(s: seq<string>, i: nat, x: string)
    requires Sorted(s) && i <= |s|
    requires (forall k | 0 <= k < i :: Less(s[k], x)) && forall k | i <= k < |s| :: Less(x, s[k])
    ensures Sorted(s[..i] + [x] + s[i..]) && Members(s[..i] + [x] + s[i..]) == Members(s) + {x}
  {
    var out := s[..i] + [x] + s[i..];
    forall y ensures y in out <==> y in s || y == x {
      assert s == s[..i] + s[i..];
    }
  }

  /** The ascending position for one more string. */
  method InsertSorted(s: seq<string>, x: string) returns (out: seq<string>)
    requires Sorted(s) && x !in s
    ensures Sorted(out) && Members(out) == Members(s) + {x}
  {
    var i := 0;
    while i < |s| && Less(s[i], x)
      invariant i <= |s|
      invariant forall k | 0 <= k < i :: Less(s[k], x)
    {
      i := i + 1;
    }
    if i < |s| { LessTotal(s[i], x); }
    forall k | i <= k < |s| ensures Less(x, s[k]) {
      if i < k { LessTransitive(x, s[i], s[k]); }
    }
    Inserted(s, i, x);
    out := s[..i] + [x] + s[i..];
  }

  /** sort.Strings on a list without repeats. */
  method Sort(s: seq<string>) returns (out: seq<string>)
    requires forall i, j | 0 <= i < j < |s| :: s[i] != s[j]
    ensures Sorted(out) && Members(out) == Members(s)
  {
    out := [];
    for i := 0 to |s|
      invariant Sorted(out) && Members(out) == Members(s[..i])
    {
      assert s[..i + 1] == s[..i] + [s[i]];
      assert s[i] !in Members(s[..i]);
      out := InsertSorted(out, s[i]);
    }
    assert s[..|s|] == s;
  }

  // ---- Join and Split ----

  function Join(parts: seq<string>, sep: char): string {
    if parts == [] then "" else if |parts| == 1 then parts[0] else parts[0] + [sep] + Join(parts[1..], sep)
  }

  /** strings.Split on one character: one part more than there are separators. */
  function Split(s: string, sep: char): (parts: seq<string>)
    ensures parts != []
  {
    if s == "" then [""]
    else
      var rest := Split(s[1..], sep);
      if s[0] == sep then [""] + rest else [[s[0]] + rest[0]] + rest[1..]
  }

  lemma {:induction false} SplitOne(s: string, sep: char)
    requires sep !in s
    ensures Split(s, sep) == [s]
  {
    if s != "" {
      SplitOne(s[1..], sep);
      assert s == [s[0]] + s[1..];
    }
  }

  lemma {:induction false} SplitFirst(s: string, rest: string, sep: char)
    requires sep !in s
    ensures Split(s + [sep] + rest, sep) == [s] + Split(rest, sep)
  {
    var all := s + [sep] + rest;
    if s == "" {
      assert all[1..] == rest;
    } else {
      SplitFirst(s[1..], rest, sep);
      assert all[1..] == s[1..] + [sep] + rest;
      assert s == [s[0]] + s[1..];
    }
  }

  /** Splitting undoes joining, except that nothing at all comes back as one empty part. */
  lemma {:induction false} SplitJoin(parts: seq<string>, sep: char)
    requires forall p | p in parts :: sep !in p
    ensures Split(Join(parts, sep), sep) == if parts == [] then [""] else parts
  {
    if |parts| == 1 {
      SplitOne(parts[0], sep);
    } else if parts != [] {
      SplitJoin(parts[1..], sep);
      SplitFirst(parts[0], Join(parts[1..], sep), sep);
      assert parts == [parts[0]] + parts[1..];
    }
  }

  /** Parts have no separator in them. */
  lemma {:induction false} SplitFree(s: string, sep: char)
    ensures forall p | p in Split(s, sep) :: sep !in p
  {
    if s != "" { SplitFree(s[1..], sep); }
  }

  /** Splitting at a separator splits the two sides. */
  lemma {:induction false} SplitConcat(a: string, b: string, sep: char)
    ensures Split(a + [sep] + b, sep) == Split(a, sep) + Split(b, sep)
  {
    var all := a + [sep] + b;
    if a == "" {
      assert all[1..] == b;
    } else {
      SplitConcat(a[1..], b, sep);
      assert all[0] == a[0] && all[1..] == a[1..] + [sep] + b;
      FrontOfConcat(a[0], Split(a[1..], sep), Split(b, sep), sep);
    }
  }

  lemma FrontOfConcat(c: char, rest: seq<string>, more: seq<string>, sep: char)
    requires rest != []
    ensures [""] + (rest + more) == ([""] + rest) + more
    ensures [[c] + (rest + more)[0]] + (rest + more)[1..] == ([[c] + rest[0]] + rest[1..]) + more
  {
    assert (rest + more)[1..] == rest[1..] + more;
  }

  predicate CommaFree(s: string) { COMMA !in s }

  // ---- A set as one string ----

  ghost predicate Lists(names: set<string>, s: string) {
    exists parts :: Sorted(parts) && Members(parts) == names && s == Join(parts, COMMA)
  }

  /** There is one such string for a set. */
  lemma OneString(names: set<string>, a: string, b: string)
    requires Lists(names, a) && Lists(names, b)
    ensures a == b
  {
    var p :| Sorted(p) && Members(p) == names && a == Join(p, COMMA);
    var q :| Sorted(q) && Members(q) == names && b == Join(q, COMMA);
    ListingUnique(p, q);
  }

  lemma EmptyString(names: set<string>, s: string)
    requires Lists(names, s) && "" !in names
    ensures s == "" <==> names == {}
  {
    var p :| Sorted(p) && Members(p) == names && s == Join(p, COMMA);
    if p != [] { assert p[0] in names; }
  }

  /** And one set for a string, when the names are not empty and have no commas. */
  lemma OneSet(a: set<string>, b: set<string>, s: string)
    requires Lists(a, s) && Lists(b, s)
    requires forall p | p in a + b :: CommaFree(p) && p != ""
    ensures a == b
  {
    assert "" !in a + b;
    EmptyString(a, s);
    EmptyString(b, s);
    var p :| Sorted(p) && Members(p) == a && s == Join(p, COMMA);
    var q :| Sorted(q) && Members(q) == b && s == Join(q, COMMA);
    NoMembers(p);
    NoMembers(q);
    assert forall x | x in p :: x in a + b;
    assert forall x | x in q :: x in a + b;
    SplitJoin(p, COMMA);
    SplitJoin(q, COMMA);
  }

  /** Sorting and joining a list without repeats. */
  method JoinSorted(s: seq<string>) returns (r: string)
    requires forall i, j | 0 <= i < j < |s| :: s[i] != s[j]
    ensures Lists(Members(s), r)
  {
    var out := Sort(s);
    return Join(out, COMMA);
  }

  // ---- TrimSpace ----

  /** The Unicode white space characters. */
  predicate IsSpace(c: char) {
    var n := c as int;
    || 9 <= n <= 13 || n == 0x20 || n == 0x85 || n == 0xA0 || n == 0x1680 || 0x2000 <= n <= 0x200A
    || n == 0x2028 || n == 0x2029 || n == 0x202F || n == 0x205F || n == 0x3000
  }

  /** One by one: tab to carriage return, space, next line, and the spaces and separators above them. */
  const SPACES: string :=
    "\t\n\U{000B}\U{000C}\r \U{0085}\U{00A0}\U{1680}\U{2000}\U{2001}\U{2002}\U{2003}\U{2004}\U{2005}" +
    "\U{2006}\U{2007}\U{2008}\U{2009}\U{200A}\U{2028}\U{2029}\U{202F}\U{205F}\U{3000}"

  lemma SpacesListed(c: char)
    ensures IsSpace(c) <==> c in SPACES
  {}

  function TrimLeft(s: string): string {
    if s != "" && IsSpace(s[0]) then TrimLeft(s[1..]) else s
  }

  function TrimRight(s: string): string {
    if s != "" && IsSpace(s[|s| - 1]) then TrimRight(s[..|s| - 1]) else s
  }

  function TrimSpace(s: string): string { TrimRight(TrimLeft(s)) }

  predicate Blank(s: string) { forall c | c in s :: IsSpace(c) }

  lemma {:induction false} TrimLeftMeans(s: string) returns (lead: string)
    ensures s == lead + TrimLeft(s) && Blank(lead)
    ensures TrimLeft(s) == "" || !IsSpace(TrimLeft(s)[0])
  {
    lead := "";
    if s != "" && IsSpace(s[0]) {
      var rest := TrimLeftMeans(s[1..]);
      lead := [s[0]] + rest;
      assert s == [s[0]] + s[1..];
    }
  }

  lemma {:induction false} TrimRightMeans(s: string) returns (trail: string)
    ensures s == TrimRight(s) + trail && Blank(trail)
    ensures TrimRight(s) == "" || !IsSpace(TrimRight(s)[|TrimRight(s)| - 1])
  {
    trail := "";
    if s != "" && IsSpace(s[|s| - 1]) {
      var rest := TrimRightMeans(s[..|s| - 1]);
      trail := rest + [s[|s| - 1]];
      assert s == s[..|s| - 1] + [s[|s| - 1]];
    }
  }

  /** White space goes at both ends, and nothing else does. */
  lemma TrimSpaceMeans(s: string)
    ensures exists lead, trail :: s == lead + TrimSpace(s) + trail && Blank(lead) && Blank(trail)
    ensures var t := TrimSpace(s); t == "" || (!IsSpace(t[0]) && !IsSpace(t[|t| - 1]))
  {
    var lead := TrimLeftMeans(s);
    var trail := TrimRightMeans(TrimLeft(s));
    assert s == lead + TrimSpace(s) + trail;
  }
}
