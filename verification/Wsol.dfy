/** backfill/extract.go, wsolProfit: map-based accounting over token balances, in wrapping 64-bit arithmetic. */
module Wsol {
  import opened Prelude

  /** Go's int64 result for a sum or difference of two int64 values. */
  function Wrap(x: int): (r: Int64)
    requires -TWO_64 <= x < TWO_64
    ensures Congruent(r, x)
  {
    assert Differ(x + TWO_64, x, 1) && Differ(x - TWO_64, x, -1) && Differ(x, x, 0);
    ToInt64(x)
  }

  /** The same value in 64 bits. */
  ghost predicate Congruent(a: int, b: int) { exists k: int :: Differ(a, b, k) }

  ghost predicate Differ(a: int, b: int, k: int) { a == b + k * TWO_64 }

  lemma CongruentSum(a: int, b: int, c: int, d: int)
    requires Congruent(a, b) && Congruent(c, d)
    ensures Congruent(a + c, b + d) && Congruent(a - c, b - d)
  {
    var j :| Differ(a, b, j);
    var k :| Differ(c, d, k);
    assert Differ(a + c, b + d, j + k) && Differ(a - c, b - d, j - k);
  }

  lemma CongruentTrans(a: int, b: int, c: int)
    requires Congruent(a, b) && Congruent(b, c)
    ensures Congruent(a, c)
  {
    var j :| Differ(a, b, j);
    var k :| Differ(b, c, k);
    assert Differ(a, c, j + k);
  }

  /** Two int64 values that agree in 64 bits are equal. */
  lemma CongruentInRange(a: Int64, b: Int64)
    requires Congruent(a, b)
    ensures a == b
  {
    var k :| Differ(a, b, k);
  }

  lemma SameIsCongruent(a: int)
    ensures Congruent(a, a)
  {
    assert Differ(a, a, 0);
  }

  // ---- lamports: strconv.ParseInt with the error dropped ----

  /** None is a syntax error; a number too large stops the scan at the largest uint64. */
  function ParseUint(s: string, n: nat): Option<nat> {
    if s == "" then Some(n)
    else if !('0' <= s[0] <= '9') then None
    else
      var m := 10 * n + (s[0] as int - '0' as int);
      if m >= TWO_64 then Some(TWO_64 - 1) else ParseUint(s[1..], m)
  }

  function Lamports(s: string): Int64 {
    var neg := s != "" && s[0] == '-';
    var digits := if s != "" && (s[0] == '-' || s[0] == '+') then s[1..] else s;
    if digits == "" then 0
    else
      match ParseUint(digits, 0)
      case None => 0
      case Some(n) =>
        var magnitude: int := n;
        if neg then (if magnitude > TWO_63 then -TWO_63 else -magnitude)
        else if magnitude >= TWO_63 then TWO_63 - 1 else magnitude
  }

  function Decimal(n: nat): string {
    (if n < 10 then "" else Decimal(n / 10)) + [('0' as int + n % 10) as char]
  }

  lemma {:induction false} DecimalScans(n: nat, rest: string)
    requires n < TWO_64
    ensures Decimal(n) != "" && '0' <= Decimal(n)[0] <= '9'
    ensures ParseUint(Decimal(n) + rest, 0) == ParseUint(rest, n)
  {
    var digit := [('0' as int + n % 10) as char];
    if n < 10 {
      assert (Decimal(n) + rest)[1..] == rest;
    } else {
      DecimalScans(n / 10, digit + rest);
      assert Decimal(n) + rest == Decimal(n / 10) + (digit + rest);
      assert (digit + rest)[1..] == rest;
    }
  }

  /** Every amount in range is read back as it is printed. */
  lemma LamportsReadsDecimal(n: nat)
    requires n < TWO_63
    ensures Lamports(Decimal(n)) == n
  {
    DecimalScans(n, "");
    assert Decimal(n) + "" == Decimal(n);
  }

  /** A sign is read with it. */
  lemma LamportsSigns(n: nat)
    requires n < TWO_63
    ensures Lamports("-" + Decimal(n)) == -(n as int) && Lamports("+" + Decimal(n)) == n
  {
    DecimalScans(n, "");
    assert Decimal(n) + "" == Decimal(n);
    assert ("-" + Decimal(n))[1..] == Decimal(n) && ("+" + Decimal(n))[1..] == Decimal(n);
  }

  /** A number in range that something else than a digit follows counts as nothing, and so does nothing at all. */
  lemma LamportsOfNoNumber(n: nat, c: char, rest: string)
    requires n < TWO_63 && !('0' <= c <= '9')
    ensures Lamports(Decimal(n) + ([c] + rest)) == 0 && Lamports("") == 0
  {
    var s := Decimal(n) + ([c] + rest);
    DecimalScans(n, [c] + rest);
    assert s[0] == Decimal(n)[0];
  }

  lemma {:induction false} DecimalSaturates(n: nat)
    requires n >= TWO_64
    ensures Decimal(n) != "" && '0' <= Decimal(n)[0] <= '9'
    ensures forall rest :: ParseUint(Decimal(n) + rest, 0) == Some(TWO_64 - 1)
  {
    var digit := [('0' as int + n % 10) as char];
    forall rest: string ensures ParseUint(Decimal(n) + rest, 0) == Some(TWO_64 - 1) {
      assert Decimal(n) + rest == Decimal(n / 10) + (digit + rest);
      if n / 10 >= TWO_64 { DecimalSaturates(n / 10); } else { DecimalScans(n / 10, digit + rest); }
      assert (digit + rest)[1..] == rest;
    }
    if n / 10 >= TWO_64 { DecimalSaturates(n / 10); } else { DecimalScans(n / 10, ""); }
  }

  /** An amount too large, of either sign, comes back as the one nearest to it. */
  lemma LamportsSaturates(n: nat)
    requires n >= TWO_63
    ensures Lamports(Decimal(n)) == TWO_63 - 1 && Lamports("-" + Decimal(n)) == -TWO_63
  {
    if n < TWO_64 { DecimalScans(n, ""); } else { DecimalSaturates(n); }
    assert Decimal(n) + "" == Decimal(n) && ("-" + Decimal(n))[1..] == Decimal(n);
  }

  // ---- Balances ----

  const WSOL_MINT: string := "So11111111111111111111111111111111111111112"

  datatype Balance = Balance(mint: string, owner: string, idx: nat, amount: string)

  predicate Ours(b: Balance, wallet: string) { b.mint == WSOL_MINT && b.owner == wallet }

  /** The wallet's WSOL over a balance list, every entry counted. */
  function Total(bs: seq<Balance>, wallet: string): int {
    if bs == [] then 0
    else
      var b := bs[|bs| - 1];
      Total(bs[..|bs| - 1], wallet) + if Ours(b, wallet) then Lamports(b.amount) else 0
  }

  /** The map the first loop builds: for each account index, its last amount. */
  function LastByIndex(bs: seq<Balance>, wallet: string): map<nat, Int64> {
    if bs == [] then map[]
    else
      var b, m := bs[|bs| - 1], LastByIndex(bs[..|bs| - 1], wallet);
      if Ours(b, wallet) then m[b.idx := Lamports(b.amount)] else m
  }

  /** The amounts that loop throws away, because a later entry has the same index. */
  function Overwritten(bs: seq<Balance>, wallet: string): int {
    if bs == [] then 0
    else
      var b, m := bs[|bs| - 1], LastByIndex(bs[..|bs| - 1], wallet);
      Overwritten(bs[..|bs| - 1], wallet) + if Ours(b, wallet) && b.idx in m then m[b.idx] else 0
  }

  /** One balance more counts exactly when it is wrapped SOL and the wallet's. */
  lemma OneMoreBalance(bs: seq<Balance>, b: Balance, wallet: string)
    ensures Total(bs + [b], wallet)
            == Total(bs, wallet)
               + if b.mint == WSOL_MINT && b.owner == wallet then Lamports(b.amount) else 0
  {
    assert (bs + [b])[..|bs|] == bs;
  }

  /** What is kept of an account is the last amount listed for it among the wallet's wrapped SOL. */
  lemma {:induction false} LastIsKept(bs: seq<Balance>, wallet: string, k: nat)
    ensures k in LastByIndex(bs, wallet) <==>
            exists i :: 0 <= i < |bs| && bs[i].mint == WSOL_MINT && bs[i].owner == wallet && bs[i].idx == k
    ensures k in LastByIndex(bs, wallet) ==>
              exists i :: 0 <= i < |bs| && bs[i].mint == WSOL_MINT && bs[i].owner == wallet && bs[i].idx == k
                && LastByIndex(bs, wallet)[k] == Lamports(bs[i].amount)
                && forall j | i < j < |bs| && bs[j].mint == WSOL_MINT && bs[j].owner == wallet :: bs[j].idx != k
  {
    if bs != [] {
      var b, rest := bs[|bs| - 1], bs[..|bs| - 1];
      LastIsKept(rest, wallet, k);
      assert forall i | 0 <= i < |rest| :: rest[i] == bs[i];
    }
  }

  /** Balances in another mint or of another owner change nothing, wherever they stand. */
  lemma {:induction false} OthersDoNotCount(a: seq<Balance>, b: Balance, rest: seq<Balance>, wallet: string)
    requires b.mint != WSOL_MINT || b.owner != wallet
    ensures Total(a + [b] + rest, wallet) == Total(a + rest, wallet)
    ensures LastByIndex(a + [b] + rest, wallet) == LastByIndex(a + rest, wallet)
    ensures Overwritten(a + [b] + rest, wallet) == Overwritten(a + rest, wallet)
  {
    if rest == [] {
      assert a + [b] + rest == a + [b] && a + rest == a && (a + [b])[..|a|] == a;
    } else {
      var front := rest[..|rest| - 1];
      OthersDoNotCount(a, b, front, wallet);
      assert (a + [b] + rest)[..|a + [b] + rest| - 1] == a + [b] + front;
      assert (a + rest)[..|a + rest| - 1] == a + front;
    }
  }

  ghost function MapSum(m: map<nat, Int64>): int {
    if m == map[] then 0
    else
      var k :| k in m;
      m[k] + MapSum(m - {k})
  }

  function At(m: map<nat, Int64>, k: nat): Int64 { if k in m then m[k] else 0 }

  /** The sum does not depend on which entry comes off first. */
  lemma {:induction false} MapSumWithout(m: map<nat, Int64>, k: nat)
    ensures MapSum(m) == At(m, k) + MapSum(m - {k})
    decreases |m|
  {
    if k !in m {
      assert m - {k} == m;
    } else {
      var j :| j in m && MapSum(m) == m[j] + MapSum(m - {j});
      if j != k {
        MapSumWithout(m - {j}, k);
        MapSumWithout(m - {k}, j);
        assert m - {j} - {k} == m - {k} - {j};
      }
    }
  }

  lemma MapSumUpdate(m: map<nat, Int64>, k: nat, v: Int64)
    ensures MapSum(m[k := v]) == MapSum(m) - At(m, k) + v
  {
    MapSumWithout(m, k);
    MapSumWithout(m[k := v], k);
    assert m[k := v] - {k} == m - {k};
  }

  /** What the map holds is the whole list less what was overwritten. */
  lemma {:induction false} MapHoldsTheRest(bs: seq<Balance>, wallet: string)
    ensures MapSum(LastByIndex(bs, wallet)) == Total(bs, wallet) - Overwritten(bs, wallet)
  {
    if bs != [] {
      var b, rest := bs[|bs| - 1], bs[..|bs| - 1];
      MapHoldsTheRest(rest, wallet);
      MapSumUpdate(LastByIndex(rest, wallet), b.idx, Lamports(b.amount));
    }
  }

  ghost predicate UniqueIndexes(bs: seq<Balance>, wallet: string) {
    forall i, j | 0 <= i < j < |bs| && Ours(bs[i], wallet) && Ours(bs[j], wallet) :: bs[i].idx != bs[j].idx
  }

  lemma {:induction false} KeysAreIndexes(bs: seq<Balance>, wallet: string, k: nat)
    requires k in LastByIndex(bs, wallet)
    ensures exists i :: 0 <= i < |bs| && Ours(bs[i], wallet) && bs[i].idx == k
  {
    var b, rest := bs[|bs| - 1], bs[..|bs| - 1];
    if !(Ours(b, wallet) && b.idx == k) {
      KeysAreIndexes(rest, wallet, k);
      var i :| 0 <= i < |rest| && Ours(rest[i], wallet) && rest[i].idx == k;
      assert bs[i] == rest[i];
    }
  }

  lemma {:induction false} UniqueLosesNothing(bs: seq<Balance>, wallet: string)
    requires UniqueIndexes(bs, wallet)
    ensures Overwritten(bs, wallet) == 0
  {
    if bs != [] {
      var b, rest := bs[|bs| - 1], bs[..|bs| - 1];
      assert forall i | 0 <= i < |rest| :: rest[i] == bs[i];
      UniqueLosesNothing(rest, wallet);
      if Ours(b, wallet) && b.idx in LastByIndex(rest, wallet) {
        KeysAreIndexes(rest, wallet, b.idx);
        assert false;
      }
    }
  }

  // ---- wsolProfit ----

  /** The first loop: the last amount of each of the wallet's accounts. */
  method LastAmounts(bs: seq<Balance>, wallet: string) returns (pre: map<nat, Int64>)
    ensures pre == LastByIndex(bs, wallet)
  {
    pre := map[];
    for i := 0 to |bs|
      invariant pre == LastByIndex(bs[..i], wallet)
    {
      var b := bs[i];
      assert bs[..i + 1][..i] == bs[..i];
      if Ours(b, wallet) { pre := pre[b.idx := Lamports(b.amount)]; }
    }
    assert bs[..|bs|] == bs;
  }

  /** What the second loop keeps: each post amount is in, less the pre amounts taken off the map. */
  ghost predicate Settling(delta: int, posted: int, held: int, pre: map<nat, Int64>) {
    Congruent(delta, posted - held + MapSum(pre))
  }

  lemma TotalNext(bs: seq<Balance>, wallet: string, i: nat)
    requires i < |bs|
    ensures Total(bs[..i + 1], wallet)
            == Total(bs[..i], wallet) + if Ours(bs[i], wallet) then Lamports(bs[i].amount) else 0
  {
    assert bs[..i + 1][..i] == bs[..i];
  }

  /** Post minus pre, plus what was overwritten, in 64 bits. */
  ghost predicate Profit(preBalances: seq<Balance>, postBalances: seq<Balance>, wallet: string, delta: Int64) {
    Congruent(
      delta, Total(postBalances, wallet) - Total(preBalances, wallet) + Overwritten(preBalances, wallet))
  }

  method WsolProfit(preBalances: seq<Balance>, postBalances: seq<Balance>, wallet: string) returns (delta: Int64)
    ensures Profit(preBalances, postBalances, wallet, delta)
  {
    var pre := LastAmounts(preBalances, wallet);
    ghost var held := MapSum(pre);
    SameIsCongruent(0);
    delta, pre := AddPosts(pre, postBalances, wallet, held);
    delta := SubtractClosed(delta, pre, Total(postBalances, wallet), held);
    MapHoldsTheRest(preBalances, wallet);
  }

  /** So the result is the same with or without them, in either list. */
  lemma ProfitIgnoresOthers(
      a: seq<Balance>, b: Balance, rest: seq<Balance>, other: seq<Balance>, wallet: string, delta: Int64)
    requires b.mint != WSOL_MINT || b.owner != wallet
    ensures Profit(a + [b] + rest, other, wallet, delta) <==> Profit(a + rest, other, wallet, delta)
    ensures Profit(other, a + [b] + rest, wallet, delta) <==> Profit(other, a + rest, wallet, delta)
  {
    OthersDoNotCount(a, b, rest, wallet);
  }

  /** The second loop: every account there is after. */
  method AddPosts(was: map<nat, Int64>, bs: seq<Balance>, wallet: string, ghost held: int)
    returns (delta: Int64, pre: map<nat, Int64>)
    requires Settling(0, 0, held, was)
    ensures Settling(delta, Total(bs, wallet), held, pre)
  {
    delta, pre := 0, was;
    for i := 0 to |bs|
      invariant Settling(delta, Total(bs[..i], wallet), held, pre)
    {
      var b := bs[i];
      TotalNext(bs, wallet, i);
      if Ours(b, wallet) {
        delta := Settle(delta, pre, b.idx, Lamports(b.amount), Total(bs[..i], wallet), held);
        pre := pre - {b.idx};
      }
    }
    assert bs[..|bs|] == bs;
  }

  /** The third loop, over the accounts that are left, in any order. */
  method SubtractClosed(was: Int64, left: map<nat, Int64>, ghost posted: int, ghost held: int) returns (delta: Int64)
    requires Settling(was, posted, held, left)
    ensures Congruent(delta, posted - held)
  {
    var pre := left;
    delta := was;
    while pre != map[]
      invariant Settling(delta, posted, held, pre)
      decreases |pre|
    {
      var k :| k in pre;
      delta := Settle(delta, pre, k, 0, posted, held);
      pre := pre - {k};
    }
  }

  /** delta += amount - pre[idx] */
  method Settle(delta: Int64, pre: map<nat, Int64>, idx: nat, amount: Int64, ghost posted: int, ghost held: int)
    returns (r: Int64)
    requires Settling(delta, posted, held, pre)
    ensures Settling(r, posted + amount, held, pre - {idx})
  {
    MapSumWithout(pre, idx);
    r := AddDifference(delta, amount, At(pre, idx), posted - held + MapSum(pre));
  }

  /** delta += gain - loss, each operation wrapping. */
  method AddDifference(delta: Int64, gain: Int64, loss: Int64, ghost was: int) returns (r: Int64)
    requires Congruent(delta, was)
    ensures Congruent(r, was + gain - loss)
  {
    var change := Wrap(gain - loss);
    r := Wrap(delta + change);
    CongruentSum(delta, was, change, gain - loss);
    CongruentTrans(r, delta + change, was + (gain - loss));
  }

  /** The change is right exactly when the overwritten pre amounts come to nothing in 64 bits. */
  lemma ConservesInRange(preBalances: seq<Balance>, postBalances: seq<Balance>, wallet: string, delta: Int64)
    requires Profit(preBalances, postBalances, wallet, delta)
    requires -TWO_63 <= Total(postBalances, wallet) - Total(preBalances, wallet) < TWO_63
    ensures delta == Total(postBalances, wallet) - Total(preBalances, wallet)
            <==> Congruent(Overwritten(preBalances, wallet), 0)
  {
    var change := Total(postBalances, wallet) - Total(preBalances, wallet);
    var lost := Overwritten(preBalances, wallet);
    SameIsCongruent(change);
    if Congruent(lost, 0) {
      CongruentSum(change, change, lost, 0);
      CongruentTrans(delta, change + lost, change);
      CongruentInRange(delta, change);
    }
    if delta == change {
      CongruentSum(delta, change + lost, change, change);
      var k :| Differ(delta - change, lost, k);
      assert Differ(lost, 0, -k);
    }
  }

  /** Balances of tokens that exist: no amount of the wallet's is negative, and together they are within the supply. */
  ghost predicate Supplied(bs: seq<Balance>, wallet: string, supply: int) {
    && (forall i | 0 <= i < |bs| && Ours(bs[i], wallet) :: Lamports(bs[i].amount) >= 0)
    && Total(bs, wallet) <= supply < TWO_63
  }

  lemma {:induction false} SumNotNegative(m: map<nat, Int64>)
    requires forall k | k in m :: m[k] >= 0
    ensures MapSum(m) >= 0
    decreases |m|
  {
    if m != map[] {
      var k :| k in m;
      MapSumWithout(m, k);
      SumNotNegative(m - {k});
    }
  }

  lemma {:induction false} LastNotNegative(bs: seq<Balance>, wallet: string)
    requires forall i | 0 <= i < |bs| && Ours(bs[i], wallet) :: Lamports(bs[i].amount) >= 0
    ensures (forall k | k in LastByIndex(bs, wallet) :: LastByIndex(bs, wallet)[k] >= 0) && 0 <= Overwritten(bs, wallet)
  {
    if bs != [] {
      var rest := bs[..|bs| - 1];
      assert forall i | 0 <= i < |rest| :: rest[i] == bs[i];
      LastNotNegative(rest, wallet);
    }
  }

  lemma OverwrittenWithinTotal(bs: seq<Balance>, wallet: string)
    requires forall i | 0 <= i < |bs| && Ours(bs[i], wallet) :: Lamports(bs[i].amount) >= 0
    ensures 0 <= Overwritten(bs, wallet) <= Total(bs, wallet)
  {
    LastNotNegative(bs, wallet);
    SumNotNegative(LastByIndex(bs, wallet));
    MapHoldsTheRest(bs, wallet);
  }

  /**
   Value conservation: for tokens that exist, what the method returns is post minus pre, opened, kept and
   closed accounts alike, exactly when the overwritten pre amounts are all zero.
   */
  lemma ConservesValue(
      preBalances: seq<Balance>, postBalances: seq<Balance>, wallet: string, supply: int, delta: Int64)
    requires Profit(preBalances, postBalances, wallet, delta)
    requires Supplied(preBalances, wallet, supply) && Supplied(postBalances, wallet, supply)
    ensures delta == Total(postBalances, wallet) - Total(preBalances, wallet)
            <==> Overwritten(preBalances, wallet) == 0
  {
    OverwrittenWithinTotal(preBalances, wallet);
    OverwrittenWithinTotal(postBalances, wallet);
    ConservesInRange(preBalances, postBalances, wallet, delta);
    SameIsCongruent(0);
    if Congruent(Overwritten(preBalances, wallet), 0) { CongruentInRange(Overwritten(preBalances, wallet), 0); }
  }

  /** In particular when no account index comes twice among the wallet's own pre balances. */
  lemma UniqueConserves(
      preBalances: seq<Balance>, postBalances: seq<Balance>, wallet: string, supply: int, delta: Int64)
    requires Profit(preBalances, postBalances, wallet, delta) && UniqueIndexes(preBalances, wallet)
    requires Supplied(preBalances, wallet, supply) && Supplied(postBalances, wallet, supply)
    ensures delta == Total(postBalances, wallet) - Total(preBalances, wallet)
  {
    UniqueLosesNothing(preBalances, wallet);
    ConservesValue(preBalances, postBalances, wallet, supply, delta);
  }

  function Repeated(wallet: string): seq<Balance> {
    [Balance(WSOL_MINT, wallet, 0, "5"), Balance(WSOL_MINT, wallet, 0, "0")]
  }

  /** One index listed with 5 and then with 0: the 5 is never subtracted, and the result is 0 instead of -5. */
  lemma RepeatedIndexLosesValue(wallet: string, delta: Int64)
    requires Profit(Repeated(wallet), [], wallet, delta)
    ensures Total([], wallet) - Total(Repeated(wallet), wallet) == -5 && delta == 0
  {
    var bs := Repeated(wallet);
    assert bs[..1] == [bs[0]] && [bs[0]][..0] == [];
    assert ParseUint("5", 0) == ParseUint("", 5) && ParseUint("0", 0) == ParseUint("", 0);
    assert LastByIndex([bs[0]], wallet) == map[0 := 5];
    assert Total([bs[0]], wallet) == 5 && Overwritten([bs[0]], wallet) == 0;
    CongruentInRange(delta, 0);
  }
}
