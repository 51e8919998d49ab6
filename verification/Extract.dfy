/** backfill/extract.go: from a decoded transaction to a landing row. */
module Extract {
  import opened Prelude
  import opened Strings
  import opened Wsol
  import Tips

  const BASE_FEE: nat := 5000

  // ---- programSet ----

  function Indexes(s: seq<nat>): set<nat> { set i | i in s }

  /** Every program index used, top-level then inner. */
  function Invoked(top: seq<nat>, inner: seq<seq<nat>>): set<nat> {
    Indexes(top) + (set k, i | 0 <= k < |inner| && i in inner[k] :: i)
  }

  /** The names those indexes stand for; an index past the keys stands for none. */
  function Names(indexes: set<nat>, keys: seq<string>): set<string> {
    set i | i in indexes && i < |keys| :: keys[i]
  }

  /** A program is among the names exactly when an instruction, top-level or inner, has the index it stands at. */
  lemma ProgramsInvoked(top: seq<nat>, inner: seq<seq<nat>>, keys: seq<string>, program: string)
    ensures program in Names(Invoked(top, inner), keys) <==>
            exists i: nat :: i < |keys| && keys[i] == program
              && (i in top || exists k :: 0 <= k < |inner| && i in inner[k])
  {
  }

  lemma NamesUnion(a: set<nat>, b: set<nat>, keys: seq<string>)
    ensures Names(a + b, keys) == Names(a, keys) + Names(b, keys)
  {
  }

  method AddAll(seen: set<string>, indexes: seq<nat>, keys: seq<string>) returns (more: set<string>)
    ensures more == seen + Names(Indexes(indexes), keys)
  {
    more := seen;
    for n := 0 to |indexes|
      invariant more == seen + Names(Indexes(indexes[..n]), keys)
    {
      assert Indexes(indexes[..n + 1]) == Indexes(indexes[..n]) + {indexes[n]};
      NamesUnion(Indexes(indexes[..n]), {indexes[n]}, keys);
      if indexes[n] < |keys| { more := more + {keys[indexes[n]]}; }
    }
    assert indexes[..|indexes|] == indexes;
  }

  /** The elements of a map's key set, in whatever order it gives them. */
  method AnyOrder(s: set<string>) returns (out: seq<string>)
    ensures Members(out) == s && forall i, j | 0 <= i < j < |out| :: out[i] != out[j]
  {
    var rest := s;
    out := [];
    while rest != {}
      invariant Members(out) + rest == s && forall x | x in out :: x !in rest
      invariant forall i, j | 0 <= i < j < |out| :: out[i] != out[j]
      decreases rest
    {
      var x :| x in rest;
      out, rest := out + [x], rest - {x};
    }
  }

  /** The result is the one listing of the programs invoked: map order does not show. */
  method ProgramSet(top: seq<nat>, inner: seq<seq<nat>>, keys: seq<string>) returns (r: string)
    ensures Lists(Names(Invoked(top, inner), keys), r)
  {
    var seen := AddAll({}, top, keys);
    for n := 0 to |inner|
      invariant seen == Names(Invoked(top, inner[..n]), keys)
    {
      assert Invoked(top, inner[..n + 1]) == Invoked(top, inner[..n]) + Indexes(inner[n]);
      NamesUnion(Invoked(top, inner[..n]), Indexes(inner[n]), keys);
      seen := AddAll(seen, inner[n], keys);
    }
    assert inner[..|inner|] == inner;
    var out := AnyOrder(seen);
    r := JoinSorted(out);
  }

  // ---- tipPaid ----

  /** What position `i` received, if it is a tip account covered by both balance lists. */
  function Gain(keys: seq<string>, pre: seq<Uint64>, post: seq<Uint64>, tips: map<string, string>, i: nat): nat {
    if i < |keys| && keys[i] in tips && i < |pre| && i < |post| && post[i] > pre[i] then post[i] - pre[i] else 0
  }

  function TipSum(keys: seq<string>, pre: seq<Uint64>, post: seq<Uint64>, tips: map<string, string>, n: nat): nat {
    if n == 0 then 0 else TipSum(keys, pre, post, tips, n - 1) + Gain(keys, pre, post, tips, n - 1)
  }

  function Lanes(
      keys: seq<string>, pre: seq<Uint64>, post: seq<Uint64>, tips: map<string, string>, n: nat): set<string>
  {
    set i | 0 <= i < n && i < |keys| && Gain(keys, pre, post, tips, i) > 0 :: tips[keys[i]]
  }

  /** uint64 addition. */
  function WrapAdd(a: Uint64, b: Uint64): (r: Uint64)
    ensures Congruent(r, a + b)
  {
    if a + b >= TWO_64 then assert Differ(a + b - TWO_64, a + b, -1); a + b - TWO_64
    else assert Differ(a + b, a + b, 0); a + b
  }

  lemma UintInRange(a: Uint64, b: Uint64)
    requires Congruent(a, b)
    ensures a == b
  {
    var k :| Differ(a, b, k);
  }

  method TipPaid(keys: seq<string>, pre: seq<Uint64>, post: seq<Uint64>, tips: map<string, string>)
    returns (tip: Uint64, lane: string)
    ensures Congruent(tip, TipSum(keys, pre, post, tips, |keys|))
    ensures TipSum(keys, pre, post, tips, |keys|) < TWO_64 ==> tip == TipSum(keys, pre, post, tips, |keys|)
    ensures Lists(Lanes(keys, pre, post, tips, |keys|), lane)
  {
    tip := 0;
    var lanes: seq<string>, seen: set<string> := [], {};
    SameIsCongruent(0);
    for i := 0 to |keys|
      invariant Congruent(tip, TipSum(keys, pre, post, tips, i))
      invariant seen == Members(lanes) == Lanes(keys, pre, post, tips, i)
      invariant forall j, k | 0 <= j < k < |lanes| :: lanes[j] != lanes[k]
    {
      ghost var gain := Gain(keys, pre, post, tips, i);
      SameIsCongruent(gain);
      CongruentSum(tip, TipSum(keys, pre, post, tips, i), gain, gain);
      LanesNext(keys, pre, post, tips, i);
      if keys[i] in tips && i < |pre| && i < |post| && post[i] > pre[i] {
        var lane := tips[keys[i]];
        CongruentTrans(WrapAdd(tip, post[i] - pre[i]), tip + gain, TipSum(keys, pre, post, tips, i + 1));
        tip := WrapAdd(tip, post[i] - pre[i]);
        if lane !in seen {
          seen, lanes := seen + {lane}, lanes + [lane];
        }
      }
    }
    var total: int := TipSum(keys, pre, post, tips, |keys|);
    if total < TWO_64 { UintInRange(tip, total); }
    lane := JoinSorted(lanes);
  }

  lemma LanesNext(keys: seq<string>, pre: seq<Uint64>, post: seq<Uint64>, tips: map<string, string>, i: nat)
    requires i < |keys|
    ensures Lanes(keys, pre, post, tips, i + 1)
            == Lanes(keys, pre, post, tips, i) + if Gain(keys, pre, post, tips, i) > 0 then {tips[keys[i]]} else {}
  {
  }

  lemma {:induction false} TipSumOfFirst(
      keys: seq<string>, pre: seq<Uint64>, post: seq<Uint64>, tips: map<string, string>,
      keys': seq<string>, pre': seq<Uint64>, post': seq<Uint64>, n: nat)
    requires n <= |keys| && forall i | 0 <= i < n :: Gain(keys', pre', post', tips, i) == Gain(keys, pre, post, tips, i)
    ensures TipSum(keys', pre', post', tips, n) == TipSum(keys, pre, post, tips, n)
  {
    if n > 0 { TipSumOfFirst(keys, pre, post, tips, keys', pre', post', n - 1); }
  }

  /** One account more: what a tip account gained is paid under its lane, and nothing else adds to either. */
  lemma OneMoreAccount(
      keys: seq<string>, pre: seq<Uint64>, post: seq<Uint64>, tips: map<string, string>, key: string, a: Uint64,
      b: Uint64)
    requires |pre| == |post| == |keys|
    ensures var paid := key in tips && b > a;
            && TipSum(keys + [key], pre + [a], post + [b], tips, |keys| + 1)
               == TipSum(keys, pre, post, tips, |keys|) + (if paid then b - a else 0)
            && Lanes(keys + [key], pre + [a], post + [b], tips, |keys| + 1)
               == Lanes(keys, pre, post, tips, |keys|) + if paid then {tips[key]} else {}
  {
    var n := |keys|;
    forall i | 0 <= i < n
      ensures Gain(keys + [key], pre + [a], post + [b], tips, i) == Gain(keys, pre, post, tips, i)
    {
      assert (keys + [key])[i] == keys[i] && (pre + [a])[i] == pre[i] && (post + [b])[i] == post[i];
    }
    TipSumOfFirst(keys, pre, post, tips, keys + [key], pre + [a], post + [b], n);
    LanesNext(keys + [key], pre + [a], post + [b], tips, n);
    assert Lanes(keys + [key], pre + [a], post + [b], tips, n) == Lanes(keys, pre, post, tips, n) by {
      assert forall i | 0 <= i < n :: (keys + [key])[i] == keys[i];
    }
  }

  /** And one that either balance list does not reach adds nothing. */
  lemma UncoveredAccount(keys: seq<string>, pre: seq<Uint64>, post: seq<Uint64>, tips: map<string, string>, key: string)
    requires |pre| <= |keys| || |post| <= |keys|
    ensures TipSum(keys + [key], pre, post, tips, |keys| + 1) == TipSum(keys, pre, post, tips, |keys|)
    ensures Lanes(keys + [key], pre, post, tips, |keys| + 1) == Lanes(keys, pre, post, tips, |keys|)
  {
    var n := |keys|;
    assert forall i | 0 <= i < n :: (keys + [key])[i] == keys[i];
    TipSumOfFirst(keys, pre, post, tips, keys + [key], pre, post, n);
    LanesNext(keys + [key], pre, post, tips, n);
  }

  lemma {:induction false} NoGainNoTip(
      keys: seq<string>, pre: seq<Uint64>, post: seq<Uint64>, tips: map<string, string>, n: nat)
    requires n <= |keys|
    ensures TipSum(keys, pre, post, tips, n) == 0 <==> Lanes(keys, pre, post, tips, n) == {}
  {
    if n > 0 {
      NoGainNoTip(keys, pre, post, tips, n - 1);
      LanesNext(keys, pre, post, tips, n - 1);
    }
  }

  /** The lane string is empty exactly when no tip was paid. */
  lemma LaneIffTip(keys: seq<string>, pre: seq<Uint64>, post: seq<Uint64>, tips: map<string, string>, lane: string)
    requires Lists(Lanes(keys, pre, post, tips, |keys|), lane)
    requires forall k | k in tips :: tips[k] != ""
    ensures lane == "" <==> TipSum(keys, pre, post, tips, |keys|) == 0
  {
    NoGainNoTip(keys, pre, post, tips, |keys|);
    EmptyString(Lanes(keys, pre, post, tips, |keys|), lane);
  }

  // ---- walletDelta ----

  /** A uint64 read as an int64. */
  function Signed(x: Uint64): (r: Int64)
    ensures Congruent(r, x)
  {
    Wrap(x)
  }

  /** Post minus pre, if both lists cover the wallet's first position; a later position never counts. */
  ghost predicate WalletMoved(keys: seq<string>, pre: seq<Uint64>, post: seq<Uint64>, wallet: string, delta: Int64) {
    (forall i :: MovedAt(keys, pre, post, wallet, delta, i)) && (wallet !in keys ==> delta == 0)
  }

  ghost predicate MovedAt(
      keys: seq<string>, pre: seq<Uint64>, post: seq<Uint64>, wallet: string, delta: Int64, i: int)
  {
    0 <= i < |keys| && keys[i] == wallet && wallet !in keys[..i] ==>
      if i < |pre| && i < |post| then Congruent(delta, post[i] as int - pre[i] as int) else delta == 0
  }

  method WalletDelta(keys: seq<string>, pre: seq<Uint64>, post: seq<Uint64>, wallet: string) returns (delta: Int64)
    ensures WalletMoved(keys, pre, post, wallet, delta)
  {
    for i := 0 to |keys|
      invariant forall k | 0 <= k < i && keys[k] == wallet :: k >= |pre| || k >= |post|
    {
      if keys[i] == wallet && i < |pre| && i < |post| {
        delta := Wrap(Signed(post[i]) - Signed(pre[i]));
        CongruentSum(Signed(post[i]), post[i], Signed(pre[i]), pre[i]);
        CongruentTrans(delta, Signed(post[i]) - Signed(pre[i]), post[i] as int - pre[i] as int);
        assert wallet !in keys[..i];
        assert forall j | 0 <= j < |keys| && keys[j] == wallet && wallet !in keys[..j] :: j <= i;
        return;
      }
    }
    return 0;
  }

  // ---- BuildLanding ----

  /** Meta as decoded: nil metadata is None in the transaction. */
  datatype Meta = Meta(
    failed: bool, fee: Uint64, cuConsumed: Uint64, costUnits: Uint64, pre: seq<Uint64>, post: seq<Uint64>,
    preTokens: seq<Balance>, postTokens: seq<Balance>, inner: seq<seq<nat>>,
    loadedWritable: seq<string>, loadedReadonly: seq<string>)

  /** `frames` is the frame count of the data, `sigs` None when the bytes do not decode; `index` the position. */
  datatype Tx = Tx(
    frames: Option<int>, sigs: Option<seq<string>>, accountKeys: seq<string>, signers: nat, top: seq<nat>,
    meta: Option<Meta>, index: Option<int>)

  datatype Landing = Landing(
    sig: string, slot: Uint64, blockIndex: nat, blockTxCount: Option<nat>, positionPct: Option<real>,
    leader: string, leaderVersion: string, landed: bool, fee: Uint64, priorityFee: nat, solDelta: Int64,
    wsolDelta: Int64, tip: Uint64, tipLane: string, isTipLeg: bool, numIx: nat, cuConsumed: Uint64,
    costUnits: Uint64, programs: string, ts: int)

  datatype Built = Row(l: Landing) | SplitData | Undecodable | NoSignature | NoMeta | NotOurs

  /** What the block a transaction is in adds to its row. */
  datatype Place = Place(leader: string, slot: Uint64, txCount: nat)

  function ResolveKeys(tx: Tx, m: Meta): seq<string> { tx.accountKeys + m.loadedWritable + m.loadedReadonly }

  /** Which account stands where: the static ones, then the loaded writable, then the loaded readonly, and no more. */
  lemma KeyPositions(tx: Tx, m: Meta)
    ensures var keys, n, w := ResolveKeys(tx, m), |tx.accountKeys|, |m.loadedWritable|;
            && |keys| == n + w + |m.loadedReadonly|
            && (forall i | 0 <= i < n :: keys[i] == tx.accountKeys[i])
            && (forall k | 0 <= k < w :: keys[n + k] == m.loadedWritable[k])
            && forall k | 0 <= k < |m.loadedReadonly| :: keys[n + w + k] == m.loadedReadonly[k]
  {}

  function SubFloor(a: nat, b: nat): nat { if a < b then 0 else a - b }

  /** The index as given; count and percentage known together, when index and count are, and in proportion. */
  ghost predicate Placed(index: Option<int>, txCount: nat, at: nat, count: Option<nat>, pct: Option<real>) {
    && at == (if index.Some? then Max(0, index.value) else 0)
    && (count.Some? <==> index.Some? && index.value >= 0 && txCount > 0)
    && (count.Some? <==> pct.Some?)
    && (count.Some? ==> count.value == txCount && pct.value * txCount as real == 100.0 * at as real)
  }

  method ApplyPosition(index: Option<int>, txCount: nat) returns (at: nat, count: Option<nat>, pct: Option<real>)
    ensures Placed(index, txCount, at, count, pct)
  {
    at, count, pct := 0, None, None;
    if index.None? || index.value < 0 { return; }
    at := index.value;
    if txCount == 0 { return; }
    count := Some(txCount);
    pct := Some(100.0 * at as real / txCount as real);
  }

  /** The columns that are copied. */
  ghost predicate Copies(l: Landing, tx: Tx, m: Meta, place: Place) {
    && HasSignature(tx) && l.sig == tx.sigs.value[0]
    && l.slot == place.slot && l.leader == place.leader && l.leaderVersion == ""
    && l.landed == !m.failed && l.fee == m.fee && l.cuConsumed == m.cuConsumed && l.costUnits == m.costUnits
    && l.numIx == |tx.top|
  }

  /** The columns that are computed, and what they have to do with the transaction. */
  ghost predicate Accounts(l: Landing, tx: Tx, m: Meta, wallet: string, txCount: nat, tips: map<string, string>) {
    var keys := ResolveKeys(tx, m);
    && Lists(Names(Invoked(tx.top, m.inner), keys), l.programs)
    && Congruent(l.tip, TipSum(keys, m.pre, m.post, tips, |keys|))
    && Lists(Lanes(keys, m.pre, m.post, tips, |keys|), l.tipLane)
    && l.priorityFee == Max(0, l.fee - 5000 * tx.signers)
    && WalletMoved(keys, m.pre, m.post, wallet, l.solDelta)
    && Profit(m.preTokens, m.postTokens, wallet, l.wsolDelta)
    && (l.isTipLeg <==> l.tip > 0 && Tips.OnlyOverhead(l.programs))
    && Placed(tx.index, txCount, l.blockIndex, l.blockTxCount, l.positionPct)
  }

  predicate HasSignature(tx: Tx) { tx.sigs.Some? && tx.sigs.value != [] }

  /** The transactions that make a row. */
  predicate Qualifies(tx: Tx, wallet: string) {
    && !(tx.frames.Some? && tx.frames.value > 1)
    && HasSignature(tx) && tx.meta.Some? && wallet in ResolveKeys(tx, tx.meta.value)
  }

  /** A row about a transaction: every column, but for the time it was written. */
  ghost predicate RowFor(l: Landing, tx: Tx, wallet: string, place: Place, tips: map<string, string>) {
    && Qualifies(tx, wallet) && Copies(l, tx, tx.meta.value, place)
    && Accounts(l, tx, tx.meta.value, wallet, place.txCount, tips)
  }

  method BuildLanding(tx: Tx, wallet: string, place: Place, tips: map<string, string>) returns (r: Built)
    ensures r.SplitData? <==> tx.frames.Some? && tx.frames.value > 1
    ensures r.Undecodable? <==> !r.SplitData? && tx.sigs.None?
    ensures r.NoSignature? <==> !r.SplitData? && tx.sigs == Some([])
    ensures r.NoMeta? <==> !r.SplitData? && HasSignature(tx) && tx.meta.None?
    ensures r.NotOurs? <==>
              !r.SplitData? && HasSignature(tx) && tx.meta.Some? && wallet !in ResolveKeys(tx, tx.meta.value)
    ensures r.Row? <==> Qualifies(tx, wallet)
    ensures r.Row? ==> RowFor(r.l, tx, wallet, place, tips) && r.l.ts == 0
  {
    if tx.frames.Some? && tx.frames.value > 1 { return SplitData; }
    if tx.sigs.None? { return Undecodable; }
    if |tx.sigs.value| == 0 { return NoSignature; }
    if tx.meta.None? { return NoMeta; }
    if wallet !in ResolveKeys(tx, tx.meta.value) { return NotOurs; }
    var l := FillRow(tx, tx.meta.value, wallet, place, tips);
    return Row(l);
  }

  /** The columns, once it is known that the transaction makes a row. */
  method FillRow(tx: Tx, m: Meta, wallet: string, place: Place, tips: map<string, string>) returns (l: Landing)
    requires HasSignature(tx)
    ensures Copies(l, tx, m, place) && Accounts(l, tx, m, wallet, place.txCount, tips) && l.ts == 0
  {
    var keys := ResolveKeys(tx, m);
    var solDelta := WalletDelta(keys, m.pre, m.post, wallet);
    var wsolDelta := WsolProfit(m.preTokens, m.postTokens, wallet);
    var programs := ProgramSet(tx.top, m.inner, keys);
    var tip, lane := TipPaid(keys, m.pre, m.post, tips);
    var bare := Tips.IsBareTipLeg(programs, tip);
    var at, count, pct := ApplyPosition(tx.index, place.txCount);
    l := Landing(
      tx.sigs.value[0], place.slot, at, count, pct, place.leader, "", !m.failed, m.fee,
      SubFloor(m.fee, BASE_FEE * tx.signers), solDelta, wsolDelta, tip, lane, bare, |tx.top|, m.cuConsumed,
      m.costUnits, programs, 0);
  }

  /**
   A row is a bare tip leg exactly when it has a tip lane and invoked nothing but System and ComputeBudget,
   for lanes with names, plain program names and tips that fit 64 bits.
   */
  lemma TipLegMeans(l: Landing, tx: Tx, wallet: string, place: Place, tips: map<string, string>)
    requires RowFor(l, tx, wallet, place, tips)
    requires forall k | k in tips :: tips[k] != ""
    requires var m := tx.meta.value;
             var keys := ResolveKeys(tx, m);
             TipSum(keys, m.pre, m.post, tips, |keys|) < TWO_64 && forall k | k in keys :: Tips.Plain(k)
    ensures var names := Names(Invoked(tx.top, tx.meta.value.inner), ResolveKeys(tx, tx.meta.value));
            l.isTipLeg <==> l.tipLane != "" && names <= {Tips.SYSTEM, Tips.COMPUTE_BUDGET}
  {
    var m := tx.meta.value;
    var keys := ResolveKeys(tx, m);
    UintInRange(l.tip, TipSum(keys, m.pre, m.post, tips, |keys|));
    LaneIffTip(keys, m.pre, m.post, tips, l.tipLane);
    forall p | p in Names(Invoked(tx.top, m.inner), keys) ensures Tips.Plain(p) { assert p in keys; }
    Tips.SeesTwoPrograms(Names(Invoked(tx.top, m.inner), keys), l.programs);
  }

  lemma {:induction false} TipSumAtLeast(
      keys: seq<string>, pre: seq<Uint64>, post: seq<Uint64>, tips: map<string, string>, n: nat, i: nat)
    requires i < n
    ensures Gain(keys, pre, post, tips, i) <= TipSum(keys, pre, post, tips, n)
  {
    if i < n - 1 { TipSumAtLeast(keys, pre, post, tips, n - 1, i); }
  }

  lemma TipCounted(
      keys: seq<string>, pre: seq<Uint64>, post: seq<Uint64>, tips: map<string, string>, i: nat, tip: Uint64,
      lane: string)
    requires i < |keys| && keys[i] in tips && i < |pre| && i < |post| && pre[i] < post[i]
    requires TipSum(keys, pre, post, tips, |keys|) < TWO_64 && Congruent(tip, TipSum(keys, pre, post, tips, |keys|))
    requires Lists(Lanes(keys, pre, post, tips, |keys|), lane)
    ensures tip >= post[i] - pre[i] && Listed(tips[keys[i]], lane)
  {
    TipSumAtLeast(keys, pre, post, tips, |keys|, i);
    UintInRange(tip, TipSum(keys, pre, post, tips, |keys|));
    assert tips[keys[i]] in Lanes(keys, pre, post, tips, |keys|);
  }

  /** One of the names that a string lists. */
  ghost predicate Listed(name: string, s: string) { exists names :: Lists(names, s) && name in names }

  lemma ProgramCounted(keys: seq<string>, top: seq<nat>, inner: seq<seq<nat>>, i: nat, programs: string)
    requires i < |keys| && (i in top || exists j :: 0 <= j < |inner| && i in inner[j])
    requires Lists(Names(Invoked(top, inner), keys), programs)
    ensures Listed(keys[i], programs)
  {
    ProgramsInvoked(top, inner, keys, keys[i]);
  }

  lemma WritableAt(tx: Tx, m: Meta, k: nat)
    requires k < |m.loadedWritable|
    ensures |tx.accountKeys| + k < |ResolveKeys(tx, m)|
    ensures ResolveKeys(tx, m)[|tx.accountKeys| + k] == m.loadedWritable[k]
  {
    KeyPositions(tx, m);
  }

  lemma ReadonlyAt(tx: Tx, m: Meta, k: nat)
    requires k < |m.loadedReadonly|
    ensures |tx.accountKeys| + |m.loadedWritable| + k < |ResolveKeys(tx, m)|
    ensures ResolveKeys(tx, m)[|tx.accountKeys| + |m.loadedWritable| + k] == m.loadedReadonly[k]
  {
    KeyPositions(tx, m);
  }

  lemma RowAccounts(l: Landing, tx: Tx, wallet: string, place: Place, tips: map<string, string>)
    requires RowFor(l, tx, wallet, place, tips)
    ensures var m, keys := tx.meta.value, ResolveKeys(tx, tx.meta.value);
            && Congruent(l.tip, TipSum(keys, m.pre, m.post, tips, |keys|))
            && Lists(Lanes(keys, m.pre, m.post, tips, |keys|), l.tipLane)
            && Lists(Names(Invoked(tx.top, m.inner), keys), l.programs)
  {}

  /**
   A tip to an account that an address table loaded for writing is in the row: its gain is read where the
   balance lists have it, behind the static accounts, and its lane is listed.
   */
  lemma LoadedTipIsSeen(l: Landing, tx: Tx, wallet: string, place: Place, tips: map<string, string>, k: nat)
    requires RowFor(l, tx, wallet, place, tips)
    requires var m, i := tx.meta.value, |tx.accountKeys| + k;
             && k < |m.loadedWritable| && m.loadedWritable[k] in tips
             && i < |m.pre| && i < |m.post| && m.pre[i] < m.post[i]
             && TipSum(ResolveKeys(tx, m), m.pre, m.post, tips, |ResolveKeys(tx, m)|) < TWO_64
    ensures var m, i := tx.meta.value, |tx.accountKeys| + k;
            l.tip >= m.post[i] - m.pre[i] && Listed(tips[m.loadedWritable[k]], l.tipLane)
  {
    var m := tx.meta.value;
    RowAccounts(l, tx, wallet, place, tips);
    WritableAt(tx, m, k);
    TipCounted(ResolveKeys(tx, m), m.pre, m.post, tips, |tx.accountKeys| + k, l.tip, l.tipLane);
  }

  /** A program that an address table loaded is in the row under its own name, by the index behind all the others. */
  lemma LoadedProgramIsSeen(l: Landing, tx: Tx, wallet: string, place: Place, tips: map<string, string>, k: nat)
    requires RowFor(l, tx, wallet, place, tips) && k < |tx.meta.value.loadedReadonly|
    requires var m, i := tx.meta.value, |tx.accountKeys| + |tx.meta.value.loadedWritable| + k;
             i in tx.top || exists j :: 0 <= j < |m.inner| && i in m.inner[j]
    ensures Listed(tx.meta.value.loadedReadonly[k], l.programs)
  {
    var m := tx.meta.value;
    RowAccounts(l, tx, wallet, place, tips);
    ReadonlyAt(tx, m, k);
    ProgramCounted(ResolveKeys(tx, m), tx.top, m.inner, |tx.accountKeys| + |m.loadedWritable| + k, l.programs);
  }

  // ---- run.go, collect ----

  function Chosen(txs: seq<Tx>, wallet: string): seq<Tx> {
    if txs == [] then []
    else
      var tx := txs[|txs| - 1];
      Chosen(txs[..|txs| - 1], wallet) + if Qualifies(tx, wallet) then [tx] else []
  }

  /** Of two runs of transactions, those of the first come first. */
  lemma {:induction false} ChosenInOrder(a: seq<Tx>, b: seq<Tx>, wallet: string)
    ensures Chosen(a + b, wallet) == Chosen(a, wallet) + Chosen(b, wallet)
    ensures |a| == 1 ==> Chosen(a, wallet) == if Qualifies(a[0], wallet) then a else []
  {
    if |a| == 1 {
      assert Chosen(a[..0], wallet) == [];
    }
    if b == [] {
      assert a + b == a;
    } else {
      var front := b[..|b| - 1];
      assert (a + b)[..|a + b| - 1] == a + front;
      ChosenInOrder(a, front, wallet);
    }
  }

  /** One row for each transaction of the block that touches the wallet, in block order, and no other. */
  ghost predicate Collected(
      out: seq<Landing>, txs: seq<Tx>, wallet: string, place: Place, tips: map<string, string>, now: int)
  {
    && |out| == |Chosen(txs, wallet)|
    && forall i | 0 <= i < |out| :: RowFor(out[i], Chosen(txs, wallet)[i], wallet, place, tips) && out[i].ts == now
  }

  method Collect(txs: seq<Tx>, wallet: string, place: Place, tips: map<string, string>, now: int)
    returns (out: seq<Landing>)
    ensures Collected(out, txs, wallet, place, tips, now)
  {
    out := [];
    for n := 0 to |txs|
      invariant Collected(out, txs[..n], wallet, place, tips, now)
    {
      assert txs[..n + 1][..n] == txs[..n];
      var built := BuildLanding(txs[n], wallet, place, tips);
      if built.Row? {
        var l := built.l.(ts := now);
        assert RowFor(l, txs[n], wallet, place, tips);
        out := out + [l];
      }
    }
    assert txs[..|txs|] == txs;
  }
}
