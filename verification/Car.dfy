/**
 CAR framing as backfill/block.go walks it: a section is uvarint(length) || CID || data (CARv1
 specification, section "Data"; the length is an unsigned LEB128 varint).
 */
module Car {
  import opened Prelude

  // ---- Varints, as encoding/binary reads and writes them ----

  /** A value and the bytes it took; `n` is 0 when the buffer ended first and negative on overflow. */
  datatype Varint = Varint(x: nat, n: int)

  /** binary.Uvarint of `buf[at..]`, with `i` of its bytes already read. */
  function Uvarint(buf: Bytes, at: nat, i: nat): (v: Varint)
    ensures v.n > 0 ==> i < v.n <= 10 && at + v.n <= |buf|
    decreases |buf| - at - i
  {
    if at + i >= |buf| then Varint(0, 0)
    else if i >= 10 then Varint(0, -(i + 1))
    else if buf[at + i] < 128 then
      if i == 9 && buf[at + i] > 1 then Varint(0, -(i + 1)) else Varint(buf[at + i], i + 1)
    else
      var r := Uvarint(buf, at, i + 1);
      if r.n <= 0 then Varint(0, r.n) else Varint(buf[at + i] - 128 + 128 * r.x, r.n)
  }

  function PutUvarint(x: nat): (b: Bytes)
    ensures |b| >= 1
  {
    if x < 128 then [x] else [x % 128 + 128] + PutUvarint(x / 128)
  }

  /** One more than the largest value that still fits 64 bits with `i` bytes already read. */
  function Room(i: nat): (r: nat)
    requires i <= 9
    ensures r >= 2
    decreases 9 - i
  {
    if i == 9 then 2 else 128 * Room(i + 1)
  }

  lemma RoomIs64Bits()
    ensures Room(0) == TWO_64
  {
    assert Room(8) == 256;
    assert Room(7) == 32768;
    assert Room(6) == 4194304;
    assert Room(5) == 536870912;
    assert Room(4) == 68719476736;
    assert Room(3) == 8796093022208;
    assert Room(2) == 1125899906842624;
    assert Room(1) == 144115188075855872;
  }

  ghost predicate FramedAt(buf: Bytes, at: nat, bytes: Bytes) {
    at + |bytes| <= |buf| && forall k | 0 <= k < |bytes| :: buf[at + k] == bytes[k]
  }

  lemma FramedSplit(buf: Bytes, at: nat, a: Bytes, b: Bytes)
    requires FramedAt(buf, at, a + b)
    ensures FramedAt(buf, at, a) && FramedAt(buf, at + |a|, b)
  {
    forall k | 0 <= k < |a| ensures buf[at + k] == a[k] { assert (a + b)[k] == a[k]; }
    forall k | 0 <= k < |b| ensures buf[at + |a| + k] == b[k] { assert (a + b)[|a| + k] == b[k]; }
  }

  /** Reading back what was written, whatever follows it, gives the value and its own length. */
  lemma {:induction false} VarintRoundTrip(x: nat, buf: Bytes, at: nat, i: nat)
    requires i <= 9 && x < Room(i) && FramedAt(buf, at + i, PutUvarint(x))
    ensures Uvarint(buf, at, i) == Varint(x, i + |PutUvarint(x)|)
    decreases 9 - i
  {
    assert buf[at + i] == PutUvarint(x)[0];
    if x >= 128 {
      assert i < 9;
      FramedSplit(buf, at + i, [x % 128 + 128], PutUvarint(x / 128));
      VarintRoundTrip(x / 128, buf, at, i + 1);
    }
  }

  /** No proper prefix of a varint is a varint. */
  lemma {:induction false} VarintCut(x: nat, buf: Bytes, at: nat, i: nat)
    requires i <= 9 && x < Room(i) && at + i <= |buf| < at + i + |PutUvarint(x)|
    requires FramedAt(buf, at + i, PutUvarint(x)[..|buf| - at - i])
    ensures Uvarint(buf, at, i) == Varint(0, 0)
    decreases 9 - i
  {
    var k := |buf| - at - i;
    if k > 0 {
      assert buf[at + i + 0] == PutUvarint(x)[..k][0];
      FramedSplit(buf, at + i, [x % 128 + 128], PutUvarint(x / 128)[..k - 1]) by {
        assert PutUvarint(x)[..k] == [x % 128 + 128] + PutUvarint(x / 128)[..k - 1];
      }
      VarintCut(x / 128, buf, at, i + 1);
    }
  }

  /** What is read back is never longer than it was: the writer's form is the shortest. */
  lemma {:induction false} VarintShortest(buf: Bytes, at: nat, i: nat)
    requires Uvarint(buf, at, i).n > 0
    ensures i + |PutUvarint(Uvarint(buf, at, i).x)| <= Uvarint(buf, at, i).n
    ensures i <= 9 && Uvarint(buf, at, i).x < Room(i)
    decreases |buf| - at - i
  {
    if buf[at + i] >= 128 { VarintShortest(buf, at, i + 1); }
  }

  // ---- Sections ----

  type Cid = Bytes

  /** cid.CidFromBytes as a length: how many bytes the CID at the input's front takes, 0 for an error. */
  type CidParser = f: Bytes -> nat | forall b :: f(b) <= |b| witness (b: Bytes) => 0

  /** A CID carries its own length: what follows it does not matter, and none of it is needed. */
  ghost predicate SelfDelimiting(P: CidParser) {
    (forall a, b :: IgnoresRest(P, a, b)) && forall b, k :: NeedsOnly(P, b, k)
  }

  ghost predicate IgnoresRest(P: CidParser, a: Bytes, b: Bytes) { P(a) > 0 ==> P(a + b) == P(a) }

  ghost predicate NeedsOnly(P: CidParser, b: Bytes, k: nat) { 0 < k <= |b| && P(b) == k ==> P(b[..k]) == k }

  datatype Section = Section(cid: Cid, data: Bytes)

  /** A section that can be framed: its CID parses as itself, and its length is a Go slice length. */
  ghost predicate Sound(P: CidParser, s: Section) {
    0 < |s.cid| == P(s.cid) && |s.cid + s.data| < TWO_63
  }

  function EncodeSection(s: Section): (b: Bytes)
    ensures |b| > |s.cid + s.data|
  {
    PutUvarint(|s.cid + s.data|) + (s.cid + s.data)
  }

  function Encode(secs: seq<Section>): Bytes {
    if secs == [] then [] else EncodeSection(secs[0]) + Encode(secs[1..])
  }

  lemma {:induction false} EncodeConcat(a: seq<Section>, b: seq<Section>)
    ensures Encode(a + b) == Encode(a) + Encode(b)
  {
    if a == [] {
      assert a + b == b;
    } else {
      var ab := a + b;
      assert ab[0] == a[0] && ab[1..] == a[1..] + b;
      EncodeConcat(a[1..], b);
      Associate(EncodeSection(a[0]), Encode(a[1..]), Encode(b));
    }
  }

  lemma Associate(x: Bytes, y: Bytes, z: Bytes)
    ensures x + (y + z) == (x + y) + z
  {}

  // ---- Walking ----

  /** How a walk ends: at the end of the buffer, with an error, or in a slice-bounds panic. */
  datatype End = Finished | Bad | Panics
  datatype Walked = Walked(visited: seq<Section>, end: End)

  /** The length read is a uint64 and both conversions are to int. */
  function SectionEnd(start: nat, secLen: nat): int { ToInt64(start + ToInt64(secLen)) }

  /** What one turn of the loop does at `pos`. */
  datatype Turn = Stop(end: End) | Take(sec: Section, next: nat)

  function TakeOne(P: CidParser, buf: Bytes, pos: nat): (t: Turn)
    requires pos < |buf|
    ensures t.Take? ==> pos < t.next <= |buf|
    ensures t.Stop? ==> !t.end.Finished?
  {
    var u := Uvarint(buf, pos, 0);
    if u.n <= 0 || u.x == 0 then Stop(Bad)
    else
      var start := pos + u.n;
      var end := SectionEnd(start, u.x);
      if end > |buf| then Stop(Bad)
      else if end <= start then Stop(Panics)
      else
        var n := P(buf[start..end]);
        if n == 0 then Stop(Bad)
        else Take(Section(buf[start..start + n], buf[start + n..end]), end)
  }

  /** What walkSections visits from `pos` on, and how it ends. */
  function Walk(P: CidParser, buf: Bytes, pos: nat): Walked
    requires pos <= |buf|
    decreases |buf| - pos
  {
    if pos == |buf| then Walked([], Finished)
    else
      match TakeOne(P, buf, pos)
      case Stop(end) => Walked([], end)
      case Take(sec, next) =>
        var rest := Walk(P, buf, next);
        Walked([sec] + rest.visited, rest.end)
  }

  /** From `pos` the walk visits `secs` and goes on at `end`. */
  ghost predicate WalksTo(P: CidParser, buf: Bytes, pos: nat, secs: seq<Section>, end: nat) {
    pos <= |buf| && end <= |buf| &&
    Walk(P, buf, pos) == Walked(secs + Walk(P, buf, end).visited, Walk(P, buf, end).end)
  }

  lemma WalkOn(P: CidParser, buf: Bytes, done: seq<Section>, pos: nat)
    requires WalksTo(P, buf, 0, done, pos) && pos < |buf| && TakeOne(P, buf, pos).Take?
    ensures WalksTo(P, buf, 0, done + [TakeOne(P, buf, pos).sec], TakeOne(P, buf, pos).next)
  {
    var t := TakeOne(P, buf, pos);
    var rest := Walk(P, buf, t.next).visited;
    assert done + ([t.sec] + rest) == done + [t.sec] + rest;
  }

  lemma WalksNowhere(P: CidParser, buf: Bytes, pos: nat)
    requires pos <= |buf|
    ensures WalksTo(P, buf, pos, [], pos)
  {
    assert [] + Walk(P, buf, pos).visited == Walk(P, buf, pos).visited;
  }

  lemma WalkStops(P: CidParser, buf: Bytes, done: seq<Section>, pos: nat)
    requires WalksTo(P, buf, 0, done, pos) && (pos < |buf| ==> TakeOne(P, buf, pos).Stop?)
    ensures Walk(P, buf, 0) == Walked(done, if pos < |buf| then TakeOne(P, buf, pos).end else Finished)
  {
    assert done + [] == done;
  }

  method WalkSections(P: CidParser, buf: Bytes) returns (w: Walked)
    ensures w == Walk(P, buf, 0)
  {
    var visited: seq<Section> := [];
    var pos := 0;
    WalksNowhere(P, buf, 0);
    while pos < |buf|
      invariant pos <= |buf| && WalksTo(P, buf, 0, visited, pos)
    {
      match TakeOne(P, buf, pos)
      case Stop(end) =>
        WalkStops(P, buf, visited, pos);
        return Walked(visited, end);
      case Take(sec, next) =>
        WalkOn(P, buf, visited, pos);
        visited, pos := visited + [sec], next;
    }
    WalkStops(P, buf, visited, pos);
    return Walked(visited, Finished);
  }

  /**
   The bounds check on a section is exact just when its end fits a signed 64-bit int; past that the sum
   wraps below the section's start and slicing panics.
   */
  lemma SectionEndExact(start: nat, secLen: nat)
    requires 0 < start < TWO_63 && 0 < secLen < TWO_64
    ensures start + secLen < TWO_63 <==> SectionEnd(start, secLen) > start
    ensures start + secLen < TWO_63 ==> SectionEnd(start, secLen) == start + secLen
  {}

  /** One turn panics exactly on a readable length whose section would end past the signed 64-bit range. */
  lemma TakePanics(P: CidParser, buf: Bytes, pos: nat)
    requires pos < |buf| < TWO_63
    ensures var u := Uvarint(buf, pos, 0);
            TakeOne(P, buf, pos) == Stop(Panics) <==> u.n > 0 && u.x > 0 && pos + u.n + u.x >= TWO_63
  {
    var u := Uvarint(buf, pos, 0);
    if u.n > 0 && u.x > 0 {
      VarintShortest(buf, pos, 0);
      RoomIs64Bits();
      SectionEndExact(pos + u.n, u.x);
    }
  }

  /** A section the walk from `pos` comes to the start of. */
  ghost predicate ComesTo(P: CidParser, buf: Bytes, pos: nat, at: nat)
    requires pos <= |buf|
    decreases |buf| - pos
  {
    pos < |buf| && (at == pos || (TakeOne(P, buf, pos).Take? && ComesTo(P, buf, TakeOne(P, buf, pos).next, at)))
  }

  ghost predicate Overlong(buf: Bytes, at: nat) {
    var u := Uvarint(buf, at, 0);
    u.n > 0 && u.x > 0 && at + u.n + u.x >= TWO_63
  }

  /** So the walk panics, rather than erring, exactly when it comes to such a length. */
  lemma {:induction false} WalkPanics(P: CidParser, buf: Bytes, pos: nat)
    requires pos <= |buf| < TWO_63
    ensures Walk(P, buf, pos).end.Panics? <==> exists at :: ComesTo(P, buf, pos, at) && Overlong(buf, at)
    decreases |buf| - pos
  {
    if pos < |buf| {
      TakePanics(P, buf, pos);
      if TakeOne(P, buf, pos).Take? {
        var next := TakeOne(P, buf, pos).next;
        WalkPanics(P, buf, next);
        forall at | ComesTo(P, buf, pos, at) && Overlong(buf, at) ensures ComesTo(P, buf, next, at) {
          assert at != pos;
        }
        assert forall at | ComesTo(P, buf, next, at) :: ComesTo(P, buf, pos, at);
      } else {
        assert ComesTo(P, buf, pos, pos);
        if Overlong(buf, pos) { assert TakeOne(P, buf, pos) == Stop(Panics); }
        forall at | ComesTo(P, buf, pos, at) ensures at == pos {}
      }
    }
  }

  /** Ten bytes that do: nine 0xff and a 0x01, the largest 64-bit length. */
  lemma PanicInput(P: CidParser)
    ensures Walk(P, [255, 255, 255, 255, 255, 255, 255, 255, 255, 1], 0) == Walked([], Panics)
  {
    var buf: Bytes := [255, 255, 255, 255, 255, 255, 255, 255, 255, 1];
    assert Uvarint(buf, 0, 9) == Varint(1, 10);
    assert Uvarint(buf, 0, 8) == Varint(0xff, 10);
    assert Uvarint(buf, 0, 7) == Varint(0x7fff, 10);
    assert Uvarint(buf, 0, 6) == Varint(0x3f_ffff, 10);
    assert Uvarint(buf, 0, 5) == Varint(0x1fff_ffff, 10);
    assert Uvarint(buf, 0, 4) == Varint(0xf_ffff_ffff, 10);
    assert Uvarint(buf, 0, 3) == Varint(0x7ff_ffff_ffff, 10);
    assert Uvarint(buf, 0, 2) == Varint(0x3_ffff_ffff_ffff, 10);
    assert Uvarint(buf, 0, 1) == Varint(0x1ff_ffff_ffff_ffff, 10);
    assert Uvarint(buf, 0, 0) == Varint(0xffff_ffff_ffff_ffff, 10);
    TakePanics(P, buf, 0);
  }

  /** The length at `pos` reads back as the length of the section framed there. */
  lemma LengthReadsBack(buf: Bytes, pos: nat, s: Section)
    requires |s.cid + s.data| < TWO_63 && FramedAt(buf, pos, EncodeSection(s))
    ensures var body := s.cid + s.data;
            Uvarint(buf, pos, 0) == Varint(|body|, |PutUvarint(|body|)|)
  {
    var body := s.cid + s.data;
    RoomIs64Bits();
    FramedSplit(buf, pos, PutUvarint(|body|), body);
    VarintRoundTrip(|body|, buf, pos, 0);
  }

  /** One well-framed section at `pos` is taken whole. */
  lemma TakeSound(P: CidParser, buf: Bytes, pos: nat, s: Section)
    requires SelfDelimiting(P) && Sound(P, s)
    requires FramedAt(buf, pos, EncodeSection(s)) && |buf| < TWO_63
    ensures TakeOne(P, buf, pos) == Take(s, pos + |EncodeSection(s)|)
  {
    var body := s.cid + s.data;
    var start := pos + |PutUvarint(|body|)|;
    LengthReadsBack(buf, pos, s);
    SectionEndExact(start, |body|);
    BodyAt(buf, pos, s);
    assert IgnoresRest(P, s.cid, s.data);
  }

  lemma BodyAt(buf: Bytes, pos: nat, s: Section)
    requires FramedAt(buf, pos, EncodeSection(s))
    ensures var body := s.cid + s.data;
            var start := pos + |PutUvarint(|body|)|;
            && buf[start..start + |body|] == body
            && buf[start..start + |s.cid|] == s.cid
            && buf[start + |s.cid|..start + |body|] == s.data
  {
    var body := s.cid + s.data;
    var hdr := PutUvarint(|body|);
    FramedSplit(buf, pos, hdr, body);
    FramedSplit(buf, pos + |hdr|, s.cid, s.data);
  }

  lemma ConsConcat(secs: seq<Section>, on: seq<Section>)
    requires secs != []
    ensures [secs[0]] + (secs[1..] + on) == secs + on
  {}

  lemma WalkHead(P: CidParser, buf: Bytes, pos: nat, secs: seq<Section>, next: nat, end: nat)
    requires secs != [] && pos < |buf| && end <= |buf| && TakeOne(P, buf, pos) == Take(secs[0], next)
    requires WalksTo(P, buf, next, secs[1..], end)
    ensures WalksTo(P, buf, pos, secs, end)
  {
    ConsConcat(secs, Walk(P, buf, end).visited);
  }

  /** A framed list is its first section framed, and the others after it. */
  lemma FramedHead(buf: Bytes, pos: nat, secs: seq<Section>)
    requires secs != [] && FramedAt(buf, pos, Encode(secs))
    ensures FramedAt(buf, pos, EncodeSection(secs[0]))
    ensures FramedAt(buf, pos + |EncodeSection(secs[0])|, Encode(secs[1..]))
    ensures |Encode(secs)| == |EncodeSection(secs[0])| + |Encode(secs[1..])|
  {
    FramedSplit(buf, pos, EncodeSection(secs[0]), Encode(secs[1..]));
  }

  /** One turn after another takes the sections of `secs`. */
  ghost predicate TakesAll(P: CidParser, buf: Bytes, pos: nat, secs: seq<Section>)
    decreases |secs|
  {
    secs != [] ==>
      && pos < |buf| && TakeOne(P, buf, pos) == Take(secs[0], pos + |EncodeSection(secs[0])|)
      && TakesAll(P, buf, pos + |EncodeSection(secs[0])|, secs[1..])
  }

  lemma {:induction false} TakeMany(P: CidParser, buf: Bytes, pos: nat, secs: seq<Section>)
    requires SelfDelimiting(P) && forall s | s in secs :: Sound(P, s)
    requires FramedAt(buf, pos, Encode(secs)) && |buf| < TWO_63
    ensures TakesAll(P, buf, pos, secs)
    decreases |secs|
  {
    if secs != [] {
      FramedHead(buf, pos, secs);
      TakeSound(P, buf, pos, secs[0]);
      TakeMany(P, buf, pos + |EncodeSection(secs[0])|, secs[1..]);
    }
  }

  lemma TakenFirst(P: CidParser, buf: Bytes, pos: nat, secs: seq<Section>, next: nat, end: nat)
    requires secs != [] && TakesAll(P, buf, pos, secs) && end == pos + |Encode(secs)|
    requires next == pos + |EncodeSection(secs[0])|
    ensures pos < |buf| && TakeOne(P, buf, pos) == Take(secs[0], next)
    ensures TakesAll(P, buf, next, secs[1..]) && end == next + |Encode(secs[1..])|
  {}

  lemma {:induction false} WalkTaken(P: CidParser, buf: Bytes, pos: nat, secs: seq<Section>, end: nat)
    requires TakesAll(P, buf, pos, secs) && end == pos + |Encode(secs)| <= |buf|
    ensures WalksTo(P, buf, pos, secs, end)
    decreases |secs|
  {
    if secs == [] {
      WalksNowhere(P, buf, pos);
    } else {
      var next := pos + |EncodeSection(secs[0])|;
      TakenFirst(P, buf, pos, secs, next, end);
      WalkTaken(P, buf, next, secs[1..], end);
      WalkHead(P, buf, pos, secs, next, end);
    }
  }

  lemma WalkMany(P: CidParser, buf: Bytes, pos: nat, secs: seq<Section>, end: nat)
    requires SelfDelimiting(P) && forall s | s in secs :: Sound(P, s)
    requires FramedAt(buf, pos, Encode(secs)) && |buf| < TWO_63 && end == pos + |Encode(secs)|
    ensures WalksTo(P, buf, pos, secs, end)
  {
    TakeMany(P, buf, pos, secs);
    WalkTaken(P, buf, pos, secs, end);
  }

  /** Round trip: walking an encoded list visits exactly that list, in order, and finishes. */
  lemma WalkEncode(P: CidParser, secs: seq<Section>)
    requires SelfDelimiting(P) && (forall s | s in secs :: Sound(P, s)) && |Encode(secs)| < TWO_63
    ensures Walk(P, Encode(secs), 0) == Walked(secs, Finished)
  {
    var buf := Encode(secs);
    WalkMany(P, buf, 0, secs, |buf|);
    assert Walk(P, buf, |buf|) == Walked([], Finished);
    assert secs + [] == secs;
  }

  lemma BodyIsSound(P: CidParser, body: Bytes, s: Section)
    requires SelfDelimiting(P) && 0 < P(body) == |s.cid| && body == s.cid + s.data && |body| < TWO_63
    ensures Sound(P, s)
  {
    assert NeedsOnly(P, body, |s.cid|) && body[..|s.cid|] == s.cid;
  }

  lemma TakeShortest(P: CidParser, buf: Bytes, pos: nat)
    requires SelfDelimiting(P) && pos < |buf| < TWO_63 && TakeOne(P, buf, pos).Take?
    ensures var t := TakeOne(P, buf, pos);
            Sound(P, t.sec) && |EncodeSection(t.sec)| <= t.next - pos
  {
    VarintShortest(buf, pos, 0);
    var body := TakeBody(P, buf, pos);
    BodyIsSound(P, body, TakeOne(P, buf, pos).sec);
  }

  /** The other way round holds up to minimal length prefixes: re-framing what was read only shortens it. */
  lemma {:induction false} WalkThenEncode(P: CidParser, buf: Bytes, pos: nat)
    requires SelfDelimiting(P) && pos <= |buf| < TWO_63 && Walk(P, buf, pos).end.Finished?
    ensures forall s | s in Walk(P, buf, pos).visited :: Sound(P, s)
    ensures |Encode(Walk(P, buf, pos).visited)| <= |buf| - pos
    decreases |buf| - pos
  {
    if pos < |buf| {
      TakeShortest(P, buf, pos);
      var next := TakeOne(P, buf, pos).next;
      WalkThenEncode(P, buf, next);
      assert Walk(P, buf, pos).visited[1..] == Walk(P, buf, next).visited;
    }
  }

  /** The re-framed bytes hold the same sections, in the same order, and nothing else. */
  lemma WalkEncodeWalk(P: CidParser, buf: Bytes)
    requires SelfDelimiting(P) && |buf| < TWO_63 && Walk(P, buf, 0).end.Finished?
    ensures Walk(P, Encode(Walk(P, buf, 0).visited), 0) == Walk(P, buf, 0)
  {
    WalkThenEncode(P, buf, 0);
    WalkEncode(P, Walk(P, buf, 0).visited);
  }

  lemma LowSevenBits(low: nat, rest: nat)
    requires low < 128
    ensures (low + 128 * rest) % 128 == low && (low + 128 * rest) / 128 == rest
  {}

  /** Only the shortest form of a varint has the shortest form's length. */
  lemma {:induction false} ShortestIsWritten(buf: Bytes, at: nat, i: nat)
    requires Uvarint(buf, at, i).n > 0
    requires i + |PutUvarint(Uvarint(buf, at, i).x)| == Uvarint(buf, at, i).n
    ensures FramedAt(buf, at + i, PutUvarint(Uvarint(buf, at, i).x))
    decreases |buf| - at - i
  {
    if buf[at + i] >= 128 {
      var low, rest := buf[at + i] - 128, Uvarint(buf, at, i + 1).x;
      LowSevenBits(low, rest);
      if low + 128 * rest >= 128 {
        ShortestIsWritten(buf, at, i + 1);
        FramedJoin(buf, at + i, [low + 128], PutUvarint(rest));
      }
    }
  }

  lemma FramedJoin(buf: Bytes, at: nat, a: Bytes, b: Bytes)
    requires FramedAt(buf, at, a) && FramedAt(buf, at + |a|, b)
    ensures FramedAt(buf, at, a + b)
  {
    forall k | 0 <= k < |a + b| ensures buf[at + k] == (a + b)[k] {
      if k >= |a| { assert buf[at + |a| + (k - |a|)] == b[k - |a|]; }
    }
  }

  /** A section that re-frames to its own length re-frames to itself. */
  lemma TakeExact(P: CidParser, buf: Bytes, pos: nat)
    requires SelfDelimiting(P) && pos < |buf| < TWO_63 && TakeOne(P, buf, pos).Take?
    requires |EncodeSection(TakeOne(P, buf, pos).sec)| == TakeOne(P, buf, pos).next - pos
    ensures FramedAt(buf, pos, EncodeSection(TakeOne(P, buf, pos).sec))
  {
    var t := TakeOne(P, buf, pos);
    var body := TakeBody(P, buf, pos);
    ShortestIsWritten(buf, pos, 0);
    FramedJoin(buf, pos, PutUvarint(|body|), body);
  }

  lemma TakeBody(P: CidParser, buf: Bytes, pos: nat) returns (body: Bytes)
    requires pos < |buf| < TWO_63 && TakeOne(P, buf, pos).Take?
    ensures var u := Uvarint(buf, pos, 0);
            var t := TakeOne(P, buf, pos);
            && u.n > 0 && |body| == u.x && t.next == pos + u.n + u.x
            && body == t.sec.cid + t.sec.data && FramedAt(buf, pos + u.n, body) && 0 < P(body) == |t.sec.cid|
  {
    var u := Uvarint(buf, pos, 0);
    TakeNext(P, buf, pos);
    body := buf[pos + u.n..pos + u.n + u.x];
  }

  lemma TakeNext(P: CidParser, buf: Bytes, pos: nat)
    requires pos < |buf| < TWO_63 && TakeOne(P, buf, pos).Take?
    ensures var u := Uvarint(buf, pos, 0); u.n > 0 && TakeOne(P, buf, pos).next == pos + u.n + u.x
  {
    var u := Uvarint(buf, pos, 0);
    VarintShortest(buf, pos, 0);
    RoomIs64Bits();
    SectionEndExact(pos + u.n, u.x);
  }

  /** And it is the identity on exactly what it does not shorten: a buffer with minimal length prefixes throughout. */
  lemma {:induction false} WalkThenEncodeExact(P: CidParser, buf: Bytes, pos: nat)
    requires SelfDelimiting(P) && pos <= |buf| < TWO_63 && Walk(P, buf, pos).end.Finished?
    ensures |Encode(Walk(P, buf, pos).visited)| == |buf| - pos <==> Encode(Walk(P, buf, pos).visited) == buf[pos..]
    decreases |buf| - pos
  {
    if pos < |buf| && |Encode(Walk(P, buf, pos).visited)| == |buf| - pos {
      var t := TakeOne(P, buf, pos);
      TakeShortest(P, buf, pos);
      WalkThenEncode(P, buf, t.next);
      WalkThenEncodeExact(P, buf, t.next);
      assert Walk(P, buf, pos).visited[1..] == Walk(P, buf, t.next).visited;
      TakeExact(P, buf, pos);
      assert FramedAt(buf, t.next, Encode(Walk(P, buf, t.next).visited));
      FramedJoin(buf, pos, EncodeSection(t.sec), Encode(Walk(P, buf, t.next).visited));
    }
  }

  // ---- Truncation ----

  ghost predicate Boundary(secs: seq<Section>, k: nat) {
    exists m: nat :: m <= |secs| && k == |Encode(secs[..m])|
  }

  /** `k` is the boundary after all sections, or falls in section `m` or on its start. */
  ghost predicate FallsIn(secs: seq<Section>, k: nat, m: nat) {
    && k <= |Encode(secs)| && m <= |secs| && |Encode(secs[..m])| <= k
    && (m == |secs| ==> k == |Encode(secs[..m])|)
    && (m < |secs| ==>
          var j := k - |Encode(secs[..m])|;
          j < |EncodeSection(secs[m])| && Encode(secs)[..k] == Encode(secs[..m]) + EncodeSection(secs[m])[..j])
  }

  lemma FallsInFirst(secs: seq<Section>, k: nat)
    requires secs != [] && k < |EncodeSection(secs[0])|
    ensures FallsIn(secs, k, 0)
  {
    assert Encode(secs)[..k] == [] + EncodeSection(secs[0])[..k];
  }

  lemma FallsInLater(secs: seq<Section>, k: nat, m: nat)
    requires secs != [] && |EncodeSection(secs[0])| <= k <= |Encode(secs)|
    requires FallsIn(secs[1..], k - |EncodeSection(secs[0])|, m)
    ensures FallsIn(secs, k, m + 1)
  {
    var head, tail := EncodeSection(secs[0]), secs[1..];
    assert secs[..m + 1][1..] == tail[..m];
    assert Encode(secs)[..k] == head + Encode(tail)[..k - |head|];
    if m < |tail| {
      var cut := EncodeSection(tail[m])[..k - |head| - |Encode(tail[..m])|];
      Associate(head, Encode(tail[..m]), cut);
    }
  }

  /** Every cut falls in some section, or is a boundary. */
  lemma {:induction false} Locate(secs: seq<Section>, k: nat)
    requires k <= |Encode(secs)|
    ensures exists m: nat :: FallsIn(secs, k, m)
  {
    if secs == [] {
      assert FallsIn(secs, k, 0);
    } else if k < |EncodeSection(secs[0])| {
      FallsInFirst(secs, k);
    } else {
      Locate(secs[1..], k - |EncodeSection(secs[0])|);
      var m: nat :| FallsIn(secs[1..], k - |EncodeSection(secs[0])|, m);
      FallsInLater(secs, k, m);
    }
  }

  /** A section cut anywhere inside, in its varint, CID or data, is an error where it starts. */
  lemma TakeCut(P: CidParser, buf: Bytes, pos: nat, s: Section)
    requires Sound(P, s) && pos < |buf| < pos + |EncodeSection(s)| < TWO_63
    requires FramedAt(buf, pos, EncodeSection(s)[..|buf| - pos])
    ensures TakeOne(P, buf, pos) == Stop(Bad)
  {
    var body := s.cid + s.data;
    var hdr := PutUvarint(|body|);
    if |buf| - pos < |hdr| { TakeCutLength(P, buf, pos, s); } else { TakeCutBody(P, buf, pos, s); }
  }

  lemma TakeCutLength(P: CidParser, buf: Bytes, pos: nat, s: Section)
    requires Sound(P, s) && pos < |buf| < pos + |PutUvarint(|s.cid + s.data|)|
    requires FramedAt(buf, pos, EncodeSection(s)[..|buf| - pos])
    ensures TakeOne(P, buf, pos) == Stop(Bad)
  {
    var n := |s.cid + s.data|;
    var k := |buf| - pos;
    assert EncodeSection(s)[..k] == PutUvarint(n)[..k];
    RoomIs64Bits();
    VarintCut(n, buf, pos, 0);
  }

  lemma TakeCutBody(P: CidParser, buf: Bytes, pos: nat, s: Section)
    requires Sound(P, s) && pos + |PutUvarint(|s.cid + s.data|)| <= |buf| < pos + |EncodeSection(s)| < TWO_63
    requires FramedAt(buf, pos, EncodeSection(s)[..|buf| - pos])
    ensures TakeOne(P, buf, pos) == Stop(Bad)
  {
    var body := s.cid + s.data;
    var hdr := PutUvarint(|body|);
    var rest := body[..|buf| - pos - |hdr|];
    assert EncodeSection(s)[..|buf| - pos] == hdr + rest;
    FramedSplit(buf, pos, hdr, rest);
    RoomIs64Bits();
    VarintRoundTrip(|body|, buf, pos, 0);
    SectionEndExact(pos + |hdr|, |body|);
  }

  lemma {:induction false} EncodePrefixGrows(secs: seq<Section>, a: nat, b: nat)
    requires a < b <= |secs|
    ensures |Encode(secs[..a])| + |EncodeSection(secs[a])| <= |Encode(secs[..b])|
  {
    assert secs[..b] == secs[..a] + secs[a..b];
    EncodeConcat(secs[..a], secs[a..b]);
  }

  /** What a prefix that ends inside section `m` walks to: the sections before it, and an error. */
  lemma WalkPrefix(P: CidParser, secs: seq<Section>, m: nat, buf: Bytes, j: nat)
    requires SelfDelimiting(P) && (forall s | s in secs :: Sound(P, s)) && |Encode(secs)| < TWO_63
    requires m < |secs| && 0 < j < |EncodeSection(secs[m])|
    requires buf == Encode(secs[..m]) + EncodeSection(secs[m])[..j]
    ensures Walk(P, buf, 0) == Walked(secs[..m], Bad)
  {
    var pre := Encode(secs[..m]);
    var cut := EncodeSection(secs[m])[..j];
    EncodePrefixGrows(secs, m, m + 1);
    EncodeTotal(secs, m + 1);
    FramedSplit(buf, 0, pre, cut);
    TakeCut(P, buf, |pre|, secs[m]);
    WalkMany(P, buf, 0, secs[..m], |pre|);
    assert Walk(P, buf, |pre|) == Walked([], Bad);
    assert secs[..m] + [] == secs[..m];
  }

  /** A cut strictly inside section `m` is no boundary. */
  lemma InsideIsNoBoundary(secs: seq<Section>, m: nat, k: nat)
    requires m < |secs| && |Encode(secs[..m])| < k < |Encode(secs[..m])| + |EncodeSection(secs[m])|
    ensures !Boundary(secs, k)
  {
    forall b: nat | b <= |secs| ensures k != |Encode(secs[..b])| {
      if b > m { EncodePrefixGrows(secs, m, b); }
      else if b < m { EncodePrefixGrows(secs, b, m); }
    }
  }

  lemma WalkAtBoundary(P: CidParser, secs: seq<Section>, m: nat)
    requires SelfDelimiting(P) && (forall s | s in secs :: Sound(P, s)) && |Encode(secs)| < TWO_63
    requires m <= |secs|
    ensures Walk(P, Encode(secs[..m]), 0) == Walked(secs[..m], Finished)
  {
    EncodeTotal(secs, m);
    WalkEncode(P, secs[..m]);
  }

  /** A length-k prefix walks to the sections wholly inside it, and to the end only at a boundary. */
  lemma WalkTruncated(P: CidParser, secs: seq<Section>, k: nat)
    requires SelfDelimiting(P) && (forall s | s in secs :: Sound(P, s)) && k <= |Encode(secs)| < TWO_63
    ensures exists m: nat :: FallsIn(secs, k, m) && Walk(P, Encode(secs)[..k], 0)
                             == Walked(secs[..m], if Boundary(secs, k) then Finished else Bad)
  {
    Locate(secs, k);
    var m: nat :| FallsIn(secs, k, m);
    if k == |Encode(secs[..m])| {
      LocateWhole(secs, m, k);
      WalkAtBoundary(P, secs, m);
    } else {
      WalkPrefix(P, secs, m, Encode(secs)[..k], k - |Encode(secs[..m])|);
      InsideIsNoBoundary(secs, m, k);
    }
  }

  /** Truncation: a length-k prefix walks to the end if and only if k is a section boundary; else it is an error. */
  lemma TruncationDetected(P: CidParser, secs: seq<Section>, k: nat)
    requires SelfDelimiting(P) && (forall s | s in secs :: Sound(P, s)) && k <= |Encode(secs)| < TWO_63
    ensures Walk(P, Encode(secs)[..k], 0).end == if Boundary(secs, k) then Finished else Bad
  {
    WalkTruncated(P, secs, k);
  }

  lemma LocateWhole(secs: seq<Section>, m: nat, k: nat)
    requires m <= |secs| && k == |Encode(secs[..m])|
    ensures Boundary(secs, k) && k <= |Encode(secs)| && Encode(secs)[..k] == Encode(secs[..m])
  {
    assert secs == secs[..m] + secs[m..];
    EncodeConcat(secs[..m], secs[m..]);
  }

  lemma EncodeTotal(secs: seq<Section>, b: nat)
    requires b <= |secs|
    ensures |Encode(secs[..b])| <= |Encode(secs)|
  {
    assert secs == secs[..b] + secs[b..];
    EncodeConcat(secs[..b], secs[b..]);
  }
}
