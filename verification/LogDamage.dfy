/** The log reader on damaged files: what it hands out is what some writer wrote, and one damaged fragment costs the
  records that share its block and no others. */
module LogDamage {
  import opened Options
  import opened Coding
  import opened Log

  // ----- any file at all

  lemma UnmaskRoundTrip(masked: Word)
    ensures Mask(Unmask(masked)) == masked
  {
    var rot := (masked + TWO32 - DELTA) % TWO32;
    assert rot / 0x2_0000 < 0x8000 && rot % 0x2_0000 < 0x2_0000;
    assert Unmask(masked) % 0x8000 == rot / 0x2_0000 && Unmask(masked) / 0x8000 == rot % 0x2_0000;
  }

  lemma {:induction false} FixedBack(b: Bytes)
    ensures Fixed(UnFixed(b), |b|) == b && UnFixed(b) < Pow256(|b|)
    decreases b
  {
    if b != [] {
      FixedBack(b[1..]);
      Lowest(b[0], UnFixed(b[1..]));
      assert [b[0]] + b[1..] == b;
    }
  }

  lemma Lowest(low: Byte, rest: nat)
    ensures (low + 256 * rest) % 256 == low && (low + 256 * rest) / 256 == rest
  {
  }

  lemma WordBack(head: Bytes)
    requires |head| == 4
    ensures UnFixed(head) < TWO32 && Fixed32(UnFixed(head)) == head
  {
    FixedBack(head);
    assert Pow256(4) == TWO32 by {
      assert Pow256(2) == 0x1_0000;
    }
    hide UnFixed, Fixed;
  }

  /** The bytes at s are what the writer emits for a fragment of this type and payload, checksum and all. */
  ghost predicate WrittenAt(crc: Checksum, file: Bytes, s: nat, kind: nat, data: Bytes) {
    && FULL <= kind <= LAST && |data| < BLOCK && s + HEADER + |data| <= |file|
    && file[s..s + HEADER + |data|] == Physical(crc, kind, data)
  }

  lemma HeadIs(head: Bytes, c: Word)
    requires |head| == 4 && Unmask(UnFixed(head) % TWO32) == c
    ensures Fixed32(Mask(c)) == head
  {
    WordBack(head);
    UnmaskRoundTrip(UnFixed(head));
    hide *;
    Small(UnFixed(head));
  }

  lemma Small(w: Word)
    ensures w % TWO32 == w
  {
  }

  lemma PhysicalIs(crc: Checksum, b: Bytes, data: Bytes)
    requires |data| < BLOCK && HEADER + |data| == |b| && b[HEADER..] == data && b[4] + 256 * (b[5] as int) == |data|
    requires Unmask(UnFixed(b[..4]) % TWO32) == crc(b[6], data)
    ensures b == Physical(crc, b[6], data)
  {
    HeadIs(b[..4], crc(b[6], data));
    Lowest(b[4], b[5]);
    hide Fixed32, UnFixed, Mask, Unmask;
    assert |data| % 256 == b[4] && |data| / 256 == b[5];
    assert b == b[..4] + [b[4], b[5], b[6]] + data;
  }

  lemma CheckedBuffer(crc: Checksum, b: Bytes, eof: bool)
    requires HEADER <= |b| <= BLOCK
    ensures var f := ParseBuffer(crc, true, b, eof);
            FULL <= f.kind <= LAST ==>
              |f.data| < BLOCK && f.next == HEADER + |f.data| && b[..f.next] == Physical(crc, f.kind, f.data)
  {
    var f := ParseBuffer(crc, true, b, eof);
    hide Physical, Unmask, UnFixed;
    if FULL <= f.kind <= LAST {
      assert b[..f.next][HEADER..] == f.data && b[..f.next][..4] == b[..4];
      PhysicalIs(crc, b[..f.next], f.data);
    }
  }

  lemma CheckedParse(crc: Checksum, file: Bytes, at: nat)
    requires at <= |file|
    ensures var f := Parse(crc, true, file, at);
            FULL <= f.kind <= LAST ==>
              at + HEADER + |f.data| <= f.next && WrittenAt(crc, file, f.next - HEADER - |f.data|, f.kind, f.data)
  {
    var s := at + Pad(at);
    var stop := Min(BlockEnd(s), |file|);
    if s + HEADER <= stop {
      assert stop - s <= BLOCK;
      hide Pad, BlockEnd, ParseBuffer, Physical;
      CheckedBuffer(crc, file[s..stop], |file| < BlockEnd(s));
      var f := ParseBuffer(crc, true, file[s..stop], |file| < BlockEnd(s));
      SliceOfSlice(file, s, stop, 0, f.next);
      assert file[s..stop][..f.next] == file[s..s + f.next];
    }
  }

  datatype Piece = Piece(at: nat, kind: nat, data: Bytes)

  /** Fragments one after the other between two positions of the file. */
  ghost predicate PiecesIn(crc: Checksum, file: Bytes, lo: nat, hi: nat, ps: seq<Piece>)
    decreases ps
  {
    if ps == [] then lo <= hi else
      var p := ps[|ps| - 1];
      && p.at + HEADER + |p.data| <= hi && WrittenAt(crc, file, p.at, p.kind, p.data)
      && PiecesIn(crc, file, lo, p.at, ps[..|ps| - 1])
  }

  function Joined(ps: seq<Piece>): Bytes {
    if ps == [] then [] else Joined(ps[..|ps| - 1]) + ps[|ps| - 1].data
  }

  /** A first fragment and any number of middle ones. */
  predicate Opening(ps: seq<Piece>) {
    ps != [] && ps[0].kind == FIRST && forall i :: 1 <= i < |ps| ==> ps[i].kind == MIDDLE
  }

  /** A full fragment alone, or a first, any number of middle ones and a last. */
  predicate Complete(ps: seq<Piece>) {
    ps != [] && (ps == [Piece(ps[0].at, FULL, ps[0].data)]
                 || (Opening(ps[..|ps| - 1]) && ps[|ps| - 1].kind == LAST))
  }

  ghost predicate MadeOf(crc: Checksum, file: Bytes, lo: nat, hi: nat, record: Bytes) {
    exists ps :: PiecesIn(crc, file, lo, hi, ps) && Complete(ps) && Joined(ps) == record
  }

  lemma PiecesUpTo(crc: Checksum, file: Bytes, lo: nat, hi: nat, hi': nat, ps: seq<Piece>)
    requires PiecesIn(crc, file, lo, hi, ps) && hi <= hi'
    ensures PiecesIn(crc, file, lo, hi', ps)
  {
  }

  lemma OnePiece(crc: Checksum, file: Bytes, lo: nat, p: Piece)
    requires lo <= p.at && WrittenAt(crc, file, p.at, p.kind, p.data)
    ensures PiecesIn(crc, file, lo, p.at + HEADER + |p.data|, [p]) && Joined([p]) == p.data
  {
    assert [p][..0] == [];
    hide WrittenAt;
  }

  lemma AnotherPiece(crc: Checksum, file: Bytes, lo: nat, ps: seq<Piece>, p: Piece)
    requires PiecesIn(crc, file, lo, p.at, ps) && WrittenAt(crc, file, p.at, p.kind, p.data)
    ensures PiecesIn(crc, file, lo, p.at + HEADER + |p.data|, ps + [p]) && Joined(ps + [p]) == Joined(ps) + p.data
  {
    assert (ps + [p])[..|ps|] == ps;
    hide WrittenAt;
  }

  /** What the assembly holds of an unfinished record. */
  ghost predicate Held(crc: Checksum, file: Bytes, lo: nat, at: nat, a: Assembly, ps: seq<Piece>) {
    a.within ==> PiecesIn(crc, file, lo, at, ps) && Opening(ps) && Joined(ps) == a.scratch
  }

  lemma {:induction false} AssembledMadeOf(crc: Checksum, file: Bytes, lo: nat, at: nat, a: Assembly, ps: seq<Piece>)
    requires lo <= at <= |file| && Held(crc, file, lo, at, a, ps)
    ensures var l := Assemble(crc, true, file, at, a);
            l.record.Some? ==> MadeOf(crc, file, lo, l.next, l.record.value)
    decreases |file| - at
  {
    var f := Parse(crc, true, file, at);
    CheckedParse(crc, file, at);
    hide Parse, WrittenAt, PiecesIn, Joined;
    var p := Piece(if f.next < HEADER + |f.data| then 0 else f.next - HEADER - |f.data|, f.kind, f.data);
    match Absorb(a, f)
    case Done(record, reports) =>
      if f.kind == FULL {
        OnePiece(crc, file, lo, p);
        assert Complete([p]);
      } else if f.kind == LAST {
        PiecesUpTo(crc, file, lo, at, p.at, ps);
        AnotherPiece(crc, file, lo, ps, p);
        assert (ps + [p])[..|ps|] == ps && Complete(ps + [p]);
      }
    case More(a') =>
      if f.kind == FIRST {
        OnePiece(crc, file, lo, p);
        AssembledMadeOf(crc, file, lo, f.next, a', [p]);
      } else if f.kind == MIDDLE && a.within {
        PiecesUpTo(crc, file, lo, at, p.at, ps);
        AnotherPiece(crc, file, lo, ps, p);
        AssembledMadeOf(crc, file, lo, f.next, a', ps + [p]);
      } else {
        AssembledMadeOf(crc, file, lo, f.next, a', ps);
      }
  }

  /** Every record, in order, is made of fragments that lie one after the other. */
  ghost predicate AllMadeOf(crc: Checksum, file: Bytes, at: nat, records: seq<Bytes>)
    decreases records
  {
    records == [] || exists next :: MadeOf(crc, file, at, next, records[0]) && AllMadeOf(crc, file, next, records[1..])
  }

  /** With checksums on, whatever the file holds: a record that is handed out is made of fragments that stand in the
    file byte for byte as a writer would write them, their checksums included. */
  lemma {:induction false} OnlyWritten(crc: Checksum, file: Bytes, at: nat, reports: seq<nat>)
    requires at <= |file|
    ensures AllMadeOf(crc, file, at, ReadAll(crc, true, file, at, reports).records)
    decreases |file| - at
  {
    var a := Assembly([], false, reports);
    AssembledMadeOf(crc, file, at, at, a, []);
    var l := Assemble(crc, true, file, at, a);
    hide Assemble, MadeOf;
    if l.record.Some? {
      OnlyWritten(crc, file, l.next, l.reports);
      var rest := ReadAll(crc, true, file, l.next, l.reports).records;
      assert ([l.record.value] + rest)[1..] == rest;
    }
  }

  // ----- one damaged fragment

  /** Where the writer is: so many bytes into the file, with this much of a record left, at its start or not. */
  datatype Spot = Spot(at: nat, left: Bytes, begin: bool)

  /** Where the next header goes. */
  function Header(p: Spot): nat { p.at + Pad(p.at) }

  function Piecelen(p: Spot): nat { Cut(p.at, p.left) }

  predicate Goes(p: Spot) { Piecelen(p) < |p.left| }

  function Onward(p: Spot): Spot
    requires Goes(p)
  {
    Spot(Header(p) + HEADER + Piecelen(p), p.left[Piecelen(p)..], false)
  }

  /** The writer gets from one spot to another within a record. */
  predicate Reaches(p: Spot, q: Spot)
    decreases |p.left|, if Room(p.at) == 0 then 1 else 0
  {
    p == q || (Goes(p) && (Later(p); Reaches(Onward(p), q)))
  }

  lemma Later(p: Spot)
    requires Goes(p)
    ensures Piecelen(p) > 0 || (Room(p.at) == 0 && Room(Onward(p).at) > 0)
  {
    NextHasRoom(p.at, Piecelen(p));
  }

  function SpotBytes(crc: Checksum, p: Spot): Bytes { RecordBytes(crc, p.at, p.left, p.begin) }

  function PieceBytes(crc: Checksum, p: Spot): (f: Bytes)
    ensures |f| == Pad(p.at) + HEADER + Piecelen(p)
  {
    Fragment(crc, p.at, p.left, Piecelen(p), p.begin)
  }

  lemma SpotUnfold(crc: Checksum, p: Spot)
    ensures SpotBytes(crc, p) == PieceBytes(crc, p) + if Goes(p) then SpotBytes(crc, Onward(p)) else []
  {
    hide Fragment, Pad, Room, RecordBytes;
    Unfold(crc, p.at, p.left, p.begin, Piecelen(p), PieceBytes(crc, p));
  }

  lemma {:induction false} ReachesOn(crc: Checksum, p: Spot, q: Spot)
    requires Reaches(p, q)
    ensures p.at <= q.at && |q.left| <= |p.left| && p.at + |SpotBytes(crc, p)| == q.at + |SpotBytes(crc, q)|
    ensures p != q ==> !q.begin
    decreases |p.left|, if Room(p.at) == 0 then 1 else 0
  {
    SpotUnfold(crc, p);
    if p != q {
      Later(p);
      hide Pad, Room, Cut, SpotBytes, PieceBytes;
      ReachesOn(crc, Onward(p), q);
    }
  }

  /** What the reader holds when it gets to a spot, if it held a at the start of p. */
  function AtSpot(p: Spot, q: Spot, a: Assembly): Assembly
    requires |q.left| <= |p.left|
  {
    if p == q then a else Assembly(a.scratch + p.left[..|p.left| - |q.left|], true, a.reports)
  }

  /** The bytes of a spot lie in the file as far as its end. */
  ghost predicate LiesUpTo(crc: Checksum, file: Bytes, p: Spot, end: nat) {
    p.at <= end <= |file| && end - p.at <= |SpotBytes(crc, p)| && file[p.at..end] == SpotBytes(crc, p)[..end - p.at]
  }

  lemma LiesUpToOn(crc: Checksum, file: Bytes, p: Spot, end: nat)
    requires Goes(p) && Onward(p).at == p.at + |PieceBytes(crc, p)| <= end && LiesUpTo(crc, file, p, end)
    ensures LiesUpTo(crc, file, Onward(p), end)
    ensures file[p.at..p.at + |PieceBytes(crc, p)|] == PieceBytes(crc, p)
  {
    SpotUnfold(crc, p);
    var f, r := PieceBytes(crc, p), SpotBytes(crc, Onward(p));
    hide Pad, Room, Cut, SpotBytes, Onward, Goes;
    SliceOfSlice(file, p.at, end, 0, |f|);
    SliceOfSlice(file, p.at, end, |f|, end - p.at);
    assert (f + r)[..end - p.at][..|f|] == f && (f + r)[..end - p.at][|f|..] == r[..end - p.at - |f|];
  }

  lemma ReachesNext(crc: Checksum, p: Spot, q: Spot)
    requires p != q && Reaches(p, q)
    ensures Goes(p) && Reaches(Onward(p), q) && |q.left| <= |Onward(p).left| <= |p.left|
    ensures Onward(p).at == p.at + |PieceBytes(crc, p)| <= q.at
  {
    ReachesOn(crc, Onward(p), q);
    hide SpotBytes, Pad, Room, Cut;
  }

  /** Reading whole fragments up to a spot inside a record. */
  lemma {:induction false} AssembleTo(crc: Checksum, checksum: bool, file: Bytes, p: Spot, q: Spot, a: Assembly)
    requires Reaches(p, q) && p.at <= |file| && q.at <= |file| && LiesUpTo(crc, file, p, q.at) && |q.left| <= |p.left|
    requires a.within == !p.begin && (p.begin ==> a.scratch == [])
    ensures Assemble(crc, checksum, file, p.at, a) == Assemble(crc, checksum, file, q.at, AtSpot(p, q, a))
    decreases |p.left|, if Room(p.at) == 0 then 1 else 0
  {
    hide Pad, Room, Cut, SpotBytes, Parse, Physical, Reaches, LiesUpTo, PieceBytes, Assemble, AtSpot, Absorb, RecordBytes;
    if p == q {
      Unmoved(p, a);
    } else {
      ReachesNext(crc, p, q);
      LiesUpToOn(crc, file, p, q.at);
      Later(p);
      PieceParsed(crc, checksum, file, p);
      var n := Piecelen(p);
      var a' := Assembly(a.scratch + p.left[..n], true, a.reports);
      Absorbed(a, KindOf(p.begin, false), p.left[..n], Onward(p).at);
      TakeTurn(crc, checksum, file, p.at, a);
      AssembleTo(crc, checksum, file, Onward(p), q, a');
      Gathered(p, q, a, n);
    }
  }

  lemma Unmoved(p: Spot, a: Assembly)
    ensures AtSpot(p, p, a) == a
  {
  }

  lemma Absorbed(a: Assembly, kind: nat, data: Bytes, next: nat)
    requires kind == KindOf(!a.within, false) && (!a.within ==> a.scratch == [])
    ensures Absorb(a, Found(kind, data, next, [])) == More(Assembly(a.scratch + data, true, a.reports))
  {
    assert a.reports + [] == a.reports;
  }

  lemma Gathered(p: Spot, q: Spot, a: Assembly, n: nat)
    requires Goes(p) && n == Piecelen(p) && |q.left| <= |Onward(p).left| && (Onward(p) == q ==> |q.left| == |p.left| - n)
    requires p != q
    ensures AtSpot(Onward(p), q, Assembly(a.scratch + p.left[..n], true, a.reports)) == AtSpot(p, q, a)
  {
    var k := |p.left| - n - |q.left|;
    assert p.left[..n] + p.left[n..][..k] == p.left[..n + k];
  }

  lemma PieceParsed(crc: Checksum, checksum: bool, file: Bytes, p: Spot)
    requires Goes(p)
    requires var f := PieceBytes(crc, p); p.at + |f| <= |file| && file[p.at..p.at + |f|] == f
    ensures Parse(crc, checksum, file, p.at) == Found(KindOf(p.begin, false), p.left[..Piecelen(p)], Onward(p).at, [])
  {
    hide Physical, Parse;
    ParseWhole(crc, checksum, file, p.at, KindOf(p.begin, false), p.left[..Piecelen(p)]);
  }

  /** The length in the header goes beyond the rest of the block, and not because the file ends; or it fits, and the
    stored checksum is not that of type and payload. */
  predicate Mismatched(crc: Checksum, b: Bytes, eof: bool) {
    && |b| >= HEADER
    && var length := b[4] + 256 * (b[5] as int);
       if HEADER + length > |b| then !eof
       else !(b[6] == ZERO_TYPE && length == 0) && Unmask(UnFixed(b[..4]) % TWO32) != crc(b[6], b[HEADER..HEADER + length])
  }

  lemma ParseMismatched(crc: Checksum, file: Bytes, at: nat)
    requires var s := at + Pad(at); var stop := Min(BlockEnd(s), |file|);
             at <= |file| && s <= stop && Mismatched(crc, file[s..stop], |file| < BlockEnd(s))
    ensures var s := at + Pad(at); var stop := Min(BlockEnd(s), |file|);
            Parse(crc, true, file, at) == Found(BAD, [], stop, [stop - s])
  {
    hide Unmask, UnFixed, Pad;
  }

  // ----- what is left of a record after the damage

  /** The payload sizes of the fragments from a spot to the end of its record. */
  function Sizes(p: Spot): seq<nat>
    decreases |p.left|, if Room(p.at) == 0 then 1 else 0
  {
    [Piecelen(p)] + if Goes(p) then (Later(p); Sizes(Onward(p))) else []
  }

  lemma OrphanStep(crc: Checksum, checksum: bool, file: Bytes, p: Spot, reports: seq<nat>)
    requires var f := PieceBytes(crc, p); !p.begin && p.at + |f| <= |file| && file[p.at..p.at + |f|] == f
    ensures Assemble(crc, checksum, file, p.at, Assembly([], false, reports)) ==
            Assemble(crc, checksum, file, p.at + |PieceBytes(crc, p)|, Assembly([], false, reports + [Piecelen(p)]))
  {
    hide Pad, Room, Parse, Physical, PieceBytes, Absorb, Assemble;
    AnyPieceParsed(crc, checksum, file, p);
    TakeTurn(crc, checksum, file, p.at, Assembly([], false, reports));
    Dropped(reports, KindOf(false, !Goes(p)), p.left[..Piecelen(p)], p.at + |PieceBytes(crc, p)|);
  }

  /** The bytes of a spot lie in the file where the spot is. */
  ghost predicate LiesAt(crc: Checksum, file: Bytes, p: Spot) {
    var r := SpotBytes(crc, p);
    p.at + |r| <= |file| && file[p.at..p.at + |r|] == r
  }

  lemma LiesOn(crc: Checksum, file: Bytes, p: Spot)
    requires LiesAt(crc, file, p)
    ensures var f := PieceBytes(crc, p); p.at + |f| <= |file| && file[p.at..p.at + |f|] == f
    ensures Goes(p) ==> LiesAt(crc, file, Onward(p)) && Onward(p).at == p.at + |PieceBytes(crc, p)| && !Onward(p).begin
    ensures Goes(p) ==> Onward(p).at + |SpotBytes(crc, Onward(p))| <= |file| && |Onward(p).left| == |p.left| - Piecelen(p)
    ensures p.at + |SpotBytes(crc, p)| == p.at + |PieceBytes(crc, p)| + if Goes(p) then |SpotBytes(crc, Onward(p))|
        else 0
  {
    SpotUnfold(crc, p);
    var r, f := SpotBytes(crc, p), PieceBytes(crc, p);
    hide Pad, Room, Cut, SpotBytes;
    Front(file, p.at, r, f);
    Back(file, p.at, r, f);
    if Goes(p) { assert r[|f|..] == SpotBytes(crc, Onward(p)); }
  }

  /** Fragments whose record was given up are reported and dropped one by one. */
  lemma {:induction false} SkipOrphans(crc: Checksum, checksum: bool, file: Bytes, p: Spot, reports: seq<nat>)
    requires !p.begin && LiesAt(crc, file, p) && p.at + |SpotBytes(crc, p)| <= |file|
    ensures Assemble(crc, checksum, file, p.at, Assembly([], false, reports)) ==
            Assemble(crc, checksum, file, p.at + |SpotBytes(crc, p)|, Assembly([], false, reports + Sizes(p)))
    decreases |p.left|, if Room(p.at) == 0 then 1 else 0
  {
    hide *;
    LiesOn(crc, file, p);
    OrphanStep(crc, checksum, file, p, reports);
    SizesOf(p);
    if Goes(p) {
      Later(p);
      SkipOrphans(crc, checksum, file, Onward(p), reports + [Piecelen(p)]);
      OneMore(reports, Piecelen(p), Sizes(Onward(p)));
    }
  }

  lemma OneMore(a: seq<nat>, n: nat, b: seq<nat>)
    ensures a + [n] + b == a + ([n] + b)
  {
  }

  lemma SizesOf(p: Spot)
    ensures Goes(p) ==> Sizes(p) == [Piecelen(p)] + Sizes(Onward(p))
    ensures !Goes(p) ==> Sizes(p) == [Piecelen(p)]
  {
  }

  lemma Dropped(reports: seq<nat>, kind: nat, data: Bytes, next: nat)
    requires kind == MIDDLE || kind == LAST
    ensures Absorb(Assembly([], false, reports), Found(kind, data, next, [])) ==
            More(Assembly([], false, reports + [|data|]))
  {
    assert reports + [] == reports;
  }

  lemma AnyPieceParsed(crc: Checksum, checksum: bool, file: Bytes, p: Spot)
    requires var f := PieceBytes(crc, p); p.at + |f| <= |file| && file[p.at..p.at + |f|] == f
    ensures Parse(crc, checksum, file, p.at) ==
            Found(KindOf(p.begin, !Goes(p)), p.left[..Piecelen(p)], p.at + |PieceBytes(crc, p)|, [])
  {
    hide Physical, Parse;
    ParseWhole(crc, checksum, file, p.at, KindOf(p.begin, !Goes(p)), p.left[..Piecelen(p)]);
  }

  /** Writing starts with the padding, if any. */
  function Padded(p: Spot): Spot { Spot(Header(p), p.left, p.begin) }

  lemma PadPad(at: nat)
    ensures Pad(at + Pad(at)) == 0 && Room(at + Pad(at)) == Room(at)
  {
  }

  lemma PaddedSame(p: Spot)
    ensures Piecelen(Padded(p)) == Piecelen(p) && Goes(Padded(p)) == Goes(p) && Header(Padded(p)) == Header(p)
    ensures Goes(p) ==> Onward(Padded(p)) == Onward(p)
  {
    PadPad(p.at);
    hide Pad, Room;
  }

  lemma PaddedPiece(crc: Checksum, p: Spot)
    ensures PieceBytes(crc, p) == Zeros(Pad(p.at)) + PieceBytes(crc, Padded(p))
  {
    PadPad(p.at);
    PaddedSame(p);
    var f := Physical(crc, KindOf(p.begin, !Goes(p)), p.left[..Piecelen(p)]);
    hide Pad, Room, Physical, Cut;
    assert Zeros(0) + f == f;
  }

  lemma PadAway(crc: Checksum, p: Spot)
    ensures SpotBytes(crc, p) == Zeros(Pad(p.at)) + SpotBytes(crc, Padded(p))
    ensures Sizes(Padded(p)) == Sizes(p) && EndOf(crc, Padded(p)) == EndOf(crc, p)
  {
    PaddedSame(p);
    PaddedPiece(crc, p);
    SpotUnfold(crc, p);
    SpotUnfold(crc, Padded(p));
    SizesOf(p);
    SizesOf(Padded(p));
    hide Goes, Onward, PieceBytes, SpotBytes, Sizes, Pad, Piecelen;
    if Goes(p) {
      Assoc(Zeros(Pad(p.at)), PieceBytes(crc, Padded(p)), SpotBytes(crc, Onward(p)));
    } else {
      Assoc(Zeros(Pad(p.at)), PieceBytes(crc, Padded(p)), []);
    }
  }

  function EndOf(crc: Checksum, p: Spot): nat { p.at + |SpotBytes(crc, p)| }

  // ----- the end of the damaged block

  /** The sizes of a record's fragments from the block end on, if it began before. */
  function Leftover(p: Spot, end: nat): seq<nat>
    decreases |p.left|, if Room(p.at) == 0 then 1 else 0
  {
    if Header(p) >= end then if p.begin then [] else Sizes(p)
    else if Goes(p) then (Later(p); Leftover(Onward(p), end))
    else []
  }

  function NextStart(crc: Checksum, at: nat, data: Bytes): nat { at + |RecordBytes(crc, at, data, true)| }

  /** How many records have their first header before a position. */
  function BegunBefore(crc: Checksum, at: nat, recs: seq<Bytes>, end: nat): (k: nat)
    ensures k <= |recs|
    decreases recs
  {
    if recs == [] || at + Pad(at) >= end then 0
    else 1 + BegunBefore(crc, NextStart(crc, at, recs[0]), recs[1..], end)
  }

  /** The sizes of all fragments from the block end on whose record began before. */
  function Straddling(crc: Checksum, at: nat, recs: seq<Bytes>, end: nat): seq<nat>
    decreases recs
  {
    if recs == [] || at + Pad(at) >= end then []
    else Leftover(Spot(at, recs[0], true), end) + Straddling(crc, NextStart(crc, at, recs[0]), recs[1..], end)
  }

  /** All that is still to be written. */
  function Tail(crc: Checksum, p: Spot, more: seq<Bytes>): Bytes {
    SpotBytes(crc, p) + LogBytes(crc, EndOf(crc, p), more)
  }

  /** From here on the file is what the writer wrote. */
  ghost predicate SameFrom(crc: Checksum, file: Bytes, p: Spot, more: seq<Bytes>, end: nat) {
    && p.at <= end <= |file| == p.at + |Tail(crc, p, more)| && file[end..] == Tail(crc, p, more)[end - p.at..]
  }

  lemma ReadsRest(crc: Checksum, checksum: bool, file: Bytes, at: nat, recs: seq<Bytes>, reports: seq<nat>)
    requires at <= |file| && file[at..] == LogBytes(crc, at, recs)
    ensures ReadAll(crc, checksum, file, at, reports) == Recovered(recs, reports)
  {
    var log := LogBytes(crc, at, recs);
    assert log[..|log|] == log && recs[..|recs|] == recs;
    ContainedIsLargest(crc, at, recs, |file|, |recs|);
    hide LogBytes;
    ReadAllCut(crc, checksum, file, at, recs, reports);
  }

  lemma SameAssembly(crc: Checksum, checksum: bool, file: Bytes, at: nat, at': nat, reports: seq<nat>,
      reports': seq<nat>)
    requires at <= |file| && at' <= |file|
    requires Assemble(crc, checksum, file, at, Assembly([], false, reports)) ==
             Assemble(crc, checksum, file, at', Assembly([], false, reports'))
    ensures ReadAll(crc, checksum, file, at, reports) == ReadAll(crc, checksum, file, at', reports')
  {
    hide Assemble;
  }

  lemma NoneBegun(crc: Checksum, at: nat, recs: seq<Bytes>, end: nat)
    requires at + Pad(at) >= end
    ensures BegunBefore(crc, at, recs, end) == 0 && Straddling(crc, at, recs, end) == []
  {
  }

  lemma HeaderAtEnd(p: Spot, end: nat)
    requires end % BLOCK == 0 && p.at <= end <= p.at + BLOCK && Header(p) >= end
    ensures Header(p) == end
  {
    InFullBlock(p.at, end);
    hide Pad;
  }

  /** A fragment never crosses the end of its block. */
  lemma PieceInBlock(crc: Checksum, p: Spot, end: nat)
    requires end % BLOCK == 0 && p.at <= end <= p.at + BLOCK && Header(p) < end
    ensures p.at + |PieceBytes(crc, p)| <= end
  {
    InFullBlock(p.at, end);
    assert BlockEnd(p.at) == end && Pad(p.at) == 0;
    hide Pad;
  }

  lemma TailAtBlock(crc: Checksum, file: Bytes, p: Spot, more: seq<Bytes>, end: nat)
    requires SameFrom(crc, file, p, more, end) && Header(p) == end
    ensures file[end..] == SpotBytes(crc, Padded(p)) + LogBytes(crc, EndOf(crc, p), more)
    ensures EndOf(crc, p) == end + |SpotBytes(crc, Padded(p))| && end < EndOf(crc, p) <= |file|
  {
    PadAway(crc, p);
    var z, r, l := Zeros(Pad(p.at)), SpotBytes(crc, Padded(p)), LogBytes(crc, EndOf(crc, p), more);
    assert |r| >= HEADER;
    hide Pad, SpotBytes, LogBytes, Padded, EndOf, Zeros;
    Assoc(z, r, l);
    assert (z + (r + l))[|z|..] == r + l;
  }

  lemma BeginsAtBlock(crc: Checksum, checksum: bool, file: Bytes, p: Spot, more: seq<Bytes>, end: nat,
      reports: seq<nat>)
    requires SameFrom(crc, file, p, more, end) && Header(p) == end && p.begin
    ensures ReadAll(crc, checksum, file, end, reports) == Recovered([p.left] + more, reports)
  {
    TailAtBlock(crc, file, p, more, end);
    assert ([p.left] + more)[1..] == more;
    assert LogBytes(crc, end, [p.left] + more) == SpotBytes(crc, Padded(p)) + LogBytes(crc, EndOf(crc, p), more) by {
      hide RecordBytes, Pad;
    }
    hide LogBytes, SpotBytes, EndOf, Padded;
    ReadsRest(crc, checksum, file, end, [p.left] + more, reports);
  }

  lemma TwoParts(file: Bytes, at: nat, end: nat, r: Bytes, l: Bytes)
    requires at <= end <= |file| && file[at..end] == r + l
    ensures at + |r| <= end && file[at..at + |r|] == r && file[at + |r|..end] == l
  {
    SliceOfSlice(file, at, end, 0, |r|);
    SliceOfSlice(file, at, end, |r|, |r| + |l|);
    assert (r + l)[..|r|] == r && (r + l)[|r|..] == l;
  }

  lemma OrphanLies(crc: Checksum, file: Bytes, p: Spot, more: seq<Bytes>, end: nat)
    requires SameFrom(crc, file, p, more, end) && Header(p) == end
    ensures LiesAt(crc, file, Padded(p)) && end <= EndOf(crc, p) == end + |SpotBytes(crc, Padded(p))| <= |file|
    ensures file[EndOf(crc, p)..] == LogBytes(crc, EndOf(crc, p), more)
  {
    TailAtBlock(crc, file, p, more, end);
    hide SpotBytes, LogBytes, EndOf, SameFrom, Pad;
    assert file[end..] == file[end..|file|];
    TwoParts(file, end, |file|, SpotBytes(crc, Padded(p)), LogBytes(crc, EndOf(crc, p), more));
    assert file[EndOf(crc, p)..] == file[EndOf(crc, p)..|file|];
  }

  lemma PaddedIs(p: Spot)
    ensures Padded(p).at == Header(p) && Padded(p).begin == p.begin && Padded(p).left == p.left
  {
  }

  lemma OrphansAtBlock(crc: Checksum, checksum: bool, file: Bytes, p: Spot, more: seq<Bytes>, end: nat,
      reports: seq<nat>)
    requires SameFrom(crc, file, p, more, end) && Header(p) == end && !p.begin && end <= |file|
    ensures ReadAll(crc, checksum, file, end, reports) == Recovered(more, reports + Sizes(p))
  {
    hide *;
    OrphanLies(crc, file, p, more, end);
    PadAway(crc, p);
    PaddedIs(p);
    SkipOrphans(crc, checksum, file, Padded(p), reports);
    SameAssembly(crc, checksum, file, end, EndOf(crc, p), reports, reports + Sizes(p));
    ReadsRest(crc, checksum, file, EndOf(crc, p), more, reports + Sizes(p));
  }

  /** The records that are read again and the sizes reported, from the end of the damaged block on. */
  function Rest(crc: Checksum, p: Spot, more: seq<Bytes>, end: nat, reports: seq<nat>): Recovered {
    Recovered((if p.begin && Header(p) >= end then [p.left] else []) + more[BegunBefore(crc, EndOf(crc, p), more, end)..],
              reports + Leftover(p, end) + Straddling(crc, EndOf(crc, p), more, end))
  }

  lemma RestAtBlock(crc: Checksum, p: Spot, more: seq<Bytes>, end: nat, reports: seq<nat>)
    requires Header(p) == end
    ensures Rest(crc, p, more, end, reports) ==
            if p.begin then Recovered([p.left] + more, reports) else Recovered(more, reports + Sizes(p))
  {
    PadAway(crc, p);
    NoneBegun(crc, EndOf(crc, p), more, end);
    hide SpotBytes, Pad, Sizes, BegunBefore, Straddling;
    assert more[0..] == more && [] + more == more && reports + [] == reports;
    assert reports + Sizes(p) + [] == reports + Sizes(p) && reports + [] + [] == reports;
  }

  lemma RestOnward(crc: Checksum, p: Spot, more: seq<Bytes>, end: nat, reports: seq<nat>)
    requires Header(p) < end && Goes(p)
    ensures Rest(crc, p, more, end, reports) == Rest(crc, Onward(p), more, end, reports)
  {
    SpotUnfold(crc, p);
    Later(p);
    hide SpotBytes, Pad, Sizes, BegunBefore, Straddling, Room, Cut;
  }

  lemma RestNext(crc: Checksum, p: Spot, more: seq<Bytes>, end: nat, reports: seq<nat>)
    requires Header(p) < end && !Goes(p) && more != []
    ensures Rest(crc, p, more, end, reports) == Rest(crc, Spot(EndOf(crc, p), more[0], true), more[1..], end, reports)
  {
    var q := Spot(EndOf(crc, p), more[0], true);
    assert EndOf(crc, q) == NextStart(crc, EndOf(crc, p), more[0]);
    assert EndOf(crc, q) >= Header(q) by {
      SpotUnfold(crc, q);
    }
    hide SpotBytes, Pad, Sizes, Room, Cut, RecordBytes;
    var l, t := Leftover(q, end), Straddling(crc, EndOf(crc, q), more[1..], end);
    assert reports + [] == reports;
    if Header(q) >= end {
      NoneBegun(crc, EndOf(crc, q), more[1..], end);
      assert [more[0]] + more[1..][0..] == more[0..];
    } else {
      Assoc'(reports, l, t);
      assert more[1..][BegunBefore(crc, EndOf(crc, q), more[1..], end)..] ==
          more[BegunBefore(crc, EndOf(crc, q), more[1..], end) + 1..];
    }
  }

  lemma Assoc'(a: seq<nat>, b: seq<nat>, c: seq<nat>)
    ensures a + b + c == a + (b + c)
  {
  }

  lemma TailOnward(crc: Checksum, file: Bytes, p: Spot, more: seq<Bytes>, end: nat)
    requires SameFrom(crc, file, p, more, end) && Goes(p) && p.at + |PieceBytes(crc, p)| <= end
    ensures SameFrom(crc, file, Onward(p), more, end) && EndOf(crc, Onward(p)) == EndOf(crc, p)
  {
    SpotUnfold(crc, p);
    var f, r, l := PieceBytes(crc, p), SpotBytes(crc, Onward(p)), LogBytes(crc, EndOf(crc, p), more);
    hide SpotBytes, LogBytes, Pad, Room, Cut;
    Assoc(f, r, l);
    assert (f + (r + l))[end - p.at..] == (r + l)[end - p.at - |f|..];
  }

  lemma TailNext(crc: Checksum, file: Bytes, p: Spot, more: seq<Bytes>, end: nat)
    requires SameFrom(crc, file, p, more, end) && !Goes(p) && p.at + |PieceBytes(crc, p)| <= end < |file|
    ensures more != [] && EndOf(crc, p) == p.at + |PieceBytes(crc, p)|
    ensures SameFrom(crc, file, Spot(EndOf(crc, p), more[0], true), more[1..], end)
  {
    SpotUnfold(crc, p);
    var f, e := PieceBytes(crc, p), EndOf(crc, p);
    assert LogBytes(crc, e, more) != [];
    var q := Spot(e, more[0], true);
    assert LogBytes(crc, e, more) == Tail(crc, q, more[1..]) by { hide RecordBytes; }
    hide SpotBytes, LogBytes, Pad, Room, Cut, EndOf;
    assert (f + LogBytes(crc, e, more))[end - p.at..] == LogBytes(crc, e, more)[end - e..];
  }

  /** Reading on from the end of the block: what is left of a record that began before is dropped piece by piece, and
    every record that begins there or later is read. */
  lemma {:induction false} AfterBlock(crc: Checksum, checksum: bool, file: Bytes, p: Spot, more: seq<Bytes>, end: nat,
      reports: seq<nat>)
    requires end % BLOCK == 0 && p.at <= end <= p.at + BLOCK && end < |file| && SameFrom(crc, file, p, more, end)
    ensures ReadAll(crc, checksum, file, end, reports) == Rest(crc, p, more, end, reports)
    decreases |more|, |p.left|, if Room(p.at) == 0 then 1 else 0
  {
    hide *;
    if Header(p) >= end {
      HeaderAtEnd(p, end);
      RestAtBlock(crc, p, more, end, reports);
      if p.begin {
        BeginsAtBlock(crc, checksum, file, p, more, end, reports);
      } else {
        OrphansAtBlock(crc, checksum, file, p, more, end, reports);
      }
    } else {
      PieceInBlock(crc, p, end);
      if Goes(p) {
        Later(p);
        OnwardAt(crc, p);
        TailOnward(crc, file, p, more, end);
        RestOnward(crc, p, more, end, reports);
        AfterBlock(crc, checksum, file, Onward(p), more, end, reports);
      } else {
        TailNext(crc, file, p, more, end);
        RestNext(crc, p, more, end, reports);
        AfterBlock(crc, checksum, file, Spot(EndOf(crc, p), more[0], true), more[1..], end, reports);
      }
    }
  }

  lemma OnwardAt(crc: Checksum, p: Spot)
    requires Goes(p)
    ensures Onward(p).at == p.at + |PieceBytes(crc, p)| && |Onward(p).left| == |p.left| - Piecelen(p)
  {
  }

  // ----- the whole file

  lemma ReadsOne(crc: Checksum, checksum: bool, file: Bytes, at: nat, data: Bytes, reports: seq<nat>)
    requires LiesAt(crc, file, Spot(at, data, true)) && at <= NextStart(crc, at, data) <= |file|
    ensures var rest := ReadAll(crc, checksum, file, NextStart(crc, at, data), reports);
            ReadAll(crc, checksum, file, at, reports) == Recovered([data] + rest.records, rest.reports)
  {
    hide RecordBytes, Assemble;
    AssembleWhole(crc, checksum, file, at, data, true, Assembly([], false, reports));
    assert [] + data == data;
  }

  ghost predicate LogLiesAt(crc: Checksum, file: Bytes, at: nat, recs: seq<Bytes>) {
    var log := LogBytes(crc, at, recs);
    at + |log| <= |file| && file[at..at + |log|] == log
  }

  function LogEnd(crc: Checksum, at: nat, recs: seq<Bytes>): (e: nat)
    ensures at <= e
  {
    at + |LogBytes(crc, at, recs)|
  }

  lemma LogStep(crc: Checksum, at: nat, recs: seq<Bytes>)
    requires recs != []
    ensures LogBytes(crc, at, recs) ==
            SpotBytes(crc, Spot(at, recs[0], true)) + LogBytes(crc, NextStart(crc, at, recs[0]), recs[1..])
    ensures LogEnd(crc, at, recs) == LogEnd(crc, NextStart(crc, at, recs[0]), recs[1..])
    ensures NextStart(crc, at, recs[0]) == EndOf(crc, Spot(at, recs[0], true)) <= LogEnd(crc, at, recs)
    ensures at <= NextStart(crc, at, recs[0]) == at + |SpotBytes(crc, Spot(at, recs[0], true))|
  {
    hide RecordBytes;
  }

  lemma LogLiesOn(crc: Checksum, file: Bytes, at: nat, recs: seq<Bytes>)
    requires LogLiesAt(crc, file, at, recs) && recs != []
    ensures LiesAt(crc, file, Spot(at, recs[0], true)) && at <= NextStart(crc, at, recs[0]) <= |file|
    ensures LogLiesAt(crc, file, NextStart(crc, at, recs[0]), recs[1..])
    ensures LogEnd(crc, at, recs) == LogEnd(crc, NextStart(crc, at, recs[0]), recs[1..]) <= |file|
  {
    LogStep(crc, at, recs);
    hide LogBytes, NextStart, EndOf, SpotBytes;
    TwoParts(file, at, LogEnd(crc, at, recs), SpotBytes(crc, Spot(at, recs[0], true)),
             LogBytes(crc, NextStart(crc, at, recs[0]), recs[1..]));
  }

  lemma EmptyLog(crc: Checksum, at: nat)
    ensures LogEnd(crc, at, []) == at
  {
  }

  lemma {:induction false} ReadsWhole(crc: Checksum, checksum: bool, file: Bytes, at: nat, recs: seq<Bytes>,
      reports: seq<nat>)
    requires LogLiesAt(crc, file, at, recs) && at <= LogEnd(crc, at, recs) <= |file|
    ensures var rest := ReadAll(crc, checksum, file, LogEnd(crc, at, recs), reports);
            ReadAll(crc, checksum, file, at, reports) == Recovered(recs + rest.records, rest.reports)
    decreases recs
  {
    hide *;
    var rest := ReadAll(crc, checksum, file, LogEnd(crc, at, recs), reports);
    if recs == [] {
      EmptyLog(crc, at);
      assert [] + rest.records == rest.records;
    } else {
      LogLiesOn(crc, file, at, recs);
      ReadsOne(crc, checksum, file, at, recs[0], reports);
      ReadsWhole(crc, checksum, file, NextStart(crc, at, recs[0]), recs[1..], reports);
      assert [recs[0]] + (recs[1..] + rest.records) == recs + rest.records;
    }
  }

  /** The size of what had been read of the record. */
  function GivenUp(p: Spot, q: Spot): seq<nat> {
    if p == q || |q.left| > |p.left| then [] else [|p.left| - |q.left|]
  }

  /** The damaged fragment ends the block: what was gathered of its record is given up. */
  lemma DamageAt(crc: Checksum, file: Bytes, p: Spot, q: Spot, stop: nat, reports: seq<nat>)
    requires p.begin && Reaches(p, q) && q.at <= |file| && LiesUpTo(crc, file, p, q.at)
    requires Header(q) <= stop == Min(BlockEnd(Header(q)), |file|)
    requires Mismatched(crc, file[Header(q)..stop], |file| < BlockEnd(Header(q)))
    requires |q.left| <= |p.left| && p.at <= |file|
    ensures Assemble(crc, true, file, p.at, Assembly([], false, reports)) ==
            Assemble(crc, true, file, stop, Assembly([], false, reports + [stop - Header(q)] + GivenUp(p, q)))
  {
    Damaged(crc, file, q, stop);
    hide *;
    AssembleTo(crc, true, file, p, q, Assembly([], false, reports));
    TakeTurn(crc, true, file, q.at, AtSpot(p, q, Assembly([], false, reports)));
    GivesUp(p, q, stop, reports);
  }

  lemma Damaged(crc: Checksum, file: Bytes, q: Spot, stop: nat)
    requires q.at <= |file|
    requires Header(q) <= stop == Min(BlockEnd(Header(q)), |file|)
    requires Mismatched(crc, file[Header(q)..stop], |file| < BlockEnd(Header(q)))
    ensures Parse(crc, true, file, q.at) == Found(BAD, [], stop, [stop - Header(q)]) && stop <= |file|
  {
    ParseMismatched(crc, file, q.at);
    hide Pad, BlockEnd, Mismatched, Parse;
  }

  lemma GivesUp(p: Spot, q: Spot, stop: nat, reports: seq<nat>)
    requires |q.left| <= |p.left| && Header(q) <= stop
    ensures Absorb(AtSpot(p, q, Assembly([], false, reports)), Found(BAD, [], stop, [stop - Header(q)])) ==
            More(Assembly([], false, reports + [stop - Header(q)] + GivenUp(p, q)))
  {
    assert reports + [stop - Header(q)] + [] == reports + [stop - Header(q)];
  }

  lemma {:induction false} LeftoverNone(crc: Checksum, p: Spot, end: nat)
    requires EndOf(crc, p) <= end
    ensures Header(p) < end && Leftover(p, end) == []
    decreases |p.left|, if Room(p.at) == 0 then 1 else 0
  {
    SpotUnfold(crc, p);
    if Goes(p) {
      Later(p);
      OnwardAt(crc, p);
      hide Pad, Room, Cut, SpotBytes;
      LeftoverNone(crc, Onward(p), end);
    }
  }

  /** Nothing straddles the end of the log. */
  lemma {:induction false} AllBegun(crc: Checksum, at: nat, recs: seq<Bytes>, end: nat)
    requires LogEnd(crc, at, recs) <= end
    ensures BegunBefore(crc, at, recs, end) == |recs| && Straddling(crc, at, recs, end) == []
    decreases recs
  {
    if recs != [] {
      LogStep(crc, at, recs);
      LeftoverNone(crc, Spot(at, recs[0], true), end);
      hide Pad, RecordBytes, LogBytes;
      AllBegun(crc, NextStart(crc, at, recs[0]), recs[1..], end);
    }
  }

  /** The records before the damaged one are over when it begins. */
  lemma {:induction false} PastBefore(crc: Checksum, at: nat, recs: seq<Bytes>, i: nat, end: nat)
    requires i < |recs| && LogEnd(crc, at, recs[..i]) + Pad(LogEnd(crc, at, recs[..i])) < end
    ensures var p := Spot(LogEnd(crc, at, recs[..i]), recs[i], true);
            && BegunBefore(crc, at, recs, end) == i + 1 + BegunBefore(crc, EndOf(crc, p), recs[i + 1..], end)
            && Straddling(crc, at, recs, end) == Leftover(p, end) + Straddling(crc, EndOf(crc, p), recs[i + 1..], end)
    decreases recs
  {
    LogStep(crc, at, recs);
    if i == 0 {
      EmptyLog(crc, at);
      assert recs[..0] == [];
    } else {
      var next := NextStart(crc, at, recs[0]);
      assert recs[..i][1..] == recs[1..][..i - 1] && recs[1..][i..] == recs[i + 1..];
      LogStep(crc, at, recs[..i]);
      hide LogEnd, Pad;
      LeftoverNone(crc, Spot(at, recs[0], true), end);
      PastBefore(crc, next, recs[1..], i - 1, end);
      hide EndOf, NextStart, Leftover;
    }
  }

  lemma {:induction false} LeftoverFrom(crc: Checksum, p: Spot, q: Spot, end: nat)
    requires Reaches(p, q) && Header(q) < end
    ensures Leftover(p, end) == Leftover(q, end) && Header(p) <= Header(q)
    decreases |p.left|, if Room(p.at) == 0 then 1 else 0
  {
    if p != q {
      ReachesNext(crc, p, q);
      Later(p);
      assert Onward(p).at >= Header(p);
      hide Pad, Room, Cut;
      LeftoverFrom(crc, Onward(p), q, end);
    }
  }

  lemma LeftoverPadded(p: Spot, end: nat)
    ensures Leftover(Padded(p), end) == Leftover(p, end)
  {
    PaddedSame(p);
    SizesOf(p);
    SizesOf(Padded(p));
    hide Pad, Room, Cut, Piecelen;
  }

  /** What is still to be written at a later spot of a record. */
  lemma {:induction false} TailReached(crc: Checksum, p: Spot, q: Spot, more: seq<Bytes>)
    requires Reaches(p, q) && p.at <= q.at && q.at - p.at <= |Tail(crc, p, more)|
    ensures Tail(crc, p, more)[q.at - p.at..] == Tail(crc, q, more) && EndOf(crc, p) == EndOf(crc, q)
    decreases |p.left|, if Room(p.at) == 0 then 1 else 0
  {
    if p != q {
      ReachesNext(crc, p, q);
      SpotUnfold(crc, p);
      Later(p);
      var f := PieceBytes(crc, p);
      assert EndOf(crc, p) == EndOf(crc, Onward(p));
      Assoc(f, SpotBytes(crc, Onward(p)), LogBytes(crc, EndOf(crc, p), more));
      assert Tail(crc, p, more) == f + Tail(crc, Onward(p), more);
      hide Pad, Room, Cut, SpotBytes, Tail, EndOf, LogBytes, Reaches;
      TailReached(crc, Onward(p), q, more);
      assert (f + Tail(crc, Onward(p), more))[q.at - p.at..] == Tail(crc, Onward(p), more)[q.at - p.at - |f|..];
    }
  }

  lemma LogSplitFirst(crc: Checksum, at: nat, recs: seq<Bytes>)
    requires recs != []
    ensures LogBytes(crc, at, recs) == LogBytes(crc, at, recs[..0]) +
        Tail(crc, Spot(LogEnd(crc, at, recs[..0]), recs[0], true), recs[1..])
  {
    NothingLogged(crc, at);
    LogStep(crc, at, recs);
    hide LogBytes, LogEnd, SpotBytes, EndOf;
    assert recs[..0] == [];
  }

  lemma NothingLogged(crc: Checksum, at: nat)
    ensures LogBytes(crc, at, []) == [] && LogEnd(crc, at, []) == at
  {
  }

  lemma {:induction false} LogSplit(crc: Checksum, at: nat, recs: seq<Bytes>, i: nat)
    requires i < |recs|
    ensures LogBytes(crc, at, recs) == LogBytes(crc, at, recs[..i]) +
        Tail(crc, Spot(LogEnd(crc, at, recs[..i]), recs[i], true), recs[i + 1..])
    decreases recs
  {
    hide *;
    if i == 0 {
      LogSplitFirst(crc, at, recs);
    } else {
      LogStep(crc, at, recs);
      LogStep(crc, at, recs[..i]);
      Sliced(recs, i);
      LogSplit(crc, NextStart(crc, at, recs[0]), recs[1..], i - 1);
      Assoc(SpotBytes(crc, Spot(at, recs[0], true)), LogBytes(crc, NextStart(crc, at, recs[0]), recs[1..][..i - 1]),
            Tail(crc, Spot(LogEnd(crc, at, recs[..i]), recs[i], true), recs[i + 1..]));
    }
  }

  lemma Sliced(recs: seq<Bytes>, i: nat)
    requires 0 < i < |recs|
    ensures recs[..i][1..] == recs[1..][..i - 1] && recs[1..][i..] == recs[i + 1..] && recs[1..][i - 1] == recs[i]
    ensures recs[..i][0] == recs[0]
  {
  }

  /** Where the i-th record begins. */
  function StartOf(crc: Checksum, recs: seq<Bytes>, i: nat): Spot
    requires i < |recs|
  {
    Spot(LogEnd(crc, 0, recs[..i]), recs[i], true)
  }

  function BlockStop(q: Spot, length: nat): nat { Min(BlockEnd(Header(q)), length) }

  /** The log of the records, but for bytes from the header of one fragment to the end of its block, which fail the
    check there. */
  ghost predicate Damaging(crc: Checksum, recs: seq<Bytes>, i: nat, q: Spot, file: Bytes) {
    var log, s, stop := LogBytes(crc, 0, recs), Header(q), BlockStop(q, |file|);
    && i < |recs| && Reaches(StartOf(crc, recs, i), q) && |file| == |log| && s <= stop
    && file[..s] == log[..s] && file[stop..] == log[stop..] && Mismatched(crc, file[s..stop], |file| < BlockEnd(s))
  }

  lemma SamePrefix(a: Bytes, b: Bytes, s: nat, i: nat, j: nat)
    requires i <= j <= s <= |a| && s <= |b| && a[..s] == b[..s]
    ensures a[i..j] == b[i..j]
  {
    assert a[..s][i..j] == a[i..j] && b[..s][i..j] == b[i..j];
  }

  /** Up to the damage the file is the log. */
  lemma BeforeDamage(crc: Checksum, recs: seq<Bytes>, i: nat, q: Spot, file: Bytes)
    requires Damaging(crc, recs, i, q, file)
    ensures var p := StartOf(crc, recs, i);
            && LogLiesAt(crc, file, 0, recs[..i]) && LogEnd(crc, 0, recs[..i]) == p.at <= q.at <= |file|
            && LiesUpTo(crc, file, p, q.at) && |q.left| <= |p.left|
  {
    var p, log := StartOf(crc, recs, i), LogBytes(crc, 0, recs);
    LogSplit(crc, 0, recs, i);
    ReachesOn(crc, p, q);
    var x, t := LogBytes(crc, 0, recs[..i]), SpotBytes(crc, p);
    var l := LogBytes(crc, EndOf(crc, p), recs[i + 1..]);
    hide LogBytes, SpotBytes, Pad, Reaches, Mismatched, BlockEnd;
    assert q.at <= Header(q);
    SamePrefix(file, log, Header(q), 0, p.at);
    SamePrefix(file, log, Header(q), p.at, q.at);
    FirstTwo(x, t, l, q.at);
  }

  lemma FirstTwo(x: Bytes, t: Bytes, l: Bytes, n: nat)
    requires |x| <= n <= |x| + |t|
    ensures (x + (t + l))[0..|x|] == x && (x + (t + l))[|x|..n] == t[..n - |x|]
  {
  }

  /** From the end of the block on it is too. */
  lemma AfterDamage(crc: Checksum, recs: seq<Bytes>, i: nat, q: Spot, file: Bytes)
    requires i < |recs| && Damaging(crc, recs, i, q, file)
    ensures SameFrom(crc, file, Padded(q), recs[i + 1..], BlockStop(q, |file|))
    ensures EndOf(crc, Padded(q)) == EndOf(crc, StartOf(crc, recs, i))
  {
    hide *;
    var p, more, stop := StartOf(crc, recs, i), recs[i + 1..], BlockStop(q, |file|);
    var log, x, t := LogBytes(crc, 0, recs), LogBytes(crc, 0, recs[..i]), Tail(crc, p, more);
    DamagingTail(crc, recs, i, q, file);
    LogSplit(crc, 0, recs, i);
    ReachesOn(crc, p, q);
    TailLength(crc, p, q, more);
    TailReached(crc, p, q, more);
    PadAway(crc, q);
    TailPadded(crc, q, more);
    PaddedIs(q);
    DropThrice(x, t, q.at - p.at, Pad(q.at), stop);
    FromPadded(crc, file, q, more, stop);
  }

  lemma DamagingTail(crc: Checksum, recs: seq<Bytes>, i: nat, q: Spot, file: Bytes)
    requires i < |recs| && Damaging(crc, recs, i, q, file)
    ensures var p, stop, log := StartOf(crc, recs, i), BlockStop(q, |file|), LogBytes(crc, 0, recs);
            && Reaches(p, q) && p == Spot(LogEnd(crc, 0, recs[..i]), recs[i], true)
            && p.at == |LogBytes(crc, 0, recs[..i])| && |file| == |log| && q.at + Pad(q.at) <= stop <= |file|
            && file[stop..] == log[stop..]
  {
    hide LogBytes, Reaches, Mismatched, Pad, BlockEnd;
  }

  lemma TailLength(crc: Checksum, p: Spot, q: Spot, more: seq<Bytes>)
    requires p.at <= q.at <= p.at + |SpotBytes(crc, p)|
    ensures q.at - p.at <= |Tail(crc, p, more)|
  {
    hide SpotBytes, LogBytes;
  }

  lemma FromPadded(crc: Checksum, file: Bytes, q: Spot, more: seq<Bytes>, stop: nat)
    requires q.at + Pad(q.at) <= stop <= |file| == q.at + Pad(q.at) + |Tail(crc, Padded(q), more)|
    requires file[stop..] == Tail(crc, Padded(q), more)[stop - q.at - Pad(q.at)..]
    ensures SameFrom(crc, file, Padded(q), more, stop)
  {
    hide Tail, Pad;
  }

  lemma DropThrice(x: Bytes, t: Bytes, d: nat, n: nat, stop: nat)
    requires |x| + d + n <= stop <= |x| + |t|
    ensures (x + t)[stop..] == t[d..][n..][stop - |x| - d - n..]
  {
  }

  lemma TailPadded(crc: Checksum, q: Spot, more: seq<Bytes>)
    ensures Tail(crc, q, more) == Zeros(Pad(q.at)) + Tail(crc, Padded(q), more)
  {
    PadAway(crc, q);
    hide SpotBytes, Pad, LogBytes;
    Assoc(Zeros(Pad(q.at)), SpotBytes(crc, Padded(q)), LogBytes(crc, EndOf(crc, q), more));
  }

  lemma DamageRead(crc: Checksum, recs: seq<Bytes>, i: nat, q: Spot, file: Bytes)
    requires i < |recs| && Damaging(crc, recs, i, q, file)
    ensures var stop := BlockStop(q, |file|);
            var rest := ReadAll(crc, true, file, stop, [stop - Header(q)] + GivenUp(StartOf(crc, recs, i), q));
            ReadAll(crc, true, file, 0, []) == Recovered(recs[..i] + rest.records, rest.reports)
  {
    hide *;
    var p, stop := StartOf(crc, recs, i), BlockStop(q, |file|);
    BeforeDamage(crc, recs, i, q, file);
    DamagingParts(crc, recs, i, q, file);
    DamageAt(crc, file, p, q, stop, []);
    Nothing(stop - Header(q));
    SameAssembly(crc, true, file, p.at, stop, [], [stop - Header(q)] + GivenUp(p, q));
    ReadsWhole(crc, true, file, 0, recs[..i], []);
  }

  lemma Nothing(n: nat)
    ensures [] + [n] == [n]
  {
  }

  lemma DamagingParts(crc: Checksum, recs: seq<Bytes>, i: nat, q: Spot, file: Bytes)
    requires Damaging(crc, recs, i, q, file)
    ensures var p, stop := StartOf(crc, recs, i), BlockStop(q, |file|);
            && p.begin && p.left == recs[i] && p.at == LogEnd(crc, 0, recs[..i]) && Reaches(p, q)
            && Header(q) <= stop == Min(BlockEnd(Header(q)), |file|) <= |file|
            && Mismatched(crc, file[Header(q)..stop], |file| < BlockEnd(Header(q))) && |file| == LogEnd(crc, 0, recs)
  {
    hide Reaches, Mismatched, LogBytes;
  }

  lemma StopInBlock(q: Spot, length: nat)
    ensures var stop := BlockStop(q, length);
            stop < length ==> stop % BLOCK == 0 && Header(q) < stop <= Header(q) + BLOCK
  {
    hide Pad;
  }

  /** One damaged fragment of a log.  The reader reports the rest of its block, then what it had of the record, then one
    by one the fragments in later blocks of the record that crosses the end of the block.  It gives all records before
    the damaged one and all records that begin in a later block, and no other. */
  lemma OneDamagedFragment(crc: Checksum, recs: seq<Bytes>, i: nat, q: Spot, file: Bytes)
    requires i < |recs| && Damaging(crc, recs, i, q, file)
    ensures var stop := BlockStop(q, |file|);
            ReadAll(crc, true, file, 0, []) ==
              Recovered(recs[..i] + recs[BegunBefore(crc, 0, recs, stop)..],
                        [stop - Header(q)] + GivenUp(StartOf(crc, recs, i), q) + Straddling(crc, 0, recs, stop))
    ensures i < BegunBefore(crc, 0, recs, BlockStop(q, |file|))
  {
    hide *;
    var p, stop := StartOf(crc, recs, i), BlockStop(q, |file|);
    var reports := [stop - Header(q)] + GivenUp(p, q);
    DamageRead(crc, recs, i, q, file);
    DamagingParts(crc, recs, i, q, file);
    StopInBlock(q, |file|);
    if stop == |file| {
      AllBegun(crc, 0, recs, stop);
      AtTheEnd(crc, true, file, reports);
      NothingAfter(recs, reports);
    } else {
      PaddedIs(q);
      AfterDamage(crc, recs, i, q, file);
      AfterBlock(crc, true, file, Padded(q), recs[i + 1..], stop, reports);
      DamageRest(crc, recs, i, q, stop, reports);
    }
  }

  lemma DamageRest(crc: Checksum, recs: seq<Bytes>, i: nat, q: Spot, stop: nat, reports: seq<nat>)
    requires i < |recs| && Reaches(StartOf(crc, recs, i), q) && Header(q) < stop
    requires EndOf(crc, Padded(q)) == EndOf(crc, StartOf(crc, recs, i))
    ensures i < BegunBefore(crc, 0, recs, stop)
    ensures Rest(crc, Padded(q), recs[i + 1..], stop, reports) ==
            Recovered(recs[BegunBefore(crc, 0, recs, stop)..], reports + Straddling(crc, 0, recs, stop))
  {
    var p := StartOf(crc, recs, i);
    LeftoverFrom(crc, p, q, stop);
    LeftoverPadded(q, stop);
    PaddedSame(q);
    PastBefore(crc, 0, recs, i, stop);
    hide Leftover, Straddling, BegunBefore, Pad, Padded, EndOf, Reaches, LogEnd;
    var k := BegunBefore(crc, EndOf(crc, p), recs[i + 1..], stop);
    assert [] + recs[i + 1..][k..] == recs[i + 1 + k..];
    Assoc'(reports, Leftover(q, stop), Straddling(crc, EndOf(crc, p), recs[i + 1..], stop));
  }

  lemma NothingAfter(recs: seq<Bytes>, reports: seq<nat>)
    ensures recs[|recs|..] == [] && reports + [] == reports
  {
  }

  lemma OneRecordLog(crc: Checksum, data: Bytes)
    requires |data| <= BLOCK - HEADER
    ensures LogBytes(crc, 0, [data]) == Physical(crc, FULL, data)
    ensures StartOf(crc, [data], 0) == Spot(0, data, true) && BlockStop(Spot(0, data, true), HEADER + |data|) ==
        HEADER + |data|
  {
    var q, f := Spot(0, data, true), Physical(crc, FULL, data);
    LogSplitFirst(crc, 0, [data]);
    assert [data][..0] == [] && LogEnd(crc, 0, []) == 0;
    SpotUnfold(crc, q);
    assert !Goes(q) && data[..|data|] == data && Zeros(0) + f == f && PieceBytes(crc, q) == f;
    assert LogBytes(crc, |f|, []) == [];
  }

  lemma ChangedMismatches(crc: Checksum, data: Bytes, other: Bytes, eof: bool)
    requires |data| == |other| <= BLOCK - HEADER && crc(FULL, data) != crc(FULL, other)
    ensures Mismatched(crc, Physical(crc, FULL, data)[..HEADER] + other, eof)
  {
    var f := Physical(crc, FULL, data);
    HeaderFields(crc, FULL, data);
    hide Physical, Mask, Unmask, UnFixed;
    var file := f[..HEADER] + other;
    assert file[..4] == f[..4] && file[HEADER..] == other && file[HEADER..HEADER + |data|] == other;
  }

  lemma ChangedDamages(crc: Checksum, data: Bytes, other: Bytes)
    requires |data| == |other| <= BLOCK - HEADER && crc(FULL, data) != crc(FULL, other)
    ensures |LogBytes(crc, 0, [data])| == HEADER + |data|
    ensures var file := LogBytes(crc, 0, [data])[..HEADER] + other;
            Damaging(crc, [data], 0, Spot(0, data, true), file) && BlockStop(Spot(0, data, true), |file|) == |file|
    ensures Header(Spot(0, data, true)) == 0 && StartOf(crc, [data], 0) == Spot(0, data, true)
    ensures LogEnd(crc, 0, [data]) == HEADER + |data|
  {
    var log, q := LogBytes(crc, 0, [data]), Spot(0, data, true);
    OneRecordLog(crc, data);
    ChangedMismatches(crc, data, other, |log| < BlockEnd(Header(q)));
    hide Physical, Mismatched, ReadAll, LogBytes;
    var file := log[..HEADER] + other;
    assert file[0..|file|] == file && file[..0] == log[..0] && file[|file|..] == log[|file|..];
  }

  lemma NothingGivenUp(p: Spot)
    ensures GivenUp(p, p) == []
  {
  }

  /** A log of one record whose payload was changed and nothing else. */
  lemma ChangedPayload(crc: Checksum, data: Bytes, other: Bytes)
    requires |data| == |other| <= BLOCK - HEADER && crc(FULL, data) != crc(FULL, other)
    ensures |LogBytes(crc, 0, [data])| == HEADER + |data|
    ensures ReadAll(crc, true, LogBytes(crc, 0, [data])[..HEADER] + other, 0, []) == Recovered([], [HEADER + |data|])
  {
    hide *;
    ChangedDamages(crc, data, other);
    var file := LogBytes(crc, 0, [data])[..HEADER] + other;
    OneDamagedFragment(crc, [data], 0, Spot(0, data, true), file);
    NothingGivenUp(Spot(0, data, true));
    AllBegun(crc, 0, [data], |file|);
    assert [data][1..] == [] && [data][..0] == [];
  }

  // ----- what else may stand at the end of a log

  lemma ZeroHeader(crc: Checksum, checksum: bool, b: Bytes, eof: bool)
    requires |b| >= HEADER && forall i :: 0 <= i < |b| ==> b[i] == 0
    ensures ParseBuffer(crc, checksum, b, eof) == Found(BAD, [], |b|, [])
  {
  }

  lemma ZeroParsed(crc: Checksum, checksum: bool, file: Bytes, at: nat)
    requires at <= |file| && forall i :: at <= i < |file| ==> file[i] == 0
    ensures var f := Parse(crc, checksum, file, at);
            (f.kind == EOF || f.kind == BAD) && f.data == [] && f.reports == []
  {
    var s := at + Pad(at);
    var stop := Min(BlockEnd(s), |file|);
    if s + HEADER <= stop {
      hide Pad, BlockEnd, ParseBuffer;
      ZeroHeader(crc, checksum, file[s..stop], |file| < BlockEnd(s));
    }
  }

  /** Zeros, as a file that grew ahead of its writer has them at its end, hold no records and are not reported. */
  lemma {:induction false} ZeroTail(crc: Checksum, checksum: bool, file: Bytes, at: nat, reports: seq<nat>)
    requires at <= |file| && forall i :: at <= i < |file| ==> file[i] == 0
    ensures ReadAll(crc, checksum, file, at, reports) == Recovered([], reports)
    decreases |file| - at
  {
    ZeroParsed(crc, checksum, file, at);
    var f := Parse(crc, checksum, file, at);
    var a := Assembly([], false, reports);
    TakeTurn(crc, checksum, file, at, a);
    hide Parse, Assemble;
    assert reports + [] == reports;
    if f.kind == BAD {
      assert Absorb(a, f) == More(a);
      ZeroTail(crc, checksum, file, f.next, reports);
      SameAssembly(crc, checksum, file, at, f.next, reports, reports);
    }
  }

  /** A new record ends an unfinished one, whose fragments are reported. */
  lemma BeginsAnew(crc: Checksum, checksum: bool, file: Bytes, p: Spot, scratch: Bytes, reports: seq<nat>)
    requires p.begin && p.at <= |file| && scratch != []
    requires var f := PieceBytes(crc, p); p.at + |f| <= |file| && file[p.at..p.at + |f|] == f
    ensures Assemble(crc, checksum, file, p.at, Assembly(scratch, true, reports)) ==
            Assemble(crc, checksum, file, p.at, Assembly([], false, reports + [|scratch|]))
  {
    hide Pad, Room, Parse, Physical, PieceBytes, Assemble;
    AnyPieceParsed(crc, checksum, file, p);
    TakeTurn(crc, checksum, file, p.at, Assembly(scratch, true, reports));
    TakeTurn(crc, checksum, file, p.at, Assembly([], false, reports + [|scratch|]));
    assert reports + [] == reports && reports + [|scratch|] + [] == reports + [|scratch|];
  }

  /** A record of which only the first fragments were written, and then the records of a writer that took the file over:
    the fragments are reported, and nothing else is lost. */
  lemma TornThenAppended(crc: Checksum, checksum: bool, file: Bytes, p: Spot, q: Spot, recs: seq<Bytes>,
      reports: seq<nat>)
    requires p.begin && Reaches(p, q) && p.at <= |file| && q.at <= |file| && LiesUpTo(crc, file, p, q.at)
    requires |q.left| < |p.left| && recs != [] && file[q.at..] == LogBytes(crc, q.at, recs)
    ensures ReadAll(crc, checksum, file, p.at, reports) == Recovered(recs, reports + [|p.left| - |q.left|])
  {
    hide *;
    var n := |p.left| - |q.left|;
    FirstPiece(crc, file, q.at, recs);
    AssembleTo(crc, checksum, file, p, q, Assembly([], false, reports));
    Gained(p, q, reports);
    BeginsAnew(crc, checksum, file, Spot(q.at, recs[0], true), p.left[..n], reports);
    SameAssembly(crc, checksum, file, p.at, q.at, reports, reports + [n]);
    ReadsRest(crc, checksum, file, q.at, recs, reports + [n]);
  }

  lemma Gained(p: Spot, q: Spot, reports: seq<nat>)
    requires |q.left| < |p.left|
    ensures AtSpot(p, q, Assembly([], false, reports)) == Assembly(p.left[..|p.left| - |q.left|], true, reports)
  {
    assert [] + p.left[..|p.left| - |q.left|] == p.left[..|p.left| - |q.left|];
  }

  lemma FirstPiece(crc: Checksum, file: Bytes, at: nat, recs: seq<Bytes>)
    requires at <= |file| && recs != [] && file[at..] == LogBytes(crc, at, recs)
    ensures var f := PieceBytes(crc, Spot(at, recs[0], true)); at + |f| <= |file| && file[at..at + |f|] == f
  {
    LogStep(crc, at, recs);
    assert file[at..] == file[at..|file|];
    hide LogBytes, SpotBytes;
    TwoParts(file, at, |file|, SpotBytes(crc, Spot(at, recs[0], true)), LogBytes(crc, NextStart(crc, at, recs[0]), recs[1..]));
    LiesOn(crc, file, Spot(at, recs[0], true));
  }

  // ----- a type that no writer writes

  lemma UnknownParsed(crc: Checksum, kind: Byte, data: Bytes)
    requires |data| <= BLOCK - HEADER && kind > 6
    ensures Parse(crc, true, Physical(crc, kind, data), 0) == Found(TypeOf(kind), data, HEADER + |data|, [])
  {
    var file := Physical(crc, kind, data);
    HeaderFields(crc, kind, data);
    hide Physical, Mask, Unmask, UnFixed;
    assert file[0..|file|] == file;
  }

  /** A fragment of an unknown type is reported and passed over, though its checksum is right. */
  lemma UnknownType(crc: Checksum, kind: Byte, data: Bytes)
    requires |data| <= BLOCK - HEADER && kind > 6
    ensures ReadAll(crc, true, Physical(crc, kind, data), 0, []) == Recovered([], [|data|])
  {
    var file, a := Physical(crc, kind, data), Assembly([], false, []);
    UnknownParsed(crc, kind, data);
    TakeTurn(crc, true, file, 0, a);
    hide Physical, Parse, Assemble;
    assert Absorb(a, Parse(crc, true, file, 0)) == More(Assembly([], false, [|data|]));
    SameAssembly(crc, true, file, 0, |file|, [], [|data|]);
    AtTheEnd(crc, true, file, [|data|]);
  }

  // ----- checksums off

  lemma ParseUnchecked(crc: Checksum, other: Checksum, file: Bytes, at: nat)
    requires at <= |file|
    ensures Parse(crc, false, file, at) == Parse(other, false, file, at)
  {
    hide Pad, BlockEnd;
  }

  lemma {:induction false} AssembleUnchecked(crc: Checksum, other: Checksum, file: Bytes, at: nat, a: Assembly)
    requires at <= |file|
    ensures Assemble(crc, false, file, at, a) == Assemble(other, false, file, at, a)
    decreases |file| - at
  {
    ParseUnchecked(crc, other, file, at);
    hide Parse;
    var f := Parse(crc, false, file, at);
    if Absorb(a, f).More? { AssembleUnchecked(crc, other, file, f.next, Absorb(a, f).assembly); }
  }

  lemma {:induction false} ReadUnchecked(crc: Checksum, other: Checksum, file: Bytes, at: nat, reports: seq<nat>)
    requires at <= |file|
    ensures ReadAll(crc, false, file, at, reports) == ReadAll(other, false, file, at, reports)
    decreases |file| - at
  {
    AssembleUnchecked(crc, other, file, at, Assembly([], false, reports));
    hide Assemble;
    var l := Assemble(crc, false, file, at, Assembly([], false, reports));
    if l.record.Some? { ReadUnchecked(crc, other, file, l.next, l.reports); }
  }

  /** With checksums off a log reads back whatever its checksums are. */
  lemma ChecksumsOff(crc: Checksum, other: Checksum, recs: seq<Bytes>)
    ensures ReadAll(crc, false, LogBytes(other, 0, recs), 0, []) == Recovered(recs, [])
  {
    LogRoundTrip(other, false, recs);
    ReadUnchecked(crc, other, LogBytes(other, 0, recs), 0, []);
  }
}
