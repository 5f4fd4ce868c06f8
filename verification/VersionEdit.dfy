/** Version edits as the bytes of a manifest record. */
module VersionEdit {
  import opened Options
  import opened Coding

  const NUM_LEVELS: nat := 7

  const COMPARATOR: nat := 1
  const LOG_NUMBER: nat := 2
  const NEXT_FILE_NUMBER: nat := 3
  const LAST_SEQUENCE: nat := 4
  const COMPACT_CURSOR: nat := 5     // kCompactPointer
  const DELETED_FILE: nat := 6
  const NEW_FILE: nat := 7
  const PREV_LOG_NUMBER: nat := 9

  datatype NewFile = NewFile(level: nat, number: nat, size: nat, smallest: Bytes, largest: Bytes)

  /** The deleted files are a set kept in order of level and number. */
  datatype Edit = Edit(
    comparator: Option<Bytes>,
    logNumber: Option<nat>,
    prevLogNumber: Option<nat>,
    nextFile: Option<nat>,
    lastSequence: Option<nat>,
    pointers: seq<(nat, Bytes)>,
    deleted: seq<(nat, nat)>,
    added: seq<NewFile>)

  predicate Number(n: Option<nat>) { n.Some? ==> n.value < TWO64 }

  /** Internal keys are never empty. */
  predicate Key(k: Bytes) { k != [] && |k| < TWO32 }

  predicate Before(a: (nat, nat), b: (nat, nat)) { a.0 < b.0 || (a.0 == b.0 && a.1 < b.1) }

  predicate AddedFits(f: NewFile) {
    f.level < NUM_LEVELS && f.number < TWO64 && f.size < TWO64 && Key(f.smallest) && Key(f.largest)
  }

  predicate PointerFits(p: (nat, Bytes)) { p.0 < NUM_LEVELS && Key(p.1) }

  predicate DeletedFits(d: (nat, nat)) { d.0 < NUM_LEVELS && d.1 < TWO64 }

  ghost predicate Fits(e: Edit) {
    && (e.comparator.Some? ==> |e.comparator.value| < TWO32)
    && Number(e.logNumber) && Number(e.prevLogNumber) && Number(e.nextFile) && Number(e.lastSequence)
    && (forall i :: 0 <= i < |e.pointers| ==> PointerFits(e.pointers[i]))
    && (forall i :: 0 <= i < |e.deleted| ==> DeletedFits(e.deleted[i]))
    && Ascending(e.deleted)
    && (forall i :: 0 <= i < |e.added| ==> AddedFits(e.added[i]))
  }

  ghost predicate Ascending(d: seq<(nat, nat)>) {
    forall i, j :: 0 <= i < j < |d| ==> Before(d[i], d[j])
  }

  /** Clear leaves the compaction pointers alone. */
  function Cleared(e: Edit): Edit {
    Edit(None, None, None, None, None, e.pointers, [], [])
  }

  /** std::set insertion. */
  function Inserted(d: seq<(nat, nat)>, x: (nat, nat)): (r: seq<(nat, nat)>)
    ensures forall y :: y in r <==> y in d || y == x
  {
    if d == [] then [x]
    else if d[|d| - 1] == x then d
    else if Before(d[|d| - 1], x) then d + [x]
    else Inserted(d[..|d| - 1], x) + [d[|d| - 1]]
  }

  // ----- the fields of a record

  datatype Part =
    | Comparator(name: Bytes)
    | NumberPart(tag: nat, n: nat)
    | Pointer(p: (nat, Bytes))
    | Deleted(d: (nat, nat))
    | Added(f: NewFile)

  function PartBytes(p: Part): Bytes {
    match p
    case Comparator(name) => Varint(COMPARATOR) + Prefixed(name)
    case NumberPart(tag, n) => Varint(tag) + Varint(n)
    case Pointer(p) => Varint(COMPACT_CURSOR) + Varint(p.0) + Prefixed(p.1)
    case Deleted(d) => Varint(DELETED_FILE) + Varint(d.0) + Varint(d.1)
    case Added(f) =>
      Varint(NEW_FILE) + Varint(f.level) + Varint(f.number) + Varint(f.size) + Prefixed(f.smallest)
        + Prefixed(f.largest)
  }

  function PartsBytes(ps: seq<Part>): Bytes {
    if ps == [] then [] else PartsBytes(ps[..|ps| - 1]) + PartBytes(ps[|ps| - 1])
  }

  /** The optional fields. */
  function Head(e: Edit): seq<Part> {
    Names(e.comparator) + Numbers(LOG_NUMBER, e.logNumber) + Numbers(PREV_LOG_NUMBER, e.prevLogNumber)
    + Numbers(NEXT_FILE_NUMBER, e.nextFile) + Numbers(LAST_SEQUENCE, e.lastSequence)
  }

  function Names(o: Option<Bytes>): seq<Part> { if o.Some? then [Comparator(o.value)] else [] }

  function Numbers(tag: nat, o: Option<nat>): seq<Part> { if o.Some? then [NumberPart(tag, o.value)] else [] }

  function Pointers(e: Edit): seq<Part> { seq(|e.pointers|, i requires 0 <= i < |e.pointers| => Pointer(e.pointers[i])) }

  function Deletions(e: Edit): seq<Part> { seq(|e.deleted|, i requires 0 <= i < |e.deleted| => Deleted(e.deleted[i])) }

  function Additions(e: Edit): seq<Part> { seq(|e.added|, i requires 0 <= i < |e.added| => Added(e.added[i])) }

  /** The fields that are set, in the order they are written. */
  function Parts(e: Edit): seq<Part> { Head(e) + Pointers(e) + Deletions(e) + Additions(e) }

  predicate NumberTag(tag: nat) { tag == LOG_NUMBER || tag == PREV_LOG_NUMBER || tag == NEXT_FILE_NUMBER
      || tag == LAST_SEQUENCE }

  predicate PartFits(p: Part) {
    match p
    case Comparator(name) => |name| < TWO32
    case Pointer(p) => PointerFits(p)
    case Deleted(d) => DeletedFits(d)
    case Added(f) => AddedFits(f)
    case NumberPart(tag, n) => NumberTag(tag) && n < TWO64
  }

  function Apply(e: Edit, p: Part): Edit {
    match p
    case Comparator(name) => e.(comparator := Some(name))
    case NumberPart(tag, n) =>
      if tag == LOG_NUMBER then e.(logNumber := Some(n))
      else if tag == PREV_LOG_NUMBER then e.(prevLogNumber := Some(n))
      else if tag == NEXT_FILE_NUMBER then e.(nextFile := Some(n))
      else e.(lastSequence := Some(n))
    case Pointer(p) => e.(pointers := e.pointers + [p])
    case Deleted(d) => e.(deleted := Inserted(e.deleted, d))
    case Added(f) => e.(added := e.added + [f])
  }

  function ApplyAll(e: Edit, ps: seq<Part>): Edit {
    if ps == [] then e else Apply(ApplyAll(e, ps[..|ps| - 1]), ps[|ps| - 1])
  }

  // ----- reading

  function GetNumber(input: Bytes): (r: Option<(nat, Bytes)>)
    ensures r.Some? ==> |r.value.1| < |input|
  {
    var n := GetVarint64(input);
    if n.None? then None else Some((n.value.0, input[n.value.1..]))
  }

  function GetTag(input: Bytes): (r: Option<(nat, Bytes)>)
    ensures r.Some? ==> |r.value.1| < |input|
  {
    var n := GetVarint32(input);
    if n.None? then None else Some((n.value.0, input[n.value.1..]))
  }

  function GetLevel(input: Bytes): (r: Option<(nat, Bytes)>)
    ensures r.Some? ==> |r.value.1| < |input|
  {
    var n := GetTag(input);
    if n.None? || n.value.0 >= NUM_LEVELS then None else n
  }

  function GetInternalKey(input: Bytes): (r: Option<(Bytes, Bytes)>)
    ensures r.Some? ==> |r.value.1| < |input|
  {
    var k := GetPrefixed(input);
    if k.None? || k.value.0 == [] then None else k
  }

  /** The body of a field after its tag. */
  function GetPart(tag: nat, input: Bytes): (r: Option<(Part, Bytes)>)
    ensures r.Some? ==> |r.value.1| < |input|
  {
    if tag == COMPARATOR then
      var s := GetPrefixed(input);
      if s.None? then None else Some((Comparator(s.value.0), s.value.1))
    else if NumberTag(tag) then
      var n := GetNumber(input);
      if n.None? then None else Some((NumberPart(tag, n.value.0), n.value.1))
    else if tag == COMPACT_CURSOR then
      var l := GetLevel(input);
      if l.None? then None else
      var k := GetInternalKey(l.value.1);
      if k.None? then None else Some((Pointer((l.value.0, k.value.0)), k.value.1))
    else if tag == DELETED_FILE then
      var l := GetLevel(input);
      if l.None? then None else
      var n := GetNumber(l.value.1);
      if n.None? then None else Some((Deleted((l.value.0, n.value.0)), n.value.1))
    else if tag == NEW_FILE then GetNewFile(input)
    else None
  }

  function GetNewFile(input: Bytes): (r: Option<(Part, Bytes)>)
    ensures r.Some? ==> |r.value.1| < |input|
  {
    var l := GetLevel(input);
    if l.None? then None else
    var n := GetNumber(l.value.1);
    if n.None? then None else
    var z := GetNumber(n.value.1);
    if z.None? then None else
    var s := GetInternalKey(z.value.1);
    if s.None? then None else
    var g := GetInternalKey(s.value.1);
    if g.None? then None else Some((Added(NewFile(l.value.0, n.value.0, z.value.0, s.value.0, g.value.0)), g.value.1))
  }

  /** Fields until the input is used up; anything else is corruption. */
  function Decoded(e: Edit, input: Bytes): Option<Edit>
    decreases |input|
  {
    var tag := GetTag(input);
    if tag.None? then if input == [] then Some(e) else None
    else
      var p := GetPart(tag.value.0, tag.value.1);
      if p.None? then None else Decoded(Apply(e, p.value.0), p.value.1)
  }

  // ----- the round trip

  lemma NumberBack(n: nat, rest: Bytes)
    requires n < TWO64
    ensures GetNumber(Varint(n) + rest) == Some((n, rest))
  {
    Varint64RoundTrip(n, rest);
  }

  lemma TagBack(n: nat, rest: Bytes)
    requires n < TWO32
    ensures GetTag(Varint(n) + rest) == Some((n, rest))
  {
    Varint32RoundTrip(n, rest);
  }

  lemma KeyBack(k: Bytes, rest: Bytes)
    requires Key(k)
    ensures GetInternalKey(Prefixed(k) + rest) == Some((k, rest))
  {
    PrefixedRoundTrip(k, rest);
  }

  lemma PartBack(p: Part, rest: Bytes)
    requires PartFits(p)
    ensures var t := GetTag(PartBytes(p) + rest); t.Some? && GetPart(t.value.0, t.value.1) == Some((p, rest))
  {
    hide Varint, Prefixed, GetTag, GetNumber, GetInternalKey, GetPrefixed;
    match p
    case Comparator(name) =>
      Assoc(Varint(COMPARATOR), Prefixed(name), rest);
      TagBack(COMPARATOR, Prefixed(name) + rest);
      PrefixedRoundTrip(name, rest);
    case NumberPart(tag, n) => NumberPartBack(tag, n, rest);
    case Pointer(p) =>
      var t := Prefixed(p.1) + rest;
      assert PartBytes(Pointer(p)) + rest == Varint(COMPACT_CURSOR) + (Varint(p.0) + t);
      TagBack(COMPACT_CURSOR, Varint(p.0) + t);
      TagBack(p.0, t);
      KeyBack(p.1, rest);
    case Deleted(d) =>
      var t := Varint(d.1) + rest;
      assert PartBytes(Deleted(d)) + rest == Varint(DELETED_FILE) + (Varint(d.0) + t);
      TagBack(DELETED_FILE, Varint(d.0) + t);
      TagBack(d.0, t);
      NumberBack(d.1, rest);
    case Added(f) => AddedBack(f, rest);
  }

  lemma NumberPartBack(tag: nat, n: nat, rest: Bytes)
    requires tag < TWO32 && n < TWO64
    ensures GetTag(Varint(tag) + Varint(n) + rest) == Some((tag, Varint(n) + rest))
    ensures GetNumber(Varint(n) + rest) == Some((n, rest))
  {
    Assoc(Varint(tag), Varint(n), rest);
    TagBack(tag, Varint(n) + rest);
    NumberBack(n, rest);
  }

  lemma AddedBack(f: NewFile, rest: Bytes)
    requires AddedFits(f)
    ensures var t := GetTag(PartBytes(Added(f)) + rest);
        t.Some? && GetPart(t.value.0, t.value.1) == Some((Added(f), rest))
  {
    hide Varint, Prefixed, GetTag, GetNumber, GetInternalKey, GetPrefixed;
    var t3 := Prefixed(f.largest) + rest;
    var t2 := Prefixed(f.smallest) + t3;
    var t1 := Varint(f.size) + t2;
    var t0 := Varint(f.number) + t1;
    assert PartBytes(Added(f)) + rest == Varint(NEW_FILE) + (Varint(f.level) + t0);
    TagBack(NEW_FILE, Varint(f.level) + t0);
    TagBack(f.level, t0);
    NumberBack(f.number, t1);
    NumberBack(f.size, t2);
    KeyBack(f.smallest, t3);
    KeyBack(f.largest, rest);
  }

  lemma {:induction false} PartsBack(e: Edit, ps: seq<Part>, rest: Bytes)
    requires forall i :: 0 <= i < |ps| ==> PartFits(ps[i])
    ensures Decoded(e, PartsBytes(ps) + rest) == Decoded(ApplyAll(e, ps), rest)
    decreases |ps|
  {
    hide GetTag, GetPart, PartBytes, Apply, PartFits;
    if ps == [] {
      assert PartsBytes(ps) + rest == rest;
    } else {
      var init, p := ps[..|ps| - 1], ps[|ps| - 1];
      PartsBack(e, init, PartBytes(p) + rest);
      Assoc(PartsBytes(init), PartBytes(p), rest);
      PartBack(p, rest);
    }
  }

  lemma {:induction false} ApplyInTurn(e: Edit, a: seq<Part>, b: seq<Part>)
    ensures ApplyAll(e, a + b) == ApplyAll(ApplyAll(e, a), b)
    decreases |b|
  {
    hide Apply;
    if b == [] {
      assert a + b == a;
    } else {
      ApplyInTurn(e, a, b[..|b| - 1]);
      assert (a + b)[..|a + b| - 1] == a + b[..|b| - 1];
    }
  }

  lemma ApplyLast(e: Edit, ps: seq<Part>, n: nat)
    requires n < |ps|
    ensures ApplyAll(e, ps[..n + 1]) == Apply(ApplyAll(e, ps[..n]), ps[n])
  {
    assert ps[..n + 1][..n] == ps[..n];
  }

  lemma {:induction false} PointersBack(e: Edit, xs: seq<(nat, Bytes)>, ps: seq<Part>, n: nat)
    requires |ps| == |xs| && n <= |xs| && forall i :: 0 <= i < |xs| ==> ps[i] == Pointer(xs[i])
    ensures ApplyAll(e, ps[..n]) == e.(pointers := e.pointers + xs[..n])
    decreases n
  {
    if n == 0 {
      assert e.pointers + [] == e.pointers;
    } else {
      PointersBack(e, xs, ps, n - 1);
      ApplyLast(e, ps, n - 1);
      assert xs[..n] == xs[..n - 1] + [xs[n - 1]];
    }
  }

  lemma {:induction false} DeletedBack(e: Edit, xs: seq<(nat, nat)>, ps: seq<Part>, n: nat)
    requires |ps| == |xs| && n <= |xs| && forall i :: 0 <= i < |xs| ==> ps[i] == Deleted(xs[i])
    requires e.deleted == [] && Ascending(xs)
    ensures ApplyAll(e, ps[..n]) == e.(deleted := xs[..n])
    decreases n
  {
    if n > 0 {
      DeletedBack(e, xs, ps, n - 1);
      ApplyLast(e, ps, n - 1);
      if n > 1 {
        assert Before(xs[n - 2], xs[n - 1]);
      }
      assert xs[..n] == xs[..n - 1] + [xs[n - 1]];
    }
  }

  lemma {:induction false} AddedAllBack(e: Edit, xs: seq<NewFile>, ps: seq<Part>, n: nat)
    requires |ps| == |xs| && n <= |xs| && forall i :: 0 <= i < |xs| ==> ps[i] == Added(xs[i])
    requires e.added == []
    ensures ApplyAll(e, ps[..n]) == e.(added := xs[..n])
    decreases n
  {
    if n > 0 {
      AddedAllBack(e, xs, ps, n - 1);
      ApplyLast(e, ps, n - 1);
      assert xs[..n] == xs[..n - 1] + [xs[n - 1]];
    }
  }

  lemma NameApplied(e: Edit, o: Option<Bytes>)
    requires e.comparator.None?
    ensures ApplyAll(e, Names(o)) == e.(comparator := o)
  {
    if o.Some? {
      ApplyLast(e, Names(o), 0);
      assert Names(o)[..1] == Names(o) && Names(o)[..0] == [];
    }
  }

  lemma NumberApplied(e: Edit, tag: nat, o: Option<nat>)
    ensures ApplyAll(e, Numbers(tag, o)) == if o.Some? then Apply(e, NumberPart(tag, o.value)) else e
  {
    if o.Some? {
      ApplyLast(e, Numbers(tag, o), 0);
      assert Numbers(tag, o)[..1] == Numbers(tag, o) && Numbers(tag, o)[..0] == [];
    }
  }

  lemma HeadBack(e: Edit, before: Edit)
    ensures ApplyAll(Cleared(before), Head(e))
      == Edit(e.comparator, e.logNumber, e.prevLogNumber, e.nextFile, e.lastSequence, before.pointers, [], [])
  {
    hide ApplyAll, Numbers, Names;
    var a := Names(e.comparator);
    var b, c := Numbers(LOG_NUMBER, e.logNumber), Numbers(PREV_LOG_NUMBER, e.prevLogNumber);
    var d, l := Numbers(NEXT_FILE_NUMBER, e.nextFile), Numbers(LAST_SEQUENCE, e.lastSequence);
    ApplyInTurn(Cleared(before), a + b + c + d, l);
    ApplyInTurn(Cleared(before), a + b + c, d);
    ApplyInTurn(Cleared(before), a + b, c);
    ApplyInTurn(Cleared(before), a, b);
    NameApplied(Cleared(before), e.comparator);
    var e1 := ApplyAll(Cleared(before), a);
    NumberApplied(e1, LOG_NUMBER, e.logNumber);
    var e2 := ApplyAll(e1, b);
    NumberApplied(e2, PREV_LOG_NUMBER, e.prevLogNumber);
    var e3 := ApplyAll(e2, c);
    NumberApplied(e3, NEXT_FILE_NUMBER, e.nextFile);
    NumberApplied(ApplyAll(e3, d), LAST_SEQUENCE, e.lastSequence);
  }

  lemma PartsApplied(e: Edit, before: Edit)
    requires Fits(e)
    ensures ApplyAll(Cleared(before), Parts(e)) == e.(pointers := before.pointers + e.pointers)
  {
    hide ApplyAll, Fits, Head;
    assert Ascending(e.deleted) by { FitsAscending(e); }
    var e0 := Cleared(before);
    var h, p, d, a := Head(e), Pointers(e), Deletions(e), Additions(e);
    assert Parts(e) == h + p + d + a;
    ApplyInTurn(e0, h + p + d, a);
    ApplyInTurn(e0, h + p, d);
    ApplyInTurn(e0, h, p);
    HeadBack(e, before);
    var e1 := ApplyAll(e0, h);
    PointersBack(e1, e.pointers, p, |p|);
    assert p[..|p|] == p && e.pointers[..|p|] == e.pointers;
    var e2 := ApplyAll(e1, p);
    DeletedBack(e2, e.deleted, d, |d|);
    assert d[..|d|] == d && e.deleted[..|d|] == e.deleted;
    var e3 := ApplyAll(e2, d);
    AddedAllBack(e3, e.added, a, |a|);
    assert a[..|a|] == a && e.added[..|a|] == e.added;
  }

  lemma FitsAscending(e: Edit)
    requires Fits(e)
    ensures Ascending(e.deleted)
  {
  }

  lemma PartsFit(e: Edit)
    requires Fits(e)
    ensures forall i :: 0 <= i < |Parts(e)| ==> PartFits(Parts(e)[i])
  {
    forall i | 0 <= i < |Parts(e)| ensures PartFits(Parts(e)[i]) {
      assert Parts(e)[i] in Head(e) || Parts(e)[i] in Pointers(e) || Parts(e)[i] in Deletions(e)
          || Parts(e)[i] in Additions(e);
    }
  }

  lemma DecodedParts(e: Edit, ps: seq<Part>)
    requires forall i :: 0 <= i < |ps| ==> PartFits(ps[i])
    ensures Decoded(e, PartsBytes(ps)) == Some(ApplyAll(e, ps))
  {
    hide PartsBytes, ApplyAll, Decoded, PartFits;
    PartsBack(e, ps, []);
    assert PartsBytes(ps) + [] == PartsBytes(ps);
    NoMoreParts(ApplyAll(e, ps));
  }

  /** Decoding gives the edit back, except that the compaction pointers follow those already there:
    so it gives back the edit if and only if there were none. */
  lemma DecodeEncoded(e: Edit, before: Edit)
    requires Fits(e)
    ensures Decoded(Cleared(before), PartsBytes(Parts(e))) == Some(e.(pointers := before.pointers + e.pointers))
    ensures Decoded(Cleared(before), PartsBytes(Parts(e))) == Some(e) <==> before.pointers == []
  {
    hide Parts, PartsBytes, ApplyAll, Fits, Decoded, PartFits, Cleared;
    PartsFit(e);
    DecodedParts(Cleared(before), Parts(e));
    PartsApplied(e, before);
    assert before.pointers == [] ==> before.pointers + e.pointers == e.pointers;
    assert before.pointers != [] ==> |before.pointers + e.pointers| > |e.pointers|;
  }

  lemma NoMoreParts(e: Edit)
    ensures Decoded(e, []) == Some(e)
  {
  }

  class VersionEdit {
    var edit: Edit

    constructor ()
      ensures edit == Edit(None, None, None, None, None, [], [], [])
    {
      edit := Edit(None, None, None, None, None, [], [], []);
    }

    method Clear()
      modifies this
      ensures edit == Cleared(old(edit))
    {
      edit := Edit(None, None, None, None, None, edit.pointers, [], []);
    }

    method EncodeTo() returns (dst: Bytes)
      ensures dst == PartsBytes(Parts(edit))
    {
      hide PartsBytes, PartBytes, Head, Pointers, Deletions, Additions;
      dst := EncodeHead();
      ghost var done := Head(edit);
      dst, done := PutParts(dst, done, Pointers(edit));
      dst, done := PutParts(dst, done, Deletions(edit));
      dst, done := PutParts(dst, done, Additions(edit));
    }

    /** The optional fields. */
    method EncodeHead() returns (dst: Bytes)
      ensures dst == PartsBytes(Head(edit))
    {
      hide PartsBytes, PartBytes, Numbers;
      ghost var done: seq<Part> := [];
      dst := [];
      NoParts();
      if edit.comparator.Some? {
        dst, done := PutPart(dst, done, Comparator(edit.comparator.value));
      }
      assert done == Names(edit.comparator);
      dst, done := PutNumber(dst, done, LOG_NUMBER, edit.logNumber);
      dst, done := PutNumber(dst, done, PREV_LOG_NUMBER, edit.prevLogNumber);
      dst, done := PutNumber(dst, done, NEXT_FILE_NUMBER, edit.nextFile);
      dst, done := PutNumber(dst, done, LAST_SEQUENCE, edit.lastSequence);
    }

    /** The old value of everything but the compaction pointers is forgotten. */
    method DecodeFrom(src: Bytes) returns (ok: bool)
      modifies this
      ensures var r := Decoded(Cleared(old(edit)), src); (ok <==> r.Some?) && (ok ==> edit == r.value)
    {
      hide GetTag, GetPart, Apply, Cleared;
      Clear();
      var input := src;
      ok := true;
      var tag := GetTag(input);
      while ok && tag.Some?
        invariant tag == GetTag(input)
        invariant Decoded(Cleared(old(edit)), src) == if ok then Decoded(edit, input) else None
        decreases ok, |input|
      {
        var p := GetPart(tag.value.0, tag.value.1);
        if p.None? {
          ok := false;
        } else {
          edit := Apply(edit, p.value.0);
          input := p.value.1;
          tag := GetTag(input);
        }
      }
      if ok && input != [] {
        ok := false;
      }
    }
  }

  lemma NoParts()
    ensures PartsBytes([]) == []
  {
  }

  method PutPart(dst: Bytes, ghost done: seq<Part>, p: Part) returns (r: Bytes, ghost now: seq<Part>)
    requires dst == PartsBytes(done)
    ensures now == done + [p] && r == PartsBytes(now)
  {
    hide PartBytes;
    r := dst + PartBytes(p);
    now := done + [p];
  }

  method PutNumber(dst: Bytes, ghost done: seq<Part>, tag: nat, o: Option<nat>) returns (r: Bytes, ghost now: seq<Part>)
    requires dst == PartsBytes(done)
    ensures now == done + Numbers(tag, o) && r == PartsBytes(now)
  {
    r, now := dst, done;
    if o.Some? {
      r, now := PutPart(r, now, NumberPart(tag, o.value));
    }
  }

  /** One of the three lists. */
  method PutParts(dst: Bytes, ghost done: seq<Part>, ps: seq<Part>) returns (r: Bytes, ghost now: seq<Part>)
    requires dst == PartsBytes(done)
    ensures now == done + ps && r == PartsBytes(now)
  {
    hide PartsBytes;
    r, now := dst, done;
    for i := 0 to |ps|
      invariant r == PartsBytes(now) && now == done + ps[..i]
    {
      r, now := PutPart(r, now, ps[i]);
    }
    assert done + ps[..|ps|] == done + ps;
  }
}
