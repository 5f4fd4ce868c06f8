/** Batches and version edits that were cut short or damaged are refused, not misread. */
module TornFormats {
  import opened Options
  import opened Coding
  import VE = VersionEdit
  import WB = WriteBatch

  lemma PrefixedStays(a: Bytes, b: Bytes)
    ensures Stays(GetPrefixed(a), GetPrefixed(a + b), b)
  {
    GetVarintStays(a, b, 5);
    hide GetVarint;
    var len := GetVarint32(a);
    if len.Some? && |a| - len.value.1 >= len.value.0 {
      var rest := a[len.value.1..];
      assert (a + b)[len.value.1..] == rest + b;
      assert (rest + b)[..len.value.0] == rest[..len.value.0];
      assert (rest + b)[len.value.0..] == rest[len.value.0..] + b;
    }
  }

  // ----- batches

  lemma RecordStays(a: Bytes, b: Bytes)
    requires a != []
    ensures Stays(WB.ReadRecord(a), WB.ReadRecord(a + b), b)
  {
    hide GetPrefixed;
    Dropped(a, b, 1);
    PrefixedStays(a[1..], b);
    var key := GetPrefixed(a[1..]);
    if key.Some? { PrefixedStays(key.value.1, b); }
  }

  lemma ParsedStep(input: Bytes)
    requires input != []
    ensures var r := WB.ReadRecord(input);
      WB.Parsed(input) == if r.None? then ([], false)
                          else ([r.value.0] + WB.Parsed(r.value.1).0, WB.Parsed(r.value.1).1)
  {
    hide WB.ReadRecord;
  }

  /** Whole records and then anything. */
  lemma {:induction false} ParsedJoin(a: Bytes, b: Bytes)
    requires WB.Parsed(a).1
    ensures WB.Parsed(a + b) == (WB.Parsed(a).0 + WB.Parsed(b).0, WB.Parsed(b).1)
    decreases |a|
  {
    hide WB.ReadRecord;
    if a == [] {
      assert a + b == b && [] + WB.Parsed(b).0 == WB.Parsed(b).0;
    } else {
      RecordStays(a, b);
      ParsedStep(a);
      ParsedStep(a + b);
      hide WB.Parsed;
      var r := WB.ReadRecord(a);
      ParsedJoin(r.value.1, b);
      assert [r.value.0] + (WB.Parsed(r.value.1).0 + WB.Parsed(b).0) == WB.Parsed(a).0 + WB.Parsed(b).0;
    }
  }

  ghost predicate AllFit(ops: seq<WB.Action>) { forall i :: 0 <= i < |ops| ==> WB.Fits(ops[i]) }

  lemma CutHeader(whole: Bytes, k: nat)
    requires WB.HEADER <= k <= |whole|
    ensures WB.Count(whole[..k]) == WB.Count(whole) && whole[WB.HEADER..] == whole[..k][WB.HEADER..] + whole[k..]
  {
    assert whole[..k][8..12] == whole[8..12];
  }

  /** A batch cut anywhere is refused: either a record is torn or the count is not met. */
  lemma TornBatch(sn: nat, ops: seq<WB.Action>, k: nat)
    requires sn < TWO64 && |ops| < TWO32 && AllFit(ops) && k < |WB.Contents(sn, ops)|
    ensures !WB.Accepted(WB.Contents(sn, ops)[..k])
  {
    var whole := WB.Contents(sn, ops);
    WB.ContentsParts(whole, sn, ops);
    WB.RecordsBack(ops);
    hide WB.Contents, WB.Records, WB.Count, WB.Parsed;
    if WB.HEADER <= k {
      CutHeader(whole, k);
      var a, b := whole[..k][WB.HEADER..], whole[k..];
      if WB.Parsed(a).1 {
        ParsedJoin(a, b);
        SomeParsed(b);
      }
    }
  }

  lemma SomeParsed(b: Bytes)
    requires b != [] && WB.Parsed(b).1
    ensures WB.Parsed(b).0 != []
  {
  }

  /** A record of no known type ends the batch: what came before it is handed over, and the batch is refused. */
  lemma BadRecord(sn: nat, ops: seq<WB.Action>, bad: Bytes)
    requires sn < TWO64 && |ops| < TWO32 && AllFit(ops) && bad != [] && bad[0] > 1
    ensures var rep := WB.Contents(sn, ops) + bad;
            !WB.Accepted(rep) && WB.Parsed(rep[WB.HEADER..]).0 == ops
  {
    hide WB.Records, WB.Count, WB.Parsed, WB.Fits;
    var whole := WB.Contents(sn, ops);
    WB.ContentsParts(whole, sn, ops);
    hide WB.Contents;
    WB.RecordsBack(ops);
    BadParsed(bad);
    assert (whole + bad)[WB.HEADER..] == whole[WB.HEADER..] + bad;
    ParsedJoin(whole[WB.HEADER..], bad);
    assert ops + [] == ops;
  }

  lemma BadParsed(bad: Bytes)
    requires bad != [] && bad[0] > 1
    ensures WB.Parsed(bad) == ([], false)
  {
    hide GetPrefixed;
  }

  // ----- version edits

  lemma Dropped(a: Bytes, b: Bytes, n: nat)
    requires n <= |a|
    ensures (a + b)[n..] == a[n..] + b
  {
  }

  lemma NumberStays(a: Bytes, b: Bytes)
    ensures Stays(VE.GetNumber(a), VE.GetNumber(a + b), b)
  {
    hide GetVarint;
    GetVarintStays(a, b, 10);
    if GetVarint64(a).Some? { Dropped(a, b, GetVarint64(a).value.1); }
  }

  lemma TagStays(a: Bytes, b: Bytes)
    ensures Stays(VE.GetTag(a), VE.GetTag(a + b), b)
  {
    hide GetVarint;
    GetVarintStays(a, b, 5);
    if GetVarint32(a).Some? { Dropped(a, b, GetVarint32(a).value.1); }
  }

  lemma LevelStays(a: Bytes, b: Bytes)
    ensures Stays(VE.GetLevel(a), VE.GetLevel(a + b), b)
  {
    hide VE.GetTag;
    TagStays(a, b);
  }

  lemma KeyStays(a: Bytes, b: Bytes)
    ensures Stays(VE.GetInternalKey(a), VE.GetInternalKey(a + b), b)
  {
    PrefixedStays(a, b);
    hide GetPrefixed;
  }

  lemma NewFileStays(a: Bytes, b: Bytes)
    ensures Stays(VE.GetNewFile(a), VE.GetNewFile(a + b), b)
  {
    hide VE.GetLevel, VE.GetNumber, VE.GetInternalKey;
    LevelStays(a, b);
    var l := VE.GetLevel(a);
    if l.Some? {
      NumberStays(l.value.1, b);
      var n := VE.GetNumber(l.value.1);
      if n.Some? {
        NumberStays(n.value.1, b);
        var z := VE.GetNumber(n.value.1);
        if z.Some? {
          KeyStays(z.value.1, b);
          var s := VE.GetInternalKey(z.value.1);
          if s.Some? { KeyStays(s.value.1, b); }
        }
      }
    }
  }

  lemma PartStays(tag: nat, a: Bytes, b: Bytes)
    ensures Stays(VE.GetPart(tag, a), VE.GetPart(tag, a + b), b)
  {
    hide VE.GetLevel, VE.GetNumber, VE.GetInternalKey, VE.GetNewFile, GetPrefixed;
    PrefixedStays(a, b);
    NumberStays(a, b);
    NewFileStays(a, b);
    LevelStays(a, b);
    var l := VE.GetLevel(a);
    if l.Some? {
      KeyStays(l.value.1, b);
      NumberStays(l.value.1, b);
    }
  }

  lemma TornPart(e: VE.Edit, p: VE.Part, k: nat)
    requires VE.PartFits(p) && 0 < k < |VE.PartBytes(p)|
    ensures VE.Decoded(e, VE.PartBytes(p)[..k]) == None
  {
    hide VE.GetTag, VE.GetPart, VE.PartFits, VE.PartBytes, VE.Apply;
    var a, b := VE.PartBytes(p)[..k], VE.PartBytes(p)[k..];
    assert a + b == VE.PartBytes(p) + [];
    VE.PartBack(p, []);
    TagStays(a, b);
    var t := VE.GetTag(a);
    if t.Some? { PartStays(t.value.0, t.value.1, b); }
  }

  /** An edit cut within a field is corrupt. */
  lemma TornEdit(e: VE.Edit, ps: seq<VE.Part>, p: VE.Part, k: nat)
    requires (forall i :: 0 <= i < |ps| ==> VE.PartFits(ps[i])) && VE.PartFits(p) && 0 < k < |VE.PartBytes(p)|
    ensures VE.Decoded(e, VE.PartsBytes(ps) + VE.PartBytes(p)[..k]) == None
  {
    VE.PartsBack(e, ps, VE.PartBytes(p)[..k]);
    hide VE.Decoded, VE.PartFits;
    TornPart(VE.ApplyAll(e, ps), p, k);
  }

  /** So is one with a field of a tag that has no meaning. */
  lemma UnknownField(e: VE.Edit, ps: seq<VE.Part>, tag: nat, rest: Bytes)
    requires (forall i :: 0 <= i < |ps| ==> VE.PartFits(ps[i])) && tag < TWO32
    requires tag == 0 || tag == 8 || tag > 9
    ensures VE.Decoded(e, VE.PartsBytes(ps) + (Varint(tag) + rest)) == None
  {
    VE.PartsBack(e, ps, Varint(tag) + rest);
    VE.TagBack(tag, rest);
    hide VE.GetTag, VE.PartFits, VE.PartsBytes;
  }

  lemma {:induction false} InsertedAscending(d: seq<(nat, nat)>, x: (nat, nat))
    requires VE.Ascending(d)
    ensures VE.Ascending(VE.Inserted(d, x))
    decreases |d|
  {
    if d != [] && d[|d| - 1] != x && !VE.Before(d[|d| - 1], x) {
      var init := d[..|d| - 1];
      InsertedAscending(init, x);
      var r := VE.Inserted(init, x);
      forall i | 0 <= i < |r| ensures VE.Before(r[i], d[|d| - 1]) {
        assert r[i] in r;
        if r[i] != x {
          var j :| 0 <= j < |init| && init[j] == r[i];
          assert VE.Before(d[j], d[|d| - 1]);
        }
      }
    }
  }

  lemma PartInRange(tag: nat, input: Bytes)
    ensures VE.GetPart(tag, input).Some? ==> VE.PartFits(VE.GetPart(tag, input).value.0)
  {
    hide GetVarint;
  }

  lemma ApplyInRange(e: VE.Edit, p: VE.Part)
    requires VE.Fits(e) && VE.PartFits(p)
    ensures VE.Fits(VE.Apply(e, p))
  {
    if p.Deleted? {
      InsertedAscending(e.deleted, p.d);
      var r := VE.Inserted(e.deleted, p.d);
      forall i | 0 <= i < |r| ensures VE.DeletedFits(r[i]) {
        assert r[i] in r;
        if r[i] != p.d { assert r[i] in e.deleted; }
      }
    }
    hide VE.Inserted, VE.Ascending;
  }

  /** Whatever bytes are decoded: levels are below seven, no key is empty, and the deleted files are a set in order. */
  lemma {:induction false} DecodedInRange(e: VE.Edit, input: Bytes)
    requires VE.Fits(e)
    ensures VE.Decoded(e, input).Some? ==> VE.Fits(VE.Decoded(e, input).value)
    decreases |input|
  {
    hide VE.GetTag, VE.GetPart, VE.Fits, VE.Apply, VE.PartFits;
    var t := VE.GetTag(input);
    if t.Some? {
      PartInRange(t.value.0, t.value.1);
      var p := VE.GetPart(t.value.0, t.value.1);
      if p.Some? {
        ApplyInRange(e, p.value.0);
        DecodedInRange(VE.Apply(e, p.value.0), p.value.1);
      }
    }
  }
}
