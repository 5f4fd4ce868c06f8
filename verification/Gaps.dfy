/** When a memtable flushed during a compaction can land inside its outputs. */
module Gaps {
  import opened DbFormat
  import opened Options
  import opened Versions
  import opened CompactionReads
  import opened Choosing
  import opened Database
  import opened Recovery
  import opened Lookup
  import opened Inputs
  import opened PickInputs
  import opened PickCompaction

  /** Every file that meets no input is clear of all input entries exactly when the inputs leave no gap. */
  lemma ClearIffGapFree(files: set<File>)
    ensures GapFree(files) <==>
            forall g: File :: (forall f :: f in files ==> !Overlaps(f, Lo(g), Hi(g))) ==> Clear(g, FilesContent(files))
  {
    if GapFree(files) {
      forall g: File | forall f :: f in files ==> !Overlaps(f, Lo(g), Hi(g)) ensures Clear(g, FilesContent(files)) {
        OutsideGapFree(files, g);
      }
    } else {
      var f, h, k :| f in files && h in files && Lo(f) <= k <= Hi(h) && !Covered(files, k);
      var g: File := Table(0, 0, [Entry(k, 0, Delete)]);
      assert forall d :: d in files ==> !Overlaps(d, Lo(g), Hi(g));
      InRange(f, Smallest(f));
      InRange(h, Largest(h));
      assert Smallest(f) in FilesContent(files) && Largest(h) in FilesContent(files);
      assert !Clear(g, FilesContent(files));
    }
  }

  // ----- which compactions a flush can land in

  /** The keys from a to b lie between entries that survive, and no file down to the output level meets them. */
  ghost predicate OpenRange(v: Version, j: Job, a: UserKey, b: UserKey) {
    && a <= b && (exists d, e :: d in ToKeep(j) && e in ToKeep(j) && d.user < a && b < e.user)
    && forall i, g :: 0 <= i <= j.level + 1 && i < NUM_LEVELS && g in v[i] ==> !Overlaps(g, a, b)
  }

  /** One such key. */
  ghost predicate OpenGap(v: Version, j: Job, k: UserKey) { OpenRange(v, j, k, k) }

  /** Where an entry to keep lies that a table placed at the output level does not clear on one side. */
  lemma BesideTable(v: Version, j: Job, f: File, e: Entry)
    requires AreInputs(v, j.level, j.in0, j.in1) && PlaceOk(v, f, j.level + 1) && e in ToKeep(j)
    ensures !Before(Largest(f), e) ==> e.user < Lo(f)
    ensures !Before(e, Smallest(f)) ==> e.user > Hi(f)
  {
    FlushMeetsNoInput(v, j, f, j.level + 1);
    var g :| g in j.in0 + j.in1 && e in g.entries;
    InRange(g, e);
  }

  /** A table at the output level is not clear of the entries to keep exactly when its range is open. */
  lemma ClearUnlessOpen(v: Version, j: Job, f: File)
    requires AreInputs(v, j.level, j.in0, j.in1) && PlaceOk(v, f, j.level + 1)
    ensures !Clear(f, ToKeep(j)) <==> OpenRange(v, j, Lo(f), Hi(f))
  {
    InRange(f, Smallest(f));
    if !Clear(f, ToKeep(j)) {
      var d :| d in ToKeep(j) && !Before(Largest(f), d);
      var e :| e in ToKeep(j) && !Before(e, Smallest(f));
      BesideTable(v, j, f, d);
      BesideTable(v, j, f, e);
    }
  }

  function MeetingBytes(files: seq<File>, a: UserKey,
      b: UserKey): nat { TotalFileSize(Select(files, Some(a), Some(b))) }

  /** A flush comes to rest at level 1 in a gap: at a key where a file of level 2 is in the way, and not too large to
    sink towards, or over keys with nothing at level 2 and too much at level 3. */
  ghost predicate StopsAtOne(lists: seq<seq<File>>, v: Version, j: Job, limit: nat)
    requires |lists| == NUM_LEVELS
  {
    || (exists k :: OpenGap(v, j, k) && MeetsSome(lists[2], k, k) && MeetingBytes(lists[2], k, k) <= limit)
    || (exists a, b :: OpenRange(v, j, a, b) && !MeetsSome(lists[2], a, b) && MeetingBytes(lists[3], a, b) > limit)
  }

  /** It comes to rest at level 2, as deep as flushes go, at a key with not too much at level 3. */
  ghost predicate StopsAtTwo(lists: seq<seq<File>>, v: Version, j: Job, limit: nat)
    requires |lists| == NUM_LEVELS
  {
    exists k :: OpenGap(v, j, k) && MeetingBytes(lists[3], k, k) <= limit
  }

  ghost predicate MeetsSome(files: seq<File>, a: UserKey, b: UserKey) { exists g :: g in files && Overlaps(g, a, b) }

  /** A table that the code places at the output level of a running compaction can land among the entries it keeps if
    and only if the output level is 1 or 2 and a gap stops a table there. */
  lemma LandsInGapIff(lists: seq<seq<File>>, v: Version, j: Job, limit: nat)
    requires ListsOf(lists, v) && AreInputs(v, j.level, j.in0, j.in1)
    ensures (exists f :: IsPicked(lists, f, limit, j.level + 1) && !Clear(f, ToKeep(j)))
       <==> (j.level == 0 && StopsAtOne(lists, v, j, limit)) || (j.level == 1 && StopsAtTwo(lists, v, j, limit))
  {
    hide ToKeep, Clear, IsPicked, OpenRange, MeetsSome, MeetingBytes;
    if f :| IsPicked(lists, f, limit, j.level + 1) && !Clear(f, ToKeep(j)) {
      PickedRange(lists, v, j, limit, f);
      if j.level == 0 && MeetsSome(lists[2], Lo(f), Hi(f)) {
        var k := StoppedAt(lists, v, j, limit, Lo(f), Hi(f));
      }
      if j.level == 1 { OneKey(lists, v, j, limit, Lo(f), Hi(f)); }
    }
    if j.level == 0 && StopsAtOne(lists, v, j, limit) {
      if k :| OpenGap(v, j, k) && MeetsSome(lists[2], k, k) && MeetingBytes(lists[2], k, k) <= limit {
        RangePicked(lists, v, j, limit, Spanning(k, k));
      } else {
        var a, b :| OpenRange(v, j, a, b) && !MeetsSome(lists[2], a, b) && MeetingBytes(lists[3], a, b) > limit;
        Ordered(v, j, a, b);
        RangePicked(lists, v, j, limit, Spanning(a, b));
      }
    }
    if j.level == 1 && StopsAtTwo(lists, v, j, limit) {
      var k :| OpenGap(v, j, k) && MeetingBytes(lists[3], k, k) <= limit;
      RangePicked(lists, v, j, limit, Spanning(k, k));
    }
  }

  /** A table with these two ends. */
  function Spanning(a: UserKey, b: UserKey): (f: File)
    requires a <= b
    ensures Lo(f) == a && Hi(f) == b
  {
    var t: Table := Table(0, 0, if a == b then [Entry(a, 0, Delete)] else [Entry(a, 0, Delete), Entry(b, 0, Delete)]);
    t
  }

  lemma Ordered(v: Version, j: Job, a: UserKey, b: UserKey)
    requires OpenRange(v, j, a, b)
    ensures a <= b
  {
  }

  /** What keeps a table at the output level, told by its range alone. */
  ghost predicate Rests(lists: seq<seq<File>>, p: nat, limit: nat, a: UserKey, b: UserKey)
    requires |lists| == NUM_LEVELS
  {
    if p == 1 then MeetingBytes(lists[2], a, b) <= limit
        && (MeetsSome(lists[2], a, b) || MeetingBytes(lists[3], a, b) > limit)
    else p == 2 && MeetingBytes(lists[3], a, b) <= limit
  }

  lemma NothingMet(files: seq<File>, a: UserKey, b: UserKey)
    ensures MeetsSome(files, a, b) || MeetingBytes(files, a, b) == 0
  {
    var s := Select(files, Some(a), Some(b));
    if s != [] {
      assert s[0] in s;
      assert s[0] in files && Overlaps(s[0], a, b);
    }
  }

  /** A level is passed if nothing is in the way on the next one, nor too much on the one after. */
  lemma SinksByRange(lists: seq<seq<File>>, f: File, limit: nat, l: nat)
    requires |lists| == NUM_LEVELS && l < MAX_MEM_COMPACT_LEVEL
    ensures Sinks(lists, f, limit, l) <==>
            !MeetsSome(lists[l + 1], Lo(f), Hi(f)) && MeetingBytes(lists[l + 2], Lo(f), Hi(f)) <= limit
  {
    hide TotalFileSize, Select, Overlaps;
  }

  lemma PickedSinks(lists: seq<seq<File>>, f: File, limit: nat, p: nat)
    requires |lists| == NUM_LEVELS && 1 <= p <= MAX_MEM_COMPACT_LEVEL
    ensures IsPicked(lists, f, limit, p) <==>
            !MeetsSome(lists[0], Lo(f), Hi(f)) && Sinks(lists, f, limit, 0) && (Sinks(lists, f, limit, 1) <==> p == 2)
  {
    hide Sinks, Overlaps;
    if p == 2 && Sinks(lists, f, limit, 0) && Sinks(lists, f, limit, 1) {
      forall l: nat | l < p ensures Sinks(lists, f, limit, l) { assert l == 0 || l == 1; }
    }
  }

  lemma FreeLevels(lists: seq<seq<File>>, v: Version, f: File, limit: nat, p: nat)
    requires ListsOf(lists, v) && 1 <= p <= MAX_MEM_COMPACT_LEVEL
    ensures IsPicked(lists, f, limit, p) <==>
            (forall i :: 0 <= i <= p ==> !MeetsSome(lists[i], Lo(f), Hi(f))) && Rests(lists, p, limit, Lo(f), Hi(f))
  {
    hide IsPicked, Sinks, MeetingBytes, MeetsSome, ListsOf;
    assert |lists| == NUM_LEVELS by { ListsCount(lists, v); }
    NothingMet(lists[2], Lo(f), Hi(f));
    PickedSinks(lists, f, limit, p);
    SinksByRange(lists, f, limit, 0);
    SinksByRange(lists, f, limit, 1);
  }

  lemma ListsCount(lists: seq<seq<File>>, v: Version)
    requires ListsOf(lists, v)
    ensures |lists| == NUM_LEVELS
  {
  }

  lemma FreeIsPlaceOk(lists: seq<seq<File>>, v: Version, f: File, p: nat)
    requires ListsOf(lists, v) && 1 <= p <= MAX_MEM_COMPACT_LEVEL
    ensures (forall i :: 0 <= i <= p ==> !MeetsSome(lists[i], Lo(f), Hi(f))) <==> PlaceOk(v, f, p)
  {
    forall i | 0 <= i <= p ensures MeetsSome(lists[i], Lo(f), Hi(f))
      <==> exists g :: g in v[i] && Overlaps(g, Lo(f), Hi(f)) {
      assert v[i] == set g | g in lists[i];
      if g :| g in v[i] && Overlaps(g, Lo(f), Hi(f)) { assert g in lists[i]; }
      if g :| g in lists[i] && Overlaps(g, Lo(f), Hi(f)) { assert g in v[i]; }
    }
    hide MeetsSome;
  }

  lemma PickedRange(lists: seq<seq<File>>, v: Version, j: Job, limit: nat, f: File)
    requires ListsOf(lists, v) && AreInputs(v, j.level, j.in0, j.in1)
    requires IsPicked(lists, f, limit, j.level + 1) && !Clear(f, ToKeep(j))
    ensures j.level <= 1 && OpenRange(v, j, Lo(f), Hi(f)) && Rests(lists, j.level + 1, limit, Lo(f), Hi(f))
  {
    assert j.level <= 1;
    FreeLevels(lists, v, f, limit, j.level + 1);
    hide IsPicked, Clear, OpenRange, Rests, MeetsSome;
    FreeIsPlaceOk(lists, v, f, j.level + 1);
    ClearUnlessOpen(v, j, f);
  }

  lemma RangePicked(lists: seq<seq<File>>, v: Version, j: Job, limit: nat, f: File)
    requires ListsOf(lists, v) && AreInputs(v, j.level, j.in0, j.in1) && j.level <= 1
    requires OpenRange(v, j, Lo(f), Hi(f))
    requires j.level == 0 ==> if MeetsSome(lists[2], Lo(f), Hi(f)) then MeetingBytes(lists[2], Lo(f), Hi(f)) <= limit
                                                                    else MeetingBytes(lists[3], Lo(f), Hi(f)) > limit
    requires j.level == 1 ==> MeetingBytes(lists[3], Lo(f), Hi(f)) <= limit
    ensures IsPicked(lists, f, limit, j.level + 1) && !Clear(f, ToKeep(j))
  {
    NothingMet(lists[2], Lo(f), Hi(f));
    assert Rests(lists, j.level + 1, limit, Lo(f), Hi(f));
    assert PlaceOk(v, f, j.level + 1);
    hide IsPicked, Clear, OpenRange, Rests, MeetsSome, PlaceOk, MeetingBytes;
    FreeLevels(lists, v, f, limit, j.level + 1);
    FreeIsPlaceOk(lists, v, f, j.level + 1);
    ClearUnlessOpen(v, j, f);
  }

  // ----- a part of a gap

  lemma SizeAppend(s: seq<File>, f: File)
    ensures TotalFileSize(s + [f]) == TotalFileSize(s) + f.size
  {
    if s == [] {
      assert s + [f] == [f];
    } else {
      SizeAppend(s[1..], f);
      assert (s + [f])[1..] == s[1..] + [f];
    }
  }

  /** A narrower range meets no more bytes. */
  lemma {:induction false} NarrowerMeetsLess(files: seq<File>, a: UserKey, b: UserKey, c: UserKey, d: UserKey)
    requires a <= c && d <= b
    ensures MeetingBytes(files, c, d) <= MeetingBytes(files, a, b)
    decreases |files|
  {
    if files != [] {
      var n := |files| - 1;
      NarrowerMeetsLess(files[..n], a, b, c, d);
      SizeAppend(Select(files[..n], Some(a), Some(b)), files[n]);
      SizeAppend(Select(files[..n], Some(c), Some(d)), files[n]);
      var wide, narrow := Select(files[..n], Some(a), Some(b)), Select(files[..n], Some(c), Some(d));
      assert wide + [] == wide && narrow + [] == narrow;
    }
  }

  lemma PartOpen(v: Version, j: Job, a: UserKey, b: UserKey, k: UserKey)
    requires OpenRange(v, j, a, b) && a <= k <= b
    ensures OpenGap(v, j, k)
  {
    var d, e :| d in ToKeep(j) && e in ToKeep(j) && d.user < a && b < e.user;
    hide ToKeep;
    forall i, g | 0 <= i <= j.level + 1 && i < NUM_LEVELS && g in v[i] ensures !Overlaps(g, k, k) {
      assert !Overlaps(g, a, b);
    }
    assert d.user < k && k < e.user;
    assert OpenRange(v, j, k, k);
  }

  lemma OneKey(lists: seq<seq<File>>, v: Version, j: Job, limit: nat, a: UserKey, b: UserKey)
    requires |lists| == NUM_LEVELS && OpenRange(v, j, a, b) && Rests(lists, 2, limit, a, b)
    ensures StopsAtTwo(lists, v, j, limit)
  {
    Ordered(v, j, a, b);
    PartOpen(v, j, a, b, a);
    hide OpenRange, MeetingBytes;
    NarrowerMeetsLess(lists[3], a, b, a, a);
  }

  lemma StoppedAt(lists: seq<seq<File>>, v: Version, j: Job, limit: nat, a: UserKey, b: UserKey) returns (k: UserKey)
    requires |lists| == NUM_LEVELS && OpenRange(v, j, a, b) && Rests(lists, 1, limit, a, b) && MeetsSome(lists[2], a, b)
    ensures OpenGap(v, j, k) && MeetsSome(lists[2], k, k) && MeetingBytes(lists[2], k, k) <= limit
  {
    Ordered(v, j, a, b);
    var g :| g in lists[2] && Overlaps(g, a, b);
    InRange(g, Smallest(g));
    k := if Lo(g) < a then a else Lo(g);
    assert Overlaps(g, k, k);
    PartOpen(v, j, a, b, k);
    hide OpenRange, MeetingBytes;
    NarrowerMeetsLess(lists[2], a, b, k, k);
  }

  /** Inputs without gaps have no open gap. */
  lemma GapFreeIsClosed(v: Version, j: Job, k: UserKey)
    requires AreInputs(v, j.level, j.in0, j.in1) && GapFree(j.in0 + j.in1)
    ensures !OpenGap(v, j, k)
  {
    hide ToKeep, GapFree;
    forall d, e | d in ToKeep(j) && e in ToKeep(j) && d.user < k < e.user ensures !OpenGap(v, j, k) {
      var g := BetweenInputs(j, d, e, k);
      assert Overlaps(g, k, k) && (g in v[j.level] || g in v[j.level + 1]);
    }
  }

  lemma BetweenInputs(j: Job, d: Entry, e: Entry, k: UserKey) returns (g: File)
    requires GapFree(j.in0 + j.in1) && d in ToKeep(j) && e in ToKeep(j) && d.user <= k <= e.user
    ensures g in j.in0 + j.in1 && Lo(g) <= k <= Hi(g)
  {
    var f :| f in j.in0 + j.in1 && d in f.entries;
    var h :| h in j.in0 + j.in1 && e in h.entries;
    InRange(f, d);
    InRange(h, e);
    assert Covered(j.in0 + j.in1, k);
    g :| g in j.in0 + j.in1 && Lo(g) <= k <= Hi(g);
  }

  // ----- what happens when one does

  /** The entries of a set as the contents of a table. */
  lemma {:induction false} AsList(S: set<Entry>) returns (es: seq<Entry>)
    requires Distinct(S)
    ensures Sorted(es) && Elements(es) == S
    decreases S
  {
    if S == {} {
      es := [];
    } else {
      var w :| w in S;
      var e := Newest(S, w);
      var rest := AsList(S - {e});
      assert forall x :: x in rest ==> x in Elements(rest);
      InsertSorted(rest, e);
      es := Insert(rest, e);
      assert forall x :: x in es <==> x in Elements(rest) || x == e;
    }
  }

  lemma {:induction false} Newest(S: set<Entry>, w: Entry) returns (e: Entry)
    requires Distinct(S) && w in S
    ensures e in S && forall x :: x in S && x != e ==> x.sn < e.sn
    decreases S
  {
    if S == {w} {
      e := w;
    } else {
      var x :| x in S && x != w;
      e := Newest(S - {w}, x);
      if w.sn > e.sn {
        e := w;
      }
    }
  }

  ghost function Landed(db: DB, f: File, p: nat, outs: set<File>): Version
    requires db.job.Some? && db.job.value.level + 1 < NUM_LEVELS && p < NUM_LEVELS
  {
    var j := db.job.value;
    Replace(AddAt(db.v, p, f), j.level, j.in0, j.in1, outs)
  }

  /** A table that may be made of the immutable memtable. */
  ghost predicate Candidate(db: DB, f: File, p: nat) {
    db.imm.Some? && FilesContent({f}) == db.imm.value && f.number == db.nextFile && PlaceOk(db.v, f, p)
  }

  /** The step's condition is exact: the output level stays disjoint, however the outputs are split, if and only if the
    table lands clear of the entries to keep. */
  lemma FlushSafeIff(db: DB, f: File, p: nat)
    requires Inv(db) && db.job.Some? && db.job.value.level + 1 < NUM_LEVELS && db.job.value.reserved != {}
        && Candidate(db, f, p)
    ensures LandsClear(db, f, p) <==>
            forall outs :: OutputsOf(db.job.value, outs) ==> LevelsApart(Landed(db, f, p, outs))
  {
    hide Inv, Recency, ToKeep, OutputsOf, LevelsApart, Clear;
    if LandsClear(db, f, p) {
      forall outs | OutputsOf(db.job.value, outs) ensures LevelsApart(Landed(db, f, p, outs)) {
        ClearLanding(db, f, p, outs);
      }
    } else {
      var o := OneOutput(db, f, p);
    }
  }

  lemma ClearLanding(db: DB, f: File, p: nat, outs: set<File>)
    requires Inv(db) && db.job.Some? && db.job.value.level + 1 < NUM_LEVELS && Candidate(db, f, p)
        && LandsClear(db, f, p) && OutputsOf(db.job.value, outs)
    ensures LevelsApart(Landed(db, f, p, outs))
  {
    hide *;
    JobOfInv(db);
    AfterLanding(db, db.job.value, f, p);
    FinishApart(AddAt(db.v, p, f), db.job.value, outs);
    LandedIs(db, f, p, outs);
  }

  lemma JobOfInv(db: DB)
    requires Inv(db) && db.job.Some?
    ensures JobInputs(db.v, db.job.value) && Unused(db.v, db.job.value.reserved) && Recency(db.v)
    ensures AgesOk(db) && NumbersBelow(db.v, db.nextFile) && forall n :: n in db.job.value.reserved ==> n < db.nextFile
  {
    hide JobInputs, Unused, Recency, AgesOk, NumbersBelow;
  }

  lemma LandedIs(db: DB, f: File, p: nat, outs: set<File>)
    requires db.job.Some? && db.job.value.level + 1 < NUM_LEVELS && p < NUM_LEVELS
    ensures var j := db.job.value; Landed(db, f, p, outs) == Replace(AddAt(db.v, p, f), j.level, j.in0, j.in1, outs)
  {
  }

  lemma AfterLanding(db: DB, j: Job, f: File, p: nat)
    requires db.job == Some(j) && j.level + 1 < NUM_LEVELS && Candidate(db, f, p) && LandsClear(db, f, p)
    requires JobInputs(db.v, j) && Unused(db.v, j.reserved) && Recency(db.v) && AgesOk(db)
        && NumbersBelow(db.v, db.nextFile)
    requires forall n :: n in j.reserved ==> n < db.nextFile
    ensures p < NUM_LEVELS && Recency(AddAt(db.v, p, f)) && JobInputs(AddAt(db.v, p, f), j)
        && Unused(AddAt(db.v, p, f), j.reserved)
  {
    hide JobInputs, Unused, Recency, AgesOk, NumbersBelow, Clear, NewerThanAll, FilesContent;
    FlushNewer(db, f);
    FlushKeepsRecency(db.v, f, p);
    FlushKeepsJobInputs(db.v, j, f, p);
    FlushKeepsUnused(db.v, f, p, j.reserved);
  }

  lemma FinishApart(v: Version, j: Job, outs: set<File>)
    requires j.level + 1 < NUM_LEVELS && Recency(v) && JobInputs(v, j) && Unused(v, j.reserved) && OutputsOf(j, outs)
    ensures LevelsApart(Replace(v, j.level, j.in0, j.in1, outs))
  {
    hide Recency, BaseStable, StayersNewer, Clear, OutputsOf, OutputsFit, LevelsApart, Unused, ToKeep, Replace;
    OutputsFitClear(v, j, outs);
    ReplaceKeepsApart(v, j.level, j.in0, j.in1, outs);
  }

  /** All entries to keep in one output file: the table lies inside it. */
  lemma OneOutput(db: DB, f: File, p: nat) returns (o: File)
    requires Inv(db) && db.job.Some? && db.job.value.level + 1 < NUM_LEVELS && db.job.value.reserved != {}
    requires Candidate(db, f, p) && !LandsClear(db, f, p)
    ensures OutputsOf(db.job.value, {o}) && !LevelsApart(Landed(db, f, p, {o}))
  {
    hide *;
    var j := db.job.value;
    JobOfInv(db);
    InputsOfJob(db.v, j);
    KeptDistinct(db, j);
    var es := AsList(ToKeep(j));
    var n :| n in j.reserved;
    var d, e := Astride(db, j, f, p);
    o := OneTable(j, es, n, d);
    NumberInputs(db, j);
    Inside(db, f, o, d, e);
  }

  lemma InputsOfJob(v: Version, j: Job)
    requires JobInputs(v, j)
    ensures AreInputs(v, j.level, j.in0, j.in1)
  {
  }

  lemma Astride(db: DB, j: Job, f: File, p: nat) returns (d: Entry, e: Entry)
    requires db.job == Some(j) && AreInputs(db.v, j.level, j.in0, j.in1) && Candidate(db, f, p) && !LandsClear(db, f, p)
    ensures p == j.level + 1 && f.number == db.nextFile && d in ToKeep(j) && e in ToKeep(j) && d.user < Lo(f)
        && Hi(f) < e.user
  {
    hide AreInputs, PlaceOk, ToKeep, FilesContent;
    d :| d in ToKeep(j) && !Before(Largest(f), d);
    e :| e in ToKeep(j) && !Before(e, Smallest(f));
    BesideTable(db.v, j, f, d);
    BesideTable(db.v, j, f, e);
  }

  lemma OneTable(j: Job, es: seq<Entry>, n: nat, d: Entry) returns (o: File)
    requires Sorted(es) && Elements(es) == ToKeep(j) && n in j.reserved && d in ToKeep(j)
    ensures OutputsOf(j, {o}) && forall x :: x in ToKeep(j) ==> x in o.entries
  {
    hide ToKeep;
    assert d in es;
    o := Table(n, 0, es);
    assert FilesContent({o}) == Elements(es);
  }

  lemma Inside(db: DB, f: File, o: File, d: Entry, e: Entry)
    requires db.job.Some? && AreInputs(db.v, db.job.value.level, db.job.value.in0, db.job.value.in1)
    requires forall g :: g in db.job.value.in0 + db.job.value.in1 ==> g.number < f.number
    requires db.job.value.level + 1 < NUM_LEVELS && d in o.entries && e in o.entries && d.user < Lo(f) && Hi(f) < e.user
    ensures !LevelsApart(Landed(db, f, db.job.value.level + 1, {o}))
  {
    var j := db.job.value;
    InRange(f, f.entries[0]);
    InRange(o, d);
    InRange(o, e);
    var w := Landed(db, f, j.level + 1, {o});
    assert f !in j.in1 && f in w[j.level + 1] && o in w[j.level + 1] && f != o && !Apart(f, o);
  }

  lemma KeptDistinct(db: DB, j: Job)
    requires Inv(db) && AreInputs(db.v, j.level, j.in0, j.in1)
    ensures Distinct(ToKeep(j))
  {
    WrittenDistinct(db);
    forall e | e in ToKeep(j) ensures e in db.Written() {
      var i, g := InputAt(db.v, j.level, j.in0, j.in1, e);
    }
  }

  lemma NumberInputs(db: DB, j: Job)
    requires Inv(db) && AreInputs(db.v, j.level, j.in0, j.in1)
    ensures forall g :: g in j.in0 + j.in1 ==> g.number < db.nextFile
  {
    hide Recency, AgesOk, JobOk;
    assert forall g :: g in j.in0 + j.in1 ==> g in db.v[j.level] || g in db.v[j.level + 1];
  }
}
