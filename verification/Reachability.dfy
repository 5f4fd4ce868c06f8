/** Reachable states of the engine, and the choices that the code leaves no freedom in. */
module Reachability {
  import opened DbFormat
  import opened Options
  import opened Versions
  import opened Database
  import opened ReadsOverRuns
  import opened Recovery
  import opened Lookup
  import opened Inputs
  import opened PickInputs
  import opened PickCompaction
  import opened Gaps

  ghost predicate Reachable(db: DB) {
    exists r :: IsRun(r) && r.states[|r.steps|] == db
  }

  lemma ReachInit(db: DB)
    requires Init(db)
    ensures Reachable(db)
  {
    var r := Run([db], []);
    assert IsRun(r) && r.states[|r.steps|] == db;
  }

  lemma ReachNext(db: DB, db': DB, step: Step)
    requires Reachable(db) && Next(db, db', step)
    ensures Reachable(db')
  {
    hide Next, Init;
    var r :| IsRun(r) && r.states[|r.steps|] == db;
    var q := Run(r.states + [db'], r.steps + [step]);
    assert IsRun(q) && q.states[|q.steps|] == db';
  }

  // ----- a write, a memtable switch and a flush in a row

  function Flushed(db: DB, batch: Batch, f: File, p: nat): DB
    requires p < NUM_LEVELS
  {
    DB(db.history + Stamped(db.Last() + 1, batch), db.last
        + |batch|, {}, None, AddAt(db.v, p, f), db.snaps, db.nextFile + 2, db.job)
  }

  lemma WriteAndFlush(db: DB, batch: Batch, f: File, p: nat)
    requires Reachable(db) && db.mem == {} && db.imm == None && db.job == None
    requires FilesContent({f}) == Elements(Stamped(db.Last() + 1, batch)) && f.number == db.nextFile + 1
        && PlaceOk(db.v, f, p)
    ensures Reachable(Flushed(db, batch, f, p))
  {
    var es := Stamped(db.Last() + 1, batch);
    var written := db.(history := db.history + es, last := db.last + |batch|, mem := Elements(es));
    var switched := written.(imm := Some(written.mem), mem := {}, nextFile := db.nextFile + 1);
    assert f in {f} && f.entries[0] in f.entries;
    assert f.entries[0] in FilesContent({f});
    assert db.mem + Elements(es) == Elements(es);
    assert Write(db, written, batch) && Switch(written, switched) && Flush(switched, Flushed(db, batch, f, p), f, p);
    hide Reachable, Stamped, PlaceOk, FilesContent, AddAt, Write, Switch, Flush;
    ReachNext(db, written, DoWrite(batch));
    ReachNext(written, switched, DoSwitch);
    ReachNext(switched, Flushed(db, batch, f, p), DoFlush(f, p));
  }

  // ----- the level of a flush

  const MIN_FILE_SIZE: nat := 0x10_0000   // the least max_file_size that SanitizeOptions leaves

  /** PickLevelForMemTableOutput can only answer p, however the files of a level are listed and whatever max_file_size
    is. */
  ghost predicate LevelForced(v: Version, f: File, p: nat) {
    forall lists, maxFileSize: nat :: ListsOf(lists, v) && maxFileSize >= MIN_FILE_SIZE ==>
        IsPicked(lists, f, 10 * maxFileSize, p)
  }

  ghost predicate Meeting(files: set<File>, f: File) { exists g :: g in files && Overlaps(g, Lo(f), Hi(f)) }

  /** At most two files of at most m bytes. */
  ghost predicate Few(files: set<File>, m: nat) { |files| <= 2 && forall g :: g in files ==> g.size <= m }

  lemma {:induction false} SelectFew(files: seq<File>, b: Bound, e: Bound, m: nat)
    requires |files| <= 2 && forall g :: g in files ==> g.size <= m
    ensures TotalFileSize(Select(files, b, e)) <= if |files| == 2 then m + m else if |files| == 1 then m else 0
    decreases |files|
  {
    if files != [] {
      var n := |files| - 1;
      SelectFew(files[..n], b, e, m);
      var s := Select(files[..n], b, e);
      SizeAppend(s, files[n]);
      assert s + [] == s && files[n] in files;
      hide TotalFileSize;
    }
  }

  lemma {:induction false} ListLength(files: seq<File>)
    requires Ascending(files)
    ensures |files| == |FileSet(files)|
    decreases |files|
  {
    if files != [] {
      var n := |files| - 1;
      ListLength(files[..n]);
      LastNotBefore(files);
      assert FileSet(files) == FileSet(files[..n]) + {files[n]};
    }
  }

  lemma LastNotBefore(files: seq<File>)
    requires Ascending(files) && files != []
    ensures files[|files| - 1] !in files[..|files| - 1]
  {
    var f := files[|files| - 1];
    InRange(f, Largest(f));
    forall i | 0 <= i < |files| - 1 ensures files[i] != f {
      assert Before(Largest(files[i]), Smallest(f));
    }
  }

  lemma LittleMet(lists: seq<seq<File>>, v: Version, i: nat, f: File, m: nat)
    requires ListsOf(lists, v) && 1 <= i < NUM_LEVELS && Few(v[i], m)
    ensures TotalFileSize(Select(lists[i], Some(Lo(f)), Some(Hi(f)))) <= m + m
  {
    ListLength(lists[i]);
    assert FileSet(lists[i]) == v[i];
    forall g | g in lists[i] ensures g.size <= m { assert g in FileSet(lists[i]); }
    hide TotalFileSize, Select, Ascending;
    SelectFew(lists[i], Some(Lo(f)), Some(Hi(f)), m);
  }

  lemma SameMeeting(lists: seq<seq<File>>, v: Version, i: nat, f: File)
    requires ListsOf(lists, v) && i < NUM_LEVELS
    ensures Meeting(v[i], f) <==> exists g :: g in lists[i] && Overlaps(g, Lo(f), Hi(f))
  {
    assert (set g | g in lists[i]) == v[i];
    if g :| g in v[i] && Overlaps(g, Lo(f), Hi(f)) { assert g in lists[i]; }
    if g :| g in lists[i] && Overlaps(g, Lo(f), Hi(f)) { assert g in v[i]; }
  }

  lemma LevelIs(v: Version, f: File, p: nat, m: nat)
    requires p <= MAX_MEM_COMPACT_LEVEL && Few(v[2], m) && Few(v[3], m) && m + m <= 10 * MIN_FILE_SIZE
    requires p > 0 ==> forall i :: 0 <= i <= p ==> !Meeting(v[i], f)
    requires p < MAX_MEM_COMPACT_LEVEL ==> Meeting(v[p + 1], f) || (p == 0 && Meeting(v[0], f))
    ensures LevelForced(v, f, p) && PlaceOk(v, f, p)
  {
    hide IsPicked, Few;
    forall lists, maxFileSize: nat | ListsOf(lists, v) && maxFileSize >= MIN_FILE_SIZE
      ensures IsPicked(lists, f, 10 * maxFileSize, p) {
      IsLevel(lists, v, f, p, m, 10 * maxFileSize);
    }
  }

  lemma IsLevel(lists: seq<seq<File>>, v: Version, f: File, p: nat, m: nat, limit: nat)
    requires ListsOf(lists, v) && p <= MAX_MEM_COMPACT_LEVEL && Few(v[2], m) && Few(v[3], m) && m + m <= limit
    requires p > 0 ==> forall i :: 0 <= i <= p ==> !Meeting(v[i], f)
    requires p < MAX_MEM_COMPACT_LEVEL ==> Meeting(v[p + 1], f) || (p == 0 && Meeting(v[0], f))
    ensures IsPicked(lists, f, limit, p)
  {
    hide IsPicked, Meeting, Few, ListsOf;
    if p > 0 { SinksTo(lists, v, f, p, m, limit); } else { StaysOnTop(lists, v, f, m, limit); }
  }

  lemma SinksTo(lists: seq<seq<File>>, v: Version, f: File, p: nat, m: nat, limit: nat)
    requires ListsOf(lists, v) && 1 <= p <= MAX_MEM_COMPACT_LEVEL && Few(v[2], m) && Few(v[3], m) && m + m <= limit
    requires forall i :: 0 <= i <= p ==> !Meeting(v[i], f)
    requires p < MAX_MEM_COMPACT_LEVEL ==> Meeting(v[p + 1], f)
    ensures IsPicked(lists, f, limit, p)
  {
    FreeLevels(lists, v, f, limit, p);
    hide *;
    forall i | 0 <= i <= p ensures !MeetsSome(lists[i], Lo(f), Hi(f)) { MeetsIf(lists, v, i, f); }
    RestsThere(lists, v, f, p, m, limit);
  }

  lemma MeetsIf(lists: seq<seq<File>>, v: Version, i: nat, f: File)
    requires ListsOf(lists, v) && i < NUM_LEVELS
    ensures MeetsSome(lists[i], Lo(f), Hi(f)) <==> Meeting(v[i], f)
  {
    SameMeeting(lists, v, i, f);
    hide ListsOf, Meeting;
  }

  lemma RestsThere(lists: seq<seq<File>>, v: Version, f: File, p: nat, m: nat, limit: nat)
    requires ListsOf(lists, v) && 1 <= p <= MAX_MEM_COMPACT_LEVEL && Few(v[2], m) && Few(v[3], m) && m + m <= limit
    requires p < MAX_MEM_COMPACT_LEVEL ==> Meeting(v[p + 1], f)
    ensures Rests(lists, p, limit, Lo(f), Hi(f))
  {
    LittleMet(lists, v, 2, f, m);
    LittleMet(lists, v, 3, f, m);
    MeetsIf(lists, v, 2, f);
    hide Meeting, MeetsSome, Few, ListsOf, Select, TotalFileSize;
  }

  lemma StaysOnTop(lists: seq<seq<File>>, v: Version, f: File, m: nat, limit: nat)
    requires ListsOf(lists, v) && Few(v[2], m) && m + m <= limit && (Meeting(v[1], f) || Meeting(v[0], f))
    ensures IsPicked(lists, f, limit, 0)
  {
    SameMeeting(lists, v, 0, f);
    SinksUnlessMet(lists, v, 0, f, m, limit);
    hide Sinks, Meeting, ListsOf, Few, Overlaps;
  }

  lemma SinksUnlessMet(lists: seq<seq<File>>, v: Version, l: nat, f: File, m: nat, limit: nat)
    requires ListsOf(lists, v) && l < MAX_MEM_COMPACT_LEVEL && Few(v[l + 2], m) && m + m <= limit
    ensures Sinks(lists, f, limit, l) <==> !Meeting(v[l + 1], f)
  {
    LittleMet(lists, v, l + 2, f, m);
    SameMeeting(lists, v, l + 1, f);
    hide Meeting, Few, ListsOf;
  }

  // ----- the inputs of a compaction

  /** SetupOtherInputs can only answer these inputs at level c and the next. */
  ghost predicate InputsForced(v: Version, c: nat, ins0: set<File>, ins1: set<File>)
    requires c + 1 < NUM_LEVELS
  {
    forall cur, next, in0, in1, lo, hi ::
      FileSet(cur) == v[c] && FileSet(next) == v[c + 1] && InputsAre(cur, next, in0, in1, lo, hi) ==>
          FileSet(in0) == ins0 && FileSet(in1) == ins1
  }

  lemma OnlyInput(v: Version, c: nat, f: File, ins1: set<File>)
    requires c + 1 < NUM_LEVELS && v[c] == {f} && forall g :: g in ins1 <==> g in v[c + 1] && Overlaps(g, Lo(f), Hi(f))
    ensures InputsForced(v, c, {f}, ins1)
  {
    forall cur, next, in0, in1, lo, hi | FileSet(cur) == v[c] && FileSet(next) == v[c + 1]
        && InputsAre(cur, next, in0, in1, lo, hi)
      ensures FileSet(in0) == {f} && FileSet(in1) == ins1
    {
      assert in0[0] in FileSet(in0) && FileSet(in0) == {f};
      HullOfOne(in0, f, lo, hi);
      forall g ensures g in FileSet(in1) <==> g in ins1 {
        assert g in FileSet(next) <==> g in next;
      }
    }
  }

  lemma HullOfOne(in0: seq<File>, f: File, lo: UserKey, hi: UserKey)
    requires in0 != [] && FileSet(in0) == {f} && IsHull(in0, lo, hi)
    ensures lo == Lo(f) && hi == Hi(f)
  {
    forall g | g in in0 ensures g == f { assert g in FileSet(in0); }
  }
}
