/** The merge loop of a compaction and its cursor over the levels below. */
module CompactionWork {
  import opened DbFormat
  import opened Options
  import opened Versions
  import opened CompactionReads
  import opened Database
  import opened Lookup
  import opened Inputs
  import opened PickInputs
  import opened OutputCuts

  const MAX_SN: nat := 0xFF_FFFF_FFFF_FFFF   // kMaxSequenceNumber, 2^56 - 1

  /** The part of a compaction that answers IsBaseLevelForKey and ShouldStopBefore; the keys asked about never
    decrease. */
  class Compaction {
    const level: nat
    const lists: seq<seq<File>>     // files of the input version
    ghost const base: Version
    const grandparents: seq<File>   // files two levels down that overlap the compaction
    const limit: nat                // MaxGrandParentOverlapBytes
    var levelPtrs: seq<nat>
    var grandparentIndex: nat
    var seenKey: bool
    var overlappedBytes: nat
    ghost var asked: Option<UserKey>
    ghost var counted: nat          // the file from which overlappedBytes are counted
    ghost var passed: Option<Entry> // the last entry that ShouldStopBefore was asked about

    ghost predicate Valid()
      reads this
    {
      && level + 1 < NUM_LEVELS && ListsOf(lists, base) && |levelPtrs| == NUM_LEVELS
      && (forall l :: level + 2 <= l < NUM_LEVELS ==> CursorOk(lists[l], levelPtrs[l], asked))
      && Ascending(grandparents) && Counted()
    }

    /** The bytes counted are those of the files passed since counting began. */
    ghost predicate Counted()
      reads this
    {
      && (if passed.None? then grandparentIndex == 0 else grandparentIndex == PastFiles(grandparents, passed.value))
      && (passed.None? <==> !seenKey) && (passed.None? ==> overlappedBytes == 0)
      && (passed.Some? ==>
           counted <= grandparentIndex <= |grandparents|
           && overlappedBytes == Between(grandparents, counted, grandparentIndex))
    }

    constructor (level: nat, lists: seq<seq<File>>, grandparents: seq<File>, limit: nat, ghost base: Version)
      requires level + 1 < NUM_LEVELS && ListsOf(lists, base) && Ascending(grandparents)
      ensures Valid() && this.level == level && this.lists == lists && this.base == base && asked == None
      ensures this.grandparents == grandparents && this.limit == limit && passed == None
    {
      this.level, this.lists, this.base, this.grandparents, this.limit := level, lists, base, grandparents, limit;
      levelPtrs := seq(NUM_LEVELS, i => 0);
      grandparentIndex, seenKey, overlappedBytes := 0, false, 0;
      asked, counted, passed := None, 0, None;
    }

    /** True iff the files passed since the last yes, or since the first call, are more than the limit. */
    method ShouldStopBefore(e: Entry) returns (r: bool)
      requires Valid() && (passed.Some? ==> Before(passed.value, e))
      modifies this`grandparentIndex, this`seenKey, this`overlappedBytes, this`counted, this`passed
      ensures Valid() && passed == Some(e)
      ensures r <==> old(passed).Some? && Between(grandparents, old(counted), PastFiles(grandparents, e)) > limit
      ensures counted == if r || old(passed).None? then PastFiles(grandparents, e) else old(counted)
    {
      hide ListsOf, CursorOk, Between, Ascending;
      ghost var from := grandparentIndex;
      if passed.Some? { PastGrows(grandparents, passed.value, e); }
      while grandparentIndex < |grandparents| && Before(Largest(grandparents[grandparentIndex]), e)
        invariant from <= grandparentIndex <= PastFiles(grandparents, e)
        invariant seenKey == old(seenKey) && counted == old(counted)
        invariant !seenKey ==> overlappedBytes == 0
        invariant seenKey ==> counted <= from && overlappedBytes == Between(grandparents, counted, grandparentIndex)
        decreases |grandparents| - grandparentIndex
      {
        if seenKey {
          BetweenNext(grandparents, counted, grandparentIndex);
          overlappedBytes := overlappedBytes + grandparents[grandparentIndex].size;
        }
        grandparentIndex := grandparentIndex + 1;
      }
      BetweenNone(grandparents, grandparentIndex);
      if !seenKey { counted := grandparentIndex; }
      seenKey := true;
      passed := Some(e);
      r := overlappedBytes > limit;
      if r {
        overlappedBytes := 0;
        counted := grandparentIndex;
      }
    }

    /** True iff no file two or more levels down has the key in its range; one forward scan serves all calls. */
    method IsBaseLevelForKey(u: UserKey) returns (r: bool)
      requires Valid() && (asked.Some? ==> asked.value <= u)
      modifies this`levelPtrs, this`asked
      ensures Valid() && asked == Some(u)
      ensures r <==> BaseLevel(base, level, u)
    {
      hide Between, PastFiles;
      ghost var before := asked;
      asked := Some(u);
      forall l | level + 2 <= l < NUM_LEVELS ensures CursorOk(lists[l], levelPtrs[l], asked) {
        assert CursorOk(lists[l], levelPtrs[l], before);
      }
      for lvl := level + 2 to NUM_LEVELS
        invariant Valid() && asked == Some(u)
        invariant forall l, f :: level + 2 <= l < lvl && f in base[l] ==> !(Lo(f) <= u <= Hi(f))
      {
        var files := lists[lvl];
        while levelPtrs[lvl] < |files|
          invariant Valid() && asked == Some(u)
          invariant forall l, f :: level + 2 <= l < lvl && f in base[l] ==> !(Lo(f) <= u <= Hi(f))
          decreases |files| - levelPtrs[lvl]
        {
          var f := files[levelPtrs[lvl]];
          if u <= Hi(f) {
            if u >= Lo(f) {
              assert f in base[lvl];
              return false;
            }
            break;
          }
          levelPtrs := levelPtrs[lvl := levelPtrs[lvl] + 1];
        }
        LevelClear(files, levelPtrs[lvl], u);
      }
      return true;
    }
  }

  /** Everything before the cursor ends before the last key asked about. */
  ghost predicate CursorOk(files: seq<File>, p: nat, asked: Option<UserKey>) {
    && p <= |files| && (p > 0 ==> asked.Some?)
    && forall i :: 0 <= i < p ==> Hi(files[i]) < asked.value
  }

  lemma LevelClear(files: seq<File>, p: nat, u: UserKey)
    requires Ascending(files) && p <= |files|
    requires forall i :: 0 <= i < p ==> Hi(files[i]) < u
    requires p < |files| ==> u < Lo(files[p])
    ensures forall f :: f in files ==> !(Lo(f) <= u <= Hi(f))
  {
    forall f | f in files ensures !(Lo(f) <= u <= Hi(f)) {
      var i :| 0 <= i < |files| && files[i] == f;
      if i > p {
        InRange(files[p], Largest(files[p]));
        assert Before(Largest(files[p]), Smallest(f));
      }
    }
  }

  /** The entries of input[..n] that survive, where input is the whole merged input. */
  ghost function Survivors(b: Version, c: nat, input: seq<Entry>, smallest: nat, n: nat): set<Entry>
    requires n <= |input|
  {
    set e | e in input[..n] && !Hidden(Elements(input), e, smallest) && !Obsolete(b, c, e, smallest)
  }

  ghost predicate Survives(b: Version, c: nat, input: seq<Entry>, smallest: nat, i: nat)
    requires i < |input|
  {
    !Hidden(Elements(input), input[i], smallest) && !Obsolete(b, c, input[i], smallest)
  }

  ghost function KeepTest(b: Version, c: nat, input: seq<Entry>, smallest: nat): Test {
    (i: nat) => i < |input| && Survives(b, c, input, smallest, i)
  }

  ghost function Elements(es: seq<Entry>): set<Entry> { set e | e in es }

  /** In a sorted input the previous entry decides rule (A). */
  lemma HiddenByPrevious(input: seq<Entry>, i: nat, smallest: nat)
    requires Sorted(input) && i < |input|
    ensures Hidden(Elements(input), input[i], smallest) <==>
            i > 0 && input[i - 1].user == input[i].user && input[i - 1].sn <= smallest
  {
    var ins := Elements(input);
    if Hidden(ins, input[i], smallest) {
      var x :| x in ins && x.user == input[i].user && input[i].sn < x.sn <= smallest;
      var k :| 0 <= k < |input| && input[k] == x;
      assert k < i;
      assert k == i - 1 || Before(input[k], input[i - 1]);
      assert Before(input[i - 1], input[i]);
    }
    if i > 0 && input[i - 1].user == input[i].user && input[i - 1].sn <= smallest {
      assert Before(input[i - 1], input[i]);
      assert input[i - 1] in ins;
    }
  }

  /** The outputs so far, the open file and the entries still to come are in order. */
  ghost predicate InOrder(outs: seq<File>, open: seq<Entry>, input: seq<Entry>, i: nat)
    requires i <= |input|
  {
    && Ascending(outs) && Sorted(open)
    && (forall e :: e in open ==> e in input[..i])
    && (forall o, e :: o in outs && e in o.entries ==> e in input[..i])
    && (forall o, e :: o in outs && e in open ==> Before(Largest(o), e))
  }

  /** The k-th output has the k-th number taken for the compaction. */
  ghost predicate Numbered(outs: seq<File>, take: nat -> nat) {
    forall k :: 0 <= k < |outs| ==> outs[k].number == take(k)
  }

  lemma EarlierBefore(input: seq<Entry>, i: nat, e: Entry)
    requires Sorted(input) && i < |input| && e in input[..i]
    ensures Before(e, input[i])
  {
    var k :| 0 <= k < i && input[..i][k] == e;
  }

  /** Closing the open output file. */
  method FinishFile(outs: seq<File>, open: seq<Entry>, number: nat, size: nat, ghost input: seq<Entry>, ghost i: nat,
      take: nat -> nat)
    returns (r: seq<File>)
    requires i <= |input| && InOrder(outs, open, input, i) && open != [] && Numbered(outs, take)
        && number == take(|outs|)
    ensures InOrder(r, [], input, i) && Numbered(r, take)
    ensures FilesContent(FileSet(r)) == FilesContent(FileSet(outs)) + Elements(open)
    ensures r == outs + [Table(number, size, open)]
  {
    var f: File := Table(number, size, open);
    r := outs + [f];
    assert open[0] in open;
    forall e | e in FilesContent(FileSet(outs)) + Elements(open) ensures e in FilesContent(FileSet(r)) {
      if e in open { assert f in r; }
      else {
        var o :| o in outs && e in o.entries;
        assert o in r;
      }
    }
  }

  /** The two drop rules for entry i; last is the sequence number of the previous entry of the same key, or MAX_SN. */
  method ShouldDrop(job: Compaction, input: seq<Entry>, i: nat, last: nat, smallest: nat) returns (drop: bool)
    requires job.Valid() && Sorted(input) && i < |input| && smallest < MAX_SN
    requires job.asked.Some? ==> job.asked.value <= input[i].user
    requires last == if i > 0 && input[i - 1].user == input[i].user then input[i - 1].sn else MAX_SN
    modifies job`levelPtrs, job`asked
    ensures job.Valid() && (job.asked.Some? ==> job.asked.value <= input[i].user)
    ensures drop <==> Hidden(Elements(input), input[i], smallest) || Obsolete(job.base, job.level, input[i], smallest)
  {
    HiddenByPrevious(input, i, smallest);
    drop := false;
    if last <= smallest {
      drop := true;
    } else if input[i].op.Delete? && input[i].sn <= smallest {
      drop := job.IsBaseLevelForKey(input[i].user);
    }
  }

  /** Output files so far and the file being written, with the number it took when it was opened. */
  datatype Output = Output(files: seq<File>, open: seq<Entry>, number: nat)

  ghost predicate OutputOk(o: Output, input: seq<Entry>, i: nat, take: nat -> nat)
    requires i <= |input|
  {
    InOrder(o.files, o.open, input, i) && Numbered(o.files, take) && (o.open != [] ==> o.number == take(|o.files|))
  }

  ghost function OutputContent(o: Output): set<Entry> { FilesContent(FileSet(o.files)) + Elements(o.open) }

  method Close(o: Output, size: nat, ghost input: seq<Entry>, ghost i: nat, take: nat -> nat) returns (r: Output)
    requires i <= |input| && OutputOk(o, input, i, take)
    ensures OutputOk(r, input, i, take) && OutputContent(r) == OutputContent(o) && r.open == []
    ensures r.files == if o.open == [] then o.files else o.files + [Table(o.number, size, o.open)]
  {
    if o.open == [] { return o; }
    var files := FinishFile(o.files, o.open, o.number, size, input, i, take);
    r := Output(files, [], o.number);
  }

  /** Appends entry i to the open file, opening one if necessary. */
  method Append(o: Output, input: seq<Entry>, i: nat, take: nat -> nat) returns (r: Output)
    requires Sorted(input) && i < |input| && OutputOk(o, input, i, take)
    ensures OutputOk(r, input, i + 1, take) && OutputContent(r) == OutputContent(o) + {input[i]}
    ensures r.files == o.files && r.open == o.open + [input[i]]
  {
    OrderNext(o.files, o.open, input, i);
    r := Output(o.files, o.open + [input[i]], if o.open == [] then take(|o.files|) else o.number);
  }

  /** The output after entry i: nothing new, one more in the open file, or that file closed. */
  ghost predicate Emitted(o: Output, r: Output, e: Entry, drop: bool, full: bool, fileSize: seq<Entry> -> nat) {
    var es := o.open + [e];
    if drop then r == o
    else if full then r.open == [] && exists n :: r.files == o.files + [Table(n, fileSize(es), es)]
    else r.files == o.files && r.open == es
  }

  /** Writes the entry unless it is dropped; a full file is closed. */
  method Emit(o: Output, input: seq<Entry>, i: nat, drop: bool, full: bool, fileSize: seq<Entry> -> nat,
      take: nat -> nat) returns (r: Output)
    requires Sorted(input) && i < |input| && OutputOk(o, input, i, take)
    ensures OutputOk(r, input, i + 1, take)
    ensures OutputContent(r) == OutputContent(o) + if drop then {} else {input[i]}
    ensures Emitted(o, r, input[i], drop, full, fileSize)
  {
    if drop {
      SkipKeepsOk(o, input, i, take);
      return o;
    }
    r := Append(o, input, i, take);
    if full { r := Close(r, fileSize(r.open), input, i + 1, take); }
  }

  /** Drops or writes entry i. */
  method Handle(job: Compaction, o: Output, input: seq<Entry>, i: nat, last: nat, smallest: nat, full: bool,
      fileSize: seq<Entry> -> nat,
                take: nat -> nat)
    returns (r: Output)
    requires job.Valid() && Sorted(input) && i < |input| && smallest < MAX_SN
    requires job.asked.Some? ==> job.asked.value <= input[i].user
    requires last == if i > 0 && input[i - 1].user == input[i].user then input[i - 1].sn else MAX_SN
    requires OutputOk(o, input, i, take) && OutputContent(o) == Survivors(job.base, job.level, input, smallest, i)
    modifies job`levelPtrs, job`asked
    ensures job.Valid() && (job.asked.Some? ==> job.asked.value <= input[i].user)
    ensures OutputOk(r, input, i + 1, take) && OutputContent(r) ==
        Survivors(job.base, job.level, input, smallest, i + 1)
    ensures Emitted(o, r, input[i], !Survives(job.base, job.level, input, smallest, i), full, fileSize)
    ensures job.passed == old(job.passed) && job.counted == old(job.counted)
  {
    hide Hidden, Obsolete, OutputOk, OutputContent, Survivors, Sorted, Elements, Compaction.Valid, Emitted;
    SurvivorsNext(job.base, job.level, input, smallest, i);
    var drop := ShouldDrop(job, input, i, last, smallest);
    r := Emit(o, input, i, drop, full, fileSize, take);
  }

  // ----- which entries the files hold

  ghost predicate OutputHolds(o: Output, input: seq<Entry>, p: Parts, fileSize: seq<Entry> -> nat) {
    FilesHold(o.files, input, p.closed, fileSize) && Holds(o.open, input, p.open)
  }

  /** The open file, if any, is closed. */
  ghost predicate IsClosed(o: Output, r: Output, fileSize: seq<Entry> -> nat) {
    r.open == [] && if o.open == [] then r.files == o.files
      else exists n :: r.files == o.files + [Table(n, fileSize(o.open), o.open)]
  }

  lemma OneMoreFile(files: seq<File>, f: File, input: seq<Entry>, closed: seq<seq<nat>>, ns: seq<nat>,
      fileSize: seq<Entry> -> nat)
    requires FilesHold(files, input, closed, fileSize) && FileHolds(f, input, ns, fileSize)
    ensures FilesHold(files + [f], input, closed + [ns], fileSize)
  {
    hide FileHolds;
    forall k | 0 <= k < |closed| + 1 ensures FileHolds((files + [f])[k], input, (closed + [ns])[k], fileSize) {
      if k < |closed| { assert FileHolds(files[k], input, closed[k], fileSize); }
    }
  }

  lemma CloseHolds(o: Output, r: Output, input: seq<Entry>, p: Parts, fileSize: seq<Entry> -> nat)
    requires OutputHolds(o, input, p, fileSize) && IsClosed(o, r, fileSize)
    ensures OutputHolds(r, input, Shut(p), fileSize)
  {
    hide FilesHold;
    if o.open != [] {
      var n :| r.files == o.files + [Table(n, fileSize(o.open), o.open)];
      assert (r.files[|o.files|]).entries == o.open;
      OneMoreFile(o.files, r.files[|o.files|], input, p.closed, p.open, fileSize);
      assert r.files == o.files + [r.files[|o.files|]];
    }
  }

  lemma EmitHolds(o: Output, r: Output, input: seq<Entry>, p: Parts, i: nat, keep: bool, full: bool,
      fileSize: seq<Entry> -> nat)
    requires i < |input| && OutputHolds(o, input, p, fileSize) && Emitted(o, r, input[i], !keep, full, fileSize)
    ensures OutputHolds(r, input, Turn(p, i, false, keep, full), fileSize)
  {
    if keep {
      var es, ns := o.open + [input[i]], p.open + [i];
      assert Holds(es, input, ns);
      hide FilesHold, Holds;
      if full {
        var n :| r.files == o.files + [Table(n, fileSize(es), es)];
        assert (r.files[|o.files|]).entries == es;
        OneMoreFile(o.files, r.files[|o.files|], input, p.closed, ns, fileSize);
        assert r.files == o.files + [r.files[|o.files|]];
        EmptyHolds(input);
      }
    }
  }

  lemma EmptyHolds(input: seq<Entry>)
    ensures Holds([], input, [])
  {
  }

  /** One turn of the loop on the output. */
  lemma TurnHolds(o: Output, mid: Output, r: Output, input: seq<Entry>, p: Parts, i: nat, stop: bool, keep: bool,
      full: bool, fileSize: seq<Entry> -> nat)
    requires i < |input| && OutputHolds(o, input, p, fileSize)
    requires if stop then IsClosed(o, mid, fileSize) else mid == o
    requires Emitted(mid, r, input[i], !keep, full, fileSize)
    ensures OutputHolds(r, input, Turn(p, i, stop, keep, full), fileSize)
  {
    hide OutputHolds, IsClosed, Emitted;
    if stop { CloseHolds(o, mid, input, p, fileSize); }
    EmitHolds(mid, r, input, if stop then Shut(p) else p, i, keep, full, fileSize);
  }

  lemma NothingHeld(input: seq<Entry>, stop: Test, keep: Test, full: Test, fileSize: seq<Entry> -> nat)
    ensures OutputHolds(Output([], [], 0), input, PartsOf(0, stop, keep, full), fileSize)
  {
  }

  lemma AllHeld(o: Output, input: seq<Entry>, p: Parts, fileSize: seq<Entry> -> nat)
    requires OutputHolds(o, input, Shut(p), fileSize)
    ensures FilesHold(o.files, input, p.All(), fileSize)
  {
  }

  /** ShouldStopBefore was asked about the first i entries. */
  ghost predicate AskedTo(job: Compaction, input: seq<Entry>, i: nat)
    requires i <= |input|
    reads job
  {
    if i == 0 then job.passed == None
    else job.passed == Some(input[i - 1]) && job.counted == CountFrom(job.grandparents, input, job.limit, i)
  }

  method StopBefore(job: Compaction, input: seq<Entry>, i: nat) returns (r: bool)
    requires job.Valid() && Sorted(input) && i < |input| && AskedTo(job, input, i)
    modifies job`grandparentIndex, job`seenKey, job`overlappedBytes, job`counted, job`passed
    ensures job.Valid() && AskedTo(job, input, i + 1) && r == StopTest(job.grandparents, input, job.limit)(i)
  {
    assert i > 0 ==> Before(input[i - 1], input[i]);
    r := job.ShouldStopBefore(input[i]);
  }

  /** What the loop has when it comes to entry i. */
  ghost predicate LoopOk(job: Compaction, o: Output, input: seq<Entry>, i: nat, key: Option<UserKey>, last: nat,
      smallest: nat, take: nat -> nat, full: Test, fileSize: seq<Entry> -> nat)
    reads job
  {
    && i <= |input| && job.Valid() && AskedTo(job, input, i) && OutputOk(o, input, i, take)
    && (job.asked.Some? && i < |input| ==> job.asked.value <= input[i].user)
    && OutputContent(o) == Survivors(job.base, job.level, input, smallest, i)
    && OutputHolds(o, input, PartsOf(i, StopTest(job.grandparents, input, job.limit),
                                     KeepTest(job.base, job.level, input, smallest), full), fileSize)
    && key == (if i == 0 then None else Some(input[i - 1].user)) && (i > 0 ==> last == input[i - 1].sn)
  }

  /** The body of the loop. */
  method OneEntry(job: Compaction, o: Output, input: seq<Entry>, i: nat, key: Option<UserKey>, last: nat, smallest: nat,
                  take: nat -> nat, full: nat -> bool, fileSize: seq<Entry> -> nat)
    returns (r: Output, key': Option<UserKey>, last': nat)
    requires i < |input| && Sorted(input) && smallest < MAX_SN
    requires LoopOk(job, o, input, i, key, last, smallest, take, full, fileSize)
    modifies job
    ensures LoopOk(job, r, input, i + 1, key', last', smallest, take, full, fileSize)
  {
    hide OutputOk, OutputContent, Survivors, OutputHolds, PartsOf, StopTest, KeepTest, Sorted, Compaction.Valid, AskedTo,
        Emitted, IsClosed, Turn, Survives;
    ghost var stop, keep := StopTest(job.grandparents, input, job.limit), KeepTest(job.base, job.level, input, smallest);
    var e := input[i];
    var stopNow := StopBefore(job, input, i);
    var mid := o;
    if stopNow { mid := Close(o, fileSize(o.open), input, i, take); }
    ClosedIs(o, mid, stopNow, fileSize);
    key', last' := key, last;
    if key'.None? || key'.value != e.user {
      key' := Some(e.user);
      last' := MAX_SN;
    }
    r := Handle(job, mid, input, i, last', smallest, full(i), fileSize, take);
    SameAsked(job, input, i + 1);
    KeepIs(job.base, job.level, input, smallest, i);
    TurnHolds(o, mid, r, input, PartsOf(i, stop, keep, full), i, stop(i), keep(i), full(i), fileSize);
    PartsNext(i, stop, keep, full);
    last' := e.sn;
    NextUser(input, i);
  }

  /** One pass over the merged inputs: drop what no snapshot needs, write the rest to new files, start a new one where one
    is full or would overlap too much two levels down.  take(k) is the number that the k-th file takes when it is opened;
    a flush during the loop may take any numbers in between. */
  method DoCompactionWork(job: Compaction, input: seq<Entry>, smallest: nat, take: nat -> nat, full: nat -> bool,
                          fileSize: seq<Entry> -> nat)
    returns (outs: seq<File>)
    requires job.Valid() && job.asked == None && job.passed == None && Sorted(input) && smallest < MAX_SN
    modifies job
    ensures FilesContent(FileSet(outs)) == Kept(job.base, job.level, Elements(input), smallest)
    ensures Numbered(outs, take) && Ascending(outs)
    ensures FilesHold(outs, input, PartsOf(|input|, StopTest(job.grandparents, input, job.limit),
                                           KeepTest(job.base, job.level, input, smallest), full).All(), fileSize)
  {
    Opening(job.base, job.level, input, smallest, take);
    NothingHeld(input, StopTest(job.grandparents, input, job.limit), KeepTest(job.base, job.level, input, smallest), full,
                fileSize);
    NotAsked(job, input);
    hide OutputOk, OutputContent, Survivors, OutputHolds, PartsOf, StopTest, KeepTest, Sorted, Compaction.Valid, AskedTo,
        Kept, FilesHold, Ascending, Numbered, FilesContent;
    var o := Output([], [], 0);
    var currentUserKey: Option<UserKey> := None;
    var lastSequenceForKey := MAX_SN;
    var i := 0;
    while i < |input|
      invariant LoopOk(job, o, input, i, currentUserKey, lastSequenceForKey, smallest, take, full, fileSize)
    {
      o, currentUserKey, lastSequenceForKey :=
        OneEntry(job, o, input, i, currentUserKey, lastSequenceForKey, smallest, take, full, fileSize);
      i := i + 1;
    }
    outs := LastFile(job, o, input, currentUserKey, lastSequenceForKey, smallest, take, full, fileSize);
  }

  method LastFile(job: Compaction, o: Output, input: seq<Entry>, ghost key: Option<UserKey>, ghost last: nat,
                  ghost smallest: nat, take: nat -> nat, ghost full: nat -> bool, fileSize: seq<Entry> -> nat)
    returns (outs: seq<File>)
    requires LoopOk(job, o, input, |input|, key, last, smallest, take, full, fileSize)
    ensures FilesContent(FileSet(outs)) == Kept(job.base, job.level, Elements(input), smallest)
    ensures Numbered(outs, take) && Ascending(outs)
    ensures FilesHold(outs, input, PartsOf(|input|, StopTest(job.grandparents, input, job.limit),
                                           KeepTest(job.base, job.level, input, smallest), full).All(), fileSize)
  {
    hide OutputOk, OutputContent, Survivors, OutputHolds, PartsOf, StopTest, KeepTest, Compaction.Valid, AskedTo, IsClosed,
        Kept, FilesHold, Ascending, Numbered, FilesContent;
    ghost var p := PartsOf(|input|, StopTest(job.grandparents, input, job.limit),
                           KeepTest(job.base, job.level, input, smallest), full);
    var r := Close(o, fileSize(o.open), input, |input|, take);
    ClosedIs(o, r, true, fileSize);
    CloseHolds(o, r, input, p, fileSize);
    AllHeld(r, input, p, fileSize);
    AllDone(r, job.base, job.level, input, smallest, take);
    outs := r.files;
  }

  lemma SameAsked(job: Compaction, input: seq<Entry>, i: nat)
    requires 0 < i <= |input|
    ensures AskedTo(job, input, i) <==>
        job.passed == Some(input[i - 1]) && job.counted == CountFrom(job.grandparents, input, job.limit, i)
  {
  }

  lemma NotAsked(job: Compaction, input: seq<Entry>)
    requires job.passed == None
    ensures AskedTo(job, input, 0)
  {
  }

  lemma ClosedIs(o: Output, r: Output, stop: bool, fileSize: seq<Entry> -> nat)
    requires stop ==> r.open == []
    requires stop ==> r.files == if o.open == [] then o.files
      else o.files + [Table(o.number, fileSize(o.open), o.open)]
    ensures stop ==> IsClosed(o, r, fileSize)
  {
  }

  lemma KeepIs(b: Version, c: nat, input: seq<Entry>, smallest: nat, i: nat)
    requires i < |input|
    ensures KeepTest(b, c, input, smallest)(i) == Survives(b, c, input, smallest, i)
  {
  }

  lemma Opening(b: Version, c: nat, input: seq<Entry>, smallest: nat, take: nat -> nat)
    ensures OutputOk(Output([], [], 0), input, 0, take)
    ensures OutputContent(Output([], [], 0)) == Survivors(b, c, input, smallest, 0)
  {
    assert FilesContent(FileSet([])) == {};
  }

  lemma NextUser(input: seq<Entry>, i: nat)
    requires Sorted(input) && i < |input|
    ensures i + 1 < |input| ==> input[i].user <= input[i + 1].user
  {
    assert i + 1 < |input| ==> Before(input[i], input[i + 1]);
  }

  lemma SkipKeepsOk(o: Output, input: seq<Entry>, i: nat, take: nat -> nat)
    requires Sorted(input) && i < |input| && OutputOk(o, input, i, take)
    ensures OutputOk(o, input, i + 1, take)
  {
    OrderNext(o.files, o.open, input, i);
  }

  lemma AllDone(o: Output, b: Version, c: nat, input: seq<Entry>, smallest: nat, take: nat -> nat)
    requires OutputOk(o, input, |input|, take) && o.open == []
    requires OutputContent(o) == Survivors(b, c, input, smallest, |input|)
    ensures FilesContent(FileSet(o.files)) == Kept(b, c, Elements(input), smallest)
    ensures Numbered(o.files, take) && Ascending(o.files)
  {
    assert input[..|input|] == input;
  }

  lemma SurvivorsNext(b: Version, c: nat, input: seq<Entry>, smallest: nat, i: nat)
    requires i < |input|
    ensures Survivors(b, c, input, smallest, i + 1) ==
            Survivors(b, c, input, smallest, i) +
            if Hidden(Elements(input), input[i], smallest) || Obsolete(b, c, input[i], smallest) then {} else {input[i]}
  {
    assert input[..i + 1] == input[..i] + [input[i]];
  }

  lemma OrderNext(outs: seq<File>, open: seq<Entry>, input: seq<Entry>, i: nat)
    requires Sorted(input) && i < |input| && InOrder(outs, open, input, i)
    ensures InOrder(outs, open, input, i + 1) && InOrder(outs, open + [input[i]], input, i + 1)
  {
    assert input[..i + 1] == input[..i] + [input[i]];
    forall e | e in input[..i] ensures Before(e, input[i]) { EarlierBefore(input, i, e); }
    forall k | 0 <= k < |open| ensures Before(open[k], input[i]) { assert open[k] in open; }
  }

  // ----- the loop beside everything else that goes on

  /** A piece of a run from the start of a compaction on, before it is installed. */
  ghost predicate Working(states: seq<DB>, steps: seq<Step>) {
    && |states| == |steps| + 1 && states[0].job.Some?
    && forall i :: 0 <= i < |steps| ==> Next(states[i], states[i + 1], steps[i]) && !steps[i].DoFinish?
  }

  /** The numbers that the compaction's files take as they are opened, in order. */
  function Taken(states: seq<DB>, steps: seq<Step>): seq<nat>
    requires |states| == |steps| + 1
  {
    if steps == [] then [] else
      var n := |steps| - 1;
      Taken(states[..n + 1], steps[..n]) + if steps[n].DoReserve? then [states[n].nextFile] else []
  }

  ghost predicate Growing(ns: seq<nat>, bound: nat) {
    (forall a, b :: 0 <= a < b < |ns| ==> ns[a] < ns[b]) && forall a :: 0 <= a < |ns| ==> ns[a] < bound
  }

  ghost function WithReserved(j: Job, ns: seq<nat>): Job { j.(reserved := j.reserved + set n | n in ns) }

  /** Numbers taken grow and are set aside for the outputs, whatever is written, flushed or snapshot between them. */
  lemma {:induction false} TakenReserved(states: seq<DB>, steps: seq<Step>)
    requires Working(states, steps)
    ensures states[|steps|].job == Some(WithReserved(states[0].job.value, Taken(states, steps)))
    ensures Growing(Taken(states, steps), states[|steps|].nextFile)
    decreases |steps|
  {
    if steps == [] {
      var j := states[0].job.value;
      assert WithReserved(j, []) == j;
    } else {
      var n := |steps| - 1;
      TakenReserved(states[..n + 1], steps[..n]);
      StepWhileWorking(states[n], states[n + 1], steps[n]);
      var ns := Taken(states[..n + 1], steps[..n]);
      assert states[..n + 1][0] == states[0] && states[..n + 1][n] == states[n];
      hide Next, Taken;
      OneMoreTaken(states[0].job.value, ns, states[n].nextFile, states[n + 1].nextFile);
      assert Taken(states, steps) == if steps[n].DoReserve? then ns
          + [states[n].nextFile] else ns by { TakenLast(states, steps); }
    }
  }

  lemma TakenLast(states: seq<DB>, steps: seq<Step>)
    requires |states| == |steps| + 1 && steps != []
    ensures var n := |steps| - 1;
            Taken(states, steps) == Taken(states[..n + 1], steps[..n]) +
                if steps[n].DoReserve? then [states[n].nextFile] else []
  {
  }

  lemma OneMoreTaken(j: Job, ns: seq<nat>, number: nat, next: nat)
    requires Growing(ns, number) && number <= next
    ensures Growing(ns, next) && (number < next ==> Growing(ns + [number], next))
    ensures WithReserved(j, ns + [number]) == WithReserved(j, ns).(reserved := WithReserved(j, ns).reserved + {number})
  {
    assert (set n | n in ns + [number]) == (set n | n in ns) + {number};
  }

  lemma StepWhileWorking(db: DB, db': DB, step: Step)
    requires db.job.Some? && Next(db, db', step) && !step.DoFinish?
    ensures db.nextFile <= db'.nextFile && (step.DoReserve? ==> db'.nextFile == db.nextFile + 1)
    ensures db'.job == if step.DoReserve? then Some(db.job.value.(reserved := db.job.value.reserved + {db.nextFile}))
        else db.job
  {
    hide PlaceOk, LandsClear;
  }

  lemma SortedApart(outs: seq<File>, o: File, q: File)
    requires Ascending(outs) && o in outs && q in outs && o != q
    ensures Apart(o, q)
  {
    var i :| 0 <= i < |outs| && outs[i] == o;
    var k :| 0 <= k < |outs| && outs[k] == q;
    if i < k { assert Before(Largest(outs[i]), Smallest(outs[k])); }
        else { assert Before(Largest(outs[k]), Smallest(outs[i])); }
  }

  lemma OwnOutputs(j: Job, outs: seq<File>, ns: seq<nat>, bound: nat)
    requires Ascending(outs) && Growing(ns, bound) && |outs| <= |ns| && forall k :: 0 <= k < |outs| ==>
        outs[k].number == ns[k]
    ensures forall o :: o in outs ==> o.number in WithReserved(j, ns).reserved
    ensures forall o, q :: o in outs && q in outs && o != q ==> Apart(o, q) && o.number != q.number
  {
    hide Ascending, Apart;
    forall o | o in outs ensures o.number in WithReserved(j, ns).reserved {
      var k :| 0 <= k < |outs| && outs[k] == o;
      assert ns[k] in ns;
    }
    forall o, q | o in outs && q in outs && o != q ensures Apart(o, q) && o.number != q.number {
      SortedApart(outs, o, q);
      var i :| 0 <= i < |outs| && outs[i] == o;
      var k :| 0 <= k < |outs| && outs[k] == q;
    }
  }

  /** The loop's outputs, numbered as the files were opened amid writes and flushes, are what the compaction's last
    step installs. */
  lemma OutputsOfWork(states: seq<DB>, steps: seq<Step>, input: seq<Entry>, outs: seq<File>)
    requires Working(states, steps) && |outs| <= |Taken(states, steps)|
    requires var j := states[0].job.value;
        Elements(input) == Database.Inputs(j) && FilesContent(FileSet(outs)) ==
        Kept(j.base, j.level, Elements(input), j.smallest)
    requires Ascending(outs) && forall k :: 0 <= k < |outs| ==> outs[k].number == Taken(states, steps)[k]
    ensures states[|steps|].job.Some? && OutputsOf(states[|steps|].job.value, FileSet(outs))
    ensures exists db' :: Next(states[|steps|], db', DoFinish(FileSet(outs)))
  {
    TakenReserved(states, steps);
    var db, ns := states[|steps|], Taken(states, steps);
    OwnOutputs(states[0].job.value, outs, ns, db.nextFile);
    hide Working, Taken, Ascending, Kept, Apart, Growing;
    Installs(db, FileSet(outs));
  }

  lemma Installs(db: DB, outs: set<File>)
    requires db.job.Some? && OutputsOf(db.job.value, outs)
    ensures exists db' :: Next(db, db', DoFinish(outs))
  {
    hide OutputsOf;
    var j := db.job.value;
    var db' := db.(v := if j.level + 1 < NUM_LEVELS then Replace(db.v, j.level, j.in0, j.in1, outs)
        else db.v, job := None);
    assert Next(db, db', DoFinish(outs));
  }
}
