/** What a merge compaction may drop, and exactly when dropping leaves every read alone. */
module CompactionReads {
  import opened DbFormat
  import opened Options
  import opened Versions

  /** No file two or more levels below the compaction's level has u in its range. */
  ghost predicate BaseLevel(b: Version, c: nat, u: UserKey) {
    forall j, f :: c + 2 <= j < NUM_LEVELS && f in b[j] ==> !(Lo(f) <= u <= Hi(f))
  }

  /** Rule (A): a newer input entry of the same key is already visible to the oldest snapshot. */
  ghost predicate Hidden(ins: set<Entry>, e: Entry, smallest: nat) {
    exists x :: x in ins && x.user == e.user && e.sn < x.sn <= smallest
  }

  /** The second rule: a tombstone every snapshot sees, with nothing underneath. */
  ghost predicate Obsolete(b: Version, c: nat, e: Entry, smallest: nat) {
    e.op.Delete? && e.sn <= smallest && BaseLevel(b, c, e.user)
  }

  ghost function Kept(b: Version, c: nat, ins: set<Entry>, smallest: nat): set<Entry> {
    set e | e in ins && !Hidden(ins, e, smallest) && !Obsolete(b, c, e, smallest)
  }

  ghost predicate NewerEntries(A: set<Entry>, v: Version) {
    forall a, e :: a in A && e in Content(v) ==> a.sn > e.sn
  }

  /** A file two or more levels down may hold the key. */
  ghost predicate HeldDeeper(b: Version, c: nat, u: UserKey) {
    exists j, f :: c + 2 <= j < NUM_LEVELS && f in b[j] && Lo(f) <= u <= Hi(f)
  }

  /** What a compaction keeps: every entry above smallest_snapshot, and of those at or below it only the newest of a key,
    a deletion only if it may still hide something deeper. */
  lemma KeptIs(b: Version, c: nat, ins: set<Entry>, smallest: nat, e: Entry)
    ensures e in Kept(b, c, ins, smallest) <==>
      e in ins && (e.op.Put? || e.sn > smallest || HeldDeeper(b, c, e.user))
               && (e.sn > smallest || IsNewest(ins, e, e.user, smallest))
  {
  }

  /** Of each key at most one entry at or below smallest_snapshot is kept. */
  lemma OneOldEntry(b: Version, c: nat, ins: set<Entry>, smallest: nat, d: Entry, e: Entry)
    requires Distinct(ins) && d in Kept(b, c, ins, smallest) && e in Kept(b, c, ins, smallest)
    requires d.user == e.user && d.sn <= smallest && e.sn <= smallest
    ensures d == e
  {
    KeptIs(b, c, ins, smallest, d);
    KeptIs(b, c, ins, smallest, e);
  }

  /** The files two or more levels down are those of the input version, plus flushed files
    that share no user key with the inputs. */
  ghost predicate BaseStable(v: Version, b: Version, c: nat, ins: set<Entry>) {
    && (forall j :: c + 2 <= j < NUM_LEVELS ==> b[j] <= v[j])
    && (forall j, g, d, e :: c + 2 <= j < NUM_LEVELS && g in v[j] && g !in b[j] && d in g.entries && e in ins ==>
       d.user != e.user)
  }

  /** mem holds the entries of both memtables, v the current files, b the files when the compaction was chosen. */
  ghost predicate Setting(mem: set<Entry>, v: Version, b: Version, c: nat, in0: set<File>, in1: set<File>) {
    && Recency(v) && AreInputs(v, c, in0, in1) && StayersNewer(v, c, in0)
    && NewerEntries(mem, v) && Distinct(mem + Content(v))
    && BaseStable(v, b, c, FilesContent(in0 + in1))
  }

  ghost function Stayers(v: Version, c: nat, in1: set<File>): set<Entry>
    requires c + 1 < NUM_LEVELS
  {
    FilesContent(v[c + 1] - in1)
  }

  /** A tombstone that rule two drops although the level below the inputs' level keeps an older value of its key. */
  ghost predicate Resurrects(mem: set<Entry>, v: Version, b: Version, c: nat, in0: set<File>, in1: set<File>,
      smallest: nat, t: Entry)
    requires c + 1 < NUM_LEVELS
  {
    && t in FilesContent(in0 + in1) && Obsolete(b, c, t, smallest)
    && IsNewest(mem + Content(v), t, t.user, smallest)
    && Read(Stayers(v, c, in1), t.user, smallest).Some?
  }

  ghost predicate SameReads(S: set<Entry>, T: set<Entry>, smallest: nat) {
    forall u, s: nat :: s >= smallest ==> Read(S, u, s) == Read(T, u, s)
  }

  /** Where an entry is after the compaction. */
  lemma AfterSource(v: Version, c: nat, in0: set<File>, in1: set<File>, outs: set<File>, x: Entry)
      returns (i: nat, g: File)
    requires c + 1 < NUM_LEVELS && x in Content(Replace(v, c, in0, in1, outs))
    ensures x in g.entries
    ensures g in outs || (i < NUM_LEVELS && g in v[i] && (i == c ==> g !in in0) && (i == c + 1 ==> g !in in1))
  {
    var w := Replace(v, c, in0, in1, outs);
    var j, h :| 0 <= j < NUM_LEVELS && h in w[j] && x in h.entries;
    i, g := j, h;
    if j == c + 1 {
      assert w[j] == v[c + 1] - in1 + outs;
    } else if j == c {
      assert w[j] == v[c] - in0;
    }
  }

  lemma AfterIsSubset(v: Version, c: nat, in0: set<File>, in1: set<File>, outs: set<File>)
    requires AreInputs(v, c, in0, in1) && FilesContent(outs) <= FilesContent(in0 + in1)
    ensures Content(Replace(v, c, in0, in1, outs)) <= Content(v)
  {
    forall x | x in Content(Replace(v, c, in0, in1, outs)) ensures x in Content(v) {
      var i, g := AfterSource(v, c, in0, in1, outs, x);
      if g in outs {
        assert x in FilesContent(outs);
        var f :| f in in0 + in1 && x in f.entries;
        assert f in v[c] || f in v[c + 1];
      }
    }
  }

  lemma InputAt(v: Version, c: nat, in0: set<File>, in1: set<File>, e: Entry) returns (i: nat, f: File)
    requires AreInputs(v, c, in0, in1) && e in FilesContent(in0 + in1)
    ensures (i == c && f in in0) || (i == c + 1 && f in in1)
    ensures f in v[i] && e in f.entries && e in Content(v)
  {
    f :| f in in0 + in1 && e in f.entries;
    i := if f in in0 then c else c + 1;
  }

  lemma HiddenNotKept(b: Version, c: nat, ins: set<Entry>, smallest: nat, t: Entry, x: Entry)
    requires t in ins && Obsolete(b, c, t, smallest) && x.user == t.user && x.sn < t.sn
    ensures t !in Kept(b, c, ins, smallest) && x !in Kept(b, c, ins, smallest)
  {
    assert x.sn < t.sn <= smallest;
    assert Hidden(ins, x, smallest);
  }

  lemma UpperNewer(v: Version, c: nat, in0: set<File>, in1: set<File>, i: nat, g: File, f: File)
    requires LevelsRecent(v) && AreInputs(v, c, in0, in1) && StayersNewer(v, c, in0)
    requires i <= c && g in v[i] && (i == c ==> g !in in0) && f in in0 + in1
    ensures Newer(g, f)
  {
    assert f in v[c] || f in v[c + 1];
  }

  /** A file that stays and holds an entry of t's key no newer than t is one level down. */
  lemma OlderStayer(v: Version, b: Version, c: nat, in0: set<File>, in1: set<File>, t: Entry, i: nat, g: File, x: Entry)
    requires Recency(v) && AreInputs(v, c, in0, in1) && StayersNewer(v, c, in0)
    requires BaseStable(v, b, c, FilesContent(in0 + in1))
    requires t in FilesContent(in0 + in1) && BaseLevel(b, c, t.user)
    requires i < NUM_LEVELS && g in v[i] && (i == c ==> g !in in0) && (i == c + 1 ==> g !in in1)
    requires x in g.entries && x.user == t.user && x.sn <= t.sn
    ensures i == c + 1 && x.sn < t.sn
  {
    var k, ft := InputAt(v, c, in0, in1, t);
    if i == c + 1 {
      if k == c + 1 {
        assert ft != g && Apart(ft, g);
        InRange(ft, t);
        InRange(g, x);
      } else {
        assert Newer(ft, g);
      }
    } else if i <= c {
      UpperNewer(v, c, in0, in1, i, g, ft);
      assert false;
    } else {
      InRange(g, x);
      assert false;
    }
  }

  /** If the newest visible entry t is a tombstone dropped by rule two, whatever older entry is
    left is in a file that stays one level down. */
  lemma OnlyStayersBelow(mem: set<Entry>, v: Version, b: Version, c: nat, in0: set<File>, in1: set<File>,
      outs: set<File>,
                         smallest: nat, t: Entry, s: nat, x: Entry)
    requires Setting(mem, v, b, c, in0, in1)
    requires FilesContent(outs) == Kept(b, c, FilesContent(in0 + in1), smallest)
    requires t in FilesContent(in0 + in1) && Obsolete(b, c, t, smallest) && IsNewest(mem + Content(v), t, t.user, s)
    requires x in mem + Content(Replace(v, c, in0, in1, outs)) && Sees(x, t.user, s)
    ensures x in Stayers(v, c, in1) && x.sn < t.sn
  {
    AfterIsSubset(v, c, in0, in1, outs);
    assert x.sn <= t.sn && (x.sn == t.sn ==> x == t);
    assert x !in mem by {
      var k, ft := InputAt(v, c, in0, in1, t);
    }
    var i, g := AfterSource(v, c, in0, in1, outs, x);
    if g in outs {
      assert x in FilesContent(outs);
      if x.sn < t.sn { HiddenNotKept(b, c, FilesContent(in0 + in1), smallest, t, x); }
      assert false;
    } else {
      OlderStayer(v, b, c, in0, in1, t, i, g, x);
      assert g in v[c + 1] - in1;
    }
  }

  lemma StayersRemain(v: Version, c: nat, in0: set<File>, in1: set<File>, outs: set<File>)
    requires AreInputs(v, c, in0, in1)
    ensures Stayers(v, c, in1) <= Content(Replace(v, c, in0, in1, outs))
    ensures Stayers(v, c, in1) <= Content(v)
  {
    var w := Replace(v, c, in0, in1, outs);
    forall x | x in Stayers(v, c, in1) ensures x in Content(w) {
      var g :| g in v[c + 1] - in1 && x in g.entries;
      assert g in w[c + 1];
    }
  }

  lemma Unmoved(mem: set<Entry>, v: Version, c: nat, in0: set<File>, in1: set<File>, outs: set<File>, x: Entry)
    requires AreInputs(v, c, in0, in1) && x in mem + Content(v)
    ensures x in mem + Content(Replace(v, c, in0, in1, outs))
        || (x in FilesContent(in0 + in1) && x !in FilesContent(outs))
  {
    var w := Replace(v, c, in0, in1, outs);
    if x !in mem {
      var i, g :| 0 <= i < NUM_LEVELS && g in v[i] && x in g.entries;
      if (i == c && g in in0) || (i == c + 1 && g in in1) {
        assert x in FilesContent(in0 + in1);
        if x in FilesContent(outs) {
          var o :| o in outs && x in o.entries;
          assert o in w[c + 1];
        }
      } else {
        assert g in w[i];
      }
    }
  }

  /** An entry hidden from the oldest snapshot is not the newest one visible to a later one. */
  lemma HiddenNotNewest(v: Version, c: nat, in0: set<File>, in1: set<File>, S: set<Entry>, e: Entry, smallest: nat,
      s: nat)
    requires AreInputs(v, c, in0, in1) && Content(v) <= S && s >= smallest && IsNewest(S, e, e.user, s)
    ensures !Hidden(FilesContent(in0 + in1), e, smallest)
  {
    var ins := FilesContent(in0 + in1);
    if Hidden(ins, e, smallest) {
      var x :| x in ins && x.user == e.user && e.sn < x.sn <= smallest;
      var i, f := InputAt(v, c, in0, in1, x);
      assert Sees(x, e.user, s);
      assert false;
    }
  }

  /** The newest visible entry is dropped only as an obsolete tombstone. */
  lemma DroppedNewest(mem: set<Entry>, v: Version, b: Version, c: nat, in0: set<File>, in1: set<File>, outs: set<File>,
                      smallest: nat, e: Entry, s: nat)
    requires AreInputs(v, c, in0, in1) && s >= smallest
    requires FilesContent(outs) == Kept(b, c, FilesContent(in0 + in1), smallest)
    requires IsNewest(mem + Content(v), e, e.user, s)
    requires e !in mem + Content(Replace(v, c, in0, in1, outs))
    ensures e in FilesContent(in0 + in1) && Obsolete(b, c, e, smallest)
    ensures IsNewest(mem + Content(v), e, e.user, smallest)
  {
    Unmoved(mem, v, c, in0, in1, outs, e);
    HiddenNotNewest(v, c, in0, in1, mem + Content(v), e, smallest, s);
  }

  lemma StayerRead(mem: set<Entry>, v: Version, c: nat, in0: set<File>, in1: set<File>, outs: set<File>,
                   x: Entry, u: UserKey, s: nat, smallest: nat)
    requires AreInputs(v, c, in0, in1) && Distinct(mem + Content(v))
    requires IsNewest(mem + Content(Replace(v, c, in0, in1, outs)), x, u, s) && x in Stayers(v, c, in1)
    requires x.sn <= smallest <= s
    ensures Visible(Stayers(v, c, in1), u, smallest) == Some(x)
  {
    StayersRemain(v, c, in0, in1, outs);
    VisibleIs(Stayers(v, c, in1), x, u, smallest);
  }

  /** Reads at one key and snapshot, when nothing comes back. */
  lemma ReadKept(mem: set<Entry>, v: Version, b: Version, c: nat, in0: set<File>, in1: set<File>, outs: set<File>,
                 smallest: nat, u: UserKey, s: nat)
    requires Setting(mem, v, b, c, in0, in1) && s >= smallest
    requires FilesContent(outs) == Kept(b, c, FilesContent(in0 + in1), smallest)
    requires forall t :: !Resurrects(mem, v, b, c, in0, in1, smallest, t)
    ensures Read(mem + Content(v), u, s) == Read(mem + Content(Replace(v, c, in0, in1, outs)), u, s)
  {
    var S := mem + Content(v);
    var T := mem + Content(Replace(v, c, in0, in1, outs));
    AfterIsSubset(v, c, in0, in1, outs);
    assert T <= S;
    var r := Visible(S, u, s);
    if r.Some? {
      var e := r.value;
      if e in T {
        VisibleIs(T, e, u, s);
      } else {
        DroppedNewest(mem, v, b, c, in0, in1, outs, smallest, e, s);
        var q := Visible(T, u, s);
        if q.Some? {
          var x := q.value;
          OnlyStayersBelow(mem, v, b, c, in0, in1, outs, smallest, e, s, x);
          StayerRead(mem, v, c, in0, in1, outs, x, u, s, smallest);
          assert !Resurrects(mem, v, b, c, in0, in1, smallest, e);
        }
      }
    }
  }

  /** A resurrecting tombstone is a read that changes. */
  lemma ResurrectedRead(mem: set<Entry>, v: Version, b: Version, c: nat, in0: set<File>, in1: set<File>,
      outs: set<File>,
                        smallest: nat, t: Entry)
    requires Setting(mem, v, b, c, in0, in1)
    requires FilesContent(outs) == Kept(b, c, FilesContent(in0 + in1), smallest)
    requires Resurrects(mem, v, b, c, in0, in1, smallest, t)
    ensures Read(mem + Content(v), t.user, smallest) == None
    ensures Read(mem + Content(Replace(v, c, in0, in1, outs)), t.user, smallest).Some?
  {
    var S := mem + Content(v);
    var T := mem + Content(Replace(v, c, in0, in1, outs));
    VisibleIs(S, t, t.user, smallest);
    var p := Visible(Stayers(v, c, in1), t.user, smallest).value;
    StayersRemain(v, c, in0, in1, outs);
    assert p in T;
    var q := Visible(T, t.user, smallest).value;
    OnlyStayersBelow(mem, v, b, c, in0, in1, outs, smallest, t, smallest, q);
    AfterIsSubset(v, c, in0, in1, outs);
    assert q.sn == p.sn;
    assert p in S && q in S;
  }

  /** A merge compaction changes no read at or above the oldest snapshot if and only if it
    drops no tombstone whose key has an older value in a file that stays one level down. */
  lemma ReadsPreservedIff(mem: set<Entry>, v: Version, b: Version, c: nat, in0: set<File>, in1: set<File>,
      outs: set<File>,
                          smallest: nat)
    requires Setting(mem, v, b, c, in0, in1)
    requires FilesContent(outs) == Kept(b, c, FilesContent(in0 + in1), smallest)
    ensures SameReads(mem + Content(v), mem + Content(Replace(v, c, in0, in1, outs)), smallest)
       <==> forall t :: !Resurrects(mem, v, b, c, in0, in1, smallest, t)
  {
    if forall t :: !Resurrects(mem, v, b, c, in0, in1, smallest, t) {
      forall u, s: nat | s >= smallest
        ensures Read(mem + Content(v), u, s) == Read(mem + Content(Replace(v, c, in0, in1, outs)), u, s)
      {
        ReadKept(mem, v, b, c, in0, in1, outs, smallest, u, s);
      }
    } else {
      var t :| Resurrects(mem, v, b, c, in0, in1, smallest, t);
      ResurrectedRead(mem, v, b, c, in0, in1, outs, smallest, t);
    }
  }

  /** The condition a caller can check on file ranges alone: no user key is split between an
    input file and a file that stays one level down. */
  ghost predicate NoSplit(v: Version, c: nat, in0: set<File>, in1: set<File>)
    requires c + 1 < NUM_LEVELS
  {
    forall f, g, d, e :: f in in0 + in1 && g in v[c + 1] && g !in in1 && d in f.entries && e in g.entries ==>
        d.user != e.user
  }

  lemma ResurrectionNeedsSplit(mem: set<Entry>, v: Version, b: Version, c: nat, in0: set<File>, in1: set<File>,
      smallest: nat, t: Entry)
    requires c + 1 < NUM_LEVELS && Resurrects(mem, v, b, c, in0, in1, smallest, t)
    ensures !NoSplit(v, c, in0, in1)
  {
    var p := Visible(Stayers(v, c, in1), t.user, smallest).value;
    var f :| f in in0 + in1 && t in f.entries;
    var g :| g in v[c + 1] - in1 && p in g.entries;
  }
}
