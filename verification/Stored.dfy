/** Where every entry ever written is: in a memtable or a table, unless no read that may still come could need it. */
module Stored {
  import opened DbFormat
  import opened Options
  import opened Versions
  import opened CompactionReads
  import opened Database
  import opened ReadsOverRuns

  /** Stored, or hidden from every read at the horizon or later by a newer entry of its key that has left the
    memtables, or a deletion that they all see. */
  ghost predicate Accounted(db: DB, e: Entry) {
    || e in db.Total()
    || (exists x :: x in db.Written() - db.Mems() && x.user == e.user && e.sn < x.sn <= db.Horizon())
    || (e.op.Delete? && e.sn <= db.Horizon())
  }

  ghost predicate AllAccounted(db: DB) { forall e :: e in db.Written() ==> Accounted(db, e) }

  lemma Carried(db: DB, db': DB)
    requires AllAccounted(db) && db.Written() <= db'.Written() && db.Horizon() <= db'.Horizon()
    requires forall e :: e in db.Total() || (e in db'.Written() && e !in db.Written()) ==> Accounted(db', e)
    requires forall x :: x in db.Written() - db.Mems() ==> x !in db'.Mems()
    ensures AllAccounted(db')
  {
    forall e | e in db'.Written() ensures Accounted(db', e) {
      if e in db.Written() {
        assert Accounted(db, e);
        if x :| x in db.Written() - db.Mems() && x.user == e.user && e.sn < x.sn <= db.Horizon() {
          assert x in db'.Written() - db'.Mems() && x.sn <= db'.Horizon();
        }
      }
    }
  }

  lemma SameTotal(db: DB, db': DB)
    requires AllAccounted(db) && db'.Total() == db.Total() && db'.Mems() <= db.Mems()
    requires db'.history == db.history && db.Horizon() <= db'.Horizon()
    ensures AllAccounted(db')
  {
    Carried(db, db');
  }

  lemma WriteStores(db: DB, db': DB, batch: Batch)
    requires HistoryOk(db) && AllAccounted(db) && Write(db, db', batch) && db.Horizon() <= db'.Horizon()
    ensures AllAccounted(db')
  {
    var es := Stamped(db.Last() + 1, batch);
    WriteKeepsHistory(db, db', batch);
    WrittenDistinct(db);
    assert db'.Written() == db.Written() + set e | e in es;
    assert db'.Total() == db.Total() + set e | e in es;
    Carried(db, db');
  }

  /** What a compaction drops is hidden, or deleted with nothing underneath. */
  lemma FinishStores(db: DB, db': DB, outs: set<File>)
    requires Inv(db) && AllAccounted(db) && Finish(db, db', outs) && db.Horizon() <= db'.Horizon()
    ensures AllAccounted(db')
  {
    var j := db.job.value;
    assert AreInputs(db.v, j.level, j.in0, j.in1) && j.smallest <= db.Horizon();
    hide Inv, Accounted, AllAccounted, Replace, AreInputs;
    forall e | e in db.Total() ensures Accounted(db', e) {
      Unmoved(db.Mems(), db.v, j.level, j.in0, j.in1, outs, e);
      if e !in db'.Total() {
        assert e in Inputs(j) && e !in ToKeep(j);
        DroppedAccounted(db, db', j, e);
      } else {
        StoredAccounted(db', e);
      }
    }
    assert db'.Written() == db.Written();
    Carried(db, db');
  }

  lemma StoredAccounted(db: DB, e: Entry)
    requires e in db.Total()
    ensures Accounted(db, e)
  {
  }

  lemma DroppedAccounted(db: DB, db': DB, j: Job, e: Entry)
    requires Inv(db) && db'.history == db.history && db'.Mems() == db.Mems() && db.Horizon() <= db'.Horizon()
    requires AreInputs(db.v, j.level, j.in0, j.in1) && j.smallest <= db.Horizon()
    requires e in Inputs(j) && e !in ToKeep(j)
    ensures Accounted(db', e)
  {
    hide Recency, NumbersBelow, JobOk, BaseLevel, Content;
    if Hidden(Inputs(j), e, j.smallest) {
      var x :| x in Inputs(j) && x.user == e.user && e.sn < x.sn <= j.smallest;
      var i, f := InputAt(db.v, j.level, j.in0, j.in1, x);
      assert x in Content(db.v) && x in db.Total() && x !in db.Mems();
      assert x in db'.Written() - db'.Mems();
    }
  }

  /** No step of the engine loses an entry, resurrecting compactions included. */
  lemma NextStores(db: DB, db': DB, step: Step)
    requires Inv(db) && AllAccounted(db) && Next(db, db', step)
    ensures AllAccounted(db')
  {
    HorizonGrows(db, db', step);
    assert HistoryOk(db);
    hide Inv, HistoryOk, AllAccounted, Write, Flush, TrivialMove, Finish;
    match step
    case DoWrite(batch) => WriteStores(db, db', batch);
    case DoSwitch => assert db'.Total() == db.Total(); SameTotal(db, db');
    case DoFlush(f, p) => FlushStores(db, db', f, p);
    case DoMove(c, f, lo, hi) => MoveStores(db, db', c, f, lo, hi);
    case DoStart(c, in0, in1, lo, hi) => SameTotal(db, db');
    case DoReserve => SameTotal(db, db');
    case DoFinish(outs) => FinishStores(db, db', outs);
    case DoSnapshot => SameTotal(db, db');
    case DoRelease(i) => SameTotal(db, db');
  }

  lemma FlushStores(db: DB, db': DB, f: File, p: nat)
    requires Inv(db) && AllAccounted(db) && Flush(db, db', f, p) && db.Horizon() <= db'.Horizon()
    ensures AllAccounted(db')
  {
    if db.imm.value != {} { FlushKeepsAges(db, db', f, p); }
    hide Inv, AllAccounted;
    SameTotal(db, db');
  }

  lemma MoveStores(db: DB, db': DB, c: nat, f: File, lo: UserKey, hi: UserKey)
    requires AllAccounted(db) && TrivialMove(db, db', c, f, lo, hi) && db.Horizon() <= db'.Horizon()
    ensures AllAccounted(db')
  {
    MoveContent(db.v, c, f);
    hide AllAccounted;
    SameTotal(db, db');
  }

  /** A value written and not overwritten since is what a read gives that sees it. */
  lemma WrittenIsRead(db: DB, e: Entry, s: nat)
    requires Inv(db) && ReadsOk(db) && e in db.Written() && e.op.Put? && db.Horizon() <= s && e.sn <= s
    requires forall x :: x in db.Written() && x.user == e.user && e.sn < x.sn ==> x.sn > s
    ensures Read(db.Total(), e.user, s) == Some(e.op.value)
  {
    WrittenDistinct(db);
    VisibleIs(db.Written(), e, e.user, s);
  }
}
