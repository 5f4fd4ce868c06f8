// The engine only ever compares user keys, so they are integers here: the user keys of any
// run are finitely many, and numbering them by rank under the user's comparator keeps every
// comparison.  A sequence number is unique to an entry, so the value type in the low byte of
// the tag never decides a comparison.

/** Internal keys, entries and what a read at a snapshot means. */
module DbFormat {
  import opened Options

  type UserKey = int
  type Value = string

  datatype Op = Delete | Put(value: Value)

  datatype Entry = Entry(user: UserKey, sn: nat, op: Op)

  /** Internal key order: user key ascending, then sequence number descending. */
  predicate Before(a: Entry, b: Entry) {
    a.user < b.user || (a.user == b.user && a.sn > b.sn)
  }

  /** The entry is at or after the lookup key (u, s). */
  predicate AtOrAfter(e: Entry, u: UserKey, s: nat) {
    u < e.user || (u == e.user && e.sn <= s)
  }

  predicate Sorted(es: seq<Entry>) {
    forall i, j :: 0 <= i < j < |es| ==> Before(es[i], es[j])
  }

  /** What the entries of a set say about user key u as of sequence number s. */
  predicate Sees(e: Entry, u: UserKey, s: nat) {
    e.user == u && e.sn <= s
  }

  ghost predicate IsNewest(S: set<Entry>, e: Entry, u: UserKey, s: nat) {
    e in S && Sees(e, u, s) && forall x :: x in S && Sees(x, u, s) ==> x.sn <= e.sn
  }

  lemma {:induction false} NewestExists(S: set<Entry>, w: Entry, u: UserKey, s: nat)
    requires w in S && Sees(w, u, s)
    ensures exists e :: IsNewest(S, e, u, s)
    decreases S
  {
    var rest := S - {w};
    if exists x :: x in rest && Sees(x, u, s) {
      var x :| x in rest && Sees(x, u, s);
      NewestExists(rest, x, u, s);
      var e :| IsNewest(rest, e, u, s);
      assert IsNewest(S, if e.sn >= w.sn then e else w, u, s);
    } else {
      assert IsNewest(S, w, u, s);
    }
  }

  /** The newest entry of u at or below s. */
  ghost function Visible(S: set<Entry>, u: UserKey, s: nat): (r: Option<Entry>)
    ensures r.None? <==> forall x :: x in S ==> !Sees(x, u, s)
    ensures r.Some? ==> IsNewest(S, r.value, u, s)
  {
    if w :| w in S && Sees(w, u, s) then
      NewestExists(S, w, u, s);
      var e :| IsNewest(S, e, u, s);
      Some(e)
    else None
  }

  function Answer(r: Option<Entry>): Option<Value> {
    if r.Some? && r.value.op.Put? then Some(r.value.op.value) else None
  }

  /** The user-level answer: the value, or None for "not found". */
  ghost function Read(S: set<Entry>, u: UserKey, s: nat): Option<Value> {
    Answer(Visible(S, u, s))
  }

  /** No two entries share a sequence number. */
  ghost predicate Distinct(S: set<Entry>) {
    forall x, y :: x in S && y in S && x.sn == y.sn ==> x == y
  }

  lemma VisibleIs(S: set<Entry>, e: Entry, u: UserKey, s: nat)
    requires Distinct(S) && IsNewest(S, e, u, s)
    ensures Visible(S, u, s) == Some(e)
  {
    var r := Visible(S, u, s);
    assert r.Some?;
    assert r.value.sn == e.sn;
  }
}
