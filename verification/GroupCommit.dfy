/** The queue of writers: the one in front logs its own batch and those of writers behind it. */
module GroupCommit {
  import opened Options
  import opened Database

  /** A waiting writer; a writer without a batch only asks for a memtable switch. */
  datatype Writer = Writer(id: nat, batch: Option<Batch>, bytes: nat, sync: bool)

  // ----- BuildBatchGroup

  function MaxSize(first: nat): nat {
    if first <= 0x2_0000 then first + 0x2_0000 else 0x10_0000
  }

  function BytesOf(w: Writer): nat { if w.batch.Some? then w.bytes else 0 }

  function OpsOf(w: Writer): Batch { if w.batch.Some? then w.batch.value else [] }

  function Ops(ws: seq<Writer>): Batch {
    if ws == [] then [] else Ops(ws[..|ws| - 1]) + OpsOf(ws[|ws| - 1])
  }

  function Bytes(ws: seq<Writer>): nat {
    if ws == [] then 0 else Bytes(ws[..|ws| - 1]) + BytesOf(ws[|ws| - 1])
  }

  /** The writer may not join a group led by first that already has so many bytes. */
  predicate Refused(first: Writer, size: nat, w: Writer) {
    (w.sync && !first.sync) || (w.batch.Some? && size + w.bytes > MaxSize(first.bytes))
  }

  /** The group is the longest run from the front of the queue in which nobody is refused. */
  ghost predicate IsGroup(q: seq<Writer>, n: nat) {
    && 1 <= n <= |q|
    && (forall i :: 1 <= i < n ==> Joins(q, i))
    && (n < |q| ==> !Joins(q, n))
  }

  predicate Joins(q: seq<Writer>, i: nat)
    requires i < |q|
  {
    !Refused(q[0], Bytes(q[..i]), q[i])
  }

  lemma OneMore(q: seq<Writer>, n: nat)
    requires n < |q|
    ensures Ops(q[..n + 1]) == Ops(q[..n]) + (if q[n].batch.Some? then q[n].batch.value else [])
    ensures Bytes(q[..n + 1]) == Bytes(q[..n]) + if q[n].batch.Some? then q[n].bytes else 0
    ensures n == 0 ==> Ops(q[..0]) == [] && Bytes(q[..0]) == 0
    ensures MaxSize(q[0].bytes) == if q[0].bytes <= 0x2_0000 then q[0].bytes + 0x2_0000 else 0x10_0000
    ensures Joins(q, n) <==> !(q[n].sync && !q[0].sync) && !(q[n].batch.Some? && Bytes(q[..n + 1]) > MaxSize(q[0].bytes))
  {
    assert q[..n + 1][..n] == q[..n];
    assert n == 0 ==> q[..0] == [];
  }

  lemma GroupFound(q: seq<Writer>, n: nat)
    requires 1 <= n <= |q| && (forall i :: 1 <= i < n ==> Joins(q, i)) && (n < |q| ==> !Joins(q, n))
    ensures IsGroup(q, n)
  {
  }

  method BuildBatchGroup(q: seq<Writer>) returns (n: nat, result: Batch)
    requires q != [] && q[0].batch.Some?
    ensures IsGroup(q, n) && result == Ops(q[..n])
  {
    hide *;
    OneMore(q, 0);
    var first := q[0];
    var size := first.bytes;
    var maxSize := 0x10_0000;
    if size <= 0x2_0000 {
      maxSize := size + 0x2_0000;
    }
    result := first.batch.value;
    n := 1;
    while n < |q|
      invariant 1 <= n <= |q| && size == Bytes(q[..n]) && result == Ops(q[..n]) && maxSize == MaxSize(q[0].bytes)
      invariant forall i :: 1 <= i < n ==> Joins(q, i)
    {
      OneMore(q, n);
      var w := q[n];
      if w.sync && !first.sync {
        break;
      }
      if w.batch.Some? {
        if size + w.bytes > maxSize {
          break;
        }
        size := size + w.bytes;
        result := result + w.batch.value;
      }
      n := n + 1;
    }
    GroupFound(q, n);
  }

  /** No sync writer is in a group that is not synced, and the group stays within its size unless it is one batch. */
  lemma {:induction false} GroupLaws(q: seq<Writer>, n: nat, i: nat)
    requires q != [] && q[0].batch.Some? && IsGroup(q, n) && 1 <= i <= n
    ensures forall k :: 0 <= k < i && q[k].sync ==> q[0].sync
    ensures Bytes(q[..i]) <= MaxSize(q[0].bytes) || Bytes(q[..i]) == q[0].bytes
  {
    assert q[..i][..i - 1] == q[..i - 1];
    if i > 1 {
      GroupLaws(q, n, i - 1);
      assert Joins(q, i - 1);
    } else {
      assert q[..1][..0] == [];
    }
  }

  /** In bytes: a group is below a megabyte unless it is one batch, and a small first write adds little to its wait. */
  lemma GroupBytes(q: seq<Writer>, n: nat)
    requires q != [] && q[0].batch.Some? && IsGroup(q, n)
    ensures Bytes(q[..n]) <= 0x10_0000 || Bytes(q[..n]) == q[0].bytes
    ensures q[0].bytes <= 0x2_0000 ==> Bytes(q[..n]) <= q[0].bytes + 0x2_0000
  {
    GroupLaws(q, n, n);
    hide Bytes, IsGroup;
  }

  lemma {:induction false} BytesMonotone(q: seq<Writer>, i: nat)
    requires i <= |q|
    ensures Bytes(q[..i]) <= Bytes(q)
    decreases |q|
  {
    if i < |q| {
      BytesMonotone(q[..|q| - 1], i);
      assert q[..|q| - 1][..i] == q[..i];
    } else {
      assert q[..i] == q;
    }
  }

  /** Waiting writers that fit together are served together. */
  lemma AllFitInOne(q: seq<Writer>)
    requires q != [] && (forall w :: w in q && w.sync ==> q[0].sync)
    requires Bytes(q) <= if q[0].bytes <= 0x2_0000 then q[0].bytes + 0x2_0000 else 0x10_0000
    ensures IsGroup(q, |q|)
  {
    forall i | 1 <= i < |q| ensures Joins(q, i) {
      assert q[i] in q;
      OneMore(q, i);
      BytesMonotone(q, i + 1);
      hide Bytes, Joins;
    }
  }

  // ----- the queue as a state machine

  /** One turn at the front of the queue: the writers it finishes and what it logged. */
  datatype Turn = Turn(members: seq<Writer>, logged: bool, first: nat, ops: Batch, ok: bool)

  datatype Queue = Queue(
    arrived: seq<Writer>,        // everyone who ever joined, in order
    waiting: seq<Writer>,        // writers_
    turns: seq<Turn>,            // turns over
    leading: Option<Turn>,       // the turn under way, with the mutex released
    lastSequence: nat
  )

  ghost predicate InitQueue(q: Queue) { q == Queue([], [], [], None, q.lastSequence) }

  ghost predicate Enqueue(q: Queue, q': Queue, w: Writer) {
    && (forall x :: x in q.arrived ==> x.id != w.id)
    && q' == q.(arrived := q.arrived + [w], waiting := q.waiting + [w])
  }

  /** The front writer's turn begins; room is what MakeRoomForWrite reports. */
  ghost predicate Lead(q: Queue, q': Queue, room: bool, n: nat) {
    && q.leading == None && q.waiting != []
    && (if room && q.waiting[0].batch.Some? then
          IsGroup(q.waiting, n) && q' == q.(leading := Some(Turn(q.waiting[..n], true, q.lastSequence
              + 1, Ops(q.waiting[..n]), true)))
        else q' == q.(leading := Some(Turn(q.waiting[..1], false, q.lastSequence + 1, [], room))))
  }

  /** Logging is over, well or not; the sequence numbers are used up either way. */
  ghost predicate Finish(q: Queue, q': Queue, ok: bool) {
    && q.leading.Some?
    && var t := q.leading.value;
       |t.members| <= |q.waiting| &&
       q' == q.(waiting := q.waiting[|t.members|..], turns := q.turns
           + [t.(ok := t.ok && ok)], leading := None, lastSequence := q.lastSequence + |t.ops|)
  }

  datatype Move = Arrive(w: Writer) | Begin(room: bool, n: nat) | End(ok: bool)

  ghost predicate Step(q: Queue, q': Queue, m: Move) {
    match m
    case Arrive(w) => Enqueue(q, q', w)
    case Begin(room, n) => Lead(q, q', room, n)
    case End(ok) => Finish(q, q', ok)
  }

  // ----- invariant

  function Members(ts: seq<Turn>): seq<Writer> {
    if ts == [] then [] else Members(ts[..|ts| - 1]) + ts[|ts| - 1].members
  }

  function Count(ts: seq<Turn>): nat {
    if ts == [] then 0 else Count(ts[..|ts| - 1]) + |ts[|ts| - 1].ops|
  }

  /** A logged turn wrote the batches of its members in order; any other turn finished one writer. */
  ghost predicate TurnOk(t: Turn) {
    && t.members != []
    && (if t.logged then
          && t.members[0].batch.Some? && t.ops == Ops(t.members)
          && (forall w :: w in t.members && w.sync ==> t.members[0].sync)
          && (Bytes(t.members) <= MaxSize(t.members[0].bytes) || Bytes(t.members) == t.members[0].bytes)
        else |t.members| == 1 && t.ops == [] && (t.members[0].batch.Some? ==> !t.ok))
  }

  ghost predicate QueueInv(q: Queue, start: nat) {
    && Members(q.turns) + q.waiting == q.arrived
    && (forall i, j :: 0 <= i < j < |q.arrived| ==> q.arrived[i].id != q.arrived[j].id)
    && q.lastSequence == start + Count(q.turns)
    && (forall i :: 0 <= i < |q.turns| ==> TurnOk(q.turns[i]) && q.turns[i].first == start + Count(q.turns[..i]) + 1)
    && (q.leading.Some? ==>
       TurnOk(q.leading.value) && q.leading.value.members <= q.waiting && q.leading.value.first == q.lastSequence + 1)
  }

  lemma BeginTurn(q: Queue, q': Queue, room: bool, n: nat, start: nat)
    requires QueueInv(q, start) && Lead(q, q', room, n)
    ensures QueueInv(q', start)
  {
    if room && q.waiting[0].batch.Some? {
      GroupLaws(q.waiting, n, n);
      var t := q'.leading.value;
      assert t.members[0] == q.waiting[0];
      forall w | w in t.members && w.sync ensures t.members[0].sync {
        var k :| 0 <= k < n && t.members[k] == w;
        assert q.waiting[k] == w;
      }
    }
  }

  lemma EndTurn(q: Queue, q': Queue, ok: bool, start: nat)
    requires QueueInv(q, start) && Finish(q, q', ok)
    ensures QueueInv(q', start)
  {
    var t := q.leading.value.(ok := q.leading.value.ok && ok);
    assert q'.turns[..|q.turns|] == q.turns;
    assert Members(q'.turns) + q'.waiting == Members(q.turns) + (t.members + q'.waiting);
    assert t.members + q'.waiting == q.waiting;
    forall i | 0 <= i < |q'.turns| ensures TurnOk(q'.turns[i])
      && q'.turns[i].first == start + Count(q'.turns[..i]) + 1 {
      if i < |q.turns| {
        assert q'.turns[..i] == q.turns[..i];
        assert q'.turns[i] == q.turns[i];
      }
    }
  }

  lemma StepKeepsInv(q: Queue, q': Queue, m: Move, start: nat)
    requires QueueInv(q, start) && Step(q, q', m)
    ensures QueueInv(q', start) && q.turns <= q'.turns
  {
    match m
    case Arrive(w) => assert Members(q.turns) + q'.waiting == q.arrived + [w];
    case Begin(room, n) => BeginTurn(q, q', room, n, start);
    case End(ok) => EndTurn(q, q', ok, start);
  }

  datatype Run = Run(states: seq<Queue>, moves: seq<Move>)

  ghost predicate IsRun(r: Run) {
    && |r.states| == |r.moves| + 1 && InitQueue(r.states[0])
    && forall i :: 0 <= i < |r.moves| ==> Step(r.states[i], r.states[i + 1], r.moves[i])
  }

  lemma {:induction false} InvOverRuns(r: Run, i: nat)
    requires IsRun(r) && i < |r.states|
    ensures QueueInv(r.states[i], r.states[0].lastSequence)
  {
    if i > 0 {
      InvOverRuns(r, i - 1);
      StepKeepsInv(r.states[i - 1], r.states[i], r.moves[i - 1], r.states[0].lastSequence);
    }
  }

  lemma {:induction false} TurnsGrow(r: Run, i: nat, k: nat)
    requires IsRun(r) && i <= k < |r.states|
    ensures r.states[i].turns <= r.states[k].turns
  {
    hide QueueInv, Step;
    if i < k {
      TurnsGrow(r, i, k - 1);
      InvOverRuns(r, k - 1);
      StepKeepsInv(r.states[k - 1], r.states[k], r.moves[k - 1], r.states[0].lastSequence);
    }
  }

  // ----- each writer is finished by one turn, in the order of arrival

  lemma {:induction false} MemberOfTurn(ts: seq<Turn>, p: nat) returns (i: nat, j: nat)
    requires p < |Members(ts)|
    ensures i < |ts| && j < |ts[i].members| && ts[i].members[j] == Members(ts)[p] && p == |Members(ts[..i])| + j
    decreases |ts|
  {
    var n := |ts| - 1;
    if p < |Members(ts[..n])| {
      i, j := MemberOfTurn(ts[..n], p);
      assert ts[..n][..i] == ts[..i];
    } else {
      i, j := n, p - |Members(ts[..n])|;
    }
  }

  lemma {:induction false} MembersAt(ts: seq<Turn>, i: nat, j: nat)
    requires i < |ts| && j < |ts[i].members|
    ensures |Members(ts[..i])| + j < |Members(ts)| && Members(ts)[|Members(ts[..i])| + j] == ts[i].members[j]
    decreases |ts|
  {
    var n := |ts| - 1;
    if i < n {
      MembersAt(ts[..n], i, j);
      assert ts[..n][..i] == ts[..i];
    }
  }

  lemma {:induction false} MembersMonotone(ts: seq<Turn>, i: nat, k: nat)
    requires i < k <= |ts|
    ensures |Members(ts[..i])| + |ts[i].members| <= |Members(ts[..k])|
    ensures Count(ts[..i]) + |ts[i].ops| <= Count(ts[..k])
    decreases k
  {
    assert ts[..k][..k - 1] == ts[..k - 1];
    if i < k - 1 {
      MembersMonotone(ts, i, k - 1);
    }
  }

  /** A writer that is no longer waiting was a member of exactly one turn. */
  lemma ExactlyOneTurn(q: Queue, start: nat, w: Writer)
    requires QueueInv(q, start) && w in q.arrived && w !in q.waiting
    ensures exists i :: 0 <= i < |q.turns| && w in q.turns[i].members
    ensures forall i, k :: 0 <= i < k < |q.turns| && w in q.turns[i].members ==> w !in q.turns[k].members
  {
    var p: nat :| p < |q.arrived| && q.arrived[p] == w;
    if p >= |Members(q.turns)| {
      InSecond(Members(q.turns), q.waiting, p);
      assert false;
    }
    var a, b := MemberOfTurn(q.turns, p);
    assert w in q.turns[a].members;
    forall i, k | 0 <= i < k < |q.turns| && w in q.turns[i].members ensures w !in q.turns[k].members {
      LaterTurn(q, start, i, k, w);
    }
  }

  lemma PlaceInQueue(q: Queue, start: nat, i: nat, w: Writer) returns (p: nat)
    requires QueueInv(q, start) && i < |q.turns| && w in q.turns[i].members
    ensures |Members(q.turns[..i])| <= p < |Members(q.turns[..i])| + |q.turns[i].members| && p < |q.arrived|
        && q.arrived[p] == w
  {
    var j :| 0 <= j < |q.turns[i].members| && q.turns[i].members[j] == w;
    MembersAt(q.turns, i, j);
    p := |Members(q.turns[..i])| + j;
    assert Members(q.turns) + q.waiting == q.arrived;
    hide QueueInv, Members;
  }

  lemma InSecond(a: seq<Writer>, b: seq<Writer>, p: nat)
    requires |a| <= p < |a + b|
    ensures (a + b)[p] in b
  {
    assert (a + b)[p] == b[p - |a|];
  }

  lemma LaterTurn(q: Queue, start: nat, i: nat, k: nat, w: Writer)
    requires QueueInv(q, start) && i < k < |q.turns| && w in q.turns[i].members
    ensures w !in q.turns[k].members
  {
    var x := PlaceInQueue(q, start, i, w);
    MembersMonotone(q.turns, i, k);
    forall l | 0 <= l < |q.turns[k].members| ensures q.turns[k].members[l] != w {
      var y := PlaceInQueue(q, start, k, q.turns[k].members[l]);
      hide TurnOk, Count, Members;
      assert q.arrived[x].id != q.arrived[y].id;
    }
  }

  // ----- sequence numbers

  /** First sequence number of member j of a turn. */
  function FirstOf(t: Turn, j: nat): nat
    requires j < |t.members|
  {
    t.first + |Ops(t.members[..j])|
  }

  lemma {:induction false} OpsMonotone(ws: seq<Writer>, i: nat, k: nat)
    requires i <= k <= |ws|
    ensures |Ops(ws[..i])| <= |Ops(ws[..k])|
    decreases k
  {
    if i < k {
      assert ws[..k][..k - 1] == ws[..k - 1];
      OpsMonotone(ws, i, k - 1);
    }
  }

  lemma MemberRange(t: Turn, j: nat)
    requires TurnOk(t) && t.logged && j < |t.members|
    ensures t.first <= FirstOf(t, j) && FirstOf(t, j) + |OpsOf(t.members[j])| <= t.first + |t.ops|
  {
    assert t.members[..j + 1][..j] == t.members[..j] && t.members[..|t.members|] == t.members;
    OpsMonotone(t.members, j + 1, |t.members|);
  }

  /** Batches take consecutive ranges of sequence numbers, in queue order, and no number is used twice. */
  lemma RangesDisjoint(q: Queue, start: nat, i: nat, j: nat, k: nat, l: nat)
    requires QueueInv(q, start) && i < |q.turns| && k < |q.turns| && q.turns[i].logged && q.turns[k].logged
    requires j < |q.turns[i].members| && l < |q.turns[k].members| && (i < k || (i == k && j < l))
    ensures FirstOf(q.turns[i], j) + |OpsOf(q.turns[i].members[j])| <= FirstOf(q.turns[k], l)
  {
    MemberRange(q.turns[i], j);
    MemberRange(q.turns[k], l);
    if i < k {
      MembersMonotone(q.turns, i, k);
    } else {
      var ws := q.turns[i].members;
      assert ws[..j + 1][..j] == ws[..j];
      OpsMonotone(ws, j + 1, l);
    }
  }

  /** LastSequence as any reader ever saw it lies before or after the whole of every batch. */
  lemma SnapshotSplitsNoBatch(r: Run, a: nat, b: nat, i: nat, j: nat)
    requires IsRun(r) && a < |r.states| && b < |r.states| && i < |r.states[b].turns| && r.states[b].turns[i].logged
    requires j < |r.states[b].turns[i].members|
    ensures var t := r.states[b].turns[i]; var s := r.states[a].lastSequence;
            s < FirstOf(t, j) || FirstOf(t, j) + |OpsOf(t.members[j])| <= s + 1
  {
    InvOverRuns(r, a);
    InvOverRuns(r, b);
    var qa, qb, t := r.states[a], r.states[b], r.states[b].turns[i];
    var start := r.states[0].lastSequence;
    MemberRange(t, j);
    if a <= b { TurnsGrow(r, a, b); } else { TurnsGrow(r, b, a); }
    if i < |qa.turns| {
      assert qa.turns[i] == t && qa.turns[..i] == qb.turns[..i] && qa.turns[..|qa.turns|] == qa.turns;
      MembersMonotone(qa.turns, i, |qa.turns|);
    } else {
      assert qa.turns == qb.turns[..|qa.turns|];
      if |qa.turns| < i { CountMonotone(qb.turns, |qa.turns|, i); }
    }
  }

  lemma {:induction false} CountMonotone(ts: seq<Turn>, i: nat, k: nat)
    requires i <= k <= |ts|
    ensures Count(ts[..i]) <= Count(ts[..k])
    decreases k
  {
    if i < k {
      assert ts[..k][..k - 1] == ts[..k - 1];
      CountMonotone(ts, i, k - 1);
    }
  }

  // ----- what a turn writes

  lemma StampedJoin(first: nat, a: Batch, b: Batch)
    ensures Stamped(first, a + b) == Stamped(first, a) + Stamped(first + |a|, b)
  {
  }

  /** The one write of a turn is the writes of its members one after the other. */
  lemma {:induction false} TurnIsWrites(t: Turn, j: nat)
    requires TurnOk(t) && t.logged && j < |t.members|
    ensures Stamped(t.first, Ops(t.members[..j + 1])) == Stamped(t.first, Ops(t.members[..j]))
        + Stamped(FirstOf(t, j), OpsOf(t.members[j]))
  {
    assert t.members[..j + 1][..j] == t.members[..j];
    StampedJoin(t.first, Ops(t.members[..j]), OpsOf(t.members[j]));
  }
}
