/** The user-level iterator: it turns internal entries into the live keys at a snapshot, in both directions. */
module DbIter {
  import opened DbFormat
  import opened Options
  import opened Lookup
  import opened Cursors

  /** Index of the newest entry of u at or below s, if there is one. */
  predicate IsHead(es: seq<Entry>, u: UserKey, s: nat, h: nat) {
    h < |es| && h == SeekIndex(es, u, s) && es[h].user == u
  }

  /** u has a value at snapshot s. */
  predicate Live(es: seq<Entry>, u: UserKey, s: nat) {
    var h := SeekIndex(es, u, s);
    h < |es| && es[h].user == u && es[h].op.Put?
  }

  /** Live and its value agree with the meaning of a read. */
  lemma LiveIsRead(es: seq<Entry>, S: set<Entry>, u: UserKey, s: nat)
    requires Sorted(es) && Distinct(S) && S == (set e | e in es)
    ensures Live(es, u, s) <==> Read(S, u, s).Some?
    ensures Live(es, u, s) ==> Read(S, u, s) == Some(es[SeekIndex(es, u, s)].op.value)
  {
    SeekGetIsVisible(es, S, u, s);
  }

  lemma HeadFirst(es: seq<Entry>, s: nat, i: nat)
    requires Sorted(es) && i < |es| && es[i].sn <= s
    ensures IsHead(es, es[i].user, s, SeekIndex(es, es[i].user, s)) && SeekIndex(es, es[i].user, s) <= i
  {
    var h := SeekIndex(es, es[i].user, s);
    assert h == i || Before(es[h], es[i]);
  }

  /** Order of two entries by index. */
  lemma Monotone(es: seq<Entry>, i: nat, k: nat)
    requires Sorted(es) && i <= k < |es|
    ensures es[i].user <= es[k].user
  {
    assert i == k || Before(es[i], es[k]);
  }

  datatype Direction = Forward | Reverse

  class DBIter {
    const iter: Cursor
    const sequence: nat
    var direction: Direction
    var valid: bool
    var savedKey: Option<UserKey>     // None when cleared
    var savedValue: Value

    /** Forward: on the head entry of the key. Reverse: no visible entry lies between the position and the key. */
    ghost predicate Valid()
      reads this, iter
    {
      && iter.Ok()
      && (valid && direction == Forward ==>
            iter.Valid() && Live(iter.es, iter.Entry().user, sequence)
                && IsHead(iter.es, iter.Entry().user, sequence, iter.pos))
      && (valid && direction == Reverse ==>
            && savedKey.Some? && Live(iter.es, savedKey.value, sequence)
            && savedValue == iter.es[SeekIndex(iter.es, savedKey.value, sequence)].op.value
            && Splits(iter.es, sequence, iter.pos, savedKey.value))
    }

    function Key(): UserKey
      requires Valid() && valid
      reads this, iter
    {
      if direction == Forward then iter.Entry().user else savedKey.value
    }

    function Value(): Value
      requires Valid() && valid
      reads this, iter
    {
      if direction == Forward then iter.Entry().op.value else savedValue
    }

    constructor (iter: Cursor, sequence: nat)
      requires iter.Ok()
      ensures Valid() && !valid && this.iter == iter && this.sequence == sequence
    {
      this.iter, this.sequence := iter, sequence;
      direction, valid, savedKey, savedValue := Forward, false, None, "";
    }

    /** Moves forward to the first entry that shows a live key of C and is not skipped. */
    method FindNextUserEntry(skipping0: bool, skip0: Option<UserKey>, ghost C: iset<UserKey>)
      requires iter.Ok() && iter.Valid() && direction == Forward
      requires (skipping0 ==> skip0.Some?) && Ahead(iter.es, sequence, iter.pos, skipping0, skip0, C)
      modifies this, iter
      ensures Valid() && direction == Forward
      ensures valid ==> IsLeast(C, Key())
      ensures !valid ==> C == iset{}
    {
      hide Ahead;
      var skipping, skip := skipping0, skip0;
      while true
        invariant iter.Ok() && iter.Valid() && direction == Forward
        invariant skipping ==> skip.Some?
        invariant Ahead(iter.es, sequence, iter.pos, skipping, skip, C)
        decreases |iter.es| - iter.pos
      {
        var e := iter.Entry();
        ghost var p := iter.pos;
        if e.sn <= sequence {
          HeadFirst(iter.es, sequence, p);
          if e.op.Delete? {
            AheadDelete(iter.es, sequence, p, skipping, skip, C);
            skip, skipping := Some(e.user), true;
          } else if skipping && e.user <= skip.value {
            AheadHidden(iter.es, sequence, p, skipping, skip, C);
          } else {
            valid, savedKey := true, None;
            AheadFound(iter.es, sequence, p, skipping, skip, C);
            return;
          }
        } else {
          AheadInvisible(iter.es, sequence, p, skipping, skip, C);
        }
        iter.Next();
        if !iter.Valid() {
          AheadEnd(iter.es, sequence, iter.pos, skipping, skip, C);
          break;
        }
      }
      savedKey, valid := None, false;
    }

    /** Moves back until the newest visible entry of the next smaller live key is known to be passed. */
    method FindPrevUserEntry(ghost D: iset<UserKey>)
      requires iter.Ok() && direction == Reverse && Behind(iter.es, sequence, iter.pos, D)
      modifies this, iter
      ensures Valid() && (valid ==> direction == Reverse && IsGreatest(D, Key()))
      ensures !valid ==> D == iset{}
    {
      hide BackState, Behind;
      var isPut := false;
      ghost var n := if iter.Valid() then iter.pos + 1 else 0;
      ghost var p0 := iter.pos;
      ghost var q := 0;
      BackStart(iter.es, sequence, p0, savedKey, savedValue, D);
      while iter.Valid()
        invariant iter.Ok() && direction == Reverse
        invariant n == if iter.Valid() then iter.pos + 1 else 0
        invariant isPut ==> savedKey.Some?
        invariant BackState(iter.es, sequence, n, isPut, q, p0, savedKey, savedValue, D)
        decreases n
      {
        var e := iter.Entry();
        if e.sn <= sequence {
          if isPut && e.user < savedKey.value {
            BackFound(iter.es, sequence, iter.pos, q, p0, savedKey.value, savedValue, D);
            break;
          }
          BackVisible(iter.es, sequence, iter.pos, isPut, q, p0, savedKey, savedValue, D);
          q := iter.pos;
          isPut := e.op.Put?;
          if isPut {
            savedKey, savedValue := Some(e.user), e.op.value;
          } else {
            savedKey, savedValue := None, "";
          }
        } else {
          BackInvisible(iter.es, sequence, iter.pos, isPut, q, p0, savedKey, savedValue, D);
        }
        iter.Prev();
        n := n - 1;
      }
      if !isPut {
        BackEmpty(iter.es, sequence, n, q, p0, savedKey, savedValue, D);
        valid, savedKey, savedValue, direction := false, None, "", Forward;
      } else {
        if !iter.Valid() { BackEnd(iter.es, sequence, q, p0, savedKey.value, savedValue, D); }
        valid := true;
      }
    }

    method Next()
      requires Valid() && valid
      modifies this, iter
      ensures Valid()
      ensures valid ==> IsLeast(KeysAbove(iter.es, sequence, old(Key())), Key())
      ensures !valid ==> KeysAbove(iter.es, sequence, old(Key())) == iset{}
    {
      ghost var k := Key();
      ghost var C := KeysAbove(iter.es, sequence, k);
      if direction == Reverse {
        direction := Forward;
        SplitsAhead(iter.es, sequence, iter.pos, k);
        if !iter.Valid() { iter.SeekToFirst(); } else { iter.Next(); }
      } else {
        savedKey := Some(iter.Entry().user);
        HeadAhead(iter.es, sequence, iter.pos, k);
        iter.Next();
      }
      if !iter.Valid() {
        AheadEnd(iter.es, sequence, iter.pos, true, savedKey, C);
        valid, savedKey := false, None;
        return;
      }
      FindNextUserEntry(true, savedKey, C);
    }

    method Prev()
      requires Valid() && valid
      modifies this, iter
      ensures Valid()
      ensures valid ==> IsGreatest(KeysBelow(iter.es, sequence, old(Key())), Key())
      ensures !valid ==> KeysBelow(iter.es, sequence, old(Key())) == iset{}
    {
      ghost var k := Key();
      ghost var D := KeysBelow(iter.es, sequence, k);
      if direction == Forward {
        savedKey := Some(iter.Entry().user);
        while true
          invariant iter.Ok() && iter.Valid() && savedKey == Some(k)
          invariant forall i :: iter.pos <= i < |iter.es| ==> k <= iter.es[i].user
          decreases iter.pos
        {
          ghost var p := iter.pos;
          iter.Prev();
          if !iter.Valid() {
            assert p == 0;
            BelowNone(iter.es, sequence, k);
            valid, savedKey, savedValue := false, None, "";
            return;
          }
          if iter.Entry().user < savedKey.value { break; }
        }
        direction := Reverse;
        BelowBehind(iter.es, sequence, iter.pos, k);
      } else {
        SplitsBehind(iter.es, sequence, iter.pos, k);
      }
      FindPrevUserEntry(D);
    }

    method Seek(target: UserKey)
      requires Valid()
      modifies this, iter
      ensures Valid()
      ensures valid ==> IsLeast(KeysFrom(iter.es, sequence, target), Key())
      ensures !valid ==> KeysFrom(iter.es, sequence, target) == iset{}
    {
      direction, savedValue, savedKey := Forward, "", None;
      iter.Seek(target, sequence);
      SeekAhead(iter.es, sequence, target);
      if iter.Valid() {
        FindNextUserEntry(false, savedKey, KeysFrom(iter.es, sequence, target));
      } else {
        AheadEnd(iter.es, sequence, iter.pos, false, None, KeysFrom(iter.es, sequence, target));
        valid := false;
      }
    }

    method SeekToFirst()
      requires Valid()
      modifies this, iter
      ensures Valid()
      ensures valid ==> IsLeast(LiveKeys(iter.es, sequence), Key())
      ensures !valid ==> LiveKeys(iter.es, sequence) == iset{}
    {
      direction, savedValue := Forward, "";
      iter.SeekToFirst();
      FirstAhead(iter.es, sequence, savedKey);
      if iter.Valid() {
        FindNextUserEntry(false, savedKey, LiveKeys(iter.es, sequence));
      } else {
        AheadEnd(iter.es, sequence, iter.pos, false, savedKey, LiveKeys(iter.es, sequence));
        valid := false;
      }
    }

    method SeekToLast()
      requires Valid()
      modifies this, iter
      ensures Valid()
      ensures valid ==> IsGreatest(LiveKeys(iter.es, sequence), Key())
      ensures !valid ==> LiveKeys(iter.es, sequence) == iset{}
    {
      direction, savedValue := Reverse, "";
      iter.SeekToLast();
      LastBehind(iter.es, sequence);
      FindPrevUserEntry(LiveKeys(iter.es, sequence));
    }
  }

  ghost function LiveKeys(es: seq<Entry>, s: nat): iset<UserKey> { iset u | Live(es, u, s) }

  ghost function KeysFrom(es: seq<Entry>, s: nat, t: UserKey): iset<UserKey> { iset u | Live(es, u, s) && t <= u }

  ghost function KeysAbove(es: seq<Entry>, s: nat, k: UserKey): iset<UserKey> { iset u | Live(es, u, s) && k < u }

  ghost function KeysBelow(es: seq<Entry>, s: nat, k: UserKey): iset<UserKey> { iset u | Live(es, u, s) && u < k }

  lemma HeadAhead(es: seq<Entry>, s: nat, p: nat, k: UserKey)
    requires Sorted(es) && IsHead(es, k, s, p)
    ensures Ahead(es, s, p + 1, true, Some(k), KeysAbove(es, s, k))
  {
    forall i | p < i < |es| ensures k <= es[i].user { Monotone(es, p, i); }
    forall u | u in KeysAbove(es, s, k) ensures p + 1 <= SeekIndex(es, u, s) {
      if SeekIndex(es, u, s) <= p { Monotone(es, SeekIndex(es, u, s), p); }
    }
    forall i | p + 1 <= i < |es| && es[i].sn <= s && k < es[i].user ensures p + 1 <= SeekIndex(es, es[i].user, s) {
      HeadFirst(es, s, i);
      if SeekIndex(es, es[i].user, s) <= p { Monotone(es, SeekIndex(es, es[i].user, s), p); }
    }
  }

  lemma SplitsAhead(es: seq<Entry>, s: nat, p: nat, k: UserKey)
    requires Sorted(es) && p <= |es| && Splits(es, s, p, k)
    ensures Ahead(es, s, if p < |es| then p + 1 else 0, true, Some(k), KeysAbove(es, s, k))
  {
    var n := if p < |es| then p + 1 else 0;
    forall u | u in KeysAbove(es, s, k) ensures n <= SeekIndex(es, u, s) {
      if p < |es| && SeekIndex(es, u, s) <= p { Monotone(es, SeekIndex(es, u, s), p); }
    }
    forall i | n <= i < |es| && es[i].sn <= s && k < es[i].user ensures n <= SeekIndex(es, es[i].user, s) {
      HeadFirst(es, s, i);
      if p < |es| && SeekIndex(es, es[i].user, s) <= p { Monotone(es, SeekIndex(es, es[i].user, s), p); }
    }
  }

  lemma SeekAhead(es: seq<Entry>, s: nat, t: UserKey)
    requires Sorted(es)
    ensures Ahead(es, s, SeekIndex(es, t, s), false, None, KeysFrom(es, s, t))
  {
    var p := SeekIndex(es, t, s);
    forall i | p <= i < |es| ensures t <= es[i].user { Monotone(es, p, i); }
    forall i | p <= i < |es| && es[i].sn <= s ensures p <= SeekIndex(es, es[i].user, s) {
      HeadFirst(es, s, i);
      assert AtOrAfter(es[SeekIndex(es, es[i].user, s)], t, s);
    }
    forall u | u in KeysFrom(es, s, t) ensures p <= SeekIndex(es, u, s) {
      assert AtOrAfter(es[SeekIndex(es, u, s)], t, s);
    }
  }

  lemma FirstAhead(es: seq<Entry>, s: nat, skip: Option<UserKey>)
    requires Sorted(es)
    ensures Ahead(es, s, 0, false, skip, LiveKeys(es, s))
  {
  }

  lemma LastBehind(es: seq<Entry>, s: nat)
    requires Sorted(es)
    ensures Behind(es, s, if |es| == 0 then 0 else |es| - 1, LiveKeys(es, s))
  {
    if |es| == 0 { assert forall u :: u !in LiveKeys(es, s); }
  }

  lemma BelowNone(es: seq<Entry>, s: nat, k: UserKey)
    requires forall i :: 0 <= i < |es| ==> k <= es[i].user
    ensures KeysBelow(es, s, k) == iset{}
  {
    assert forall u :: u !in KeysBelow(es, s, k);
  }

  lemma BelowBehind(es: seq<Entry>, s: nat, p: nat, k: UserKey)
    requires Sorted(es) && p < |es| && es[p].user < k
    requires forall i :: p < i < |es| ==> k <= es[i].user
    ensures Behind(es, s, p, KeysBelow(es, s, k))
  {
    forall j | 0 <= j <= p ensures es[j].user < k { Monotone(es, j, p); }
  }

  lemma SplitsBehind(es: seq<Entry>, s: nat, p: nat, k: UserKey)
    requires Sorted(es) && p <= |es| && Splits(es, s, p, k)
    ensures Behind(es, s, p, KeysBelow(es, s, k))
  {
    if p < |es| {
      forall j | 0 <= j <= p ensures es[j].user < k { Monotone(es, j, p); }
      forall u | Live(es, u, s) && u < k ensures SeekIndex(es, u, s) <= p {
        assert es[SeekIndex(es, u, s)].user < k;
      }
    } else {
      assert forall u :: u !in KeysBelow(es, s, k);
    }
  }

  // ----- the iterator as an index into the sorted list of live keys

  /** keys lists the live keys in ascending order. */
  ghost predicate IsLiveList(es: seq<Entry>, s: nat, keys: seq<UserKey>) {
    && (forall i, j :: 0 <= i < j < |keys| ==> keys[i] < keys[j])
    && (forall u :: u in keys <==> Live(es, u, s))
  }

  lemma ListHas(es: seq<Entry>, s: nat, keys: seq<UserKey>, u: UserKey) returns (j: nat)
    requires IsLiveList(es, s, keys) && Live(es, u, s)
    ensures j < |keys| && keys[j] == u
  {
    assert u in keys;
    j :| 0 <= j < |keys| && keys[j] == u;
  }

  /** The least live key above keys[i] is keys[i + 1]. */
  lemma NextIsIndex(es: seq<Entry>, s: nat, keys: seq<UserKey>, i: nat, r: UserKey)
    requires IsLiveList(es, s, keys) && i < |keys|
    ensures IsLeast(KeysAbove(es, s, keys[i]), r) <==> i + 1 < |keys| && r == keys[i + 1]
    ensures KeysAbove(es, s, keys[i]) == iset{} <==> i + 1 == |keys|
  {
    var C := KeysAbove(es, s, keys[i]);
    forall u | u in C ensures i + 1 < |keys| && keys[i + 1] <= u {
      var j := ListHas(es, s, keys, u);
      assert j > i;
    }
    if i + 1 < |keys| {
      assert keys[i + 1] in keys;
      assert keys[i + 1] in C;
    } else {
      assert forall u :: u !in C;
    }
  }

  /** The greatest live key below keys[i] is keys[i - 1]. */
  lemma PrevIsIndex(es: seq<Entry>, s: nat, keys: seq<UserKey>, i: nat, r: UserKey)
    requires IsLiveList(es, s, keys) && i < |keys|
    ensures IsGreatest(KeysBelow(es, s, keys[i]), r) <==> i > 0 && r == keys[i - 1]
    ensures KeysBelow(es, s, keys[i]) == iset{} <==> i == 0
  {
    var D := KeysBelow(es, s, keys[i]);
    forall u | u in D ensures i > 0 && u <= keys[i - 1] {
      var j := ListHas(es, s, keys, u);
      assert j < i;
    }
    if i > 0 {
      assert keys[i - 1] in keys;
      assert keys[i - 1] in D;
    } else {
      assert forall u :: u !in D;
    }
  }

  /** The least and greatest live keys are the ends of the list. */
  lemma EndsAreIndex(es: seq<Entry>, s: nat, keys: seq<UserKey>, r: UserKey)
    requires IsLiveList(es, s, keys)
    ensures IsLeast(LiveKeys(es, s), r) <==> keys != [] && r == keys[0]
    ensures IsGreatest(LiveKeys(es, s), r) <==> keys != [] && r == keys[|keys| - 1]
    ensures LiveKeys(es, s) == iset{} <==> keys == []
  {
    var L := LiveKeys(es, s);
    forall u | u in L ensures keys != [] && keys[0] <= u <= keys[|keys| - 1] {
      var j := ListHas(es, s, keys, u);
    }
    if keys != [] {
      assert keys[0] in keys && keys[|keys| - 1] in keys;
      assert keys[0] in L && keys[|keys| - 1] in L;
    } else {
      assert forall u :: u !in L;
    }
  }

  // ----- scan states

  ghost predicate IsLeast(C: iset<UserKey>, k: UserKey) {
    k in C && forall u :: u in C ==> k <= u
  }

  ghost predicate IsGreatest(D: iset<UserKey>, k: UserKey) {
    k in D && forall u :: u in D ==> u <= k
  }

  /** No visible entry lies strictly between position p and the entries of user key k; p = |es| stands for "before the
    first". */
  ghost predicate Splits(es: seq<Entry>, s: nat, p: nat, k: UserKey) {
    && (p < |es| ==> es[p].user < k)
    && (forall i :: 0 <= i < |es| && es[i].sn <= s && (p < |es| ==> p < i) ==> k <= es[i].user)
  }

  /** State of a forward scan at position p looking for the least key of C. */
  ghost predicate Ahead(es: seq<Entry>, s: nat, p: nat, skipping: bool, skip: Option<UserKey>, C: iset<UserKey>) {
    && (skipping ==> skip.Some?)
    && (forall u :: u in C ==> Live(es, u, s) && p <= SeekIndex(es, u, s) && (skipping ==> skip.value < u))
    && (forall i :: p <= i < |es| && es[i].sn <= s && skipping ==> skip.value <= es[i].user)
    && (forall i :: p <= i < |es| && es[i].sn <= s && !(skipping && es[i].user <= skip.value) ==>
          p <= SeekIndex(es, es[i].user, s) && (Live(es, es[i].user, s) ==> es[i].user in C))
  }

  lemma AheadDelete(es: seq<Entry>, s: nat, p: nat, skipping: bool, skip: Option<UserKey>, C: iset<UserKey>)
    requires Sorted(es) && p < |es| && es[p].sn <= s && es[p].op.Delete?
    requires Ahead(es, s, p, skipping, skip, C)
    ensures Ahead(es, s, p + 1, true, Some(es[p].user), C)
  {
    HeadFirst(es, s, p);
    forall u | u in C ensures p + 1 <= SeekIndex(es, u, s) && es[p].user < u {
      var h := SeekIndex(es, u, s);
      Monotone(es, p, h);
    }
    forall i | p + 1 <= i < |es| ensures es[p].user <= es[i].user { Monotone(es, p, i); }
    forall i | p + 1 <= i < |es| && es[i].sn <= s && es[i].user > es[p].user
      ensures p + 1 <= SeekIndex(es, es[i].user, s) && (Live(es, es[i].user, s) ==> es[i].user in C)
    {
      HeadFirst(es, s, i);
      assert SeekIndex(es, es[i].user, s) != p;
    }
  }

  lemma AheadHidden(es: seq<Entry>, s: nat, p: nat, skipping: bool, skip: Option<UserKey>, C: iset<UserKey>)
    requires Sorted(es) && p < |es| && Ahead(es, s, p, skipping, skip, C)
    requires skipping && es[p].user <= skip.value
    ensures Ahead(es, s, p + 1, skipping, skip, C)
  {
  }

  lemma AheadInvisible(es: seq<Entry>, s: nat, p: nat, skipping: bool, skip: Option<UserKey>, C: iset<UserKey>)
    requires Sorted(es) && p < |es| && es[p].sn > s && Ahead(es, s, p, skipping, skip, C)
    ensures Ahead(es, s, p + 1, skipping, skip, C)
  {
  }

  lemma AheadEnd(es: seq<Entry>, s: nat, p: nat, skipping: bool, skip: Option<UserKey>, C: iset<UserKey>)
    requires p == |es| && Ahead(es, s, p, skipping, skip, C)
    ensures C == iset{}
  {
    assert forall u :: u !in C;
  }

  lemma AheadFound(es: seq<Entry>, s: nat, p: nat, skipping: bool, skip: Option<UserKey>, C: iset<UserKey>)
    requires Sorted(es) && p < |es| && es[p].sn <= s && es[p].op.Put?
    requires Ahead(es, s, p, skipping, skip, C) && !(skipping && es[p].user <= skip.value)
    ensures IsHead(es, es[p].user, s, p) && Live(es, es[p].user, s) && IsLeast(C, es[p].user)
  {
    HeadFirst(es, s, p);
    forall u | u in C ensures es[p].user <= u { Monotone(es, p, SeekIndex(es, u, s)); }
  }

  /** Start of a backward scan from position p: D holds the live keys whose newest visible entry is at or before p. */
  ghost predicate Behind(es: seq<Entry>, s: nat, p: nat, D: iset<UserKey>) {
    && (p >= |es| ==> D == iset{})
    && (p < |es| ==>
          && (forall u :: u in D <==> Live(es, u, s) && SeekIndex(es, u, s) <= p)
          && (forall j, i :: 0 <= j <= p < i < |es| && es[j].sn <= s && es[i].sn <= s ==> es[j].user < es[i].user))
  }

  /** The last visible entry passed is q; nothing visible lies between the n entries left and q. */
  ghost predicate Latest(es: seq<Entry>, s: nat, n: nat, q: nat, k: UserKey, v: Value) {
    && n <= q < |es| && es[q].sn <= s && es[q].op == Put(v) && es[q].user == k
    && forall i :: n <= i < q ==> es[i].sn > s
  }

  /** Keys of D are still to come, or are the one saved. */
  ghost predicate Pending(es: seq<Entry>, s: nat, n: nat, isPut: bool, q: nat, k: Option<UserKey>, D: iset<UserKey>) {
    forall u :: u in D ==> SeekIndex(es, u, s) < n || (isPut && k == Some(u) && SeekIndex(es, u, s) == q)
  }

  /** The scan has not left the part that D describes. */
  ghost predicate Reached(es: seq<Entry>, s: nat, n: nat, isPut: bool, q: nat, p0: nat, D: iset<UserKey>) {
    && (isPut ==> q <= p0 < |es|)
    && (n > 0 ==> n <= p0 + 1 && p0 < |es|)
    && (p0 < |es| ==> forall u :: u in D <==> Live(es, u, s) && SeekIndex(es, u, s) <= p0)
  }

  ghost predicate BackState(es: seq<Entry>, s: nat, n: nat, isPut: bool, q: nat, p0: nat, k: Option<UserKey>,
      v: Value, D: iset<UserKey>) {
    (isPut ==> k.Some? && Latest(es, s, n, q, k.value, v)) && Pending(es, s, n, isPut, q, k, D)
        && Reached(es, s, n, isPut, q, p0, D)
  }

  lemma BackStart(es: seq<Entry>, s: nat, p: nat, k: Option<UserKey>, v: Value, D: iset<UserKey>)
    requires p <= |es| && Behind(es, s, p, D)
    ensures BackState(es, s, if p < |es| then p + 1 else 0, false, 0, p, k, v, D)
  {
  }

  lemma BackEmpty(es: seq<Entry>, s: nat, n: nat, q: nat, p0: nat, k: Option<UserKey>, v: Value, D: iset<UserKey>)
    requires n == 0 && BackState(es, s, n, false, q, p0, k, v, D)
    ensures D == iset{}
  {
    assert forall u :: u !in D;
  }

  lemma BackFound(es: seq<Entry>, s: nat, p: nat, q: nat, p0: nat, k: UserKey, v: Value, D: iset<UserKey>)
    requires Sorted(es) && p < |es| && es[p].user < k
    requires BackState(es, s, p + 1, true, q, p0, Some(k), v, D)
    ensures IsGreatest(D, k) && Live(es, k, s) && es[SeekIndex(es, k, s)].op.value == v && Splits(es, s, p, k)
  {
    HeadFirst(es, s, q);
    var h := SeekIndex(es, k, s);
    if h <= p { Monotone(es, h, p); }
    forall u | u in D ensures u <= k {
      if SeekIndex(es, u, s) <= p { Monotone(es, SeekIndex(es, u, s), p); }
    }
    forall i | p < i < |es| && es[i].sn <= s ensures k <= es[i].user { Monotone(es, q, i); }
  }

  lemma BackEnd(es: seq<Entry>, s: nat, q: nat, p0: nat, k: UserKey, v: Value, D: iset<UserKey>)
    requires Sorted(es) && BackState(es, s, 0, true, q, p0, Some(k), v, D)
    ensures IsGreatest(D, k) && Live(es, k, s) && es[SeekIndex(es, k, s)].op.value == v && Splits(es, s, |es|, k)
  {
    HeadFirst(es, s, q);
    forall i | 0 <= i < |es| && es[i].sn <= s ensures k <= es[i].user { Monotone(es, q, i); }
  }

  lemma BackVisible(es: seq<Entry>, s: nat, p: nat, isPut: bool, q: nat, p0: nat, k: Option<UserKey>, v: Value,
      D: iset<UserKey>)
    requires Sorted(es) && p < |es| && es[p].sn <= s && BackState(es, s, p + 1, isPut, q, p0, k, v, D)
    requires isPut ==> k.value <= es[p].user
    ensures var put := es[p].op.Put?;
            BackState(es, s, p, put, p, p0, if put then Some(es[p].user) else None,
                if put then es[p].op.value else "", D)
  {
    HeadFirst(es, s, p);
    forall u | u in D
      ensures SeekIndex(es, u, s) < p || (es[p].op.Put? && u == es[p].user && SeekIndex(es, u, s) == p)
    {
      var h := SeekIndex(es, u, s);
      if h > p { Monotone(es, p, q); }
    }
  }

  lemma BackInvisible(es: seq<Entry>, s: nat, p: nat, isPut: bool, q: nat, p0: nat, k: Option<UserKey>, v: Value,
      D: iset<UserKey>)
    requires Sorted(es) && p < |es| && es[p].sn > s && BackState(es, s, p + 1, isPut, q, p0, k, v, D)
    ensures BackState(es, s, p, isPut, q, p0, k, v, D)
  {
    forall u | u in D ensures SeekIndex(es, u, s) != p { }
  }
}
