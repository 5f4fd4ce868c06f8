/** The cache's chained hash table. */
module HandleTable {
  import opened Options

  type Key = string

  datatype Slot = Slot(key: Key, hash: nat, id: nat)

  ghost predicate PowerOfTwo(n: nat) {
    n == 1 || (n > 1 && n % 2 == 0 && PowerOfTwo(n / 2))
  }

  function Total(rows: seq<seq<Slot>>): nat {
    if rows == [] then 0 else Total(rows[..|rows| - 1]) + |rows[|rows| - 1]|
  }

  lemma {:induction false} TotalUpdate(rows: seq<seq<Slot>>, i: nat, row: seq<Slot>)
    requires i < |rows|
    ensures Total(rows[i := row]) == Total(rows) - |rows[i]| + |row|
    decreases |rows|
  {
    var n := |rows| - 1;
    if i < n {
      TotalUpdate(rows[..n], i, row);
      assert rows[i := row][..n] == rows[..n][i := row];
    } else {
      assert rows[i := row][..n] == rows[..n];
    }
  }

  lemma {:induction false} TotalEmpty(n: nat)
    ensures Total(seq(n, i => [])) == 0
  {
    if n > 0 {
      var rows: seq<seq<Slot>> := seq(n, i => []);
      assert rows[..n - 1] == seq(n - 1, i => []);
      TotalEmpty(n - 1);
    }
  }

  predicate Same(s: Slot, key: Key, hash: nat) { s.key == key && s.hash == hash }

  /** Each slot is in the bucket of its hash, and no two slots have the same key. */
  ghost predicate Buckets(rows: seq<seq<Slot>>) {
    && (forall i, j :: 0 <= i < |rows| && 0 <= j < |rows[i]| ==> rows[i][j].hash % |rows| == i)
    && forall i, j, k :: 0 <= i < |rows| && 0 <= j < k < |rows[i]| ==>
       !Same(rows[i][j], rows[i][k].key, rows[i][k].hash)
  }

  ghost function SlotsOf(rows: seq<seq<Slot>>): set<Slot> {
    set i, j | 0 <= i < |rows| && 0 <= j < |rows[i]| :: rows[i][j]
  }

  class HandleTable {
    var length: nat
    var elems: nat
    var list: seq<seq<Slot>>

    ghost predicate Valid()
      reads this
    {
      && length == |list| >= 4 && PowerOfTwo(length)
      && Buckets(list) && elems == Total(list) <= length
    }

    ghost function Slots(): set<Slot>
      reads this
    {
      SlotsOf(list)
    }

    constructor ()
      ensures Valid() && Slots() == {}
    {
      length, elems, list := 4, 0, [[], [], [], []];
      new;
      assert list == seq(4, i => []);
      TotalEmpty(4);
      assert PowerOfTwo(2);
    }

    /** Bucket and place of the slot with this key, or the end of its chain. */
    method FindPointer(key: Key, hash: nat) returns (i: nat, j: nat)
      requires Valid()
      ensures i == hash % length && j <= |list[i]|
      ensures j < |list[i]| ==> Same(list[i][j], key, hash)
      ensures j == |list[i]| ==> forall s :: s in Slots() ==> !Same(s, key, hash)
    {
      i := hash % length;
      j := 0;
      while j < |list[i]| && (list[i][j].hash != hash || list[i][j].key != key)
        invariant j <= |list[i]| && forall k :: 0 <= k < j ==> !Same(list[i][k], key, hash)
      {
        j := j + 1;
      }
    }

    method Lookup(key: Key, hash: nat) returns (r: Option<Slot>)
      requires Valid()
      ensures r.Some? ==> r.value in Slots() && Same(r.value, key, hash)
      ensures r.None? ==> forall s :: s in Slots() ==> !Same(s, key, hash)
    {
      var i, j := FindPointer(key, hash);
      r := if j < |list[i]| then Some(list[i][j]) else None;
    }

    /** The slot replaces one with the same key, if there is one. */
    method Insert(h: Slot) returns (old_: Option<Slot>)
      requires Valid()
      modifies this
      ensures Valid()
      ensures old_.Some? ==> old_.value in old(Slots()) && Same(old_.value, h.key, h.hash)
      ensures old_.None? ==> forall s :: s in old(Slots()) ==> !Same(s, h.key, h.hash)
      ensures Slots() == (if old_.Some? then old(Slots()) - {old_.value} else old(Slots())) + {h}
    {
      var i, j := FindPointer(h.key, h.hash);
      var row := list[i];
      if j < |row| {
        old_ := Some(row[j]);
        Replaced(list, i, j, h);
        list := list[i := row[j := h]];
      } else {
        old_ := None;
        Appended(list, i, h);
        list := list[i := row + [h]];
        elems := elems + 1;
        if elems > length { Resize(); }
      }
    }

    method Remove(key: Key, hash: nat) returns (r: Option<Slot>)
      requires Valid()
      modifies this
      ensures Valid()
      ensures r.Some? ==> r.value in old(Slots()) && Same(r.value, key, hash)
      ensures r.None? ==> forall s :: s in old(Slots()) ==> !Same(s, key, hash)
      ensures Slots() == if r.Some? then old(Slots()) - {r.value} else old(Slots())
    {
      var i, j := FindPointer(key, hash);
      var row := list[i];
      if j < |row| {
        r := Some(row[j]);
        Removed(list, i, j);
        list := list[i := row[..j] + row[j + 1..]];
        elems := elems - 1;
      } else {
        r := None;
      }
    }

    /** Doubles until there is a bucket for every element and moves each slot to the front of its new bucket. */
    method Resize()
      requires length == |list| >= 4 && PowerOfTwo(length) && Buckets(list) && elems == Total(list)
      modifies this
      ensures Valid() && Slots() == old(Slots()) && elems == old(elems)
    {
      hide Total;
      var newLength := 4;
      assert PowerOfTwo(2);
      while newLength < elems
        invariant newLength >= 4 && PowerOfTwo(newLength)
        decreases elems - newLength
      {
        assert newLength * 2 / 2 == newLength;
        newLength := newLength * 2;
      }
      var newList: seq<seq<Slot>> := seq(newLength, i => []);
      TotalEmpty(newLength);
      var count := 0;
      var i := 0;
      assert list[..0] == [];
      NoRows();
      while i < length
        invariant i <= length && |newList| == newLength && Buckets(newList)
            && count == Total(newList) == Total(list[..i])
        invariant SlotsOf(newList) == SlotsOf(list[..i])
        modifies {}
      {
        var j := 0;
        while j < |list[i]|
          invariant j <= |list[i]| && |newList| == newLength && Buckets(newList)
              && count == Total(newList) == Total(list[..i]) + j
          invariant SlotsOf(newList) == SlotsOf(list[..i]) + (set k | 0 <= k < j :: list[i][k])
          modifies {}
        {
          var h := list[i][j];
          var b := h.hash % newLength;
          NotYetMoved(list, i, j, newList);
          Prepended(newList, b, h);
          newList := newList[b := [h] + newList[b]];
          count := count + 1;
          j := j + 1;
        }
        RowDone(list, i);
        i := i + 1;
      }
      assert list[..length] == list;
      list, length := newList, newLength;
    }
  }

  lemma NoRows()
    ensures Total([]) == 0
  {
  }

  lemma SlotAt(rows: seq<seq<Slot>>, s: Slot) returns (i: nat, j: nat)
    requires s in SlotsOf(rows)
    ensures i < |rows| && j < |rows[i]| && rows[i][j] == s
  {
    i, j :| 0 <= i < |rows| && 0 <= j < |rows[i]| && rows[i][j] == s;
  }

  /** In a well-formed table slots in different places have different keys. */
  lemma OnePlace(rows: seq<seq<Slot>>, i: nat, j: nat, k: nat, l: nat)
    requires Buckets(rows) && i < |rows| && j < |rows[i]| && k < |rows| && l < |rows[k]| && (i != k || j != l)
    ensures !Same(rows[i][j], rows[k][l].key, rows[k][l].hash)
  {
    assert rows[i][j].hash % |rows| == i && rows[k][l].hash % |rows| == k;
    if i == k {
      if j < l { assert !Same(rows[i][j], rows[i][l].key, rows[i][l].hash); }
          else { assert !Same(rows[i][l], rows[i][j].key, rows[i][j].hash); }
    }
  }

  lemma Replaced(rows: seq<seq<Slot>>, i: nat, j: nat, h: Slot)
    requires Buckets(rows) && i < |rows| && j < |rows[i]| && Same(rows[i][j], h.key, h.hash)
    ensures var r := rows[i := rows[i][j := h]];
        Buckets(r) && Total(r) == Total(rows) && SlotsOf(r) == SlotsOf(rows) - {rows[i][j]} + {h}
  {
    var r := rows[i := rows[i][j := h]];
    TotalUpdate(rows, i, rows[i][j := h]);
    assert r[i][j] == h;
    forall s | s in SlotsOf(rows) && s != rows[i][j] ensures s in SlotsOf(r) {
      var k, l := SlotAt(rows, s);
      assert r[k][l] == s;
    }
    forall s | s in SlotsOf(r) && s != h ensures s in SlotsOf(rows) && s != rows[i][j] {
      var k, l := SlotAt(r, s);
      assert rows[k][l] == s;
      OnePlace(rows, i, j, k, l);
    }
  }

  lemma Appended(rows: seq<seq<Slot>>, i: nat, h: Slot)
    requires Buckets(rows) && i < |rows| && h.hash % |rows| == i && forall s :: s in SlotsOf(rows) ==>
        !Same(s, h.key, h.hash)
    ensures var r := rows[i := rows[i] + [h]];
        Buckets(r) && Total(r) == Total(rows) + 1 && SlotsOf(r) == SlotsOf(rows) + {h}
  {
    var r := rows[i := rows[i] + [h]];
    TotalUpdate(rows, i, rows[i] + [h]);
    forall j | 0 <= j < |rows[i]| ensures !Same(rows[i][j], h.key, h.hash) { assert rows[i][j] in SlotsOf(rows); }
    assert r[i][|rows[i]|] == h;
    forall s | s in SlotsOf(rows) ensures s in SlotsOf(r) {
      var k, l := SlotAt(rows, s);
      assert r[k][l] == s;
    }
    forall s | s in SlotsOf(r) && s != h ensures s in SlotsOf(rows) {
      var k, l := SlotAt(r, s);
      assert rows[k][l] == s;
    }
  }

  lemma Prepended(rows: seq<seq<Slot>>, i: nat, h: Slot)
    requires Buckets(rows) && i < |rows| && h.hash % |rows| == i && forall s :: s in SlotsOf(rows) ==>
        !Same(s, h.key, h.hash)
    ensures var r := rows[i := [h] + rows[i]];
        Buckets(r) && Total(r) == Total(rows) + 1 && SlotsOf(r) == SlotsOf(rows) + {h}
  {
    var r := rows[i := [h] + rows[i]];
    TotalUpdate(rows, i, [h] + rows[i]);
    forall j | 0 <= j < |rows[i]| ensures !Same(rows[i][j], h.key, h.hash) { assert rows[i][j] in SlotsOf(rows); }
    assert r[i][0] == h;
    forall s | s in SlotsOf(rows) ensures s in SlotsOf(r) {
      var k, l := SlotAt(rows, s);
      assert r[k][if k == i then l + 1 else l] == s;
    }
    forall s | s in SlotsOf(r) && s != h ensures s in SlotsOf(rows) {
      var k, l := SlotAt(r, s);
      var l': int := if k == i then l - 1 else l;
      assert rows[k][l'] == s;
    }
  }

  lemma Removed(rows: seq<seq<Slot>>, i: nat, j: nat)
    requires Buckets(rows) && i < |rows| && j < |rows[i]|
    ensures var r := rows[i := rows[i][..j] + rows[i][j + 1..]];
        Buckets(r) && Total(r) == Total(rows) - 1 && SlotsOf(r) == SlotsOf(rows) - {rows[i][j]}
  {
    var r := rows[i := rows[i][..j] + rows[i][j + 1..]];
    TotalUpdate(rows, i, rows[i][..j] + rows[i][j + 1..]);
    forall s | s in SlotsOf(rows) && s != rows[i][j] ensures s in SlotsOf(r) {
      var k, l := SlotAt(rows, s);
      assert r[k][if k == i && l > j then l - 1 else l] == s;
    }
    forall s | s in SlotsOf(r) ensures s in SlotsOf(rows) && s != rows[i][j] {
      var k, l := SlotAt(r, s);
      var l' := if k == i && l >= j then l + 1 else l;
      assert rows[k][l'] == s;
      OnePlace(rows, i, j, k, l');
    }
  }

  lemma NotYetMoved(rows: seq<seq<Slot>>, i: nat, j: nat, moved: seq<seq<Slot>>)
    requires Buckets(rows) && i < |rows| && j < |rows[i]|
    requires SlotsOf(moved) == SlotsOf(rows[..i]) + (set k | 0 <= k < j :: rows[i][k])
    ensures forall s :: s in SlotsOf(moved) ==> !Same(s, rows[i][j].key, rows[i][j].hash)
  {
    forall s | s in SlotsOf(moved) ensures !Same(s, rows[i][j].key, rows[i][j].hash) {
      if s in SlotsOf(rows[..i]) {
        var k, l := SlotAt(rows[..i], s);
        assert rows[k][l] == s && s.hash % |rows| == k;
      }
    }
  }

  lemma RowDone(rows: seq<seq<Slot>>, i: nat)
    requires i < |rows|
    ensures SlotsOf(rows[..i + 1]) == SlotsOf(rows[..i]) + (set k | 0 <= k < |rows[i]| :: rows[i][k])
    ensures Total(rows[..i + 1]) == Total(rows[..i]) + |rows[i]|
  {
    assert rows[..i + 1][..i] == rows[..i];
    forall s | s in SlotsOf(rows[..i]) ensures s in SlotsOf(rows[..i + 1]) {
      var k, l := SlotAt(rows[..i], s);
      assert rows[..i + 1][k][l] == s;
    }
    forall l | 0 <= l < |rows[i]| ensures rows[i][l] in SlotsOf(rows[..i + 1]) {
      assert rows[..i + 1][i][l] == rows[i][l];
    }
    forall s | s in SlotsOf(rows[..i + 1]) ensures s in SlotsOf(rows[..i]) ||
      exists k :: 0 <= k < |rows[i]| && rows[i][k] == s {
      var k, l := SlotAt(rows[..i + 1], s);
      if k < i { assert rows[..i][k][l] == s; }
    }
  }
}
