/** Building tables with shortened index keys, looking a key up in one block, and all blocks as one list. */
module Tables {
  import opened DbFormat
  import opened Options
  import opened Lookup

  const MAX_SN: nat := 0xFF_FFFF_FFFF_FFFF

  /** An index key is an internal key. */
  datatype IndexKey = IndexKey(user: UserKey, sn: nat)

  /** What InternalKeyComparator::FindShortestSeparator returns: the last key itself, or a strictly larger
    user key below the next block's, at the highest sequence number. */
  predicate IsSeparator(k: IndexKey, last: Entry, next: Entry) {
    k == IndexKey(last.user, last.sn) || (k.sn == MAX_SN && last.user < k.user < next.user)
  }

  /** FindShortSuccessor: the last key itself or a larger user key. */
  predicate IsSuccessor(k: IndexKey, last: Entry) {
    k == IndexKey(last.user, last.sn) || (k.sn == MAX_SN && last.user < k.user)
  }

  function Flat(blocks: seq<seq<Entry>>): seq<Entry> {
    if blocks == [] then [] else Flat(blocks[..|blocks| - 1]) + blocks[|blocks| - 1]
  }

  /** Number of entries before block b. */
  function Offset(blocks: seq<seq<Entry>>, b: nat): nat
    requires b <= |blocks|
  {
    |Flat(blocks[..b])|
  }

  lemma OffsetNext(blocks: seq<seq<Entry>>, b: nat)
    requires b < |blocks|
    ensures Offset(blocks, b + 1) == Offset(blocks, b) + |blocks[b]|
    ensures Flat(blocks[..b + 1]) == Flat(blocks[..b]) + blocks[b]
  {
    assert blocks[..b + 1][..b] == blocks[..b];
  }

  lemma {:induction false} OffsetMonotone(blocks: seq<seq<Entry>>, a: nat, b: nat)
    requires a <= b <= |blocks|
    ensures Offset(blocks, a) <= Offset(blocks, b)
    ensures Flat(blocks[..a]) <= Flat(blocks[..b])
  {
    if a < b {
      OffsetMonotone(blocks, a, b - 1);
      OffsetNext(blocks, b - 1);
    }
  }

  /** Entry j of block b is entry Offset(b) + j of the table. */
  lemma EntryAt(blocks: seq<seq<Entry>>, b: nat, j: nat)
    requires b < |blocks| && j < |blocks[b]|
    ensures Offset(blocks, b) + j < |Flat(blocks)|
    ensures Flat(blocks)[Offset(blocks, b) + j] == blocks[b][j]
  {
    OffsetNext(blocks, b);
    OffsetMonotone(blocks, b + 1, |blocks|);
    assert blocks[..|blocks|] == blocks;
  }

  /** Every entry of the table is in some block. */
  lemma {:induction false} BlockOf(blocks: seq<seq<Entry>>, n: nat) returns (b: nat, j: nat)
    requires n < |Flat(blocks)|
    ensures b < |blocks| && j < |blocks[b]| && n == Offset(blocks, b) + j
  {
    var m := |blocks| - 1;
    if n < |Flat(blocks[..m])| {
      b, j := BlockOf(blocks[..m], n);
      assert blocks[..m][..b] == blocks[..b];
    } else {
      b, j := m, n - |Flat(blocks[..m])|;
    }
  }

  function Last(es: seq<Entry>): Entry
    requires es != []
  {
    es[|es| - 1]
  }

  ghost predicate NoEmpty(blocks: seq<seq<Entry>>) { forall b :: 0 <= b < |blocks| ==> blocks[b] != [] }

  /** Every index key but the last separates its block from the next one. */
  ghost predicate Separated(blocks: seq<seq<Entry>>, index: seq<IndexKey>)
    requires NoEmpty(blocks)
  {
    forall b :: 0 <= b < |index| && b + 1 < |blocks| ==> IsSeparator(index[b], Last(blocks[b]), blocks[b + 1][0])
  }

  /** A finished table: one index key a block. */
  datatype Table = Table(blocks: seq<seq<Entry>>, index: seq<IndexKey>) {
    ghost predicate Ok() {
      && Sorted(Flat(blocks)) && |index| == |blocks| && NoEmpty(blocks) && Separated(blocks, index)
      && (|blocks| > 0 ==> IsSuccessor(index[|blocks| - 1], Last(blocks[|blocks| - 1])))
    }
  }

  // ----- building

  class TableBuilder {
    var blocks: seq<seq<Entry>>       // blocks already written
    var index: seq<IndexKey>
    var dataBlock: seq<Entry>         // block being filled
    var lastKey: Option<Entry>
    var pendingIndexEntry: bool       // the last written block has no index entry yet

    /** Blocks written and the one being filled. */
    ghost function All(): seq<seq<Entry>>
      reads this
    {
      if dataBlock == [] then blocks else blocks + [dataBlock]
    }

    /** Everything added so far, in order. */
    ghost function Added(): seq<Entry>
      reads this
    {
      Flat(All())
    }

    ghost predicate Valid()
      reads this
    {
      && NoEmpty(All()) && Sorted(Added()) && Separated(All(), index)
      && |index| == (if All() == [] then 0 else |All()| - 1)
      && (pendingIndexEntry <==> dataBlock == [] && blocks != [])
      && (lastKey.None? <==> All() == [])
      && (lastKey.Some? ==> lastKey.value == Last(All()[|All()| - 1]))
    }

    constructor ()
      ensures Valid() && Added() == []
    {
      blocks, index, dataBlock, lastKey, pendingIndexEntry := [], [], [], None, false;
    }

    /** Adds an entry; the index entry of the previous block was delayed until this key was known. */
    method Add(e: Entry, separator: IndexKey, full: bool)
      requires Valid() && (lastKey.Some? ==> Before(lastKey.value, e))
      requires pendingIndexEntry ==> IsSeparator(separator, lastKey.value, e)
      modifies this
      ensures Valid() && Added() == old(Added()) + [e]
      ensures index == old(index) + if old(pendingIndexEntry) then [separator] else []
      ensures if full then blocks == old(blocks) + [old(dataBlock) + [e]] && dataBlock == []
              else blocks == old(blocks) && dataBlock == old(dataBlock) + [e]
    {
      AddedThen(All(), dataBlock, blocks, e);
      SeparatedThen(All(), dataBlock, blocks, index, e, separator);
      hide Flat, Separated, NoEmpty, Sorted, IsSeparator, Last, Before;
      LastOfGrown(blocks, dataBlock, e);
      if pendingIndexEntry {
        index := index + [separator];
        pendingIndexEntry := false;
      }
      lastKey := Some(e);
      dataBlock := dataBlock + [e];
      if full { Flush(); }
    }

    method Flush()
      requires Valid()
      modifies this
      ensures Valid() && All() == old(All()) && dataBlock == []
      ensures blocks == old(blocks) + (if old(dataBlock) == [] then [] else [old(dataBlock)])
      ensures lastKey == old(lastKey) && index == old(index)
    {
      if dataBlock == [] { return; }
      blocks := blocks + [dataBlock];
      dataBlock := [];
      pendingIndexEntry := true;
    }

    method Finish(successor: IndexKey) returns (t: Table)
      requires Valid() && (lastKey.Some? ==> IsSuccessor(successor, lastKey.value))
      modifies this
      ensures t.Ok() && Flat(t.blocks) == old(Added()) && t.blocks == old(All())
      ensures t.index == old(index) + if old(All()) == [] then [] else [successor]
    {
      Flush();
      if pendingIndexEntry {
        index := index + [successor];
        pendingIndexEntry := false;
      }
      t := Table(blocks, index);
    }
  }

  /** Growing the open block by e grows the list of all entries by e and keeps it sorted. */
  lemma AddedThen(all: seq<seq<Entry>>, open: seq<Entry>, blocks: seq<seq<Entry>>, e: Entry)
    requires all == (if open == [] then blocks else blocks + [open]) && NoEmpty(all) && Sorted(Flat(all))
    requires all != [] ==> Before(Last(all[|all| - 1]), e)
    ensures Flat(blocks + [open + [e]]) == Flat(all) + [e] && Sorted(Flat(all) + [e])
  {
    LastOfFlat(all);
    assert (blocks + [open + [e]])[..|blocks|] == blocks;
    if open != [] { assert all[..|blocks|] == blocks; }
    var es := Flat(all);
    forall i | 0 <= i < |es| ensures Before(es[i], e) {
      assert i == |es| - 1 || Before(es[i], es[|es| - 1]);
    }
  }

  lemma SeparatedThen(all: seq<seq<Entry>>, open: seq<Entry>, blocks: seq<seq<Entry>>, index: seq<IndexKey>, e: Entry,
      separator: IndexKey)
    requires all == (if open == [] then blocks else blocks + [open]) && NoEmpty(all) && Separated(all, index)
    requires |index| == if all == [] then 0 else |all| - 1
    requires open == [] && blocks != [] ==> IsSeparator(separator, Last(all[|all| - 1]), e)
    ensures NoEmpty(blocks + [open + [e]])
    ensures Separated(blocks + [open + [e]], if open == [] && blocks != [] then index + [separator] else index)
  {
    var grown := blocks + [open + [e]];
    forall b | 0 <= b < |grown| ensures grown[b] != [] {
      if b < |blocks| { assert grown[b] == all[b]; }
    }
    var idx := if open == [] && blocks != [] then index + [separator] else index;
    forall b | 0 <= b < |idx| && b + 1 < |grown| ensures IsSeparator(idx[b], Last(grown[b]), grown[b + 1][0]) {
      assert grown[b] == all[b];
      if b + 1 < |blocks| {
        assert grown[b + 1] == all[b + 1];
      } else if open != [] {
        assert all[b + 1] == open && grown[b + 1][0] == open[0];
      } else {
        assert grown[b + 1] == [e] && b == |index|;
      }
    }
  }

  lemma LastOfGrown(blocks: seq<seq<Entry>>, open: seq<Entry>, e: Entry)
    ensures Last((blocks + [open + [e]])[|blocks|]) == e
  {
  }

  lemma LastOfFlat(blocks: seq<seq<Entry>>)
    requires NoEmpty(blocks)
    ensures blocks != [] ==> Flat(blocks) != [] && Last(Flat(blocks)) == Last(blocks[|blocks| - 1])
    ensures blocks == [] <==> Flat(blocks) == []
  {
  }

  // ----- looking up

  /** The first index key at or after the lookup key. */
  function IndexSeek(index: seq<IndexKey>, u: UserKey, s: nat): (b: nat)
    ensures b <= |index|
    ensures forall i :: 0 <= i < b ==> index[i].user < u || (index[i].user == u && index[i].sn > s)
    ensures b < |index| ==> u < index[b].user || (u == index[b].user && index[b].sn <= s)
  {
    if |index| == 0 || u < index[0].user || (u == index[0].user && index[0].sn <= s) then 0 else 1 + IndexSeek(index[1..], u, s)
  }

  /** Each block's entries are at or before its index key, all later entries after it; blocks may be empty. */
  ghost predicate IndexOk(blocks: seq<seq<Entry>>, index: seq<IndexKey>) {
    && Sorted(Flat(blocks)) && |index| == |blocks|
    && (forall b, j :: 0 <= b < |blocks| && 0 <= j < |blocks[b]| ==> !KeyAfter(blocks[b][j], index[b]))
    && (forall b, c, j :: 0 <= b < c < |blocks| && 0 <= j < |blocks[c]| ==> KeyAfter(blocks[c][j], index[b]))
  }

  /** The entry is after the index key. */
  predicate KeyAfter(e: Entry, k: IndexKey) {
    k.user < e.user || (k.user == e.user && k.sn > e.sn)
  }

  lemma TableIndexOk(t: Table)
    requires t.Ok()
    ensures IndexOk(t.blocks, t.index)
  {
    forall b, j | 0 <= b < |t.blocks| && 0 <= j < |t.blocks[b]| ensures !KeyAfter(t.blocks[b][j], t.index[b]) {
      WithinBlock(t.blocks, b, j, |t.blocks[b]| - 1);
      assert b + 1 < |t.blocks| ==> IsSeparator(t.index[b], Last(t.blocks[b]), t.blocks[b + 1][0]);
    }
    forall b, c, j | 0 <= b < c < |t.blocks| && 0 <= j < |t.blocks[c]| ensures KeyAfter(t.blocks[c][j], t.index[b]) {
      AcrossBlocks(t.blocks, b, |t.blocks[b]| - 1, c, j);
      FirstOfLater(t.blocks, b + 1, c, j);
      assert IsSeparator(t.index[b], Last(t.blocks[b]), t.blocks[b + 1][0]);
    }
  }

  /** Blocks before the one the index leads to hold only smaller keys; later blocks only larger ones. */
  lemma IndexLeads(blocks: seq<seq<Entry>>, index: seq<IndexKey>, u: UserKey, s: nat)
    requires IndexOk(blocks, index)
    ensures var b := IndexSeek(index, u, s);
            forall i, j :: 0 <= i < b && 0 <= j < |blocks[i]| ==> !AtOrAfter(blocks[i][j], u, s)
    ensures var b := IndexSeek(index, u, s);
            forall i, j :: b < i < |blocks| && 0 <= j < |blocks[i]| ==> AtOrAfter(blocks[i][j], u, s)
  {
    var b := IndexSeek(index, u, s);
    forall i, j | 0 <= i < b && 0 <= j < |blocks[i]| ensures !AtOrAfter(blocks[i][j], u, s) {
      assert !KeyAfter(blocks[i][j], index[i]);
    }
    forall i, j | b < i < |blocks| && 0 <= j < |blocks[i]| ensures AtOrAfter(blocks[i][j], u, s) {
      assert KeyAfter(blocks[i][j], index[b]);
    }
  }

  lemma WithinBlock(blocks: seq<seq<Entry>>, b: nat, i: nat, j: nat)
    requires Sorted(Flat(blocks)) && b < |blocks| && i <= j < |blocks[b]|
    ensures i == j || Before(blocks[b][i], blocks[b][j])
  {
    EntryAt(blocks, b, i);
    EntryAt(blocks, b, j);
  }

  lemma AcrossBlocks(blocks: seq<seq<Entry>>, a: nat, i: nat, b: nat, j: nat)
    requires Sorted(Flat(blocks)) && a < b < |blocks| && i < |blocks[a]| && j < |blocks[b]|
    ensures Before(blocks[a][i], blocks[b][j])
  {
    EntryAt(blocks, a, i);
    EntryAt(blocks, b, j);
    OffsetNext(blocks, a);
    OffsetMonotone(blocks, a + 1, b);
  }

  lemma FirstOfLater(blocks: seq<seq<Entry>>, a: nat, b: nat, j: nat)
    requires Sorted(Flat(blocks)) && a <= b < |blocks| && blocks[a] != [] && j < |blocks[b]|
    ensures blocks[a][0] == blocks[b][j] || Before(blocks[a][0], blocks[b][j])
  {
    if a == b { WithinBlock(blocks, a, 0, j); } else { AcrossBlocks(blocks, a, 0, b, j); }
  }

  lemma {:induction false} SeekUnique(es: seq<Entry>, u: UserKey, s: nat, m: nat)
    requires m <= |es| && (forall i :: 0 <= i < m ==> !AtOrAfter(es[i], u, s)) && (m < |es| ==> AtOrAfter(es[m], u, s))
    ensures SeekIndex(es, u, s) == m
  {
  }

  /** Entries before the position the block search gives are before the lookup key. */
  lemma BeforeSeek(blocks: seq<seq<Entry>>, index: seq<IndexKey>, u: UserKey, s: nat, n: nat)
    requires IndexOk(blocks, index) && n < |Flat(blocks)|
    requires var b := IndexSeek(index, u, s); b < |blocks| ==> n < Offset(blocks, b) + SeekIndex(blocks[b], u, s)
    ensures !AtOrAfter(Flat(blocks)[n], u, s)
  {
    var b := IndexSeek(index, u, s);
    IndexLeads(blocks, index, u, s);
    var i, j := BlockOf(blocks, n);
    EntryAt(blocks, i, j);
    if i >= b {
      OffsetMonotone(blocks, b, i);
      OffsetNext(blocks, b);
      if i > b { OffsetMonotone(blocks, b + 1, i); }
    }
  }

  lemma AtSeek(blocks: seq<seq<Entry>>, index: seq<IndexKey>, u: UserKey, s: nat)
    requires IndexOk(blocks, index) && IndexSeek(index, u, s) < |blocks|
    requires var b := IndexSeek(index, u, s); Offset(blocks, b) + SeekIndex(blocks[b], u, s) < |Flat(blocks)|
    ensures var b := IndexSeek(index, u, s); AtOrAfter(Flat(blocks)[Offset(blocks, b) + SeekIndex(blocks[b], u, s)],
        u, s)
  {
    var b := IndexSeek(index, u, s);
    var k := SeekIndex(blocks[b], u, s);
    hide IndexOk, Offset, Flat, Sorted, SeekIndex, IndexSeek;
    if k < |blocks[b]| {
      EntryAt(blocks, b, k);
    } else {
      OffsetNext(blocks, b);
      var i, j := AfterBlock(blocks, b);
      IndexLeads(blocks, index, u, s);
    }
  }

  /** The entry that follows block b is in a later block. */
  lemma AfterBlock(blocks: seq<seq<Entry>>, b: nat) returns (i: nat, j: nat)
    requires b < |blocks| && Offset(blocks, b + 1) < |Flat(blocks)|
    ensures b < i < |blocks| && j < |blocks[i]| && Flat(blocks)[Offset(blocks, b + 1)] == blocks[i][j]
  {
    i, j := BlockOf(blocks, Offset(blocks, b + 1));
    EntryAt(blocks, i, j);
    if i <= b {
      OffsetNext(blocks, i);
      OffsetMonotone(blocks, i + 1, b + 1);
    }
  }

  /** Seeking in the whole list is seeking in the block the index leads to, or falls on what follows that block. */
  lemma BlockSeek(blocks: seq<seq<Entry>>, index: seq<IndexKey>, u: UserKey, s: nat)
    requires IndexOk(blocks, index)
    ensures var b := IndexSeek(index, u, s);
            SeekIndex(Flat(blocks), u, s) ==
              if b == |blocks| then |Flat(blocks)| else Offset(blocks, b) + SeekIndex(blocks[b], u, s)
  {
    var es := Flat(blocks);
    var b := IndexSeek(index, u, s);
    assert blocks[..|blocks|] == blocks;
    if b == |blocks| {
      forall n | 0 <= n < |es| ensures !AtOrAfter(es[n], u, s) { BeforeSeek(blocks, index, u, s, n); }
      SeekUnique(es, u, s, |es|);
    } else {
      var m := Offset(blocks, b) + SeekIndex(blocks[b], u, s);
      OffsetNext(blocks, b);
      OffsetMonotone(blocks, b + 1, |blocks|);
      forall n | 0 <= n < m ensures !AtOrAfter(es[n], u, s) { BeforeSeek(blocks, index, u, s, n); }
      if m < |es| { AtSeek(blocks, index, u, s); }
      SeekUnique(es, u, s, m);
    }
  }

  /** The lookup reads one block only, and the filter may spare even that; still it misses no entry of the user key. */
  method InternalGet(t: Table, u: UserKey, s: nat, mayMatch: nat -> bool) returns (r: Option<Entry>)
    requires t.Ok() && s <= MAX_SN
    requires forall b, j :: 0 <= b < |t.blocks| && 0 <= j < |t.blocks[b]| && t.blocks[b][j].user == u ==> mayMatch(b)
    ensures r == SeekGet(Flat(t.blocks), u, s)
  {
    var b := IndexSeek(t.index, u, s);
    TableIndexOk(t);
    BlockSeek(t.blocks, t.index, u, s);
    r := None;
    if b < |t.index| {
      var k := SeekIndex(t.blocks[b], u, s);
      if k < |t.blocks[b]| { EntryAt(t.blocks, b, k); } else { OneBlockEnough(t, u, s); }
      if mayMatch(b) {
        if k < |t.blocks[b]| && t.blocks[b][k].user == u { r := Some(t.blocks[b][k]); }
      }
    }
  }

  /** What follows a block is the first entry of the next one. */
  lemma FollowsBlock(blocks: seq<seq<Entry>>, b: nat)
    requires NoEmpty(blocks) && b < |blocks| && Offset(blocks, b) + |blocks[b]| < |Flat(blocks)|
    ensures b + 1 < |blocks| && Flat(blocks)[Offset(blocks, b) + |blocks[b]|] == blocks[b + 1][0]
  {
    OffsetNext(blocks, b);
    assert blocks[..|blocks|] == blocks;
    EntryAt(blocks, b + 1, 0);
  }

  /** If the block has nothing at or after the lookup key, the next block starts beyond the user key. */
  lemma OneBlockEnough(t: Table, u: UserKey, s: nat)
    requires t.Ok() && s <= MAX_SN
    requires var b := IndexSeek(t.index, u, s); b < |t.blocks| && SeekIndex(t.blocks[b], u, s) == |t.blocks[b]|
    ensures SeekGet(Flat(t.blocks), u, s) == None
  {
    var b := IndexSeek(t.index, u, s);
    var es := Flat(t.blocks);
    TableIndexOk(t);
    BlockSeek(t.blocks, t.index, u, s);
    hide IndexOk, SeekIndex, IndexSeek, Offset, Flat, Sorted, IsSeparator, IsSuccessor;
    if SeekIndex(es, u, s) < |es| {
      FollowsBlock(t.blocks, b);
      SeparatorSkips(t.index[b], Last(t.blocks[b]), t.blocks[b + 1][0], u, s);
    }
  }

  /** A separator at or after the lookup key, whose left neighbour is before it, has another user key on its right. */
  lemma SeparatorSkips(k: IndexKey, last: Entry, first: Entry, u: UserKey, s: nat)
    requires IsSeparator(k, last, first) && !AtOrAfter(last, u, s) && s <= MAX_SN
    requires u < k.user || (u == k.user && k.sn <= s)
    ensures first.user != u
  {
  }
}
