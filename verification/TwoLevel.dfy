/** The two-level iterator: blocks opened on demand through an index, walked as one list. */
module TwoLevel {
  import opened DbFormat
  import opened Options
  import opened Versions
  import opened Lookup
  import opened Tables

  class TwoLevelIterator {
    const blocks: seq<seq<Entry>>
    const index: seq<IndexKey>
    var indexPos: nat               // |index| when the index iterator is not valid
    var dataBlock: Option<nat>      // the block data_iter_ was made for, None when there is no data iterator
    var dataPos: nat                // |block| when the data iterator is not valid

    /** The list the iterator walks, and its position in it. */
    ghost function Entries(): seq<Entry> { Flat(blocks) }

    ghost function Pos(): nat
      requires Shape()
      reads this
    {
      if Valid() then Offset(blocks, dataBlock.value) + dataPos else |Flat(blocks)|
    }

    predicate Valid()
      requires Shape()
      reads this
    {
      dataBlock.Some? && dataPos < |blocks[dataBlock.value]|
    }

    ghost predicate Shape()
      reads this
    {
      && IndexOk(blocks, index) && indexPos <= |index|
      && (dataBlock.Some? ==> dataBlock.value == indexPos < |index| && dataPos <= |blocks[indexPos]|)
    }

    /** Between calls: either on an entry, or without a data iterator. */
    ghost predicate Ready()
      reads this
    {
      Shape() && (dataBlock.Some? ==> Valid())
    }

    constructor (blocks: seq<seq<Entry>>, index: seq<IndexKey>)
      requires IndexOk(blocks, index)
      ensures Ready() && this.blocks == blocks && this.index == index && !Valid()
    {
      this.blocks, this.index := blocks, index;
      indexPos, dataBlock, dataPos := |index|, None, 0;
    }

    /** Opens the block the index points at, unless it is the one already open. */
    method InitDataBlock()
      requires IndexOk(blocks, index) && indexPos <= |index|
      requires dataBlock.Some? ==> dataBlock.value < |index| && dataPos <= |blocks[dataBlock.value]|
      modifies this`dataBlock, this`dataPos
      ensures Shape() && (dataBlock.Some? <==> indexPos < |index|)
    {
      if indexPos >= |index| {
        dataBlock := None;
      } else if dataBlock.Some? && dataBlock.value == indexPos {
        // data_iter_ already belongs to this block.
      } else {
        dataBlock, dataPos := Some(indexPos), |blocks[indexPos]|;
      }
    }

    method SkipEmptyDataBlocksForward()
      requires Shape() && (dataBlock.None? ==> indexPos == |index|)
      modifies this
      ensures Ready()
      ensures Pos() == if old(dataBlock).Some? then Offset(blocks, old(dataBlock).value) + old(dataPos) else |Entries()|
    {
      ghost var p := if dataBlock.Some? then Offset(blocks, dataBlock.value) + dataPos else |Entries()|;
      while dataBlock.None? || dataPos >= |blocks[dataBlock.value]|
        invariant Shape() && (dataBlock.None? ==> indexPos == |index|)
        invariant p == if dataBlock.Some? then Offset(blocks, dataBlock.value) + dataPos else |Entries()|
        decreases |index| - indexPos
      {
        if indexPos >= |index| {
          dataBlock := None;
          return;
        }
        OffsetNext(blocks, indexPos);
        assert blocks[..|blocks|] == blocks;
        indexPos := indexPos + 1;
        InitDataBlock();
        if dataBlock.Some? { dataPos := 0; }
      }
    }

    method SkipEmptyDataBlocksBackward()
      requires Shape() && (dataBlock.None? ==> indexPos == |index|)
      modifies this
      ensures Ready()
      ensures old(dataBlock).None? ==> !Valid()
      ensures old(dataBlock).Some? && old(dataPos) < |blocks[old(dataBlock).value]| ==>
          Pos() == Offset(blocks, old(dataBlock).value) + old(dataPos)
      ensures old(dataBlock).Some? && old(dataPos) >= |blocks[old(dataBlock).value]| ==>
                Pos() == if Offset(blocks, old(dataBlock).value) == 0 then |Entries()|
                    else Offset(blocks, old(dataBlock).value) - 1
    {
      if dataBlock.None? { return; }
      if dataPos < |blocks[dataBlock.value]| { return; }
      ghost var o := Offset(blocks, dataBlock.value);
      while dataBlock.None? || dataPos >= |blocks[dataBlock.value]|
        invariant Shape() && (dataBlock.None? ==> indexPos == |index| && o == 0)
        invariant dataBlock.Some? ==>
                    if dataPos < |blocks[indexPos]| then Offset(blocks, indexPos) + dataPos
                        + 1 == o else Offset(blocks, indexPos) == o
        decreases if dataBlock.Some? then indexPos + 1 else 0
      {
        if indexPos >= |index| {
          dataBlock := None;
          return;
        }
        if indexPos == 0 {
          assert blocks[..0] == [];
          indexPos := |index|;
        } else {
          OffsetNext(blocks, indexPos - 1);
          indexPos := indexPos - 1;
        }
        InitDataBlock();
        if dataBlock.Some? { dataPos := if |blocks[indexPos]| == 0 then 0 else |blocks[indexPos]| - 1; }
      }
      EntryAt(blocks, indexPos, dataPos);
    }

    method Seek(u: UserKey, s: nat)
      requires Ready()
      modifies this
      ensures Ready() && Pos() == SeekIndex(Entries(), u, s)
    {
      indexPos := IndexSeek(index, u, s);
      BlockSeek(blocks, index, u, s);
      InitDataBlock();
      if dataBlock.Some? { dataPos := SeekIndex(blocks[indexPos], u, s); }
      SkipEmptyDataBlocksForward();
    }

    method SeekToFirst()
      requires Ready()
      modifies this
      ensures Ready() && Pos() == 0
    {
      indexPos := 0;
      InitDataBlock();
      if dataBlock.Some? { dataPos := 0; }
      assert blocks[..0] == [];
      if |blocks| == 0 { assert blocks == []; }
      SkipEmptyDataBlocksForward();
    }

    method SeekToLast()
      requires Ready()
      modifies this
      ensures Ready() && Pos() == if |Entries()| == 0 then 0 else |Entries()| - 1
    {
      indexPos := if |index| == 0 then 0 else |index| - 1;
      InitDataBlock();
      if dataBlock.Some? { dataPos := if |blocks[indexPos]| == 0 then 0 else |blocks[indexPos]| - 1; }
      assert blocks[..|blocks|] == blocks;
      if |blocks| > 0 { OffsetNext(blocks, |blocks| - 1); } else { assert blocks == []; }
      SkipEmptyDataBlocksBackward();
    }

    method Next()
      requires Ready() && Valid()
      modifies this
      ensures Ready() && Pos() == old(Pos()) + 1
    {
      dataPos := dataPos + 1;
      SkipEmptyDataBlocksForward();
    }

    method Prev()
      requires Ready() && Valid()
      modifies this
      ensures Ready() && Pos() == if old(Pos()) == 0 then |Entries()| else old(Pos()) - 1
    {
      EntryAt(blocks, dataBlock.value, dataPos);
      dataPos := if dataPos == 0 then |blocks[dataBlock.value]| else dataPos - 1;
      SkipEmptyDataBlocksBackward();
    }

    /** The entry shown is the entry of the list at the position. */
    function Entry(): (e: Entry)
      requires Ready() && Valid()
      reads this
      ensures Pos() < |Entries()| && e == Entries()[Pos()]
    {
      EntryAt(blocks, dataBlock.value, dataPos);
      blocks[dataBlock.value][dataPos]
    }
  }

  // ----- the files of one level as blocks

  function FileBlocks(files: seq<File>): seq<seq<Entry>> {
    seq(|files|, i requires 0 <= i < |files| => files[i].entries)
  }

  /** LevelFileNumIterator: a file's index key is its largest key. */
  function FileIndex(files: seq<File>): seq<IndexKey> {
    seq(|files|, i requires 0 <= i < |files| => IndexKey(Largest(files[i]).user, Largest(files[i]).sn))
  }

  lemma {:induction false} AscendingFlat(files: seq<File>)
    requires Ascending(files)
    ensures Sorted(Flat(FileBlocks(files)))
  {
    if files != [] {
      var n := |files| - 1;
      var front := files[..n];
      AscendingFlat(front);
      assert FileBlocks(files)[..n] == FileBlocks(front);
      var es := Flat(FileBlocks(front));
      forall i, j | 0 <= i < |es| && 0 <= j < |files[n].entries| ensures Before(es[i], files[n].entries[j]) {
        var b, k := BlockOf(FileBlocks(front), i);
        EntryAt(FileBlocks(front), b, k);
        InRange(files[b], files[b].entries[k]);
        InRange(files[n], files[n].entries[j]);
      }
    }
  }

  /** The concatenating iterator of a level is a two-level iterator over its files. */
  lemma LevelIndexOk(files: seq<File>)
    requires Ascending(files)
    ensures IndexOk(FileBlocks(files), FileIndex(files))
  {
    AscendingFlat(files);
    var blocks, index := FileBlocks(files), FileIndex(files);
    forall b, j | 0 <= b < |blocks| && 0 <= j < |blocks[b]| ensures !KeyAfter(blocks[b][j], index[b]) {
      InRange(files[b], blocks[b][j]);
    }
    forall b, c, j | 0 <= b < c < |blocks| && 0 <= j < |blocks[c]| ensures KeyAfter(blocks[c][j], index[b]) {
      InRange(files[c], blocks[c][j]);
      assert Before(Largest(files[b]), Smallest(files[c]));
    }
  }
}
