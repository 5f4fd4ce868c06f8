/** The filter block: one filter for every 2 KB of file offset, found through an array of offsets. */
module FilterBlock {
  import opened Coding
  import Block
  import Bloom

  const BASE_LG: nat := 11
  const BASE: nat := 2048

  type Create = seq<Bytes> -> Bytes
  type Match = (Bytes, Bytes) -> bool

  /** What a filter policy promises: a key the filter was made of may match. */
  ghost predicate Sound(create: Create, mayMatch: Match) {
    forall keys, key :: key in keys ==> mayMatch(key, create(keys))
  }

  function FilterOf(create: Create, group: seq<Bytes>): Bytes { if group == [] then [] else create(group) }

  /** Where filter i starts; the end of all filters for the number of filters. */
  function At(offsets: seq<nat>, end: nat, i: nat): nat
    requires i <= |offsets|
  {
    if i < |offsets| then offsets[i] else end
  }

  /** Piece i of the data, between two offsets. */
  ghost predicate PieceIs(data: Bytes, offsets: seq<nat>, i: nat, piece: Bytes)
    requires i < |offsets|
  {
    && At(offsets, |data|, i) <= At(offsets, |data|, i + 1) <= |data|
    && data[At(offsets, |data|, i)..At(offsets, |data|, i + 1)] == piece
  }

  /** Filter i is the filter of group i. */
  ghost predicate Filters(create: Create, result: Bytes, offsets: seq<nat>, groups: seq<seq<Bytes>>) {
    |offsets| == |groups| && forall i :: 0 <= i < |groups| ==> PieceIs(result, offsets, i, FilterOf(create, groups[i]))
  }

  /** The flattened key list stands for pending. */
  ghost predicate Flattened(keys: Bytes, start: seq<nat>, pending: seq<Bytes>) {
    |start| == |pending| && forall i :: 0 <= i < |start| ==> PieceIs(keys, start, i, pending[i])
  }

  function Contents(result: Bytes, offsets: seq<nat>): Bytes {
    result + Block.Fixeds(offsets) + Fixed32(|result|) + [BASE_LG]
  }

  class Builder {
    const create: Create
    var keys: Bytes
    var start: seq<nat>
    var result: Bytes
    var offsets: seq<nat>
    ghost var pending: seq<Bytes>          // keys added since the last filter
    ghost var groups: seq<seq<Bytes>>      // keys of each filter
    ghost var block: nat                   // offset given to the last StartBlock
    ghost var added: set<(nat, Bytes)>     // all keys with the offset of their block

    ghost predicate Valid()
      reads this
    {
      && Flattened(keys, start, pending) && Filters(create, result, offsets, groups)
      && Held(added, groups, pending)
    }

    constructor (create: Create)
      ensures Valid() && block == 0 && added == {} && offsets == [] && this.create == create
    {
      this.create := create;
      keys, start, result, offsets := [], [], [], [];
      pending, groups, block, added := [], [], 0, {};
    }

    method GenerateFilter()
      requires Valid()
      modifies this
      ensures Valid() && pending == [] && groups == old(groups) + [old(pending)] && added == old(added)
          && block == old(block)
    {
      hide Held, Filters;
      LaterGroup(added, groups, pending);
      NextFilter(create, result, offsets, groups, pending);
      if |start| == 0 {
        assert pending == [] && result + FilterOf(create, []) == result;
        offsets := offsets + [|result|];
        groups := groups + [pending];
        return;
      }
      var ends := start + [|keys|];
      var tmpKeys: seq<Bytes> := [];
      for i := 0 to |start|
        invariant |tmpKeys| == i && tmpKeys == pending[..i]
        modifies {}
      {
        assert PieceIs(keys, start, i, pending[i]);
        assert ends[i] == At(start, |keys|, i) && ends[i + 1] == At(start, |keys|, i + 1);
        tmpKeys := tmpKeys + [keys[ends[i]..ends[i + 1]]];
      }
      assert tmpKeys == pending;
      offsets := offsets + [|result|];
      result := result + create(tmpKeys);
      groups := groups + [pending];
      keys, start, pending := [], [], [];
    }

    /** A data block begins at this offset. */
    method StartBlock(offset: nat)
      requires Valid() && offset / BASE >= |offsets|
      modifies this
      ensures Valid() && |groups| == offset / BASE && block == offset && added == old(added)
    {
      var filterIndex := offset / BASE;
      while filterIndex > |offsets|
        invariant Valid() && |groups| <= filterIndex && added == old(added)
        decreases filterIndex - |offsets|
      {
        GenerateFilter();
      }
      block := offset;
    }

    method AddKey(key: Bytes)
      requires Valid() && |groups| == block / BASE
      modifies this
      ensures Valid() && added == old(added) + {(block, key)} && block == old(block) && groups == old(groups)
    {
      OneMoreKey(keys, start, pending, key);
      start := start + [|keys|];
      keys := keys + key;
      pending := pending + [key];
      added := added + {(block, key)};
    }

    method Finish(mayMatch: Match) returns (contents: Bytes)
      requires Valid() && Sound(create, mayMatch)
      modifies this
      ensures |contents| < TWO32 ==> forall a :: a in added ==> KeyMayMatch(mayMatch, contents, a.0, a.1)
      ensures added == old(added) && Held(added, groups, [])
      ensures |contents| < TWO32 ==> forall offset: nat, key :: KeyMayMatch(mayMatch, contents, offset, key) <==>
                (offset / BASE < |groups| ==> mayMatch(key, FilterOf(create, groups[offset / BASE])))
    {
      if |start| != 0 {
        GenerateFilter();
      }
      contents := result;
      for i := 0 to |offsets|
        invariant contents == result + Block.Fixeds(offsets[..i])
        modifies {}
      {
        assert offsets[..i + 1][..i] == offsets[..i];
        contents := contents + Fixed32(offsets[i]);
      }
      assert offsets[..|offsets|] == offsets;
      contents := contents + Fixed32(|result|) + [BASE_LG];
      if |contents| < TWO32 {
        forall a | a in added ensures KeyMayMatch(mayMatch, contents, a.0, a.1) {
          assert a.0 / BASE < |groups| && a.1 in groups[a.0 / BASE];
          FoundByReader(create, mayMatch, result, offsets, groups, a.0, a.1);
        }
        forall offset: nat, key
          ensures KeyMayMatch(mayMatch, contents, offset, key) <==>
            (offset / BASE < |groups| ==> mayMatch(key, FilterOf(create, groups[offset / BASE]))) {
          AnswersExactly(create, mayMatch, result, offsets, groups, offset, key);
        }
      }
    }
  }

  /** Every key is in the group of its block's offset, or still pending for it, and no other key is. */
  ghost predicate Held(added: set<(nat, Bytes)>, groups: seq<seq<Bytes>>, pending: seq<Bytes>) {
    && (forall a :: a in added ==>
        (a.0 / BASE < |groups| && a.1 in groups[a.0 / BASE]) || (a.0 / BASE == |groups| && a.1 in pending))
    && (forall i, key :: 0 <= i < |groups| && key in groups[i] ==> AddedFor(added, i, key))
    && forall key :: key in pending ==> AddedFor(added, |groups|, key)
  }

  /** The key was added for a block that begins in the range of this number. */
  ghost predicate AddedFor(added: set<(nat, Bytes)>, i: nat, key: Bytes) {
    exists a :: a in added && a.0 / BASE == i && a.1 == key
  }

  lemma LaterGroup(added: set<(nat, Bytes)>, groups: seq<seq<Bytes>>, pending: seq<Bytes>)
    requires Held(added, groups, pending)
    ensures Held(added, groups + [pending], [])
  {
  }

  lemma NextFilter(create: Create, result: Bytes, offsets: seq<nat>, groups: seq<seq<Bytes>>, group: seq<Bytes>)
    requires Filters(create, result, offsets, groups)
    ensures Filters(create, result + FilterOf(create, group), offsets + [|result|], groups + [group])
  {
    var r, o, g := result + FilterOf(create, group), offsets + [|result|], groups + [group];
    forall i | 0 <= i < |g| ensures PieceIs(r, o, i, FilterOf(create, g[i])) {
      if i < |groups| {
        assert PieceIs(result, offsets, i, FilterOf(create, groups[i]));
        assert r[At(o, |r|, i)..At(o, |r|, i + 1)] == result[At(o, |r|, i)..At(o, |r|, i + 1)];
      }
    }
  }

  lemma OneMoreKey(keys: Bytes, start: seq<nat>, pending: seq<Bytes>, key: Bytes)
    requires Flattened(keys, start, pending)
    ensures Flattened(keys + key, start + [|keys|], pending + [key])
  {
    var k, s, p := keys + key, start + [|keys|], pending + [key];
    forall i | 0 <= i < |s| ensures PieceIs(k, s, i, p[i]) {
      if i < |start| {
        assert PieceIs(keys, start, i, pending[i]);
        assert k[At(s, |k|, i)..At(s, |k|, i + 1)] == keys[At(s, |k|, i)..At(s, |k|, i + 1)];
      }
    }
  }

  // ----- the reader

  /** The reader's answer for a block offset and a key, on any contents. */
  ghost predicate KeyMayMatch(mayMatch: Match, contents: Bytes, offset: nat, key: Bytes) {
    |contents| >= 5 ==> Answer(mayMatch, contents, Word(contents, |contents| - 5),
        Shifted(offset, contents[|contents| - 1]), key)
  }

  ghost predicate Answer(mayMatch: Match, contents: Bytes, lastWord: nat, index: nat, key: Bytes)
    requires |contents| >= 5
  {
    lastWord <= |contents| - 5 && index < (|contents| - 5 - lastWord) / 4 ==>
        EntryMatches(mayMatch, contents, lastWord, index, key)
  }

  ghost predicate EntryMatches(mayMatch: Match, contents: Bytes, offset: nat, index: nat, key: Bytes)
    requires offset + 4 * index + 8 <= |contents|
  {
    var start := Word(contents, offset + 4 * index);
    var limit := Word(contents, offset + 4 * index + 4);
    if start <= limit && limit <= offset then mayMatch(key, contents[start..limit]) else start != limit
  }

  lemma Quarter(m: nat, i: nat)
    requires i < m / 4
    ensures 4 * i + 4 <= m
  {
  }

  /** offset >> lg */
  function Shifted(offset: nat, lg: nat): nat {
    if lg == 0 then offset else Shifted(offset / 2, lg - 1)
  }

  lemma ShiftedByBase(offset: nat)
    ensures Shifted(offset, BASE_LG) == offset / BASE
  {
    var a := offset / 2 / 2 / 2 / 2;
    var b := a / 2 / 2 / 2 / 2;
    assert Shifted(offset, 11) == Shifted(offset / 2, 10) == Shifted(offset / 2 / 2, 9) ==
        Shifted(offset / 2 / 2 / 2, 8) == Shifted(a, 7);
    assert Shifted(a, 7) == Shifted(a / 2, 6) == Shifted(a / 2 / 2, 5) == Shifted(a / 2 / 2 / 2, 4) == Shifted(b, 3);
    assert Shifted(b, 3) == b / 2 / 2 / 2;
    hide Shifted;
    assert a == offset / 16 && b == a / 16;
  }

  function Word(contents: Bytes, at: nat): nat
    requires at + 4 <= |contents|
  {
    UnFixed(contents[at..at + 4])
  }

  class Reader {
    const mayMatch: Match
    const contents: Bytes
    var offset: nat       // of the offset array
    var num: nat          // filters in it
    var baseLg: nat

    ghost predicate Valid()
      reads this
    {
      var n := |contents|;
      if n < 5 || Word(contents, n - 5) > n - 5 then num == 0
      else offset == Word(contents, n - 5) && num == (n - 5 - offset) / 4 && baseLg == contents[n - 1]
    }

    constructor (mayMatch: Match, contents: Bytes)
      ensures Valid() && this.mayMatch == mayMatch && this.contents == contents
    {
      this.mayMatch, this.contents := mayMatch, contents;
      offset, num, baseLg := 0, 0, 0;
      var n := |contents|;
      if n >= 5 {
        baseLg := contents[n - 1];
        var lastWord := Word(contents, n - 5);
        if lastWord <= n - 5 {
          offset := lastWord;
          num := (n - 5 - lastWord) / 4;
        }
      }
    }

    /** Damaged contents count as a possible match. */
    method MayMatch(blockOffset: nat, key: Bytes) returns (r: bool)
      requires Valid()
      ensures r == KeyMayMatch(mayMatch, contents, blockOffset, key)
    {
      hide Word, Shifted;
      var index := Shifted(blockOffset, baseLg);
      if index < num {
        Quarter(|contents| - 5 - offset, index);
        var start := Word(contents, offset + 4 * index);
        var limit := Word(contents, offset + 4 * index + 4);
        if start <= limit && limit <= offset {
          return mayMatch(key, contents[start..limit]);
        } else if start == limit {
          return false;
        }
      }
      r := true;
    }
  }

  /** Whatever the contents: no key is ruled out by damage alone, but by an empty entry or by the policy, asked about the
    filter of some entry. */
  lemma RuledOutBy(mayMatch: Match, contents: Bytes, offset: nat, key: Bytes) returns (i: nat)
    requires !KeyMayMatch(mayMatch, contents, offset, key)
    ensures i + 8 <= |contents|
    ensures var s, l := Word(contents, i), Word(contents, i + 4);
            s == l || (s < l <= |contents| && !mayMatch(key, contents[s..l]))
  {
    hide Word, Shifted;
    var lastWord, index := Word(contents, |contents| - 5), Shifted(offset, contents[|contents| - 1]);
    Quarter(|contents| - 5 - lastWord, index);
    i := lastWord + 4 * index;
  }

  // ----- the two together

  lemma {:induction false} FixedsJoin(ns: seq<nat>, n: nat)
    ensures Block.Fixeds(ns + [n]) == Block.Fixeds(ns) + Fixed32(n)
  {
    assert (ns + [n])[..|ns|] == ns;
  }

  /** The words of the offset array, the end of the filters last. */
  lemma WordRead(result: Bytes, offsets: seq<nat>, i: nat)
    requires i <= |offsets| && At(offsets, |result|, i) < TWO32
    ensures |result| + 4 * i + 4 <= |Contents(result, offsets)|
    ensures Word(Contents(result, offsets), |result| + 4 * i) == At(offsets, |result|, i)
  {
    var c := Contents(result, offsets);
    var ns := offsets + [|result|];
    FixedsJoin(offsets, |result|);
    Block.FixedsAt(ns, i);
    var f := Block.Fixeds(ns);
    hide Block.Fixeds, Fixed32;
    assert c == result + f + [BASE_LG];
    assert c[|result|..|result| + |f|] == f;
    SliceOfSlice(c, |result|, |result| + |f|, 4 * i, 4 * i + 4);
    Fixed32RoundTrip(ns[i]);
  }

  lemma ContentsShape(result: Bytes, offsets: seq<nat>)
    requires |Contents(result, offsets)| < TWO32
    ensures var c := Contents(result, offsets); var n := |c|;
            n == |result| + 4 * |offsets| + 5 && c[n - 1] == BASE_LG && Word(c, n - 5) == |result|
  {
    WordRead(result, offsets, |offsets|);
    hide Block.Fixeds, Fixed32, UnFixed;
  }

  lemma EntryIs(create: Create, mayMatch: Match, result: Bytes, offsets: seq<nat>, groups: seq<seq<Bytes>>,
      i: nat, key: Bytes)
    requires Filters(create, result, offsets, groups) && |Contents(result, offsets)| < TWO32 && i < |groups|
    ensures |result| + 4 * i + 8 <= |Contents(result, offsets)|
    ensures EntryMatches(mayMatch, Contents(result, offsets), |result|, i, key)
       <==> mayMatch(key, FilterOf(create, groups[i]))
  {
    assert PieceIs(result, offsets, i, FilterOf(create, groups[i]));
    ContentsShape(result, offsets);
    WordRead(result, offsets, i);
    WordRead(result, offsets, i + 1);
    var c, a, b := Contents(result, offsets), At(offsets, |result|, i), At(offsets, |result|, i + 1);
    assert c[a..b] == result[a..b] by { hide Block.Fixeds, Fixed32; }
    hide Contents, Word, Filters, FilterOf;
  }

  /** The reader asks the policy about the filter of the block's range, and says yes past the last one. */
  lemma AnswersExactly(create: Create, mayMatch: Match, result: Bytes, offsets: seq<nat>, groups: seq<seq<Bytes>>,
      offset: nat, key: Bytes)
    requires Filters(create, result, offsets, groups) && |Contents(result, offsets)| < TWO32
    ensures KeyMayMatch(mayMatch, Contents(result, offsets), offset, key) <==>
            (offset / BASE < |groups| ==> mayMatch(key, FilterOf(create, groups[offset / BASE])))
  {
    ContentsShape(result, offsets);
    ShiftedByBase(offset);
    if offset / BASE < |groups| { EntryIs(create, mayMatch, result, offsets, groups, offset / BASE, key); }
    hide Contents, Word, Shifted, EntryMatches, FilterOf;
  }

  lemma FoundByReader(create: Create, mayMatch: Match, result: Bytes, offsets: seq<nat>, groups: seq<seq<Bytes>>,
      offset: nat, key: Bytes)
    requires Sound(create, mayMatch) && Filters(create, result, offsets, groups) && |Contents(result, offsets)| < TWO32
    requires offset / BASE < |groups| && key in groups[offset / BASE]
    ensures KeyMayMatch(mayMatch, Contents(result, offsets), offset, key)
  {
    AnswersExactly(create, mayMatch, result, offsets, groups, offset, key);
    hide KeyMayMatch, Contents, Filters;
  }

  /** The Bloom filter is a sound policy. */
  lemma BloomIsSound(bitsPerKey: nat, hash: Bloom.Hash, mayMatch: Match)
    requires forall key, f :: mayMatch(key, f) == Bloom.MayMatch(key, f, hash)
    ensures Sound(keys => Bloom.Filter(keys, bitsPerKey, hash), mayMatch)
  {
    forall keys: seq<Bytes>, key | key in keys ensures mayMatch(key, Bloom.Filter(keys, bitsPerKey, hash)) {
      Bloom.NeverDenied(keys, bitsPerKey, hash, key);
    }
  }
}
