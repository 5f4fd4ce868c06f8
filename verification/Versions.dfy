/** Table files, levels and the recency order between them. */
module Versions {
  import opened DbFormat

  const NUM_LEVELS := 7
  const MAX_MEM_COMPACT_LEVEL := 2

  datatype Table = Table(number: nat, size: nat, entries: seq<Entry>) {
    predicate Valid() {
      |entries| > 0 && Sorted(entries)
    }
  }

  type File = t: Table | t.Valid() witness Table(0, 0, [Entry(0, 0, Delete)])

  function Smallest(f: File): Entry { f.entries[0] }

  function Largest(f: File): Entry { f.entries[|f.entries| - 1] }

  /** Smallest and largest user key. */
  function Lo(f: File): UserKey { Smallest(f).user }

  function Hi(f: File): UserKey { Largest(f).user }

  predicate Overlaps(f: File, lo: UserKey, hi: UserKey) {
    lo <= Hi(f) && Lo(f) <= hi
  }

  lemma InRange(f: File, e: Entry)
    requires e in f.entries
    ensures Lo(f) <= e.user <= Hi(f)
    ensures e == Smallest(f) || Before(Smallest(f), e)
    ensures e == Largest(f) || Before(e, Largest(f))
  {
    var i :| 0 <= i < |f.entries| && f.entries[i] == e;
  }

  type Version = v: seq<set<File>> | |v| == NUM_LEVELS witness seq(NUM_LEVELS, i => {})

  ghost function FilesContent(files: set<File>): set<Entry> {
    set f, e | f in files && e in f.entries :: e
  }

  ghost function Content(v: Version): set<Entry> {
    set i, f, e | 0 <= i < NUM_LEVELS && f in v[i] && e in f.entries :: e
  }

  /** Disjoint in internal-key order; one user key may still straddle both. */
  predicate Apart(f: File, g: File) {
    Before(Largest(f), Smallest(g)) || Before(Largest(g), Smallest(f))
  }

  /** Wherever f and g hold the same user key, f's entries are the newer ones. */
  ghost predicate Newer(f: File, g: File) {
    forall d, e :: d in f.entries && e in g.entries && d.user == e.user ==> d.sn > e.sn
  }

  ghost predicate LevelsApart(v: Version) {
    forall i, f, g :: 1 <= i < NUM_LEVELS && f in v[i] && g in v[i] && f != g ==> Apart(f, g)
  }

  ghost predicate LevelsRecent(v: Version) {
    forall i, j, f, g :: 0 <= i < j < NUM_LEVELS && f in v[i] && g in v[j] ==> Newer(f, g)
  }

  ghost predicate Level0Recent(v: Version) {
    forall f, g :: f in v[0] && g in v[0] && f.number > g.number ==> Newer(f, g)
  }

  /** A file number names one file at one level. */
  ghost predicate NumbersUnique(v: Version) {
    forall i, j, f, g :: 0 <= i < NUM_LEVELS && 0 <= j < NUM_LEVELS && f in v[i] && g in v[j] && f.number == g.number
      ==> i == j && f == g
  }

  ghost predicate Recency(v: Version) {
    LevelsApart(v) && LevelsRecent(v) && Level0Recent(v) && NumbersUnique(v)
  }

  // ----- placing a flushed memtable

  /** The rule of PickLevelForMemTableOutput: below level 0 only where nothing above or beside overlaps. */
  ghost predicate PlaceOk(v: Version, f: File, p: nat) {
    p <= MAX_MEM_COMPACT_LEVEL &&
    (p > 0 ==> forall i, g :: 0 <= i <= p && g in v[i] ==> !Overlaps(g, Lo(f), Hi(f)))
  }

  function AddAt(v: Version, p: nat, f: File): Version
    requires p < NUM_LEVELS
  {
    v[p := v[p] + {f}]
  }

  ghost predicate NewerThanAll(f: File, v: Version) {
    forall i, g :: 0 <= i < NUM_LEVELS && g in v[i] ==> Newer(f, g) && f.number > g.number
  }

  lemma DisjointUsers(f: File, g: File)
    requires !Overlaps(g, Lo(f), Hi(f))
    ensures Newer(f, g) && Newer(g, f) && Apart(f, g)
  {
    forall d, e | d in f.entries && e in g.entries ensures d.user != e.user {
      InRange(f, d);
      InRange(g, e);
    }
  }

  lemma FlushKeepsApart(v: Version, f: File, p: nat)
    requires Recency(v) && PlaceOk(v, f, p)
    ensures LevelsApart(AddAt(v, p, f))
  {
    var w := AddAt(v, p, f);
    forall i, g, h | 1 <= i < NUM_LEVELS && g in w[i] && h in w[i] && g != h ensures Apart(g, h) {
      if g == f && i == p && h in v[i] {
        DisjointUsers(f, h);
      } else if h == f && i == p && g in v[i] {
        DisjointUsers(f, g);
      } else {
        assert g in v[i] && h in v[i];
      }
    }
  }

  lemma FlushKeepsOrder(v: Version, f: File, p: nat)
    requires Recency(v) && PlaceOk(v, f, p) && NewerThanAll(f, v)
    ensures LevelsRecent(AddAt(v, p, f))
  {
    var w := AddAt(v, p, f);
    forall i, j, g, h | 0 <= i < j < NUM_LEVELS && g in w[i] && h in w[j] ensures Newer(g, h) {
      if j == p && h == f && h !in v[j] {
        assert g in v[i];
        DisjointUsers(f, g);
      } else if i == p && g == f && g !in v[i] {
        assert h in v[j];
      } else {
        assert g in v[i] && h in v[j];
      }
    }
  }

  lemma FlushKeepsRecency(v: Version, f: File, p: nat)
    requires Recency(v) && PlaceOk(v, f, p) && NewerThanAll(f, v)
    ensures Recency(AddAt(v, p, f))
  {
    FlushKeepsApart(v, f, p);
    FlushKeepsOrder(v, f, p);
    var w := AddAt(v, p, f);
    assert NumbersUnique(w) by {
      forall i, j, g, h | 0 <= i < NUM_LEVELS && 0 <= j < NUM_LEVELS && g in w[i] && h in w[j] && g.number == h.number
        ensures i == j && g == h
      {
        assert (i == p && g == f) || g in v[i];
        assert (j == p && h == f) || h in v[j];
      }
    }
    assert Level0Recent(w) by {
      forall g, h | g in w[0] && h in w[0] && g.number > h.number ensures Newer(g, h) {
        assert g == f || g in v[0];
        assert h == f || h in v[0];
      }
    }
  }

  // ----- replacing compaction inputs by outputs

  ghost function Replace(v: Version, c: nat, in0: set<File>, in1: set<File>, outs: set<File>): Version
    requires c + 1 < NUM_LEVELS
  {
    v[c := v[c] - in0][c + 1 := v[c + 1] - in1 + outs]
  }

  ghost predicate AreInputs(v: Version, c: nat, in0: set<File>, in1: set<File>) {
    c + 1 < NUM_LEVELS && in0 <= v[c] && in1 <= v[c + 1] && in0 != {}
  }

  /** Files that stay at the inputs' level hold newer entries of any user key they share with the inputs. */
  ghost predicate StayersNewer(v: Version, c: nat, in0: set<File>)
    requires c < NUM_LEVELS
  {
    forall g, f :: g in v[c] && g !in in0 && f in in0 ==> Newer(g, f)
  }

  /** The outputs hold only entries of the inputs and fit between the files that stay. */
  ghost predicate OutputsFit(v: Version, c: nat, in0: set<File>, in1: set<File>, outs: set<File>)
    requires c + 1 < NUM_LEVELS
  {
    && FilesContent(outs) <= FilesContent(in0 + in1)
    && (forall o, q :: o in outs && q in outs && o != q ==> Apart(o, q) && o.number != q.number)
    && (forall o, g :: o in outs && g in v[c + 1] && g !in in1 ==> Apart(o, g))
    && (forall i, o, g :: 0 <= i < NUM_LEVELS && o in outs && g in v[i] && o.number == g.number ==> g in in0 && i == c)
  }

  lemma OutputSource(in0: set<File>, in1: set<File>, outs: set<File>, o: File, e: Entry) returns (f: File)
    requires FilesContent(outs) <= FilesContent(in0 + in1) && o in outs && e in o.entries
    ensures f in in0 + in1 && e in f.entries
  {
    assert e in FilesContent(outs);
    f :| f in in0 + in1 && e in f.entries;
  }

  lemma AboveOutputs(v: Version, c: nat, in0: set<File>, in1: set<File>, outs: set<File>, i: nat, g: File, o: File)
    requires Recency(v) && AreInputs(v, c, in0, in1) && StayersNewer(v, c, in0) && OutputsFit(v, c, in0, in1, outs)
    requires i <= c && g in v[i] && (i == c ==> g !in in0) && o in outs
    ensures Newer(g, o)
  {
    forall d, e | d in g.entries && e in o.entries && d.user == e.user ensures d.sn > e.sn {
      var f := OutputSource(in0, in1, outs, o, e);
      if f in in0 { assert Newer(g, f); } else { assert Newer(g, f); }
    }
  }

  lemma BelowOutputs(v: Version, c: nat, in0: set<File>, in1: set<File>, outs: set<File>, j: nat, g: File, o: File)
    requires Recency(v) && AreInputs(v, c, in0, in1) && OutputsFit(v, c, in0, in1, outs)
    requires c + 1 < j < NUM_LEVELS && g in v[j] && o in outs
    ensures Newer(o, g)
  {
    forall d, e | d in o.entries && e in g.entries && d.user == e.user ensures d.sn > e.sn {
      var f := OutputSource(in0, in1, outs, o, d);
      assert Newer(f, g);
    }
  }

  lemma ReplaceKeepsOrder(v: Version, c: nat, in0: set<File>, in1: set<File>, outs: set<File>)
    requires Recency(v) && AreInputs(v, c, in0, in1) && StayersNewer(v, c, in0)
    requires OutputsFit(v, c, in0, in1, outs)
    ensures LevelsRecent(Replace(v, c, in0, in1, outs))
  {
    var w := Replace(v, c, in0, in1, outs);
    forall i, j, g, h | 0 <= i < j < NUM_LEVELS && g in w[i] && h in w[j] ensures Newer(g, h) {
      if g in outs && i == c + 1 {
        assert h in v[j];
        BelowOutputs(v, c, in0, in1, outs, j, h, g);
      } else if h in outs && j == c + 1 {
        assert g in v[i] && (i == c ==> g !in in0);
        AboveOutputs(v, c, in0, in1, outs, i, g, h);
      } else {
        assert g in v[i] && h in v[j];
      }
    }
  }

  lemma ReplaceKeepsApart(v: Version, c: nat, in0: set<File>, in1: set<File>, outs: set<File>)
    requires Recency(v) && AreInputs(v, c, in0, in1) && OutputsFit(v, c, in0, in1, outs)
    ensures LevelsApart(Replace(v, c, in0, in1, outs))
  {
    var w := Replace(v, c, in0, in1, outs);
    forall i, g, h | 1 <= i < NUM_LEVELS && g in w[i] && h in w[i] && g != h ensures Apart(g, h) {
      if i == c + 1 {
        assert w[i] == v[c + 1] - in1 + outs;
      } else {
        assert g in v[i] && h in v[i];
      }
    }
  }

  lemma ReplaceKeepsNumbers(v: Version, c: nat, in0: set<File>, in1: set<File>, outs: set<File>)
    requires Recency(v) && AreInputs(v, c, in0, in1) && OutputsFit(v, c, in0, in1, outs)
    ensures NumbersUnique(Replace(v, c, in0, in1, outs))
  {
    var w := Replace(v, c, in0, in1, outs);
    forall i, j, g, h | 0 <= i < NUM_LEVELS && 0 <= j < NUM_LEVELS && g in w[i] && h in w[j] && g.number == h.number
      ensures i == j && g == h
    {
      assert (i == c + 1 && g in outs) || (g in v[i] && (i == c ==> g !in in0));
      assert (j == c + 1 && h in outs) || (h in v[j] && (j == c ==> h !in in0));
    }
  }

  lemma ReplaceKeepsRecency(v: Version, c: nat, in0: set<File>, in1: set<File>, outs: set<File>)
    requires Recency(v) && AreInputs(v, c, in0, in1) && StayersNewer(v, c, in0)
    requires OutputsFit(v, c, in0, in1, outs)
    ensures Recency(Replace(v, c, in0, in1, outs))
  {
    var w := Replace(v, c, in0, in1, outs);
    ReplaceKeepsOrder(v, c, in0, in1, outs);
    ReplaceKeepsApart(v, c, in0, in1, outs);
    ReplaceKeepsNumbers(v, c, in0, in1, outs);
    assert w[0] <= v[0];
  }
}
