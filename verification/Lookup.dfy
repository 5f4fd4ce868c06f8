/** Point lookups: memtables, then level 0 newest file first, then one file a level, up to the first hit. */
module Lookup {
  import opened DbFormat
  import opened Options
  import opened Versions
  import opened Database
  import opened ReadsOverRuns

  /** Index of the first entry at or after the lookup key: where an iterator's Seek lands. */
  function SeekIndex(es: seq<Entry>, u: UserKey, s: nat): (k: nat)
    ensures k <= |es|
    ensures forall i :: 0 <= i < k ==> !AtOrAfter(es[i], u, s)
    ensures k < |es| ==> AtOrAfter(es[k], u, s)
  {
    if |es| == 0 || AtOrAfter(es[0], u, s) then 0 else 1 + SeekIndex(es[1..], u, s)
  }

  /** Seek, then look at that one entry's user key. */
  function SeekGet(es: seq<Entry>, u: UserKey, s: nat): Option<Entry> {
    var k := SeekIndex(es, u, s);
    if k < |es| && es[k].user == u then Some(es[k]) else None
  }

  lemma SeekGetIsVisible(es: seq<Entry>, S: set<Entry>, u: UserKey, s: nat)
    requires Sorted(es) && Distinct(S) && S == (set e | e in es)
    ensures SeekGet(es, u, s) == Visible(S, u, s)
  {
    var k := SeekIndex(es, u, s);
    forall x | x in S && Sees(x, u, s)
      ensures SeekGet(es, u, s).Some? && x.sn <= SeekGet(es, u, s).value.sn
    {
      var i :| 0 <= i < |es| && es[i] == x;
      assert AtOrAfter(es[i], u, s);
      assert i == k || Before(es[k], es[i]);
    }
    if SeekGet(es, u, s).Some? { VisibleIs(S, es[k], u, s); }
  }

  // ----- files of a version as sorted lists

  predicate Ascending(files: seq<File>) {
    forall i, j :: 0 <= i < j < |files| ==> Before(Largest(files[i]), Smallest(files[j]))
  }

  ghost predicate ListsOf(lists: seq<seq<File>>, v: Version) {
    && |lists| == NUM_LEVELS
    && (forall i :: 0 <= i < NUM_LEVELS ==> (set f | f in lists[i]) == v[i])
    && (forall i :: 1 <= i < NUM_LEVELS ==> Ascending(lists[i]))
  }

  /** Binary search for the first file whose largest key is at or after the lookup key. */
  method FindFile(files: seq<File>, u: UserKey, s: nat) returns (right: nat)
    requires Ascending(files)
    ensures right <= |files|
    ensures forall i :: 0 <= i < right ==> !AtOrAfter(Largest(files[i]), u, s)
    ensures forall i :: right <= i < |files| ==> AtOrAfter(Largest(files[i]), u, s)
  {
    var left := 0;
    right := |files|;
    while left < right
      invariant left <= right <= |files|
      invariant forall i :: 0 <= i < left ==> !AtOrAfter(Largest(files[i]), u, s)
      invariant forall i :: right <= i < |files| ==> AtOrAfter(Largest(files[i]), u, s)
    {
      var mid := (left + right) / 2;
      forall i | 0 <= i < |files| && i != mid
        ensures if i < mid then Before(Largest(files[i]), Largest(files[mid]))
            else Before(Largest(files[mid]), Largest(files[i]))
      {
        InRange(files[i], Largest(files[i]));
        InRange(files[mid], Largest(files[mid]));
      }
      if !AtOrAfter(Largest(files[mid]), u, s) {
        left := mid + 1;
      } else {
        right := mid;
      }
    }
  }

  type Bound = Option<UserKey>

  /** f meets the range; a missing bound is unlimited. */
  predicate Meets(f: File, b: Bound, e: Bound) {
    !(b.Some? && Hi(f) < b.value) && !(e.Some? && Lo(f) > e.value)
  }

  /** Whether some file of a sorted, disjoint level meets the range: one binary search, if it has a lower bound, and
    one comparison. */
  method SomeFileOverlapsSorted(files: seq<File>, lo: Bound, hi: Bound, maxSn: nat) returns (r: bool)
    requires Ascending(files)
    requires forall f :: f in files ==> Largest(f).sn <= maxSn
    ensures r <==> exists f :: f in files && Meets(f, lo, hi)
  {
    var index := 0;
    if lo.Some? { index := FindFile(files, lo.value, maxSn); }
    forall i | 0 <= i < |files| ensures Lo(files[i]) <= Hi(files[i])
      && (i < index <==> lo.Some? && Hi(files[i]) < lo.value) {
      InRange(files[i], Smallest(files[i]));
    }
    if index >= |files| { return false; }
    r := !(hi.Some? && hi.value < Lo(files[index]));
    if r {
      assert files[index] in files;
    } else {
      forall f | f in files ensures !Meets(f, lo, hi) {
        var i :| 0 <= i < |files| && files[i] == f;
        if i > index {
          InRange(files[index], Largest(files[index]));
          assert Before(Largest(files[index]), Smallest(f));
        }
      }
    }
  }

  /** The level-0 form: every file is checked. */
  method SomeFileOverlapsUnsorted(files: seq<File>, lo: Bound, hi: Bound) returns (r: bool)
    ensures r <==> exists f :: f in files && Meets(f, lo, hi)
  {
    for i := 0 to |files|
      invariant forall f :: f in files[..i] ==> !Meets(f, lo, hi)
    {
      if !(lo.Some? && lo.value > Hi(files[i])) && !(hi.Some? && hi.value < Lo(files[i])) {
        assert files[i] in files && Meets(files[i], lo, hi);
        return true;
      }
    }
    return false;
  }

  // ----- Version::Get

  predicate NewestFirst(files: seq<File>) {
    forall i, j :: 0 <= i < j < |files| ==> files[i].number >= files[j].number
  }

  function InsertNewestFirst(f: File, files: seq<File>): (r: seq<File>)
    requires NewestFirst(files)
    ensures forall g :: g in r <==> g == f || g in files
    ensures NewestFirst(r)
  {
    if files == [] || f.number >= files[0].number then [f] + files
    else
      var rest := InsertNewestFirst(f, files[1..]);
      assert forall i :: 0 <= i < |rest| ==> rest[i] in rest;
      assert forall g :: g in rest ==> files[0].number >= g.number;
      [files[0]] + rest
  }

  ghost function EntriesOf(f: File): set<Entry> { set e | e in f.entries }

  ghost predicate NoneVisible(f: File, u: UserKey, s: nat) {
    forall x :: x in f.entries ==> !Sees(x, u, s)
  }

  lemma FileHit(v: Version, i: nat, f: File, u: UserKey, s: nat)
    requires Distinct(Content(v)) && i < NUM_LEVELS && f in v[i]
    ensures EntriesOf(f) <= Content(v)
    ensures SeekGet(f.entries, u, s) == Visible(EntriesOf(f), u, s)
    ensures SeekGet(f.entries, u, s).None? <==> NoneVisible(f, u, s)
  {
    SeekGetIsVisible(f.entries, EntriesOf(f), u, s);
  }

  /** A hit in f is the newest visible entry if f is newer than every other file with a visible entry. */
  lemma HitIsNewest(v: Version, level: nat, f: File, u: UserKey, s: nat)
    requires Distinct(Content(v)) && level < NUM_LEVELS && f in v[level]
    requires SeekGet(f.entries, u, s).Some?
    requires forall j, g :: 0 <= j < NUM_LEVELS && g in v[j] && g != f && !NoneVisible(g, u, s) ==>
        ShadowedBy(f, g, u, s)
    ensures SeekGet(f.entries, u, s) == Visible(Content(v), u, s)
  {
    FileHit(v, level, f, u, s);
    var e := SeekGet(f.entries, u, s).value;
    forall x | x in Content(v) && Sees(x, u, s) ensures x.sn <= e.sn {
      var j, g :| 0 <= j < NUM_LEVELS && g in v[j] && x in g.entries;
      if g == f {
        assert x in EntriesOf(f);
      } else {
        assert ShadowedBy(f, g, u, s);
      }
    }
    VisibleIs(Content(v), e, u, s);
  }

  /** Every visible entry in f is newer than every visible entry in g. */
  ghost predicate ShadowedBy(f: File, g: File, u: UserKey, s: nat) {
    forall e, x :: e in f.entries && x in g.entries && Sees(e, u, s) && Sees(x, u, s) ==> x.sn < e.sn
  }

  lemma Level0Hit(v: Version, files: seq<File>, k: nat, u: UserKey, s: nat)
    requires Recency(v) && Distinct(Content(v)) && NewestFirst(files) && k < |files|
    requires forall f :: f in files <==> f in v[0] && Lo(f) <= u <= Hi(f)
    requires forall i :: 0 <= i < k ==> NoneVisible(files[i], u, s)
    requires SeekGet(files[k].entries, u, s).Some?
    ensures SeekGet(files[k].entries, u, s) == Visible(Content(v), u, s)
  {
    var f := files[k];
    assert f in files;
    forall j, g | 0 <= j < NUM_LEVELS && g in v[j] && g != f && !NoneVisible(g, u, s) ensures ShadowedBy(f, g, u, s) {
      if j == 0 {
        var x :| x in g.entries && Sees(x, u, s);
        Level0Later(v, files, k, u, s, g, x);
      }
      assert Newer(f, g);
    }
    HitIsNewest(v, 0, f, u, s);
  }

  lemma Level0Later(v: Version, files: seq<File>, k: nat, u: UserKey, s: nat, g: File, x: Entry)
    requires Recency(v) && NewestFirst(files) && k < |files| && files[k] in v[0]
    requires forall f :: f in files <==> f in v[0] && Lo(f) <= u <= Hi(f)
    requires forall i :: 0 <= i < k ==> NoneVisible(files[i], u, s)
    requires g in v[0] && g != files[k] && x in g.entries && Sees(x, u, s)
    ensures Newer(files[k], g)
  {
    InRange(g, x);
    assert g in files;
    var i :| 0 <= i < |files| && files[i] == g;
    assert i > k;
    assert files[k].number > g.number;
  }

  /** If nothing of u is visible in the file a level's binary search leads to, nothing is in the level. */
  lemma LevelMiss(files: seq<File>, index: nat, u: UserKey, s: nat, g: File, x: Entry)
    requires Ascending(files) && index <= |files| && g in files
    requires forall i :: 0 <= i < index ==> !AtOrAfter(Largest(files[i]), u, s)
    requires index < |files| ==> AtOrAfter(Largest(files[index]), u, s)
    requires x in g.entries && Sees(x, u, s)
    ensures index < |files| && Lo(files[index]) <= u && SeekGet(files[index].entries, u, s).Some?
  {
    var j :| 0 <= j < |files| && files[j] == g;
    InRange(g, x);
    var f := files[index];
    InRange(f, Smallest(f));
    var k := SeekIndex(f.entries, u, s);
    assert k < |f.entries|;
    InRange(f, f.entries[k]);
    if j > index {
      assert Before(Largest(f), Smallest(g));
    } else {
      var i :| 0 <= i < |f.entries| && f.entries[i] == x;
      assert i == k || Before(f.entries[k], f.entries[i]);
    }
  }

  /** Two files of one sorted level with visible entries of u: the earlier file's are newer. */
  lemma EarlierShadows(files: seq<File>, index: nat, u: UserKey, s: nat, g: File)
    requires Ascending(files) && index < |files| && g in files && g != files[index]
    requires forall i :: 0 <= i < index ==> !AtOrAfter(Largest(files[i]), u, s)
    ensures ShadowedBy(files[index], g, u, s)
  {
    var f := files[index];
    forall e, x | e in f.entries && x in g.entries && Sees(e, u, s) && Sees(x, u, s) ensures x.sn < e.sn {
      var i :| 0 <= i < |files| && files[i] == g;
      InRange(f, e);
      InRange(g, x);
      if i > index { assert Before(Largest(f), Smallest(g)); }
    }
  }

  lemma LevelHit(v: Version, files: seq<File>, level: nat, index: nat, u: UserKey, s: nat)
    requires Recency(v) && Distinct(Content(v)) && Ascending(files) && 1 <= level < NUM_LEVELS && index < |files|
    requires v[level] == set f | f in files
    requires forall i :: 0 <= i < index ==> !AtOrAfter(Largest(files[i]), u, s)
    requires forall i, g :: 0 <= i < level && g in v[i] ==> NoneVisible(g, u, s)
    requires SeekGet(files[index].entries, u, s).Some?
    ensures SeekGet(files[index].entries, u, s) == Visible(Content(v), u, s)
  {
    var f := files[index];
    assert f in v[level];
    forall j, g | 0 <= j < NUM_LEVELS && g in v[j] && g != f && !NoneVisible(g, u, s) ensures ShadowedBy(f, g, u, s) {
      if j == level {
        EarlierShadows(files, index, u, s, g);
      } else {
        assert j > level;
        assert Newer(f, g);
      }
    }
    HitIsNewest(v, level, f, u, s);
  }

  /** The files whose range holds u, newest first. */
  method FilesHolding(files: seq<File>, u: UserKey) returns (tmp: seq<File>)
    ensures NewestFirst(tmp)
    ensures forall f :: f in tmp <==> f in files && Lo(f) <= u <= Hi(f)
  {
    tmp := [];
    for i := 0 to |files|
      invariant NewestFirst(tmp)
      invariant forall f :: f in tmp <==> f in files[..i] && Lo(f) <= u <= Hi(f)
    {
      var f := files[i];
      if u >= Lo(f) && u <= Hi(f) { tmp := InsertNewestFirst(f, tmp); }
    }
    assert files[..|files|] == files;
  }

  lemma OutsideInvisible(g: File, u: UserKey, s: nat)
    requires !(Lo(g) <= u <= Hi(g))
    ensures NoneVisible(g, u, s)
  {
    forall x | x in g.entries ensures !Sees(x, u, s) { InRange(g, x); }
  }

  /** Level 0 may hold overlapping files: those that may hold u are tried newest first. */
  method Level0Get(files: seq<File>, ghost v: Version, u: UserKey, s: nat) returns (r: Option<Entry>)
    requires v[0] == (set f | f in files) && Recency(v) && Distinct(Content(v))
    ensures r.Some? ==> r == Visible(Content(v), u, s)
    ensures r.None? ==> forall g :: g in v[0] ==> NoneVisible(g, u, s)
  {
    hide Recency, Distinct, SeekGet, Visible, Content, NewestFirst, NoneVisible;
    var tmp := FilesHolding(files, u);
    for i := 0 to |tmp|
      invariant forall k :: 0 <= k < i ==> NoneVisible(tmp[k], u, s)
    {
      r := SeekGet(tmp[i].entries, u, s);
      assert tmp[i] in tmp;
      FileHit(v, 0, tmp[i], u, s);
      if r.Some? {
        Level0Hit(v, tmp, i, u, s);
        return;
      }
    }
    r := None;
    forall g | g in v[0] ensures NoneVisible(g, u, s) {
      if !(Lo(g) <= u <= Hi(g)) { OutsideInvisible(g, u, s); }
    }
  }

  /** The first hit of the search is the newest visible entry of the whole version. */
  method VersionGet(lists: seq<seq<File>>, ghost v: Version, u: UserKey, s: nat) returns (r: Option<Entry>)
    requires ListsOf(lists, v) && Recency(v) && Distinct(Content(v))
    ensures r == Visible(Content(v), u, s)
  {
    r := Level0Get(lists[0], v, u, s);
    if r.Some? { return; }
    for level := 1 to NUM_LEVELS
      invariant forall i, g :: 0 <= i < level && g in v[i] ==> NoneVisible(g, u, s)
    {
      var files := lists[level];
      var index := FindFile(files, u, s);
      if index < |files| && u >= Lo(files[index]) {
        r := SeekGet(files[index].entries, u, s);
        if r.Some? {
          LevelHit(v, files, level, index, u, s);
          return;
        }
      }
      forall g, x | g in v[level] && x in g.entries ensures !Sees(x, u, s) {
        if Sees(x, u, s) { LevelMiss(files, index, u, s, g, x); }
      }
    }
    r := None;
    forall x | x in Content(v) ensures !Sees(x, u, s) {
      var j, g :| 0 <= j < NUM_LEVELS && g in v[j] && x in g.entries;
      assert NoneVisible(g, u, s);
    }
  }

  // ----- DBImpl::Get

  lemma LayeredVisible(top: set<Entry>, rest: set<Entry>, u: UserKey, s: nat)
    requires Distinct(top + rest)
    requires forall a, e :: a in top && e in rest ==> a.sn > e.sn
    ensures Visible(top + rest, u, s) == if Visible(top, u, s).Some? then Visible(top, u, s) else Visible(rest, u, s)
  {
    var t := Visible(top, u, s);
    var q := Visible(rest, u, s);
    if t.Some? { VisibleIs(top + rest, t.value, u, s); }
    else if q.Some? { VisibleIs(top + rest, q.value, u, s); }
  }

  lemma Layers(db: DB, u: UserKey, s: nat)
    requires Inv(db)
    ensures Distinct(db.Total()) && db.Total() <= db.Written()
    ensures Visible(db.Total(), u, s) ==
            if Visible(db.mem, u, s).Some? then Visible(db.mem, u, s)
            else if Visible(db.Imm(), u, s).Some? then Visible(db.Imm(), u, s)
            else Visible(Content(db.v), u, s)
  {
    WrittenDistinct(db);
    hide Recency, Visible, NumbersBelow;
    LayeredVisible(db.mem, db.Imm() + Content(db.v), u, s);
    LayeredVisible(db.Imm(), Content(db.v), u, s);
    assert db.Total() == db.mem + (db.Imm() + Content(db.v));
  }

  /** Memtable, immutable memtable, then the current version; the value of the first entry found,
    or nothing when that entry is a tombstone. */
  method Get(ghost db: DB, mem: seq<Entry>, imm: Option<seq<Entry>>, lists: seq<seq<File>>, u: UserKey, s: nat)
    returns (value: Option<Value>)
    requires Inv(db) && Sorted(mem) && db.mem == (set e | e in mem)
    requires imm.Some? <==> db.imm.Some?
    requires imm.Some? ==> Sorted(imm.value) && db.imm.value == (set e | e in imm.value)
    requires ListsOf(lists, db.v)
    ensures value == Read(db.Total(), u, s)
    ensures ReadsOk(db) && s >= db.Horizon() ==> value == Read(db.Written(), u, s)
  {
    hide SeekGet, Recency, Visible;
    Layers(db, u, s);
    var r := SeekGet(mem, u, s);
    SeekGetIsVisible(mem, db.mem, u, s);
    if r.None? {
      if imm.Some? {
        r := SeekGet(imm.value, u, s);
        SeekGetIsVisible(imm.value, db.imm.value, u, s);
      }
      if r.None? {
        r := VersionGet(lists, db.v, u, s);
      }
    }
    value := Answer(r);
  }
}
