/** What the choice of compaction inputs guarantees, stated on sets of files. */
module Choosing {
  import opened DbFormat
  import opened Versions

  /** Inputs at level c lie in [lo, hi]; the inputs one level down are exactly the files that meet [lo, hi]. */
  ghost predicate Chosen(v: Version, c: nat, in0: set<File>, in1: set<File>, lo: UserKey, hi: UserKey) {
    && AreInputs(v, c, in0, in1) && StayersNewer(v, c, in0)
    && (forall f :: f in in0 ==> lo <= Lo(f) && Hi(f) <= hi)
    && (forall g :: g in v[c + 1] ==> (g in in1 <==> Overlaps(g, lo, hi)))
  }

  /** The user-key ranges of the files cover one interval without gaps. */
  ghost predicate GapFree(files: set<File>) {
    forall f, g, k :: f in files && g in files && Lo(f) <= k <= Hi(g) ==> Covered(files, k)
  }

  ghost predicate Covered(files: set<File>, k: UserKey) {
    exists f :: f in files && Lo(f) <= k <= Hi(f)
  }

  /** Every entry of ins is on the same side of g. */
  ghost predicate Clear(g: File, ins: set<Entry>) {
    (forall e :: e in ins ==> Before(Largest(g), e)) || (forall e :: e in ins ==> Before(e, Smallest(g)))
  }

  lemma StayerClear(v: Version, c: nat, in0: set<File>, in1: set<File>, lo: UserKey, hi: UserKey, g: File)
    requires LevelsApart(v) && Chosen(v, c, in0, in1, lo, hi) && g in v[c + 1] && g !in in1
    ensures Clear(g, FilesContent(in0 + in1))
  {
    var ins := FilesContent(in0 + in1);
    if Hi(g) < lo {
      forall e | e in ins ensures Before(Largest(g), e) {
        var f :| f in in0 + in1 && e in f.entries;
        InRange(f, e);
        if f in in1 { assert Apart(f, g); }
      }
    } else {
      forall e | e in ins ensures Before(e, Smallest(g)) {
        var f :| f in in0 + in1 && e in f.entries;
        InRange(f, e);
        if f in in1 { assert Apart(f, g); }
      }
    }
  }

  /** A file that meets no file of a gap-free set lies wholly on one side of it. */
  lemma OutsideGapFree(files: set<File>, g: File)
    requires GapFree(files)
    requires forall f :: f in files ==> !Overlaps(f, Lo(g), Hi(g))
    ensures Clear(g, FilesContent(files))
  {
    InRange(g, Smallest(g));
    assert !Covered(files, Lo(g));
    var ins := FilesContent(files);
    if e1 :| e1 in ins && !Before(Largest(g), e1) {
      var f1 :| f1 in files && e1 in f1.entries;
      InRange(f1, e1);
      forall e | e in ins ensures Before(e, Smallest(g)) {
        var f :| f in files && e in f.entries;
        InRange(f, e);
        assert Lo(f1) <= Lo(g) <= Hi(f) ==> Covered(files, Lo(g));
      }
    }
  }

  /** Output files made of the inputs' entries fit between files that are clear of them. */
  lemma ClearFits(g: File, ins: set<Entry>, o: File)
    requires Clear(g, ins) && forall e :: e in o.entries ==> e in ins
    ensures Apart(o, g)
  {
    assert Smallest(o) in ins && Largest(o) in ins;
  }
}
