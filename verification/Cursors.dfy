/** A position in a sorted list of entries: what every iterator promises its user. */
module Cursors {
  import opened DbFormat
  import opened Lookup

  class Cursor {
    const es: seq<Entry>
    var pos: nat          // |es| when not valid

    ghost predicate Ok()
      reads this
    {
      Sorted(es) && pos <= |es|
    }

    predicate Valid()
      reads this
    {
      pos < |es|
    }

    constructor (es: seq<Entry>)
      requires Sorted(es)
      ensures Ok() && this.es == es && !Valid()
    {
      this.es := es;
      pos := |es|;
    }

    function Entry(): Entry
      requires Valid()
      reads this
    {
      es[pos]
    }

    method SeekToFirst()
      requires Ok()
      modifies this
      ensures Ok() && pos == 0
    {
      pos := 0;
    }

    method SeekToLast()
      requires Ok()
      modifies this
      ensures Ok() && pos == if |es| == 0 then 0 else |es| - 1
    {
      pos := if |es| == 0 then 0 else |es| - 1;
    }

    method Seek(u: UserKey, s: nat)
      requires Ok()
      modifies this
      ensures Ok() && pos == SeekIndex(es, u, s)
    {
      pos := SeekIndex(es, u, s);
    }

    method Next()
      requires Ok() && Valid()
      modifies this
      ensures Ok() && pos == old(pos) + 1
    {
      pos := pos + 1;
    }

    method Prev()
      requires Ok() && Valid()
      modifies this
      ensures Ok() && pos == if old(pos) == 0 then |es| else old(pos) - 1
    {
      pos := if pos == 0 then |es| else pos - 1;
    }
  }
}
