/** The wrapping iterator over field descriptors. */
module ProtoIter {
  import opened ProtoFields
  import opened ProtoDecode

  class FieldIter {
    const start: seq<Field>
    var pos: nat
    var required: nat

    /** The required-field counter belongs to the position, however often the iterator has wrapped. */
    ghost predicate Valid()
      reads this
    {
      pos <= |start| && (start != [] ==> pos < |start|) && required == Count(start[..pos])
    }

    constructor (start: seq<Field>)
      ensures Valid() && pos == 0 && this.start == start
    {
      this.start := start;
      pos, required := 0, 0;
    }

    method Next() returns (more: bool)
      requires Valid()
      modifies this
      ensures Valid() && (more <==> old(pos) + 1 < |start|) && pos == if more then old(pos) + 1 else 0
    {
      var prev := pos;
      if prev == |start| {
        return false;
      }
      pos := pos + 1;
      if pos == |start| {
        pos, required := 0, 0;
        return false;
      }
      if start[prev].rule.Required? {
        required := required + 1;
      }
      assert start[..pos][..prev] == start[..prev];
      more := true;
    }

    /** The terminator has tag 0. */
    function TagAt(): nat
      requires Valid()
      reads this
    {
      if start == [] then 0 else start[pos].tag
    }

    /** Searches once around from where the iterator stands. */
    method Seek(tag: nat) returns (found: bool)
      requires Valid()
      modifies this
      ensures Valid() && (found <==> (start == [] && tag == 0) || exists k :: 0 <= k < |start| && start[k].tag == tag)
      ensures found ==> TagAt() == tag
      ensures !found ==> pos == old(pos)
    {
      if TagAt() == tag {
        return true;
      }
      var begin := pos;
      var more := Next();
      while pos != begin
        invariant Valid() && (start == [] ==> pos == begin)
        invariant forall k :: 0 <= k < |start| && Passed(k, begin, pos) ==> start[k].tag != tag
        decreases if pos == begin then 0 else if pos > begin then |start| + begin - pos else begin - pos
      {
        if TagAt() == tag {
          return true;
        }
        more := Next();
      }
      assert forall k :: 0 <= k < |start| ==> Passed(k, begin, pos);
      found := false;
    }

    /** Index k has been looked at on the way from index a around to index b. */
    static predicate Passed(k: nat, a: nat, b: nat) {
      if a < b then a <= k < b else k >= a || k < b
    }

    /** Steps to the end of the descriptors to count the required ones. */
    method CountRequired() returns (n: nat)
      requires Valid()
      modifies this
      ensures Valid() && n == Count(start)
    {
      var last: nat, more := pos, true;
      n := 0;
      while more
        invariant Valid()
        invariant !more ==> last == (if start == [] then 0 else |start| - 1) && n == Count(start[..last])
        decreases if more then |start| - pos + 1 else 0
      {
        n := required;
        last := pos;
        more := Next();
      }
      if start != [] && start[last].rule.Required? {
        n := n + 1;
      }
      if start != [] {
        assert start[..last] == start[..|start| - 1];
      }
    }
  }
}
