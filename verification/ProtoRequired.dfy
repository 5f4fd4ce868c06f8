/** Decoding fails exactly when it is malformed or one of the first 64 required fields is absent. */
module ProtoRequired {
  import opened Options
  import opened Coding
  import opened ProtoFields
  import opened ProtoDecode

  /** The loop over keys without the check at its end: the message and the indices of the fields that were read. */
  function Run(fields: seq<Field>, slots: seq<Slot>, input: Bytes): (r: Option<(seq<Slot>, set<nat>)>)
    requires Shapes(fields, slots)
    decreases |input|
  {
    var t := if input == [] then End else DecodeKey(fields, slots, {}, input);
    match t
    case Bad => None
    case End => Some((slots, {}))
    case Go(next, _, left) =>
      var r := Run(fields, next, left);
      var i := Find(fields, ReadVarint32(input).value.0 / 8);
      if r.None? || i.None? then r else Some((r.value.0, r.value.1 + {i.value}))
  }

  /** Required and among the first 64 that are. */
  predicate Checked(fields: seq<Field>, i: nat) {
    i < |fields| && fields[i].rule.Required? && Count(fields[..i]) < MAX_REQUIRED
  }

  ghost predicate NoneMissing(fields: seq<Field>, seen: set<nat>, read: set<nat>) {
    forall i: nat :: Checked(fields, i) ==> i in read || Count(fields[..i]) in seen
  }

  lemma {:induction false} RequiredIndex(fields: seq<Field>, r: nat) returns (i: nat)
    requires r < Count(fields)
    ensures i < |fields| && fields[i].rule.Required? && Count(fields[..i]) == r
  {
    var n := |fields| - 1;
    if fields[n].rule.Required? && r == Count(fields[..n]) {
      i := n;
    } else {
      i := RequiredIndex(fields[..n], r);
      assert fields[..n][..i] == fields[..i];
    }
  }

  lemma AllSeenMeans(fields: seq<Field>, seen: set<nat>)
    ensures AllSeen(fields, seen) <==> NoneMissing(fields, seen, {})
  {
    if AllSeen(fields, seen) {
      forall i: nat | Checked(fields, i) ensures Count(fields[..i]) in seen {
        CountGrows(fields, i);
      }
    }
    if NoneMissing(fields, seen, {}) {
      forall r | 0 <= r < Count(fields) && r < MAX_REQUIRED ensures r in seen {
        var i := RequiredIndex(fields, r);
        assert Checked(fields, i);
      }
    }
  }

  /** Different required fields have different bits. */
  lemma CountIncreases(fields: seq<Field>, i: nat, j: nat)
    requires i < j < |fields| && fields[i].rule.Required?
    ensures Count(fields[..i]) < Count(fields[..j])
  {
    CountGrows(fields[..j], i);
    assert fields[..j][..i] == fields[..i];
  }

  lemma MarkMeans(fields: seq<Field>, seen: set<nat>, read: set<nat>, k: nat)
    requires k < |fields|
    ensures NoneMissing(fields, Mark(fields, k, seen), read) <==> NoneMissing(fields, seen, read + {k})
  {
    if NoneMissing(fields, Mark(fields, k, seen), read) {
      forall i: nat | Checked(fields, i) ensures i in read + {k} || Count(fields[..i]) in seen {
        if i < k {
          CountIncreases(fields, i, k);
        } else if k < i && fields[k].rule.Required? {
          CountIncreases(fields, k, i);
        }
      }
    }
  }

  lemma {:induction false} RequiredExactly(fields: seq<Field>, slots: seq<Slot>, seen: set<nat>, input: Bytes)
    requires Shapes(fields, slots)
    ensures var r := Run(fields, slots, input);
      DecodeFields(fields, slots, seen, input)
        == if r.Some? && NoneMissing(fields, seen, r.value.1) then Some(r.value.0) else None
    decreases |input|
  {
    hide DecodeField, ReadVarint32, Shapes, Find, Count, AllSeen, NoneMissing, Mark, Skip, SkipTerminator;
    AllSeenMeans(fields, seen);
    var t := if input == [] then End else DecodeKey(fields, slots, seen, input);
    if t.Go? {
      RequiredExactly(fields, t.slots, t.seen, t.left);
      var i := Find(fields, ReadVarint32(input).value.0 / 8);
      var r := Run(fields, t.slots, t.left);
      if i.Some? && r.Some? {
        MarkMeans(fields, seen, r.value.1, i.value);
      }
    }
  }

  /** pb_decode succeeds exactly when every key and field parses and none of the first 64 required fields is absent. */
  lemma DecodesExactly(fields: seq<Field>, input: Bytes)
    ensures Shapes(fields, Defaults(fields))
    ensures var r := Run(fields, Defaults(fields), input);
      Decode(fields, input) == if r.Some? && forall i: nat :: Checked(fields, i) ==>
          i in r.value.1 then Some(r.value.0) else None
  {
    hide Checked;
    DefaultShapes(fields);
    RequiredExactly(fields, Defaults(fields), {}, input);
  }
}
