/** Whatever bytes are decoded, the message stays within its descriptors. */
module ProtoBounds {
  import opened Options
  import opened Coding
  import opened ProtoFields
  import opened ProtoEncode
  import opened ProtoDecode

  /** A value that the field's C type and its fixed room can hold; a string needs room for the zero behind it. */
  ghost predicate Bounded(k: Kind, v: Value)
    decreases k, 0
  {
    match k
    case BoolK => v == Num(0) || v == Num(1)
    case IntK(b) => v.Num? && -Limit(b) <= v.n < Limit(b)
    case UIntK(b) => v.Num? && 0 <= v.n < 2 * Limit(b)
    case SIntK(b) => v.Num? && -Limit(b) <= v.n < Limit(b)
    case Fixed32K => v.Num? && 0 <= v.n < TWO32
    case Fixed64K => v.Num? && 0 <= v.n < TWO64
    case BytesK(max) => v.Text? && |v.b| <= max
    case StringK(size) => v.Text? && (v.b == [] || |v.b| < size)
    case FixedBytesK(n) => v.Text? && |v.b| == n
    case MessageK(fields) => v.Message? && InBounds(fields, v.slots)
  }

  ghost predicate SlotBounded(f: Field, s: Slot)
    decreases f, 1
  {
    && Shape(f, s)
    && match s
       case One(v) => Bounded(f.kind, v)
       case Maybe(o) => o.Some? ==> Bounded(f.kind, o.value)
       case Many(vs) => |vs| <= f.rule.max && forall i :: 0 <= i < |vs| ==> Bounded(f.kind, vs[i])
  }

  predicate IsSet(s: Slot) { s.Maybe? && s.o.Some? }

  /** At most one member of a oneof is set. */
  ghost predicate OneMember(fields: seq<Field>, slots: seq<Slot>)
    requires |slots| == |fields|
  {
    forall i, j :: 0 <= i < j < |fields| && fields[i].rule.OneOf? && fields[i].rule == fields[j].rule ==>
      !(IsSet(slots[i]) && IsSet(slots[j]))
  }

  ghost predicate InBounds(fields: seq<Field>, slots: seq<Slot>)
    decreases fields, 2
  {
    |slots| == |fields| && (forall i :: 0 <= i < |fields| ==> SlotBounded(fields[i], slots[i])) && OneMember(fields, slots)
  }

  lemma BoundedShapes(fields: seq<Field>, slots: seq<Slot>)
    requires InBounds(fields, slots)
    ensures Shapes(fields, slots)
  {
    forall i | 0 <= i < |fields| ensures Shape(fields[i], slots[i]) {
      assert SlotBounded(fields[i], slots[i]);
    }
  }

  lemma {:induction false} DefaultBounded(k: Kind)
    ensures Bounded(k, Default(k))
    decreases k, 0
  {
    if k.MessageK? { DefaultsInBounds(k.fields); }
  }

  lemma {:induction false} DefaultsInBounds(fields: seq<Field>)
    ensures InBounds(fields, Defaults(fields))
    decreases fields, 2
  {
    forall i | 0 <= i < |fields| ensures SlotBounded(fields[i], Defaults(fields)[i]) {
      DefaultSlotBounded(fields[i]);
    }
  }

  lemma {:induction false} DefaultSlotBounded(f: Field)
    ensures SlotBounded(f, DefaultSlot(f))
    decreases f, 1
  {
    if f.rule.Required? || f.rule.Singular? { DefaultBounded(f.kind); }
  }

  // ----- decoding keeps to the bounds

  lemma NumberBounded(k: Kind, before: Value, input: Bytes)
    requires Packable(k)
    ensures var r := DecodeValue(k, before, input); r.Some? ==> Bounded(k, r.value.0)
  {
    hide ReadVarint32, ReadVarint, Signed, UnZigZag, UnFixed;
    FixedBound(input, 4);
    FixedBound(input, 8);
  }

  lemma FixedBound(input: Bytes, n: nat)
    ensures n == 4 && |input| >= 4 ==> UnFixed(input[..4]) < TWO32
    ensures n == 8 && |input| >= 8 ==> UnFixed(input[..8]) < TWO64
  {
    if n <= |input| { UnFixedBound(input[..n]); }
    assert Pow256(4) == TWO32 && Pow256(8) == TWO64 by {
      assert Pow256(2) == 0x1_0000 && Pow256(4) == 0x1_0000_0000 && Pow256(6) == 0x1_0000_0000_0000;
    }
  }

  lemma {:induction false} UnFixedBound(b: Bytes)
    ensures UnFixed(b) < Pow256(|b|)
    decreases b
  {
    if b != [] { UnFixedBound(b[1..]); }
  }

  lemma {:induction false} ValueBounded(k: Kind, before: Value, input: Bytes)
    requires Bounded(k, before)
    ensures var r := DecodeValue(k, before, input); r.Some? ==> Bounded(k, r.value.0)
    decreases |input|, 0
  {
    if Packable(k) {
      NumberBounded(k, before, input);
    } else {
      hide DecodeFields, ReadString;
      var b := ReadString(input);
      if k.MessageK? && b.Some? { FieldsBounded(k.fields, before.slots, {}, b.value.0); }
    }
  }

  lemma {:induction false} ItemsBounded(k: Kind, vs: seq<Value>, max: nat, input: Bytes)
    requires Packable(k) && |vs| <= max && forall i :: 0 <= i < |vs| ==> Bounded(k, vs[i])
    ensures var r := DecodePacked(k, vs, max, input);
            r.Some? ==> |r.value| <= max && forall i :: 0 <= i < |r.value| ==> Bounded(k, r.value[i])
    decreases |input|, 1
  {
    hide DecodeValue, Bounded;
    if input != [] && |vs| < max {
      NumberBounded(k, Default(k), input);
      var v := DecodeValue(k, Default(k), input);
      if v.Some? { ItemsBounded(k, vs + [v.value.0], max, v.value.1); }
    }
  }

  lemma Replaced(fields: seq<Field>, slots: seq<Slot>, i: nat, s: Slot)
    requires InBounds(fields, slots) && i < |fields| && SlotBounded(fields[i], s) && !fields[i].rule.OneOf?
    ensures InBounds(fields, slots[i := s])
  {
    hide SlotBounded;
  }

  lemma Selected(fields: seq<Field>, slots: seq<Slot>, i: nat, v: Value)
    requires InBounds(fields, slots) && Shapes(fields, slots) && i < |fields| && Shape(fields[i], Maybe(None))
        && Bounded(fields[i].kind, v)
    ensures InBounds(fields, Select(fields, slots, i, v))
  {
    hide Bounded;
  }

  lemma SlotOf(fields: seq<Field>, slots: seq<Slot>, i: nat)
    requires InBounds(fields, slots) && i < |fields|
    ensures SlotBounded(fields[i], slots[i])
  {
  }

  lemma {:induction false} RepeatedBounded(fields: seq<Field>, slots: seq<Slot>, i: nat, wireType: nat, input: Bytes)
    requires InBounds(fields, slots) && Shapes(fields, slots) && i < |fields| && fields[i].rule.Repeated?
    ensures var r := DecodeField(fields, slots, i, wireType, input); r.Some? ==> InBounds(fields, r.value.0)
    decreases |input|, 1
  {
    hide DecodeValue, DecodePacked, ReadString, Select, Bounded, Default, InBounds;
    var f, vs := fields[i], slots[i].vs;
    SlotOf(fields, slots, i);
    if wireType == WT_STRING && Packable(f.kind) {
      var b := ReadString(input);
      if b.Some? {
        ItemsBounded(f.kind, vs, f.rule.max, b.value.0);
        var all := DecodePacked(f.kind, vs, f.rule.max, b.value.0);
        if all.Some? { Replaced(fields, slots, i, Many(all.value)); }
      }
    } else if |vs| < f.rule.max {
      DefaultBounded(f.kind);
      ValueBounded(f.kind, Default(f.kind), input);
      var v := DecodeValue(f.kind, Default(f.kind), input);
      if v.Some? { Replaced(fields, slots, i, Many(vs + [v.value.0])); }
    }
  }

  lemma {:induction false} FieldBounded(fields: seq<Field>, slots: seq<Slot>, i: nat, wireType: nat, input: Bytes)
    requires InBounds(fields, slots) && Shapes(fields, slots) && i < |fields|
    ensures var r := DecodeField(fields, slots, i, wireType, input); r.Some? ==> InBounds(fields, r.value.0)
    decreases |input|, 2
  {
    hide DecodeValue, DecodePacked, ReadString, Select, Bounded, Default, InBounds;
    var f := fields[i];
    SlotOf(fields, slots, i);
    match slots[i]
    case One(before) =>
      ValueBounded(f.kind, before, input);
      var v := DecodeValue(f.kind, before, input);
      if v.Some? { Replaced(fields, slots, i, One(v.value.0)); }
    case Maybe(o) =>
      DefaultBounded(f.kind);
      var before := if o.Some? then o.value else Default(f.kind);
      ValueBounded(f.kind, before, input);
      var v := DecodeValue(f.kind, before, input);
      if v.Some? { Selected(fields, slots, i, v.value.0); }
    case Many(vs) => RepeatedBounded(fields, slots, i, wireType, input);
  }

  /** Decoding any bytes into a message within its descriptors, if it succeeds, gives one: no number outside its type,
    no text or array longer than its room, no two members of a oneof, at any depth. */
  lemma {:induction false} FieldsBounded(fields: seq<Field>, slots: seq<Slot>, seen: set<nat>, input: Bytes)
    requires InBounds(fields, slots)
    ensures Shapes(fields, slots)
    ensures var r := DecodeFields(fields, slots, seen, input); r.Some? ==> InBounds(fields, r.value)
    decreases |input|, 4
  {
    BoundedShapes(fields, slots);
    hide InBounds, Shapes, DecodeField, ReadVarint32, Find, Mark, Skip, SkipTerminator, AllSeen;
    var key := ReadVarint32(input);
    if input != [] && key.Some? && key.value.0 != 0 {
      var i := Find(fields, key.value.0 / 8);
      if i.Some? { FieldBounded(fields, slots, i.value, key.value.0 % 8, key.value.1); }
      var t := DecodeKey(fields, slots, seen, input);
      if t.Go? { FieldsBounded(fields, t.slots, t.seen, t.left); }
    }
  }

  lemma DecodedInBounds(fields: seq<Field>, input: Bytes)
    ensures var r := Decode(fields, input); r.Some? ==> InBounds(fields, r.value)
  {
    DefaultsInBounds(fields);
    FieldsBounded(fields, Defaults(fields), {}, input);
    hide InBounds;
  }
}
