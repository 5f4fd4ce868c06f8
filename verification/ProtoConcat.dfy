/** Decoding piece by piece: concatenated messages, fields the descriptors do not know, repeated occurrences. */
module ProtoConcat {
  import opened Options
  import opened Coding
  import opened ProtoFields
  import opened ProtoEncode
  import opened ProtoDecode
  import opened ProtoRequired
  import opened ProtoRoundTrip

  // ----- what is read does not depend on what follows

  lemma ReadVarintStays(a: Bytes, b: Bytes)
    ensures Stays(ReadVarint(a), ReadVarint(a + b), b)
  {
    hide GetVarint;
    GetVarintStays(a, b, 10);
    var v := GetVarint(a, 10);
    if v.Some? { assert (a + b)[v.value.1..] == a[v.value.1..] + b; }
  }

  lemma {:induction false} MoreVarint32Stays(a: Bytes, b: Bytes, bitpos: nat, result: nat)
    requires result < TWO32
    ensures Stays(MoreVarint32(a, bitpos, result), MoreVarint32(a + b, bitpos, result), b)
    decreases a
  {
    hide WithBits;
    if a != [] {
      assert (a + b)[1..] == a[1..] + b;
      MoreVarint32Stays(a[1..], b, (bitpos + 7) % 256, if bitpos >= 32 then result else WithBits(result, a[0] % 128, bitpos));
    }
  }

  lemma ReadVarint32Stays(a: Bytes, b: Bytes)
    ensures Stays(ReadVarint32(a), ReadVarint32(a + b), b)
  {
    hide MoreVarint32;
    if a != [] {
      assert (a + b)[1..] == a[1..] + b;
      if a[0] >= 128 { MoreVarint32Stays(a[1..], b, 7, a[0] - 128); }
    }
  }

  lemma ReadBytesStays(a: Bytes, b: Bytes, n: nat)
    ensures Stays(ReadBytes(a, n), ReadBytes(a + b, n), b)
  {
    if n <= |a| { assert (a + b)[..n] == a[..n] && (a + b)[n..] == a[n..] + b; }
  }

  lemma ReadStringStays(a: Bytes, b: Bytes)
    ensures Stays(ReadString(a), ReadString(a + b), b)
  {
    hide ReadVarint32, ReadBytes;
    ReadVarint32Stays(a, b);
    var n := ReadVarint32(a);
    if n.Some? { ReadBytesStays(n.value.1, b, n.value.0); }
  }

  lemma {:induction false} SkipVarintStays(a: Bytes, b: Bytes)
    ensures SkipVarint(a).Some? ==> SkipVarint(a + b) == Some(SkipVarint(a).value + b)
    decreases a
  {
    if a != [] {
      assert (a + b)[1..] == a[1..] + b;
      SkipVarintStays(a[1..], b);
    }
  }

  lemma SkipStays(wireType: nat, a: Bytes, b: Bytes)
    ensures Skip(wireType, a).Some? ==> Skip(wireType, a + b) == Some(Skip(wireType, a).value + b)
  {
    hide ReadString, ReadBytes, SkipVarint;
    SkipVarintStays(a, b);
    ReadBytesStays(a, b, 8);
    ReadBytesStays(a, b, 4);
    ReadStringStays(a, b);
  }

  lemma DecodeValueStays(k: Kind, before: Value, a: Bytes, b: Bytes)
    ensures Stays(DecodeValue(k, before, a), DecodeValue(k, before, a + b), b)
  {
    hide ReadVarint32, ReadVarint, ReadBytes, ReadString, Signed, UnZigZag, UnFixed, DecodeFields, Shapes, Limit;
    ReadVarint32Stays(a, b);
    ReadVarintStays(a, b);
    ReadBytesStays(a, b, 4);
    ReadBytesStays(a, b, 8);
    ReadStringStays(a, b);
  }

  lemma DecodeFieldStays(fields: seq<Field>, slots: seq<Slot>, i: nat, wireType: nat, a: Bytes, b: Bytes)
    requires Shapes(fields, slots) && i < |fields|
    ensures Stays(DecodeField(fields, slots, i, wireType, a), DecodeField(fields, slots, i, wireType, a + b), b)
  {
    hide DecodeValue, ReadString, DecodePacked, Select, Default;
    var f := fields[i];
    ReadStringStays(a, b);
    DecodeValueStays(f.kind, Default(f.kind), a, b);
    match slots[i]
    case One(v) => DecodeValueStays(f.kind, v, a, b);
    case Maybe(o) => if o.Some? { DecodeValueStays(f.kind, o.value, a, b); }
    case Many(vs) =>
  }

  lemma DecodeKeyStays(fields: seq<Field>, slots: seq<Slot>, seen: set<nat>, a: Bytes, b: Bytes)
    requires Shapes(fields, slots)
    ensures var t := DecodeKey(fields, slots, seen, a);
            t.Go? ==> DecodeKey(fields, slots, seen, a + b) == t.(left := t.left + b)
  {
    hide ReadVarint32, DecodeField, Skip, Find, Mark, Shapes;
    ReadVarint32Stays(a, b);
    var key := ReadVarint32(a);
    if key.Some? {
      var left := key.value.1;
      SkipStays(key.value.0 % 8, left, b);
      ReadVarint32Stays(left, b);
      var i := Find(fields, key.value.0 / 8);
      if i.Some? { DecodeFieldStays(fields, slots, i.value, key.value.0 % 8, left, b); }
    }
  }

  // ----- one message after the other

  /** The loop over keys to the very end of the input, without the check for required fields. */
  function Loop(fields: seq<Field>, slots: seq<Slot>, seen: set<nat>, input: Bytes): (r: Option<(seq<Slot>, set<nat>)>)
    requires Shapes(fields, slots)
    ensures r.Some? ==> Shapes(fields, r.value.0)
    decreases |input|
  {
    if input == [] then Some((slots, seen)) else
      var t := DecodeKey(fields, slots, seen, input);
      if t.Go? then Loop(fields, t.slots, t.seen, t.left) else None
  }

  lemma GoOn(fields: seq<Field>, slots: seq<Slot>, seen: set<nat>, input: Bytes)
    requires Shapes(fields, slots) && input != [] && DecodeKey(fields, slots, seen, input).Go?
    ensures var t := DecodeKey(fields, slots, seen, input);
            DecodeFields(fields, slots, seen, input) == DecodeFields(fields, t.slots, t.seen, t.left)
  {
    hide DecodeKey;
  }

  /** Decoding a sequence of whole fields and then anything is decoding the rest into what the first part gave: decoding
    concatenated messages merges them. */
  lemma {:induction false} Concatenated(fields: seq<Field>, slots: seq<Slot>, seen: set<nat>, a: Bytes, b: Bytes)
    requires Shapes(fields, slots)
    ensures var r := Loop(fields, slots, seen, a);
            r.Some? ==> DecodeFields(fields, slots, seen, a + b) == DecodeFields(fields, r.value.0, r.value.1, b)
    decreases |a|
  {
    hide DecodeKey, DecodeFields, Shapes;
    if a == [] {
      assert a + b == b;
    } else {
      var t := DecodeKey(fields, slots, seen, a);
      if t.Go? {
        DecodeKeyStays(fields, slots, seen, a, b);
        GoOn(fields, slots, seen, a + b);
        Concatenated(fields, t.slots, t.seen, t.left, b);
      }
    }
  }

  // ----- fields the descriptors do not know

  /** What may follow a key of each wire type. */
  ghost predicate PayloadOf(wireType: nat, p: Bytes) {
    || (wireType == WT_VARINT && exists v: nat :: v < TWO64 && p == Varint(v))
    || (wireType == WT_64BIT && |p| == 8)
    || (wireType == WT_STRING && exists b: Bytes :: |b| < TWO32 && p == Varint(|b|) + b)
    || (wireType == WT_32BIT && |p| == 4)
  }

  datatype Extra = Extra(tag: nat, wireType: nat, payload: Bytes)

  ghost predicate Unknown(fields: seq<Field>, x: Extra) {
    && 1 <= x.tag < 0x2000_0000 && PayloadOf(x.wireType, x.payload)
    && forall k :: 0 <= k < |fields| ==> fields[k].tag != x.tag
  }

  function ExtraBytes(x: Extra): Bytes { Varint(x.tag * 8 + x.wireType) + x.payload }

  lemma {:induction false} SkipVarintBack(v: nat, rest: Bytes)
    ensures SkipVarint(Varint(v) + rest) == Some(rest)
    decreases v
  {
    var input := Varint(v) + rest;
    if v < 128 {
      assert input[1..] == rest;
    } else {
      assert input[1..] == Varint(v / 128) + rest;
      SkipVarintBack(v / 128, rest);
    }
  }

  /** Exactly the payload is skipped, whatever comes behind it. */
  lemma SkipBack(wireType: nat, p: Bytes, rest: Bytes)
    requires PayloadOf(wireType, p)
    ensures Skip(wireType, p + rest) == Some(rest)
  {
    hide ReadString, SkipVarint, Varint;
    if wireType == WT_VARINT {
      var v: nat :| v < TWO64 && p == Varint(v);
      SkipVarintBack(v, rest);
    } else if wireType == WT_STRING {
      var b: Bytes :| |b| < TWO32 && p == Varint(|b|) + b;
      StringBack(b, rest);
    } else {
      assert (p + rest)[|p|..] == rest;
    }
  }

  lemma SkipUnknown(fields: seq<Field>, slots: seq<Slot>, seen: set<nat>, x: Extra, rest: Bytes)
    requires Shapes(fields, slots) && Unknown(fields, x)
    ensures DecodeFields(fields, slots, seen, ExtraBytes(x) + rest) == DecodeFields(fields, slots, seen, rest)
  {
    hide ReadVarint32, Skip, Varint, Shapes, Find, PayloadOf, DecodeField;
    WireTypeBound(x.wireType, x.payload);
    var key := x.tag * 8 + x.wireType;
    Varint32Back(key, x.payload + rest);
    Assoc(Varint(key), x.payload, rest);
    SkipBack(x.wireType, x.payload, rest);
    assert Find(fields, key / 8).None?;
    KeyThere(key, x.payload + rest);
    assert DecodeKey(fields, slots, seen, ExtraBytes(x) + rest) == Go(slots, seen, rest);
    hide DecodeKey;
    GoOn(fields, slots, seen, ExtraBytes(x) + rest);
  }

  lemma KeyThere(key: nat, rest: Bytes)
    ensures Varint(key) + rest != []
  {
  }

  lemma WireTypeBound(wireType: nat, p: Bytes)
    requires PayloadOf(wireType, p)
    ensures wireType < 8
  {
  }

  /** Fields with unknown tags change nothing, wherever between whole fields they stand. */
  lemma UnknownIgnored(fields: seq<Field>, slots: seq<Slot>, seen: set<nat>, a: Bytes, x: Extra, b: Bytes)
    requires Shapes(fields, slots) && Unknown(fields, x) && Loop(fields, slots, seen, a).Some?
    ensures DecodeFields(fields, slots, seen, a + ExtraBytes(x) + b) == DecodeFields(fields, slots, seen, a + b)
  {
    var r := Loop(fields, slots, seen, a);
    Assoc(a, ExtraBytes(x), b);
    Concatenated(fields, slots, seen, a, ExtraBytes(x) + b);
    Concatenated(fields, slots, seen, a, b);
    SkipUnknown(fields, r.value.0, r.value.1, x, b);
  }

  // ----- an encoded message with unknown fields

  function Extras(xs: seq<Extra>): Bytes {
    if xs == [] then [] else Extras(xs[..|xs| - 1]) + ExtraBytes(xs[|xs| - 1])
  }

  ghost predicate AllUnknown(fields: seq<Field>, xs: seq<Extra>) { forall x :: x in xs ==> Unknown(fields, x) }

  lemma {:induction false} SkipAll(fields: seq<Field>, slots: seq<Slot>, seen: set<nat>, xs: seq<Extra>, rest: Bytes)
    requires Shapes(fields, slots) && AllUnknown(fields, xs)
    ensures DecodeFields(fields, slots, seen, Extras(xs) + rest) == DecodeFields(fields, slots, seen, rest)
    decreases xs
  {
    hide DecodeFields, Shapes, Unknown, ExtraBytes;
    if xs == [] {
      assert Extras(xs) + rest == rest;
    } else {
      var init, x := xs[..|xs| - 1], xs[|xs| - 1];
      Assoc(Extras(init), ExtraBytes(x), rest);
      SkipAll(fields, slots, seen, init, ExtraBytes(x) + rest);
      SkipUnknown(fields, slots, seen, x, rest);
    }
  }

  /** The first n fields as the encoder writes them, with unknown ones before each. */
  ghost function MixedTo(fields: seq<Field>, slots: seq<Slot>, xs: seq<seq<Extra>>, n: nat): Bytes
    requires WellFormed(fields, slots) && |xs| == |fields| + 1 && n <= |fields|
  {
    if n == 0 then [] else MixedTo(fields, slots, xs, n - 1) + Extras(xs[n - 1]) + FieldBytes(fields[n - 1], slots[n - 1])
  }

  ghost function Mixed(fields: seq<Field>, slots: seq<Slot>, xs: seq<seq<Extra>>): Bytes
    requires WellFormed(fields, slots) && |xs| == |fields| + 1
  {
    MixedTo(fields, slots, xs, |fields|) + Extras(xs[|fields|])
  }

  lemma {:induction false} MixedFieldsBack(fields: seq<Field>, slots: seq<Slot>, xs: seq<seq<Extra>>, n: nat, rest: Bytes)
    requires WellFormed(fields, slots) && SmallMessage(fields, slots) && FieldsOk(fields) && n <= |fields|
    requires |xs| == |fields| + 1 && forall i :: 0 <= i < |xs| ==> AllUnknown(fields, xs[i])
    ensures Shapes(fields, Upto(fields, slots, 0)) && Shapes(fields, Upto(fields, slots, n))
    ensures DecodeFields(fields, Upto(fields, slots, 0), Seen(fields, 0), MixedTo(fields, slots, xs, n) + rest)
      == DecodeFields(fields, Upto(fields, slots, n), Seen(fields, n), rest)
    decreases n
  {
    hide Upto, Shapes, Seen, DecodeFields, FieldBytes, SmallMessage, FieldsOk, SlotFits, Extras;
    UptoShapes(fields, slots, 0);
    UptoShapes(fields, slots, n);
    if n == 0 {
      assert MixedTo(fields, slots, xs, n) + rest == rest;
    } else {
      UptoShapes(fields, slots, n - 1);
      var init, x, f := MixedTo(fields, slots, xs, n - 1), Extras(xs[n - 1]), FieldBytes(fields[n - 1], slots[n - 1]);
      assert init + x + f + rest == init + (x + (f + rest));
      MixedFieldsBack(fields, slots, xs, n - 1, x + (f + rest));
      SkipAll(fields, Upto(fields, slots, n - 1), Seen(fields, n - 1), xs[n - 1], f + rest);
      FieldBack(fields, slots, n - 1, rest);
    }
  }

  /** A reader that knows fewer fields than the writer: the message decodes as if the unknown ones were not there. */
  lemma DecodeMixed(fields: seq<Field>, slots: seq<Slot>, xs: seq<seq<Extra>>)
    requires WellFormed(fields, slots) && SmallMessage(fields, slots) && FieldsOk(fields)
    requires |xs| == |fields| + 1 && forall i :: 0 <= i < |xs| ==> AllUnknown(fields, xs[i])
    ensures Decode(fields, Mixed(fields, slots, xs)) == Some(slots)
  {
    var n := |fields|;
    hide WellFormed, SmallMessage, FieldsOk, Shapes, Defaults, DecodeFields, Upto, Seen, MixedTo, Extras;
    UptoEnds(fields, slots);
    MixedFieldsBack(fields, slots, xs, n, Extras(xs[n]));
    NoMoreFields(fields, slots);
    assert Extras(xs[n]) + [] == Extras(xs[n]);
    SkipAll(fields, slots, Seen(fields, n), xs[n], []);
    DefaultShapes(fields);
  }

  /** A zero ends the message, whatever comes behind it. */
  lemma ZeroEnds(fields: seq<Field>, slots: seq<Slot>, seen: set<nat>, a: Bytes, b: Bytes)
    requires Shapes(fields, slots) && Loop(fields, slots, seen, a).Some?
    ensures DecodeFields(fields, slots, seen, a + ([0] + b)) == DecodeFields(fields, slots, seen, a)
  {
    var r := Loop(fields, slots, seen, a).value;
    Concatenated(fields, slots, seen, a, [0] + b);
    Concatenated(fields, slots, seen, a, []);
    assert a + [] == a;
    hide Shapes, Loop, DecodeField;
    assert ReadVarint32([0] + b) == Some((0, ([0] + b)[1..]));
    assert DecodeKey(fields, r.0, r.1, [0] + b) == End;
  }

  // ----- a message that was cut short

  /** A field of which the end is missing. */
  lemma TornKey(fields: seq<Field>, slots: seq<Slot>, seen: set<nat>, w: Bytes, k: nat)
    requires Shapes(fields, slots) && 0 < k < |w|
    requires var t := DecodeKey(fields, slots, seen, w); t.Go? && t.left == []
    ensures DecodeFields(fields, slots, seen, w[..k]) == None
  {
    var a, b := w[..k], w[k..];
    assert a + b == w;
    DecodeKeyStays(fields, slots, seen, a, b);
    ReadVarint32Stays(a, b);
    hide Shapes, ReadVarint32, Find, Skip, DecodeField, Mark, SkipTerminator;
  }

  /** Whole fields and then one that is cut are refused. */
  lemma TornField(fields: seq<Field>, slots: seq<Slot>, seen: set<nat>, a: Bytes, w: Bytes, k: nat)
    requires Shapes(fields, slots) && Loop(fields, slots, seen, a).Some? && 0 < k < |w|
    requires var r := Loop(fields, slots, seen, a);
             var t := DecodeKey(fields, r.value.0, r.value.1, w); t.Go? && t.left == []
    ensures DecodeFields(fields, slots, seen, a + w[..k]) == None
  {
    hide DecodeFields, DecodeKey, Loop;
    var r := Loop(fields, slots, seen, a);
    Concatenated(fields, slots, seen, a, w[..k]);
    TornKey(fields, r.value.0, r.value.1, w, k);
  }

  lemma KeyIs(fields: seq<Field>, slots: seq<Slot>, seen: set<nat>, i: nat, wireType: nat, rest: Bytes)
    requires FieldsOk(fields) && Shapes(fields, slots) && i < |fields| && wireType < 8
    ensures DecodeKey(fields, slots, seen, Tag(fields[i], wireType) + rest)
      == var d := DecodeField(fields, slots, i, wireType, rest);
         if d.None? then Bad else Go(d.value.0, Mark(fields, i, seen), d.value.1)
  {
    hide ReadVarint32, DecodeField, Find, Varint, Mark, Shapes, Skip, SkipTerminator;
    var key := fields[i].tag * 8 + wireType;
    Varint32Back(key, rest);
    FindUnique(fields, i);
  }

  /** In particular a value that is cut. */
  lemma TornValue(fields: seq<Field>, slots: seq<Slot>, seen: set<nat>, a: Bytes, i: nat, v: Value, k: nat)
    requires FieldsOk(fields) && Shapes(fields, slots) && Loop(fields, slots, seen, a).Some? && i < |fields|
    requires !fields[i].rule.Repeated? && !fields[i].kind.MessageK? && Fits(fields[i].kind, v) && Small(fields[i].kind, v)
    requires 0 < k < |Tagged(fields[i], v)|
    ensures DecodeFields(fields, slots, seen, a + Tagged(fields[i], v)[..k]) == None
  {
    var r := Loop(fields, slots, seen, a).value;
    var f, s := fields[i], r.0[i];
    var before := if s.One? then s.v else if s.o.Some? then s.o.value else Default(f.kind);
    ValueBack(f.kind, v, []);
    BeforeIgnored(f.kind, Default(f.kind), before, Payload(f.kind, v) + []);
    assert Payload(f.kind, v) + [] == Payload(f.kind, v);
    hide FieldsOk, DecodeFields, DecodeValue, Payload, Default, Tag, Fits, Small, Mark, Loop;
    KeyIs(fields, r.0, r.1, i, WireType(f.kind), Payload(f.kind, v));
    hide DecodeKey;
    TornField(fields, slots, seen, a, Tagged(f, v), k);
  }

  // ----- the same field again

  /** Only a submessage is merged into what was there. */
  lemma BeforeIgnored(k: Kind, v: Value, w: Value, input: Bytes)
    requires !k.MessageK?
    ensures DecodeValue(k, v, input) == DecodeValue(k, w, input)
  {
    hide ReadVarint32, ReadVarint, ReadBytes, ReadString, Signed, UnZigZag, UnFixed, Limit;
  }

  lemma SingleBack(fields: seq<Field>, slots: seq<Slot>, seen: set<nat>, i: nat, v: Value, rest: Bytes)
    requires FieldsOk(fields) && Shapes(fields, slots) && i < |fields| && !fields[i].rule.Repeated?
    requires !fields[i].kind.MessageK? && Fits(fields[i].kind, v) && Small(fields[i].kind, v)
    ensures DecodeFields(fields, slots, seen, Tagged(fields[i], v) + rest)
      == DecodeFields(fields, Put(fields, slots, i, v), Mark(fields, i, seen), rest)
  {
    var f := fields[i];
    var before := if slots[i].One? then slots[i].v else if slots[i].o.Some? then slots[i].o.value else Default(f.kind);
    ValueBack(f.kind, v, rest);
    BeforeIgnored(f.kind, Default(f.kind), before, Payload(f.kind, v) + rest);
    hide FieldsOk, DecodeFields, DecodeValue, Payload, Default, Tag, Fits, Small, Mark;
    Assoc(Tag(f, WireType(f.kind)), Payload(f.kind, v), rest);
    Step(fields, slots, seen, i, WireType(f.kind), Payload(f.kind, v) + rest);
  }

  lemma PutAgain(fields: seq<Field>, slots: seq<Slot>, i: nat, v: Value, w: Value)
    requires Shapes(fields, slots) && i < |fields| && !fields[i].rule.Repeated?
    ensures Put(fields, Put(fields, slots, i, v), i, w) == Put(fields, slots, i, w)
  {
  }

  lemma MarkAgain(fields: seq<Field>, i: nat, seen: set<nat>)
    requires i < |fields|
    ensures Mark(fields, i, Mark(fields, i, seen)) == Mark(fields, i, seen)
  {
  }

  /** Of two occurrences of a field that is not repeated the last one counts, whatever was there before. */
  lemma LastValueWins(fields: seq<Field>, slots: seq<Slot>, seen: set<nat>, i: nat, v: Value, w: Value, rest: Bytes)
    requires FieldsOk(fields) && Shapes(fields, slots) && i < |fields| && !fields[i].rule.Repeated?
    requires !fields[i].kind.MessageK? && Fits(fields[i].kind, v) && Small(fields[i].kind, v)
    requires Fits(fields[i].kind, w) && Small(fields[i].kind, w)
    ensures DecodeFields(fields, slots, seen, Tagged(fields[i], v) + (Tagged(fields[i], w) + rest))
      == DecodeFields(fields, slots, seen, Tagged(fields[i], w) + rest)
  {
    SingleBack(fields, slots, seen, i, v, Tagged(fields[i], w) + rest);
    SingleBack(fields, Put(fields, slots, i, v), Mark(fields, i, seen), i, w, rest);
    SingleBack(fields, slots, seen, i, w, rest);
    PutAgain(fields, slots, i, v, w);
    MarkAgain(fields, i, seen);
    hide *;
  }

  // ----- arrays of numbers, packed or not

  lemma OneItem(fields: seq<Field>, slots: seq<Slot>, seen: set<nat>, i: nat, v: Value, rest: Bytes)
    requires FieldsOk(fields) && Shapes(fields, slots) && i < |fields| && slots[i].Many? && Packable(fields[i].kind)
    requires Fits(fields[i].kind, v)
    ensures |slots[i].vs| < fields[i].rule.max ==>
              && Shapes(fields, slots[i := Many(slots[i].vs + [v])])
              && DecodeFields(fields, slots, seen, Tagged(fields[i], v) + rest)
                 == DecodeFields(fields, slots[i := Many(slots[i].vs + [v])], seen, rest)
    ensures |slots[i].vs| >= fields[i].rule.max ==>
              DecodeFields(fields, slots, seen, Tagged(fields[i], v) + rest) == None
  {
    var f := fields[i];
    PackableBack(f.kind, v, rest);
    hide FieldsOk, DecodeFields, DecodeValue, Payload, Default, Tag, Fits;
    Assoc(Tag(f, WireType(f.kind)), Payload(f.kind, v), rest);
    Step(fields, slots, seen, i, WireType(f.kind), Payload(f.kind, v) + rest);
  }

  ghost predicate ArrayField(fields: seq<Field>, slots: seq<Slot>, i: nat, vs: seq<Value>) {
    && FieldsOk(fields) && Shapes(fields, slots) && i < |fields| && slots[i].Many? && Packable(fields[i].kind)
    && AllFit(fields[i].kind, vs)
  }

  /** What an array that has room for so many more items becomes. */
  function WithItems(slots: seq<Slot>, i: nat, vs: seq<Value>): seq<Slot>
    requires i < |slots| && slots[i].Many?
  {
    slots[i := Many(slots[i].vs + vs)]
  }

  lemma {:induction false} ItemsAppended(fields: seq<Field>, slots: seq<Slot>, seen: set<nat>, i: nat, vs: seq<Value>,
      rest: Bytes)
    requires ArrayField(fields, slots, i, vs) && |slots[i].vs| + |vs| <= fields[i].rule.max
    ensures Shapes(fields, WithItems(slots, i, vs))
    ensures DecodeFields(fields, slots, seen, Items(fields[i], vs) + rest)
      == DecodeFields(fields, WithItems(slots, i, vs), seen, rest)
    decreases |vs|
  {
    hide DecodeFields, Tagged, FieldsOk, Fits;
    var f := fields[i];
    if vs == [] {
      assert slots[i].vs + vs == slots[i].vs && slots[i := slots[i]] == slots;
      assert [] + rest == rest && Items(f, vs) == [];
    } else {
      var init, last := vs[..|vs| - 1], vs[|vs| - 1];
      ItemsAppended(fields, slots, seen, i, init, Tagged(f, last) + rest);
      Assoc(Items(f, init), Tagged(f, last), rest);
      OneItem(fields, WithItems(slots, i, init), seen, i, last, rest);
      assert WithItems(WithItems(slots, i, init), i, [last]) == WithItems(slots, i, vs) by {
        assert slots[i].vs + init + [last] == slots[i].vs + vs;
      }
    }
  }

  lemma PackedAppended(fields: seq<Field>, slots: seq<Slot>, seen: set<nat>, i: nat, vs: seq<Value>, rest: Bytes)
    requires ArrayField(fields, slots, i, vs) && |slots[i].vs| + |vs| <= fields[i].rule.max
    requires |Payloads(fields[i].kind, vs)| < TWO32
    ensures Shapes(fields, WithItems(slots, i, vs))
    ensures DecodeFields(fields, slots, seen, Packed(fields[i], vs) + rest)
      == DecodeFields(fields, WithItems(slots, i, vs), seen, rest)
  {
    hide DecodeFields, DecodePacked, DecodeValue, ReadString, Payloads, Varint, FieldsOk, Fits;
    var f := fields[i];
    var p := Payloads(f.kind, vs);
    var tail := Varint(|p|) + p + rest;
    assert Packed(f, vs) + rest == Tag(f, WT_STRING) + tail;
    Step(fields, slots, seen, i, WT_STRING, tail);
    StringBack(p, rest);
    PackedBack(f.kind, slots[i].vs, vs, f.rule.max, []);
    assert p + [] == p;
    PackedEnd(f.kind, slots[i].vs + vs, f.rule.max);
    ManyUnmarked(fields, slots, i, seen);
  }

  lemma ManyUnmarked(fields: seq<Field>, slots: seq<Slot>, i: nat, seen: set<nat>)
    requires Shapes(fields, slots) && i < |fields| && slots[i].Many?
    ensures Mark(fields, i, seen) == seen && fields[i].rule.Repeated?
  {
  }

  /** An array of numbers may come packed, item by item, or in any mixture: both append the same items. */
  lemma PackedOrNot(fields: seq<Field>, slots: seq<Slot>, seen: set<nat>, i: nat, vs: seq<Value>, ws: seq<Value>,
      rest: Bytes)
    requires ArrayField(fields, slots, i, vs + ws) && AllFit(fields[i].kind, vs) && AllFit(fields[i].kind, ws)
    requires |slots[i].vs| + |vs| + |ws| <= fields[i].rule.max
    requires |Payloads(fields[i].kind, vs + ws)| < TWO32 && |Payloads(fields[i].kind, vs)| < TWO32
    ensures DecodeFields(fields, slots, seen, Packed(fields[i], vs + ws) + rest)
      == DecodeFields(fields, slots, seen, Items(fields[i], vs + ws) + rest)
      == DecodeFields(fields, slots, seen, Packed(fields[i], vs) + (Items(fields[i], ws) + rest))
  {
    hide DecodeFields, Packed, Items, FieldsOk, Fits, Payloads;
    PackedAppended(fields, slots, seen, i, vs + ws, rest);
    ItemsAppended(fields, slots, seen, i, vs + ws, rest);
    PackedAppended(fields, slots, seen, i, vs, Items(fields[i], ws) + rest);
    ItemsAppended(fields, WithItems(slots, i, vs), seen, i, ws, rest);
    assert WithItems(WithItems(slots, i, vs), i, ws) == WithItems(slots, i, vs + ws) by {
      assert slots[i].vs + vs + ws == slots[i].vs + (vs + ws);
    }
  }

  /** More items than the array has room for are an error, packed or not. */
  lemma {:induction false} PackedOverflow(k: Kind, before: seq<Value>, vs: seq<Value>, max: nat, rest: Bytes)
    requires AllFit(k, vs) && Packable(k) && |before| <= max < |before| + |vs|
    ensures DecodePacked(k, before, max, Payloads(k, vs) + rest) == None
    decreases |vs|
  {
    hide Payload, DecodeValue;
    var n := max - |before|;
    var fit, next := vs[..n], vs[n];
    PayloadsSplit(k, vs, n);
    PayloadNotEmpty(k, next);
    assert Payloads(k, vs) + rest == Payloads(k, fit) + (Payload(k, next) + (Payloads(k, vs[n + 1..]) + rest));
    PackedBack(k, before, fit, max, Payload(k, next) + (Payloads(k, vs[n + 1..]) + rest));
  }

  lemma {:induction false} PayloadsSplit(k: Kind, vs: seq<Value>, n: nat)
    requires AllFit(k, vs) && n < |vs|
    ensures Payloads(k, vs) == Payloads(k, vs[..n]) + (Payload(k, vs[n]) + Payloads(k, vs[n + 1..]))
    decreases |vs|
  {
    hide Payload, Fits;
    var m := |vs| - 1;
    if n < m {
      PayloadsSplit(k, vs[..m], n);
      assert vs[..m][..n] == vs[..n] && vs[..m][n + 1..] == vs[n + 1..][..m - n - 1] && vs[n + 1..][m - n - 1] == vs[m];
    } else {
      assert vs[n + 1..] == [];
    }
  }

  // ----- submessages

  function Delimited(f: Field, p: Bytes): Bytes { Tag(f, WT_STRING) + (Varint(|p|) + p) }

  /** The submessage that a field holds now, or the one it starts from. */
  function Current(f: Field, s: Slot): Value {
    match s
    case One(v) => v
    case Maybe(o) => if o.Some? then o.value else Default(f.kind)
    case Many(_) => Default(f.kind)
  }

  ghost predicate MessageField(fields: seq<Field>, slots: seq<Slot>, i: nat) {
    && FieldsOk(fields) && Shapes(fields, slots) && i < |fields| && !fields[i].rule.Repeated?
    && fields[i].kind.MessageK? && Current(fields[i], slots[i]).Message?
    && Shapes(fields[i].kind.fields, Current(fields[i], slots[i]).slots)
  }

  lemma DelimitedBack(fields: seq<Field>, slots: seq<Slot>, seen: set<nat>, i: nat, p: Bytes, rest: Bytes)
    requires MessageField(fields, slots, i) && |p| < TWO32
    ensures var m := DecodeFields(fields[i].kind.fields, Current(fields[i], slots[i]).slots, {}, p);
            DecodeFields(fields, slots, seen, Delimited(fields[i], p) + rest) ==
              if m.None? then None
              else DecodeFields(fields, Put(fields, slots, i, Message(m.value)), Mark(fields, i, seen), rest)
  {
    hide FieldsOk, Default, Tag, ReadString, Varint, Mark;
    var f := fields[i];
    StringBack(p, rest);
    assert Delimited(f, p) + rest == Tag(f, WT_STRING) + (Varint(|p|) + p + rest);
    Step(fields, slots, seen, i, WT_STRING, Varint(|p|) + p + rest);
    hide DecodeFields;
  }

  /** More fields seen can only help. */
  lemma MoreSeen(fields: seq<Field>, slots: seq<Slot>, seen: set<nat>, input: Bytes)
    requires Shapes(fields, slots) && DecodeFields(fields, slots, {}, input).Some?
    ensures DecodeFields(fields, slots, seen, input) == DecodeFields(fields, slots, {}, input)
  {
    RequiredExactly(fields, slots, {}, input);
    RequiredExactly(fields, slots, seen, input);
    hide DecodeFields, Run, Checked;
  }

  lemma LoopEnds(fields: seq<Field>, slots: seq<Slot>, p: Bytes)
    requires Shapes(fields, slots) && Loop(fields, slots, {}, p).Some? && DecodeFields(fields, slots, {}, p).Some?
    ensures DecodeFields(fields, slots, {}, p) == Some(Loop(fields, slots, {}, p).value.0)
  {
    var r := Loop(fields, slots, {}, p).value;
    Concatenated(fields, slots, {}, p, []);
    assert p + [] == p;
    hide Loop, DecodeKey;
  }

  /** Two occurrences of a submessage are one occurrence of their contents joined. */
  lemma SubmessagesMerge(fields: seq<Field>, slots: seq<Slot>, seen: set<nat>, i: nat, p: Bytes, q: Bytes, rest: Bytes)
    requires MessageField(fields, slots, i) && |p| + |q| < TWO32
    requires var sub, before := fields[i].kind.fields, Current(fields[i], slots[i]).slots;
             && Loop(sub, before, {}, p).Some? && DecodeFields(sub, before, {}, p).Some?
             && DecodeFields(sub, Loop(sub, before, {}, p).value.0, {}, q).Some?
    ensures DecodeFields(fields, slots, seen, Delimited(fields[i], p) + (Delimited(fields[i], q) + rest))
      == DecodeFields(fields, slots, seen, Delimited(fields[i], p + q) + rest)
  {
    var f, sub, before := fields[i], fields[i].kind.fields, Current(fields[i], slots[i]).slots;
    var mid := Loop(sub, before, {}, p).value;
    LoopEnds(sub, before, p);
    Concatenated(sub, before, {}, p, q);
    MoreSeen(sub, mid.0, mid.1, q);
    DelimitedBack(fields, slots, seen, i, p, Delimited(f, q) + rest);
    DelimitedBack(fields, slots, seen, i, p + q, rest);
    var next := Put(fields, slots, i, Message(mid.0));
    CurrentPut(fields, slots, i, mid.0);
    DelimitedBack(fields, next, Mark(fields, i, seen), i, q, rest);
    var m := DecodeFields(sub, mid.0, {}, q);
    PutAgain(fields, slots, i, Message(mid.0), Message(m.value));
    MarkAgain(fields, i, seen);
    hide *;
  }

  lemma CurrentPut(fields: seq<Field>, slots: seq<Slot>, i: nat, m: seq<Slot>)
    requires MessageField(fields, slots, i) && Shapes(fields[i].kind.fields, m)
    ensures var next := Put(fields, slots, i, Message(m));
            MessageField(fields, next, i) && Current(fields[i], next[i]) == Message(m)
  {
    hide FieldsOk;
  }
}
