/** Decoding undoes encoding. */
module ProtoRoundTrip {
  import opened Options
  import opened Coding
  import opened ProtoFields
  import opened ProtoEncode
  import opened ProtoDecode

  // ----- varints

  /** Two to the 7 * j. */
  function Unit(j: nat): nat {
    if j == 1 then 0x80 else if j == 2 then 0x4000 else if j == 3 then 0x20_0000 else 0x1000_0000
  }

  lemma ShiftUnit(n: nat, j: nat)
    requires 1 <= j <= 4
    ensures Shifted(n, 7 * j) == n * Unit(j)
  {
    hide Shifted;
    assert Shifted(n, 0) == n by { ShiftedZero(n); }
    ShiftedMore(n, 0);
    ShiftedMore(n, 7);
    ShiftedMore(n, 14);
    ShiftedMore(n, 21);
  }

  lemma ShiftedZero(n: nat)
    ensures Shifted(n, 0) == n
  {
  }

  /** One byte that is not the last. */
  lemma MoreStep(b: Byte, input: Bytes, bitpos: nat, low: nat)
    requires b >= 128 && bitpos < 32 && low < TWO32
    ensures MoreVarint32([b] + input, bitpos, low) == MoreVarint32(input, bitpos + 7, WithBits(low, b % 128, bitpos))
  {
    hide WithBits;
    assert ([b] + input)[1..] == input;
  }

  /** The last byte. */
  lemma MoreEnd(u: nat, rest: Bytes, j: nat, low: nat)
    requires 1 <= j <= 4 && u < 128 && low < Unit(j) && u * Unit(j) + low < TWO32
    ensures MoreVarint32([u] + rest, 7 * j, low) == Some((u * Unit(j) + low, rest))
  {
    hide WithBits;
    WithUnit(low, u, j);
    assert ([u] + rest)[1..] == rest;
    if j == 4 {
      assert u < 16;
    }
  }

  lemma {:induction false} MoreRoundTrip(u: nat, j: nat, low: nat, rest: Bytes)
    requires 1 <= j <= 4 && low < Unit(j) && u * Unit(j) + low < TWO32
    ensures MoreVarint32(Varint(u) + rest, 7 * j, low) == Some((u * Unit(j) + low, rest))
    decreases u
  {
    hide MoreVarint32, WithBits;
    if u < 128 {
      MoreEnd(u, rest, j, low);
    } else {
      var b := 128 + u % 128;
      assert j < 4;
      assert Varint(u) + rest == [b] + (Varint(u / 128) + rest);
      UnitStep(u, j, low);
      MoreStep(b, Varint(u / 128) + rest, 7 * j, low);
      WithUnit(low, u % 128, j);
      MoreRoundTrip(u / 128, j + 1, low + u % 128 * Unit(j), rest);
    }
  }

  lemma WithUnit(low: nat, bits: nat, j: nat)
    requires 1 <= j <= 4 && bits < 128 && low + bits * Unit(j) < TWO32
    ensures WithBits(low, bits, 7 * j) == low + bits * Unit(j)
  {
    hide Shifted, Unit;
    ShiftUnit(bits, j);
  }

  lemma UnitStep(u: nat, j: nat, low: nat)
    requires 1 <= j <= 3 && low < Unit(j)
    ensures low + u % 128 * Unit(j) < Unit(j + 1)
    ensures u / 128 * Unit(j + 1) + (low + u % 128 * Unit(j)) == u * Unit(j) + low
  {
    assert u == u / 128 * 128 + u % 128;
    if j == 1 {
    } else if j == 2 {
    } else {
    }
  }

  lemma Varint32Back(v: nat, rest: Bytes)
    requires v < TWO32
    ensures ReadVarint32(Varint(v) + rest) == Some((v, rest))
  {
    hide MoreVarint32;
    var input := Varint(v) + rest;
    if v < 128 {
      assert input[1..] == rest;
    } else {
      assert input[1..] == Varint(v / 128) + rest;
      MoreRoundTrip(v / 128, 1, v % 128, rest);
    }
  }

  /** The bits past the 32nd are not zero. */
  lemma {:induction false} MoreOverflow(u: nat, j: nat, low: nat, rest: Bytes)
    requires 1 <= j <= 4 && low < Unit(j) && TWO32 <= u * Unit(j) + low < 0x8_0000_0000
    ensures MoreVarint32(Varint(u) + rest, 7 * j, low) == None
    decreases u
  {
    hide WithBits, MoreVarint32;
    if u < 128 {
      assert j == 4 && 16 <= u;
      TooHigh(u, rest, low);
    } else {
      assert j < 4;
      var b := 128 + u % 128;
      assert Varint(u) + rest == [b] + (Varint(u / 128) + rest);
      UnitStep(u, j, low);
      MoreStep(b, Varint(u / 128) + rest, 7 * j, low);
      SmallBits(u % 128, j, low);
      WithUnit(low, u % 128, j);
      MoreOverflow(u / 128, j + 1, low + u % 128 * Unit(j), rest);
    }
  }

  lemma SmallBits(bits: nat, j: nat, low: nat)
    requires 1 <= j <= 3 && bits < 128 && low < Unit(j)
    ensures low + bits * Unit(j) < TWO32 && low < TWO32
  {
  }

  lemma TooHigh(u: nat, rest: Bytes, low: nat)
    requires 16 <= u < 128 && low < TWO32
    ensures MoreVarint32(Varint(u) + rest, 28, low) == None
  {
    hide WithBits;
    assert Varint(u) + rest == [u] + rest;
    assert u / 16 % 8 != 0;
  }

  /** A number that needs a few more than 32 bits is refused. */
  lemma WideVarint32(v: nat, rest: Bytes)
    requires TWO32 <= v < 0x8_0000_0000
    ensures ReadVarint32(Varint(v) + rest) == None
  {
    hide MoreVarint32;
    var input := Varint(v) + rest;
    assert input[1..] == Varint(v / 128) + rest;
    MoreOverflow(v / 128, 1, v % 128, rest);
  }

  lemma VarintBack(v: nat, rest: Bytes)
    requires v < TWO64
    ensures ReadVarint(Varint(v) + rest) == Some((v, rest))
  {
    Varint64RoundTrip(v, rest);
  }

  lemma StringBack(b: Bytes, rest: Bytes)
    requires |b| < TWO32
    ensures ReadString(Varint(|b|) + b + rest) == Some((b, rest))
  {
    hide ReadVarint32, Varint;
    Varint32Back(|b|, b + rest);
    assert Varint(|b|) + b + rest == Varint(|b|) + (b + rest);
  }

  // ----- defaults

  /** What a field without has_ flag leaves out is what the decoder starts with. */
  lemma {:induction false} ZeroIsDefault(k: Kind, v: Value)
    requires Fits(k, v) && IsZero(k, v)
    ensures v == Default(k)
    decreases k, 0
  {
    if v.Message? {
      forall i | 0 <= i < |v.slots| ensures v.slots[i] == DefaultSlot(k.fields[i]) {
        ZeroSlotIsDefault(k.fields[i], v.slots[i]);
      }
      assert v.slots == Defaults(k.fields);
    }
  }

  lemma {:induction false} ZeroSlotIsDefault(f: Field, s: Slot)
    requires SlotFits(f, s) && ZeroSlot(f, s)
    ensures s == DefaultSlot(f)
    decreases f, 1
  {
    if s.One? {
      ZeroIsDefault(f.kind, s.v);
    }
  }

  // ----- what is left out

  /** No required field and no bytes of fixed length where a field without has_ flag holds them, at any depth. */
  predicate Silent(k: Kind)
    decreases k, 0
  {
    match k
    case FixedBytesK(n) => n == 0
    case MessageK(fields) => forall i :: 0 <= i < |fields| ==> SilentField(fields[i])
    case _ => true
  }

  predicate SilentField(f: Field)
    decreases f, 1
  {
    f.rule != Required && (f.rule.Singular? ==> Silent(f.kind))
  }

  lemma {:induction false} ZeroIff(k: Kind, v: Value)
    requires Fits(k, v)
    ensures IsZero(k, v) <==> v == Default(k) && Silent(k)
    decreases k, 0
  {
    if v.Message? {
      forall i | 0 <= i < |v.slots|
        ensures ZeroSlot(k.fields[i], v.slots[i]) <==> v.slots[i] == DefaultSlot(k.fields[i]) && SilentField(k.fields[i])
      {
        ZeroSlotIff(k.fields[i], v.slots[i]);
      }
      if IsZero(k, v) { assert v.slots == Defaults(k.fields); }
    }
  }

  lemma {:induction false} ZeroSlotIff(f: Field, s: Slot)
    requires SlotFits(f, s)
    ensures ZeroSlot(f, s) <==> s == DefaultSlot(f) && SilentField(f)
    decreases f, 1
  {
    if s.One? { ZeroIff(f.kind, s.v); }
  }

  lemma TaggedIsSome(f: Field, v: Value)
    requires Fits(f.kind, v)
    ensures Tagged(f, v) != []
  {
    hide Payload;
  }

  /** A field is left out of the encoding exactly when it has its default value and is not required, except that a field
    without has_ flag is written even then if its type has required fields or bytes of fixed length. */
  lemma LeftOutIff(f: Field, s: Slot)
    requires SlotFits(f, s)
    ensures FieldBytes(f, s) == [] <==> s == DefaultSlot(f) && SilentField(f)
  {
    ZeroSlotIff(f, s);
    hide IsZero, Default, Silent, Payload, Payloads;
    match s
    case One(v) => TaggedIsSome(f, v);
    case Maybe(o) => if o.Some? { TaggedIsSome(f, o.value); }
    case Many(vs) => if vs != [] { TaggedIsSome(f, vs[|vs| - 1]); }
  }

  // ----- one key

  lemma Step(fields: seq<Field>, slots: seq<Slot>, seen: set<nat>, i: nat, wireType: nat, rest: Bytes)
    requires FieldsOk(fields) && Shapes(fields, slots) && i < |fields| && wireType < 8
    ensures DecodeFields(fields, slots, seen, Tag(fields[i], wireType) + rest)
      == var d := DecodeField(fields, slots, i, wireType, rest);
         if d.None? then None else DecodeFields(fields, d.value.0, Mark(fields, i, seen), d.value.1)
  {
    hide ReadVarint32, DecodeField, Find, Varint, Mark, Shapes, Skip, SkipTerminator;
    assert FieldOk(fields[i]);
    Varint32Back(fields[i].tag * 8 + wireType, rest);
    FindUnique(fields, i);
  }

  // ----- arrays

  lemma PayloadNotEmpty(k: Kind, v: Value)
    requires Fits(k, v) && Packable(k)
    ensures Payload(k, v) != []
  {
  }

  lemma PackableBack(k: Kind, v: Value, rest: Bytes)
    requires Fits(k, v) && Packable(k)
    ensures DecodeValue(k, Default(k), Payload(k, v) + rest) == Some((v, rest))
  {
    hide Varint, GetVarint64, ReadVarint32, Fixed, UnFixed, ReadVarint;
    match k
    case BoolK => Varint32Back(v.n, rest);
    case IntK(b) =>
      VarintBack(Unsigned(v.n), rest);
      SignedRoundTrip(v.n, b);
    case UIntK(b) => VarintBack(v.n, rest);
    case SIntK(b) =>
      VarintBack(ZigZag(v.n), rest);
      ZigZagRoundTrip(v.n);
    case Fixed32K => Fixed32RoundTrip(v.n);
    case Fixed64K => Fixed64RoundTrip(v.n);
  }

  lemma {:induction false} PackedBack(k: Kind, before: seq<Value>, vs: seq<Value>, max: nat, rest: Bytes)
    requires AllFit(k, vs) && Packable(k) && |before| + |vs| <= max
    ensures DecodePacked(k, before, max, Payloads(k, vs) + rest) == DecodePacked(k, before + vs, max, rest)
    decreases |vs|
  {
    hide Payload, DecodeValue;
    if vs == [] {
      assert before + vs == before && Payloads(k, vs) + rest == rest;
    } else {
      var init, last := vs[..|vs| - 1], vs[|vs| - 1];
      var tail := Payload(k, last) + rest;
      PackedBack(k, before, init, max, tail);
      assert Payloads(k, vs) + rest == Payloads(k, init) + tail;
      PackableBack(k, last, rest);
      PayloadNotEmpty(k, last);
      assert before + init + [last] == before + vs;
    }
  }

  // ----- messages

  /** The first n fields as encoded, the others at their defaults. */
  function Upto(fields: seq<Field>, slots: seq<Slot>, n: nat): seq<Slot>
    requires |slots| == |fields| && n <= |fields|
  {
    slots[..n] + Defaults(fields)[n..]
  }

  lemma UptoShapes(fields: seq<Field>, slots: seq<Slot>, n: nat)
    requires WellFormed(fields, slots) && n <= |fields|
    ensures Shapes(fields, Upto(fields, slots, n))
  {
    forall i | 0 <= i < n ensures Shape(fields[i], slots[i]) {
      assert SlotFits(fields[i], slots[i]);
    }
    DefaultShapes(fields);
    assert forall i :: n <= i < |fields| ==> Upto(fields, slots, n)[i] == Defaults(fields)[i];
  }

  /** The required fields among the first n, as the bitmap holds them. */
  function Seen(fields: seq<Field>, n: nat): set<nat>
    requires n <= |fields|
  {
    set r: nat | r < Count(fields[..n]) && Tracked(r)
  }

  predicate Tracked(r: nat) { r < MAX_REQUIRED }

  lemma SeenStep(fields: seq<Field>, n: nat)
    requires n < |fields|
    ensures Mark(fields, n, Seen(fields, n)) == Seen(fields, n + 1)
    ensures !fields[n].rule.Required? ==> Seen(fields, n + 1) == Seen(fields, n)
  {
    assert fields[..n + 1][..n] == fields[..n];
  }

  /** What decoding v makes of slot i. */
  function Put(fields: seq<Field>, slots: seq<Slot>, i: nat, v: Value): (r: seq<Slot>)
    requires Shapes(fields, slots) && i < |fields|
    ensures Shapes(fields, r)
  {
    match fields[i].rule
    case Required => slots[i := One(v)]
    case Singular => slots[i := One(v)]
    case Repeated(_) => slots[i := Many(slots[i].vs + [v])]
    case _ => Select(fields, slots, i, v)
  }

  /** The slot has room, and a submessage in it is at its defaults. */
  predicate Fresh(f: Field, s: Slot) {
    match s
    case One(v) => v == Default(f.kind)
    case Maybe(o) => o.None?
    case Many(vs) => !Packable(f.kind) && f.rule.Repeated? && |vs| < f.rule.max
  }

  lemma TaggedBack(fields: seq<Field>, slots: seq<Slot>, seen: set<nat>, i: nat, v: Value, rest: Bytes)
    requires FieldsOk(fields) && Shapes(fields, slots) && i < |fields| && Fits(fields[i].kind, v)
        && Fresh(fields[i], slots[i])
    requires DecodeValue(fields[i].kind, Default(fields[i].kind), Payload(fields[i].kind, v) + rest) == Some((v, rest))
    ensures DecodeFields(fields, slots, seen, Tagged(fields[i], v) + rest)
      == DecodeFields(fields, Put(fields, slots, i, v), Mark(fields, i, seen), rest)
  {
    hide FieldsOk, DecodeFields, DecodeValue, Payload, Default, Tag, Fits, Mark;
    var f := fields[i];
    var wireType := WireType(f.kind);
    assert Tagged(f, v) + rest == Tag(f, wireType) + (Payload(f.kind, v) + rest);
    Step(fields, slots, seen, i, wireType, Payload(f.kind, v) + rest);
    assert DecodeField(fields, slots, i, wireType, Payload(f.kind, v) + rest) == Some((Put(fields, slots, i, v), rest));
  }

  ghost predicate Whole(k: Kind) { k.MessageK? ==> FieldsOk(k.fields) }

  lemma {:induction false} ValueBack(k: Kind, v: Value, rest: Bytes)
    requires Fits(k, v) && Small(k, v) && Whole(k)
    ensures DecodeValue(k, Default(k), Payload(k, v) + rest) == Some((v, rest))
    decreases k, 0, 0
  {
    if Packable(k) {
      PackableBack(k, v, rest);
    } else if k.MessageK? {
      hide Fits, SmallMessage, FieldsOk, WellFormed, DecodeFields, EncodedTo, ReadVarint32, Varint, Defaults;
      var m := EncodedTo(k.fields, v.slots, |k.fields|);
      StringBack(m, rest);
      MessageBack(k.fields, v.slots);
      DefaultShapes(k.fields);
    } else {
      TextBack(k, v, rest);
    }
  }

  lemma TextBack(k: Kind, v: Value, rest: Bytes)
    requires Fits(k, v) && Small(k, v) && !Packable(k) && !k.MessageK?
    ensures DecodeValue(k, Default(k), Payload(k, v) + rest) == Some((v, rest))
  {
    hide ReadString, Varint;
    StringBack(v.b, rest);
    if k.FixedBytesK? && v.b == [] {
      assert v.b == Zeros(k.n);
    }
  }

  lemma {:induction false} MessageBack(fields: seq<Field>, slots: seq<Slot>)
    requires WellFormed(fields, slots) && SmallMessage(fields, slots) && FieldsOk(fields)
    ensures Shapes(fields, Defaults(fields))
    ensures DecodeFields(fields, Defaults(fields), {}, Encoded(fields, slots)) == Some(slots)
    decreases fields, 3, 0
  {
    hide WellFormed, SmallMessage, FieldsOk, Shapes, Defaults, EncodedTo, DecodeFields, Upto, Seen;
    var n := |fields|;
    FieldsBack(fields, slots, n, []);
    UptoEnds(fields, slots);
    assert EncodedTo(fields, slots, n) + [] == EncodedTo(fields, slots, n);
    NoMoreFields(fields, slots);
  }

  lemma UptoEnds(fields: seq<Field>, slots: seq<Slot>)
    requires WellFormed(fields, slots)
    ensures Upto(fields, slots, 0) == Defaults(fields) && Upto(fields, slots, |fields|) == slots
        && Seen(fields, 0) == {}
  {
    assert fields[..0] == [];
  }

  lemma NoMoreFields(fields: seq<Field>, slots: seq<Slot>)
    requires Shapes(fields, slots)
    ensures DecodeFields(fields, slots, Seen(fields, |fields|), []) == Some(slots)
  {
    assert fields[..|fields|] == fields;
  }

  lemma {:induction false} FieldsBack(fields: seq<Field>, slots: seq<Slot>, n: nat, rest: Bytes)
    requires WellFormed(fields, slots) && SmallMessage(fields, slots) && FieldsOk(fields) && n <= |fields|
    ensures Shapes(fields, Upto(fields, slots, 0)) && Shapes(fields, Upto(fields, slots, n))
    ensures DecodeFields(fields, Upto(fields, slots, 0), Seen(fields, 0), EncodedTo(fields, slots, n) + rest)
      == DecodeFields(fields, Upto(fields, slots, n), Seen(fields, n), rest)
    decreases fields, 2, n
  {
    hide Upto, Shapes, Seen, DecodeFields, FieldBytes, SmallMessage, FieldsOk, SlotFits;
    UptoShapes(fields, slots, 0);
    UptoShapes(fields, slots, n);
    if n == 0 {
      assert EncodedTo(fields, slots, n) + rest == rest;
    } else {
      var tail := FieldBytes(fields[n - 1], slots[n - 1]) + rest;
      assert EncodedTo(fields, slots, n) + rest == EncodedTo(fields, slots, n - 1) + tail;
      FieldsBack(fields, slots, n - 1, tail);
      FieldBack(fields, slots, n - 1, rest);
    }
  }

  lemma {:induction false} FieldBack(fields: seq<Field>, slots: seq<Slot>, n: nat, rest: Bytes)
    requires WellFormed(fields, slots) && SmallMessage(fields, slots) && FieldsOk(fields) && n < |fields|
    requires Shapes(fields, Upto(fields, slots, n)) && Shapes(fields, Upto(fields, slots, n + 1))
    ensures DecodeFields(fields, Upto(fields, slots, n), Seen(fields, n), FieldBytes(fields[n], slots[n]) + rest)
      == DecodeFields(fields, Upto(fields, slots, n + 1), Seen(fields, n + 1), rest)
    decreases fields, 1, 0
  {
    hide DecodeFields, Shapes, Tagged, Packed, Items, DecodeValue, Payload, Upto, Seen, Mark;
    var f, s := fields[n], slots[n];
    assert SlotFits(f, s) && SmallSlot(f, s) && FieldOk(f);
    if Left(f, s) {
      LeftBack(fields, slots, n, rest);
    } else if s.Many? {
      if Packable(f.kind) {
        PackedFieldBack(fields, slots, n, rest);
      } else {
        ItemsFieldBack(fields, slots, n, rest);
      }
    } else {
      var v := if s.One? then s.v else s.o.value;
      ItemBack(f, v, rest);
      ValueFieldBack(fields, slots, n, v, rest);
    }
  }

  /** Not written. */
  predicate Left(f: Field, s: Slot) {
    match s
    case One(v) => f.rule.Singular? && IsZero(f.kind, v)
    case Maybe(o) => o.None?
    case Many(vs) => vs == []
  }

  lemma LeftBack(fields: seq<Field>, slots: seq<Slot>, n: nat, rest: Bytes)
    requires |slots| == |fields| && n < |fields| && SlotFits(fields[n], slots[n]) && Left(fields[n], slots[n])
    ensures Upto(fields, slots, n) == Upto(fields, slots, n + 1) && Seen(fields, n) == Seen(fields, n + 1)
    ensures FieldBytes(fields[n], slots[n]) + rest == rest
  {
    SeenStep(fields, n);
    if slots[n].One? {
      ZeroIsDefault(fields[n].kind, slots[n].v);
    }
    assert slots[n] == DefaultSlot(fields[n]);
  }

  lemma {:induction false} ItemBack(f: Field, v: Value, rest: Bytes)
    requires Fits(f.kind, v) && Small(f.kind, v) && FieldOk(f)
    ensures DecodeValue(f.kind, Default(f.kind), Payload(f.kind, v) + rest) == Some((v, rest))
    decreases f, 0, 0
  {
    ValueBack(f.kind, v, rest);
  }

  lemma ValueFieldBack(fields: seq<Field>, slots: seq<Slot>, n: nat, v: Value, rest: Bytes)
    requires WellFormed(fields, slots) && FieldsOk(fields) && n < |fields|
    requires Shapes(fields, Upto(fields, slots, n)) && Shapes(fields, Upto(fields, slots, n + 1))
    requires Fits(fields[n].kind, v) && (slots[n] == One(v) || slots[n] == Maybe(Some(v)))
    requires DecodeValue(fields[n].kind, Default(fields[n].kind), Payload(fields[n].kind, v) + rest) == Some((v, rest))
    ensures DecodeFields(fields, Upto(fields, slots, n), Seen(fields, n), Tagged(fields[n], v) + rest)
      == DecodeFields(fields, Upto(fields, slots, n + 1), Seen(fields, n + 1), rest)
  {
    hide DecodeFields, DecodeValue, Payload, Seen, Mark, Shapes, Tagged, FieldsOk, SlotFits, Upto;
    SeenStep(fields, n);
    PutIsNext(fields, slots, n, v);
    TaggedBack(fields, Upto(fields, slots, n), Seen(fields, n), n, v, rest);
  }

  lemma PutIsNext(fields: seq<Field>, slots: seq<Slot>, n: nat, v: Value)
    requires WellFormed(fields, slots) && n < |fields| && Shapes(fields, Upto(fields, slots, n))
    requires slots[n] == One(v) || slots[n] == Maybe(Some(v))
    ensures Fresh(fields[n], Upto(fields, slots, n)[n])
    ensures Put(fields, Upto(fields, slots, n), n, v) == Upto(fields, slots, n + 1)
  {
    hide Fits, Default;
    var before, after := Upto(fields, slots, n), Put(fields, Upto(fields, slots, n), n, v);
    forall k | 0 <= k < |fields| ensures SlotFits(fields[k], slots[k]) {
    }
    assert before[n] == DefaultSlot(fields[n]);
    forall k | 0 <= k < |fields| ensures after[k] == Upto(fields, slots, n + 1)[k] {
      if k < n && fields[k].rule == fields[n].rule && fields[k].rule.OneOf? {
        assert SlotFits(fields[k], slots[k]) && before[k] == slots[k];
        assert slots[k].o.None?;
      } else if k > n {
        assert before[k] == DefaultSlot(fields[k]);
      }
    }
  }

  lemma PackedFieldBack(fields: seq<Field>, slots: seq<Slot>, n: nat, rest: Bytes)
    requires WellFormed(fields, slots) && SmallMessage(fields, slots) && FieldsOk(fields) && n < |fields|
    requires Shapes(fields, Upto(fields, slots, n)) && Shapes(fields, Upto(fields, slots, n + 1))
    requires slots[n].Many? && slots[n].vs != [] && Packable(fields[n].kind)
    ensures DecodeFields(fields, Upto(fields, slots, n), Seen(fields, n), FieldBytes(fields[n], slots[n]) + rest)
      == DecodeFields(fields, Upto(fields, slots, n + 1), Seen(fields, n + 1), rest)
  {
    hide DecodeFields, DecodePacked, DecodeValue, Shapes, Seen, Mark, Upto, ReadString, Payloads, Varint, FieldsOk;
    var f, vs, before := fields[n], slots[n].vs, Upto(fields, slots, n);
    assert SlotFits(f, slots[n]) && SmallSlot(f, slots[n]);
    var p := Payloads(f.kind, vs);
    var tail := Varint(|p|) + p + rest;
    assert FieldBytes(f, slots[n]) + rest == Tag(f, WT_STRING) + tail;
    SeenStep(fields, n);
    Step(fields, before, Seen(fields, n), n, WT_STRING, tail);
    StringBack(p, rest);
    ManyIsNext(fields, slots, n);
    PackedBack(f.kind, [], vs, f.rule.max, []);
    assert p + [] == p && [] + vs == vs;
    assert DecodePacked(f.kind, vs, f.rule.max, []) == Some(vs) by { PackedEnd(f.kind, vs, f.rule.max); }
  }

  lemma PackedEnd(k: Kind, vs: seq<Value>, max: nat)
    ensures DecodePacked(k, vs, max, []) == Some(vs)
  {
  }

  lemma ManyIsNext(fields: seq<Field>, slots: seq<Slot>, n: nat)
    requires WellFormed(fields, slots) && n < |fields| && slots[n].Many?
    ensures Upto(fields, slots, n)[n] == Many([])
    ensures Upto(fields, slots, n)[n := slots[n]] == Upto(fields, slots, n + 1)
  {
    assert SlotFits(fields[n], slots[n]);
    assert Upto(fields, slots, n)[n] == DefaultSlot(fields[n]);
  }

  lemma {:induction false} ItemsFieldBack(fields: seq<Field>, slots: seq<Slot>, n: nat, rest: Bytes)
    requires WellFormed(fields, slots) && SmallMessage(fields, slots) && FieldsOk(fields) && n < |fields|
    requires Shapes(fields, Upto(fields, slots, n)) && Shapes(fields, Upto(fields, slots, n + 1))
    requires slots[n].Many? && slots[n].vs != [] && !Packable(fields[n].kind)
    ensures DecodeFields(fields, Upto(fields, slots, n), Seen(fields, n), FieldBytes(fields[n], slots[n]) + rest)
      == DecodeFields(fields, Upto(fields, slots, n + 1), Seen(fields, n + 1), rest)
    decreases fields, 0, |slots[n].vs| + 1
  {
    hide DecodeFields, DecodeValue, Shapes, Seen, Mark, Upto, Items, FieldsOk;
    var f, vs, before := fields[n], slots[n].vs, Upto(fields, slots, n);
    assert SlotFits(f, slots[n]) && SmallSlot(f, slots[n]);
    SeenStep(fields, n);
    ManyIsNext(fields, slots, n);
    ItemsBack(fields, before, Seen(fields, n), n, vs, rest);
  }

  lemma {:induction false} ItemsBack(fields: seq<Field>, slots: seq<Slot>, seen: set<nat>, i: nat, vs: seq<Value>,
      rest: Bytes)
    requires FieldsOk(fields) && Shapes(fields, slots) && i < |fields| && slots[i].Many? && slots[i].vs == []
    requires AllFit(fields[i].kind, vs) && AllSmall(fields[i].kind, vs) && !Packable(fields[i].kind)
        && |vs| <= fields[i].rule.max
    ensures Shapes(fields, slots[i := Many(vs)])
    ensures DecodeFields(fields, slots, seen, Items(fields[i], vs) + rest) ==
        DecodeFields(fields, slots[i := Many(vs)], seen, rest)
    decreases fields, 0, |vs|
  {
    hide DecodeFields, DecodeValue, Tagged, Fits, Small, Default;
    var f := fields[i];
    if vs == [] {
      assert slots[i := Many(vs)] == slots;
      assert Items(f, vs) + rest == rest;
    } else {
      var init, last := vs[..|vs| - 1], vs[|vs| - 1];
      ItemsBack(fields, slots, seen, i, init, Tagged(f, last) + rest);
      assert Items(f, vs) + rest == Items(f, init) + (Tagged(f, last) + rest);
      ItemBack(f, last, rest);
      TaggedBack(fields, slots[i := Many(init)], seen, i, last, rest);
      assert init + [last] == vs;
      assert slots[i := Many(init)][i := Many(vs)] == slots[i := Many(vs)];
    }
  }

  /** pb_decode gives back the message that pb_encode wrote. */
  lemma DecodeEncoded(fields: seq<Field>, slots: seq<Slot>)
    requires WellFormed(fields, slots) && SmallMessage(fields, slots) && FieldsOk(fields)
    ensures Decode(fields, Encoded(fields, slots)) == Some(slots)
  {
    MessageBack(fields, slots);
  }
}
