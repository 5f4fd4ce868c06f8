/** The encoder: one pass that only counts and one that writes. */
module ProtoEncode {
  import opened Coding
  import opened ProtoFields

  const WT_VARINT: nat := 0
  const WT_64BIT: nat := 1
  const WT_STRING: nat := 2
  const WT_32BIT: nat := 5

  function WireType(k: Kind): nat {
    if k.Fixed32K? then WT_32BIT else if k.Fixed64K? then WT_64BIT else if Packable(k) then WT_VARINT else WT_STRING
  }

  function Tag(f: Field, wireType: nat): Bytes { Varint(f.tag * 8 + wireType) }

  // ----- the wire format

  ghost function Payload(k: Kind, v: Value): Bytes
    requires Fits(k, v)
    decreases k, 0, 0
  {
    match k
    case BoolK => Varint(v.n)
    case IntK(_) => Varint(Unsigned(v.n))
    case UIntK(_) => Varint(v.n)
    case SIntK(_) => Varint(ZigZag(v.n))
    case Fixed32K => Fixed32(v.n)
    case Fixed64K => Fixed64(v.n)
    case MessageK(fields) => var m := EncodedTo(fields, v.slots, |fields|); Varint(|m|) + m
    case _ => Varint(|v.b|) + v.b
  }

  ghost predicate AllFit(k: Kind, vs: seq<Value>) { forall i :: 0 <= i < |vs| ==> Fits(k, vs[i]) }

  ghost function Payloads(k: Kind, vs: seq<Value>): Bytes
    requires AllFit(k, vs)
    decreases k, 1, |vs|
  {
    if vs == [] then [] else Payloads(k, vs[..|vs| - 1]) + Payload(k, vs[|vs| - 1])
  }

  /** One tag for every item. */
  ghost function Items(f: Field, vs: seq<Value>): Bytes
    requires AllFit(f.kind, vs)
    decreases f, 0, |vs|
  {
    if vs == [] then [] else Items(f, vs[..|vs| - 1]) + Tagged(f, vs[|vs| - 1])
  }

  ghost function Tagged(f: Field, v: Value): Bytes
    requires Fits(f.kind, v)
    decreases f, 0, 0
  {
    Tag(f, WireType(f.kind)) + Payload(f.kind, v)
  }

  ghost function Packed(f: Field, vs: seq<Value>): Bytes
    requires AllFit(f.kind, vs)
    decreases f, 0, |vs|
  {
    var p := Payloads(f.kind, vs);
    Tag(f, WT_STRING) + Varint(|p|) + p
  }

  ghost function FieldBytes(f: Field, s: Slot): Bytes
    requires SlotFits(f, s)
    decreases f, 1, 0
  {
    match s
    case One(v) => if f.rule.Singular? && IsZero(f.kind, v) then [] else Tagged(f, v)
    case Maybe(o) => if o.Some? then Tagged(f, o.value) else []
    case Many(vs) => if vs == [] then [] else if Packable(f.kind) then Packed(f, vs) else Items(f, vs)
  }

  /** The first n fields. */
  ghost function EncodedTo(fields: seq<Field>, slots: seq<Slot>, n: nat): Bytes
    requires WellFormed(fields, slots) && n <= |fields|
    decreases fields, 0, n
  {
    if n == 0 then [] else EncodedTo(fields, slots, n - 1) + FieldBytes(fields[n - 1], slots[n - 1])
  }

  ghost function Encoded(fields: seq<Field>, slots: seq<Slot>): Bytes
    requires WellFormed(fields, slots)
  {
    EncodedTo(fields, slots, |fields|)
  }

  // ----- the stream

  class OStream {
    const sizing: bool            // no callback: count only
    const maxSize: nat
    var out: Bytes
    var bytesWritten: nat

    ghost predicate Valid()
      reads this
    {
      sizing || bytesWritten <= maxSize
    }

    constructor (sizing: bool, maxSize: nat)
      ensures Valid() && out == [] && bytesWritten == 0 && this.sizing == sizing && this.maxSize == maxSize
    {
      this.sizing, this.maxSize := sizing, maxSize;
      out, bytesWritten := [], 0;
    }

    /** What a call that should add e did, given the stream before. */
    ghost predicate Did(e: Bytes, ok: bool, out0: Bytes, written0: nat)
      reads this
    {
      && Valid() && (ok <==> sizing || written0 + |e| <= maxSize)
      && (ok ==> bytesWritten == written0 + |e| && out == if sizing then out0 else out0 + e)
    }

    method Write(buf: Bytes) returns (ok: bool)
      requires Valid()
      modifies this
      ensures Did(buf, ok, old(out), old(bytesWritten))
    {
      if |buf| > 0 && !sizing {
        if bytesWritten + |buf| > maxSize {
          return false;
        }
        out := out + buf;
      }
      bytesWritten := bytesWritten + |buf|;
      ok := true;
    }

    /** Just sizing. */
    method Count(ghost e: Bytes, size: nat) returns (ok: bool)
      requires Valid() && sizing && size == |e|
      modifies this
      ensures Did(e, ok, old(out), old(bytesWritten))
    {
      bytesWritten := bytesWritten + size;
      ok := true;
    }

    method WriteVarint(value: nat) returns (ok: bool)
      requires Valid() && value < TWO64
      modifies this
      ensures Did(Varint(value), ok, old(out), old(bytesWritten))
    {
      if value <= 0x7F {
        ok := Write([value]);
        return;
      }
      var buffer: Bytes := [];
      var v := value;
      while v >= 0x80
        invariant 0 < v && buffer + Varint(v) == Varint(value)
        decreases v
        modifies {}
      {
        VarintStep(v);
        assert buffer + ([v % 128 + 128] + Varint(v / 128)) == (buffer + [v % 128 + 128]) + Varint(v / 128);
        buffer := buffer + [v % 128 + 128];
        v := v / 128;
      }
      buffer := buffer + [v];
      ok := Write(buffer);
    }

    /** Two pieces one after the other. */
    lemma Then(a: Bytes, b: Bytes, mid: Bytes, midWritten: nat, out0: Bytes, written0: nat, ok: bool)
      requires (if sizing then mid == out0 else mid == out0 + a) && midWritten == written0 + |a|
      requires Did(b, ok, mid, midWritten)
      ensures Did(a + b, ok, out0, written0)
    {
      assert !sizing ==> out0 + a + b == out0 + (a + b);
    }

    method WriteString(b: Bytes) returns (ok: bool)
      requires Valid() && |b| < TWO64
      modifies this
      ensures Did(Varint(|b|) + b, ok, old(out), old(bytesWritten))
    {
      ok := WriteVarint(|b|);
      if !ok { return; }
      ghost var o, w := out, bytesWritten;
      ok := Write(b);
      Then(Varint(|b|), b, o, w, old(out), old(bytesWritten), ok);
    }

    // ----- fields

    method WriteTag(f: Field, wireType: nat) returns (ok: bool)
      requires Valid() && f.tag < 0x2000_0000 && wireType < 8
      modifies this
      ensures Did(Tag(f, wireType), ok, old(out), old(bytesWritten))
    {
      ok := WriteVarint(f.tag * 8 + wireType);
    }

    /** The field encoders by type. */
    method WriteValue(k: Kind, v: Value) returns (ok: bool)
      requires Valid() && Fits(k, v) && Small(k, v) && (k.MessageK? ==> FieldsOk(k.fields))
      modifies this
      ensures Did(Payload(k, v), ok, old(out), old(bytesWritten))
      decreases k, 0, 0
    {
      match k
      case BoolK => ok := WriteVarint(v.n);
      case IntK(b) => ok := WriteVarint(Unsigned(v.n));
      case UIntK(b) => ok := WriteVarint(v.n);
      case SIntK(b) => ok := WriteVarint(ZigZag(v.n));
      case Fixed32K => ok := Write(Fixed32(v.n));
      case Fixed64K => ok := Write(Fixed64(v.n));
      case MessageK(fields) => ok := EncodeSubmessage(fields, v.slots);
      case BytesK(_) => ok := WriteString(v.b);
      case StringK(_) => ok := WriteString(v.b);
      case FixedBytesK(_) => ok := WriteString(v.b);
    }

    method WriteTagged(f: Field, v: Value) returns (ok: bool)
      requires Valid() && Fits(f.kind, v) && Small(f.kind, v) && FieldOk(f)
      modifies this
      ensures Did(Tagged(f, v), ok, old(out), old(bytesWritten))
      decreases f, 0, 0
    {
      ok := WriteTag(f, WireType(f.kind));
      if !ok {
        return;
      }
      ghost var o, w := out, bytesWritten;
      ok := WriteValue(f.kind, v);
      Then(Tag(f, WireType(f.kind)), Payload(f.kind, v), o, w, old(out), old(bytesWritten), ok);
    }

    /** The payloads of an array, one after the other. */
    method WritePayloads(k: Kind, vs: seq<Value>) returns (ok: bool)
      requires Valid() && AllFit(k, vs) && Packable(k)
      modifies this
      ensures Did(Payloads(k, vs), ok, old(out), old(bytesWritten))
      decreases k, 1, |vs|
    {
      hide Payload, Fits, Small;
      var i := 0;
      ok := true;
      assert vs[..0] == [];
      while i < |vs|
        invariant i <= |vs| && Did(Payloads(k, vs[..i]), true, old(out), old(bytesWritten))
      {
        assert vs[..i + 1][..i] == vs[..i];
        ghost var o, w := out, bytesWritten;
        ok := WriteValue(k, vs[i]);
        Then(Payloads(k, vs[..i]), Payload(k, vs[i]), o, w, old(out), old(bytesWritten), ok);
        if !ok {
          PayloadsGrow(k, vs, i + 1);
          return;
        }
        i := i + 1;
      }
      assert vs[..|vs|] == vs;
    }

    /** Packed when the type allows it; the size of a packed array is known from the type or counted first. */
    method EncodeArray(f: Field, vs: seq<Value>) returns (ok: bool)
      requires Valid() && AllFit(f.kind, vs) && AllSmall(f.kind, vs) && FieldOk(f) && |Payloads(f.kind, vs)| < TWO64
      modifies this
      ensures Did(if vs == [] then [] else if Packable(f.kind) then Packed(f, vs)
          else Items(f, vs), ok, old(out), old(bytesWritten))
      decreases f, 0, |vs|
    {
      if |vs| == 0 {
        return true;
      }
      if Packable(f.kind) {
        ok := WriteTag(f, WT_STRING);
        if !ok {
          return;
        }
        ghost var o, w := out, bytesWritten;
        var size: nat;
        if f.kind.Fixed32K? {
          FixedSize(f.kind, vs, 4);
          size := 4 * |vs|;
        } else if f.kind.Fixed64K? {
          FixedSize(f.kind, vs, 8);
          size := 8 * |vs|;
        } else {
          var sizestream := new OStream(true, 0);
          ok := sizestream.WritePayloads(f.kind, vs);
          size := sizestream.bytesWritten;
        }
        ok := WriteVarint(size);
        Then(Tag(f, WT_STRING), Varint(size), o, w, old(out), old(bytesWritten), ok);
        if !ok {
          return;
        }
        ghost var o2, w2 := out, bytesWritten;
        if sizing {
          ok := Count(Payloads(f.kind, vs), size);
        } else {
          ok := WritePayloads(f.kind, vs);
        }
        Then(Tag(f, WT_STRING) + Varint(size), Payloads(f.kind, vs), o2, w2, old(out), old(bytesWritten), ok);
      } else {
        ok := WriteItems(f, vs);
      }
    }

    method WriteItems(f: Field, vs: seq<Value>) returns (ok: bool)
      requires Valid() && AllFit(f.kind, vs) && AllSmall(f.kind, vs) && FieldOk(f)
      modifies this
      ensures Did(Items(f, vs), ok, old(out), old(bytesWritten))
      decreases f, 0, |vs|, 0
    {
      var i := 0;
      ok := true;
      assert vs[..0] == [];
      while i < |vs|
        invariant i <= |vs| && Did(Items(f, vs[..i]), true, old(out), old(bytesWritten))
      {
        assert vs[..i + 1][..i] == vs[..i];
        ghost var o, w := out, bytesWritten;
        ok := WriteTagged(f, vs[i]);
        Then(Items(f, vs[..i]), Tagged(f, vs[i]), o, w, old(out), old(bytesWritten), ok);
        if !ok {
          ItemsGrow(f, vs, i + 1);
          return;
        }
        i := i + 1;
      }
      assert vs[..|vs|] == vs;
    }

    method EncodeField(f: Field, s: Slot) returns (ok: bool)
      requires Valid() && SlotFits(f, s) && SmallSlot(f, s) && FieldOk(f)
      modifies this
      ensures Did(FieldBytes(f, s), ok, old(out), old(bytesWritten))
      decreases f, 1, 0
    {
      match s
      case One(v) =>
        if f.rule.Singular? && IsZero(f.kind, v) {
          ok := true;
        } else {
          ok := WriteTagged(f, v);
        }
      case Maybe(o) =>
        if o.Some? {
          ok := WriteTagged(f, o.value);
        } else {
          ok := true;
        }
      case Many(vs) => ok := EncodeArray(f, vs);
    }

    /** pb_encode: all fields in order. */
    method Encode(fields: seq<Field>, slots: seq<Slot>) returns (ok: bool)
      requires Valid() && WellFormed(fields, slots) && SmallMessage(fields, slots) && FieldsOk(fields)
      modifies this
      ensures Did(Encoded(fields, slots), ok, old(out), old(bytesWritten))
      decreases fields, 1, 0
    {
      var i := 0;
      ok := true;
      while i < |fields|
        invariant i <= |fields| && Did(EncodedTo(fields, slots, i), true, old(out), old(bytesWritten))
      {
        ghost var o, w := out, bytesWritten;
        ok := EncodeField(fields[i], slots[i]);
        Then(EncodedTo(fields, slots, i), FieldBytes(fields[i], slots[i]), o, w, old(out), old(bytesWritten), ok);
        if !ok {
          EncodedGrows(fields, slots, i + 1, |fields|);
          return;
        }
        i := i + 1;
      }
    }

    /** First a pass that counts, then the length, then a pass that writes exactly so many bytes. */
    method EncodeSubmessage(fields: seq<Field>, slots: seq<Slot>) returns (ok: bool)
      requires Valid() && WellFormed(fields, slots) && SmallMessage(fields, slots) && FieldsOk(fields)
          && |Encoded(fields, slots)| < TWO64
      modifies this
      ensures Did(Varint(|Encoded(fields, slots)|) + Encoded(fields, slots), ok, old(out), old(bytesWritten))
      decreases fields, 2, 0
    {
      ghost var e := Encoded(fields, slots);
      var substream := new OStream(true, 0);
      ok := substream.Encode(fields, slots);
      var size := substream.bytesWritten;
      ok := WriteVarint(size);
      if !ok {
        return;
      }
      ghost var o, w := out, bytesWritten;
      if sizing {
        ok := Count(e, size);
        Then(Varint(size), e, o, w, old(out), old(bytesWritten), ok);
        return;
      }
      if bytesWritten + size > maxSize {
        return false;
      }
      substream := new OStream(false, size);
      ok := substream.Encode(fields, slots);
      bytesWritten := bytesWritten + substream.bytesWritten;
      out := out + substream.out;
      if substream.bytesWritten != size {
        assert false;          // the size changed between the passes
      }
      Then(Varint(size), e, o, w, old(out), old(bytesWritten), ok);
    }
  }

  /** pb_get_encoded_size: the sizing pass counts exactly the bytes of the encoding. */
  method GetEncodedSize(fields: seq<Field>, slots: seq<Slot>) returns (size: nat)
    requires WellFormed(fields, slots) && SmallMessage(fields, slots) && FieldsOk(fields)
    ensures size == |Encoded(fields, slots)|
  {
    var stream := new OStream(true, 0);
    var ok := stream.Encode(fields, slots);
    size := stream.bytesWritten;
  }

  /** The writing pass emits the encoding, and fails exactly when it does not fit the buffer. */
  method EncodeToBuffer(fields: seq<Field>, slots: seq<Slot>, bufsize: nat) returns (ok: bool, bytes: Bytes)
    requires WellFormed(fields, slots) && SmallMessage(fields, slots) && FieldsOk(fields)
    ensures ok <==> |Encoded(fields, slots)| <= bufsize
    ensures ok ==> bytes == Encoded(fields, slots)
  {
    var stream := new OStream(false, bufsize);
    ok := stream.Encode(fields, slots);
    bytes := stream.out;
  }

  // ----- sizes that fit a length prefix

  ghost predicate Small(k: Kind, v: Value)
    requires Fits(k, v)
    decreases k, 0, 0
  {
    match k
    case MessageK(fields) => SmallMessage(fields, v.slots) && |Encoded(fields, v.slots)| < TWO32
    case BytesK(_) => |v.b| < TWO32
    case StringK(_) => |v.b| < TWO32
    case FixedBytesK(_) => |v.b| < TWO32
    case _ => true
  }

  ghost predicate AllSmall(k: Kind, vs: seq<Value>)
    requires AllFit(k, vs)
    decreases k, 1, 0
  {
    forall i :: 0 <= i < |vs| ==> Small(k, vs[i])
  }

  ghost predicate SmallSlot(f: Field, s: Slot)
    requires SlotFits(f, s)
    decreases f, 1, 0
  {
    match s
    case One(v) => Small(f.kind, v)
    case Maybe(o) => o.Some? ==> Small(f.kind, o.value)
    case Many(vs) => AllSmall(f.kind, vs) && |Payloads(f.kind, vs)| < TWO32
  }

  ghost predicate SmallMessage(fields: seq<Field>, slots: seq<Slot>)
    requires WellFormed(fields, slots)
    decreases fields, 2, 0
  {
    forall i :: 0 <= i < |fields| ==> SmallSlot(fields[i], slots[i])
  }

  // ----- a prefix of an encoding is no longer than the whole

  lemma {:induction false} PayloadsGrow(k: Kind, vs: seq<Value>, i: nat)
    requires AllFit(k, vs) && i <= |vs|
    ensures |Payloads(k, vs[..i])| <= |Payloads(k, vs)|
    decreases |vs|
  {
    if i < |vs| {
      PayloadsGrow(k, vs[..|vs| - 1], i);
      assert vs[..|vs| - 1][..i] == vs[..i];
    } else {
      assert vs[..i] == vs;
    }
  }

  lemma {:induction false} ItemsGrow(f: Field, vs: seq<Value>, i: nat)
    requires AllFit(f.kind, vs) && i <= |vs|
    ensures |Items(f, vs[..i])| <= |Items(f, vs)|
    decreases |vs|
  {
    if i < |vs| {
      ItemsGrow(f, vs[..|vs| - 1], i);
      assert vs[..|vs| - 1][..i] == vs[..i];
    } else {
      assert vs[..i] == vs;
    }
  }

  lemma {:induction false} EncodedGrows(fields: seq<Field>, slots: seq<Slot>, i: nat, n: nat)
    requires WellFormed(fields, slots) && i <= n <= |fields|
    ensures |EncodedTo(fields, slots, i)| <= |EncodedTo(fields, slots, n)|
    decreases n
  {
    if i < n {
      EncodedGrows(fields, slots, i, n - 1);
    }
  }

  lemma {:induction false} FixedSize(k: Kind, vs: seq<Value>, width: nat)
    requires AllFit(k, vs) && ((k.Fixed32K? && width == 4) || (k.Fixed64K? && width == 8))
    ensures |Payloads(k, vs)| == width * |vs|
    decreases |vs|
  {
    if vs != [] {
      FixedSize(k, vs[..|vs| - 1], width);
    }
  }
}
