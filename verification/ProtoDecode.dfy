/** The decoder: keys and values in any order, unknown fields skipped, required fields checked at the end. */
module ProtoDecode {
  import opened Options
  import opened Coding
  import opened ProtoFields
  import opened ProtoEncode

  const MAX_REQUIRED: nat := 64

  // ----- reading from a stream: the value and the rest of the input

  function ReadVarint(input: Bytes): (r: Option<(nat, Bytes)>)
    ensures r.Some? ==> |r.value.1| < |input| && r.value.0 < TWO64
  {
    var v := GetVarint64(input);
    if v.None? then None else Some((v.value.0, input[v.value.1..]))
  }

  /** The multibyte case of pb_decode_varint32: low bits in result, seven bits a byte; bytes past the 32nd bit
    must be zero or a sign extension.  The bit position is eight bits wide. */
  function MoreVarint32(input: Bytes, bitpos: nat, result: nat): (r: Option<(nat, Bytes)>)
    requires result < TWO32
    ensures r.Some? ==> |r.value.1| < |input| && r.value.0 < TWO32
  {
    if input == [] then None else
    var b := input[0];
    if bitpos >= 32 && b % 128 != 0 && (result < 0x8000_0000 || b != if bitpos < 63 then 0xFF else 1) then None else
    var next := if bitpos >= 32 then result else WithBits(result, b % 128, bitpos);
    if b >= 128 then MoreVarint32(input[1..], (bitpos + 7) % 256, next)
    else if bitpos == 28 && b / 16 % 8 != 0 then None
    else Some((next, input[1..]))
  }

  function WithBits(result: nat, bits: nat, bitpos: nat): (r: nat)
    ensures r < TWO32
  {
    (result + Shifted(bits, bitpos)) % TWO32
  }

  /** n << bitpos, the bits below being clear. */
  function Shifted(n: nat, bitpos: nat): nat {
    if bitpos == 0 then n else 2 * Shifted(n, bitpos - 1)
  }

  lemma ShiftedMore(n: nat, bitpos: nat)
    ensures Shifted(n, bitpos + 7) == 128 * Shifted(n, bitpos)
  {
    assert Shifted(n, bitpos + 2) == 4 * Shifted(n, bitpos);
    assert Shifted(n, bitpos + 4) == 4 * Shifted(n, bitpos + 2);
    assert Shifted(n, bitpos + 6) == 4 * Shifted(n, bitpos + 4);
  }

  function ReadVarint32(input: Bytes): (r: Option<(nat, Bytes)>)
    ensures r.Some? ==> |r.value.1| < |input| && r.value.0 < TWO32
  {
    if input == [] then None
    else if input[0] < 128 then Some((input[0], input[1..]))
    else MoreVarint32(input[1..], 7, input[0] - 128)
  }

  function ReadBytes(input: Bytes, n: nat): (r: Option<(Bytes, Bytes)>)
    ensures r.Some? ==> |r.value.0| == n && |r.value.1| == |input| - n
  {
    if |input| < n then None else Some((input[..n], input[n..]))
  }

  /** A length and so many bytes. */
  function ReadString(input: Bytes): (r: Option<(Bytes, Bytes)>)
    ensures r.Some? ==> |r.value.0| + |r.value.1| < |input|
  {
    var n := ReadVarint32(input);
    if n.None? then None else ReadBytes(n.value.1, n.value.0)
  }

  function SkipVarint(input: Bytes): (r: Option<Bytes>)
    ensures r.Some? ==> |r.value| < |input|
  {
    if input == [] then None else if input[0] < 128 then Some(input[1..]) else SkipVarint(input[1..])
  }

  function Skip(wireType: nat, input: Bytes): (r: Option<Bytes>)
    ensures r.Some? ==> |r.value| < |input|
  {
    if wireType == WT_VARINT then SkipVarint(input)
    else if wireType == WT_64BIT then Rest(ReadBytes(input, 8))
    else if wireType == WT_STRING then Rest(ReadString(input))
    else if wireType == WT_32BIT then Rest(ReadBytes(input, 4))
    else None
  }

  /** Without fields the iterator stands on the terminator, whose tag 0 is found and read as a bool. */
  function SkipTerminator(input: Bytes): (r: Option<Bytes>)
    ensures r.Some? ==> |r.value| < |input|
  {
    var v := ReadVarint32(input);
    if v.None? then None else Some(v.value.1)
  }

  function Rest(r: Option<(Bytes, Bytes)>): Option<Bytes> { if r.None? then None else Some(r.value.1) }

  // ----- descriptors

  /** Index of the field with the tag; tags are distinct, so where the search starts does not matter. */
  function Find(fields: seq<Field>, tag: nat): (i: Option<nat>)
    ensures i.Some? ==> i.value < |fields| && fields[i.value].tag == tag
    ensures i.None? ==> forall k :: 0 <= k < |fields| ==> fields[k].tag != tag
  {
    if fields == [] then None
    else if fields[|fields| - 1].tag == tag && Find(fields[..|fields| - 1], tag).None? then Some(|fields| - 1)
    else Find(fields[..|fields| - 1], tag)
  }

  lemma {:induction false} FindUnique(fields: seq<Field>, i: nat)
    requires i < |fields| && forall a, b :: 0 <= a < b < |fields| ==> fields[a].tag != fields[b].tag
    ensures Find(fields, fields[i].tag) == Some(i)
  {
    var init := fields[..|fields| - 1];
    if i < |fields| - 1 {
      FindUnique(init, i);
      assert init[i].tag != fields[|fields| - 1].tag;
    } else {
      assert forall k :: 0 <= k < |init| ==> init[k].tag == fields[k].tag != fields[i].tag;
    }
  }

  /** Number of required fields. */
  function Count(fields: seq<Field>): nat {
    if fields == [] then 0 else Count(fields[..|fields| - 1]) + if fields[|fields| - 1].rule.Required? then 1 else 0
  }

  lemma {:induction false} CountGrows(fields: seq<Field>, i: nat)
    requires i < |fields| && fields[i].rule.Required?
    ensures Count(fields[..i]) < Count(fields)
  {
    if i < |fields| - 1 {
      CountGrows(fields[..|fields| - 1], i);
      assert fields[..|fields| - 1][..i] == fields[..i];
    }
  }

  predicate Shape(f: Field, s: Slot) {
    match f.rule
    case Required => s.One?
    case Singular => s.One?
    case Repeated(_) => s.Many?
    case _ => s.Maybe?
  }

  predicate Shapes(fields: seq<Field>, slots: seq<Slot>) {
    |slots| == |fields| && forall i :: 0 <= i < |fields| ==> Shape(fields[i], slots[i])
  }

  /** Selecting a member of a oneof unselects the others. */
  function Select(fields: seq<Field>, slots: seq<Slot>, i: nat, v: Value): (r: seq<Slot>)
    requires Shapes(fields, slots) && i < |fields| && Shape(fields[i], Maybe(None))
    ensures Shapes(fields, r)
  {
    seq(|slots|, k requires 0 <= k < |slots| =>
      if k == i then Maybe(Some(v))
      else if fields[i].rule.OneOf? && fields[k].rule == fields[i].rule then Maybe(None)
      else slots[k])
  }

  // ----- decoding

  /** A value; a submessage is merged into what was there before. */
  function DecodeValue(k: Kind, before: Value, input: Bytes): (r: Option<(Value, Bytes)>)
    ensures r.Some? ==> |r.value.1| < |input|
    decreases |input|, 0
  {
    match k
    case BoolK =>
      var v := ReadVarint32(input);
      if v.None? then None else Some((Num(if v.value.0 != 0 then 1 else 0), v.value.1))
    case IntK(b) =>
      var v := ReadVarint(input);
      if v.None? || !IntBytes(b) then None else
      var n := Signed(v.value.0, if b == 8 then 8 else 4);
      if -Limit(b) <= n < Limit(b) then Some((Num(n), v.value.1)) else None
    case UIntK(b) =>
      var v := ReadVarint(input);
      if v.None? || !IntBytes(b) then None
      else if v.value.0 < 2 * Limit(b) then Some((Num(v.value.0), v.value.1)) else None
    case SIntK(b) =>
      var v := ReadVarint(input);
      if v.None? || !IntBytes(b) then None else
      var n := UnZigZag(v.value.0);
      if -Limit(b) <= n < Limit(b) then Some((Num(n), v.value.1)) else None
    case Fixed32K =>
      var b := ReadBytes(input, 4);
      if b.None? then None else Some((Num(UnFixed(b.value.0)), b.value.1))
    case Fixed64K =>
      var b := ReadBytes(input, 8);
      if b.None? then None else Some((Num(UnFixed(b.value.0)), b.value.1))
    case BytesK(max) =>
      var b := ReadString(input);
      if b.None? || |b.value.0| > max then None else Some((Text(b.value.0), b.value.1))
    case StringK(size) =>
      var b := ReadString(input);
      if b.None? || |b.value.0| + 1 > size then None else Some((Text(b.value.0), b.value.1))
    case FixedBytesK(n) =>
      var b := ReadString(input);
      if b.None? then None
      else if b.value.0 == [] then Some((Text(Zeros(n)), b.value.1))
      else if |b.value.0| != n then None
      else Some((Text(b.value.0), b.value.1))
    case MessageK(fields) =>
      var b := ReadString(input);
      if b.None? || !before.Message? || !Shapes(fields, before.slots) then None else
      var m := DecodeFields(fields, before.slots, {}, b.value.0);
      if m.None? then None else Some((Message(m.value), b.value.1))
  }

  /** Items of a packed array until the bytes or the room are used up. */
  function DecodePacked(k: Kind, vs: seq<Value>, max: nat, input: Bytes): (r: Option<seq<Value>>)
    decreases |input|, 1
  {
    if input == [] then Some(vs)
    else if |vs| >= max then None
    else
      var v := DecodeValue(k, Default(k), input);
      if v.None? then None else DecodePacked(k, vs + [v.value.0], max, v.value.1)
  }

  function DecodeField(fields: seq<Field>, slots: seq<Slot>, i: nat, wireType: nat,
      input: Bytes): (r: Option<(seq<Slot>, Bytes)>)
    requires Shapes(fields, slots) && i < |fields|
    ensures r.Some? ==> Shapes(fields, r.value.0) && |r.value.1| < |input|
    decreases |input|, 2
  {
    var f := fields[i];
    match f.rule
    case Repeated(max) =>
      var vs := slots[i].vs;
      if wireType == WT_STRING && Packable(f.kind) then
        var b := ReadString(input);
        if b.None? then None else
        var all := DecodePacked(f.kind, vs, max, b.value.0);
        if all.None? then None else Some((slots[i := Many(all.value)], b.value.1))
      else if |vs| >= max then None
      else
        var v := DecodeValue(f.kind, Default(f.kind), input);
        if v.None? then None else Some((slots[i := Many(vs + [v.value.0])], v.value.1))
    case Required =>
      var v := DecodeValue(f.kind, slots[i].v, input);
      if v.None? then None else Some((slots[i := One(v.value.0)], v.value.1))
    case Singular =>
      var v := DecodeValue(f.kind, slots[i].v, input);
      if v.None? then None else Some((slots[i := One(v.value.0)], v.value.1))
    case _ =>
      var v := DecodeValue(f.kind, if slots[i].o.Some? then slots[i].o.value else Default(f.kind), input);
      if v.None? then None else Some((Select(fields, slots, i, v.value.0), v.value.1))
  }

  /** The first 64 required fields must have been seen. */
  predicate AllSeen(fields: seq<Field>, seen: set<nat>) {
    forall r :: 0 <= r < Count(fields) && r < MAX_REQUIRED ==> r in seen
  }

  function Mark(fields: seq<Field>, i: nat, seen: set<nat>): set<nat>
    requires i < |fields|
  {
    if fields[i].rule.Required? && Count(fields[..i]) < MAX_REQUIRED then seen + {Count(fields[..i])} else seen
  }

  /** One key and its field: a zero key ends the message. */
  datatype Turn = End | Bad | Go(slots: seq<Slot>, seen: set<nat>, left: Bytes)

  function DecodeKey(fields: seq<Field>, slots: seq<Slot>, seen: set<nat>, input: Bytes): (r: Turn)
    requires Shapes(fields, slots)
    ensures r.Go? ==> Shapes(fields, r.slots) && |r.left| < |input|
    decreases |input|, 3
  {
    var key := ReadVarint32(input);
    if key.None? then Bad
    else if key.value.0 == 0 then End
    else
      var i := Find(fields, key.value.0 / 8);
      if i.None? then
        var rest := if fields == [] && key.value.0 < 8 then SkipTerminator(key.value.1)
            else Skip(key.value.0 % 8, key.value.1);
        if rest.None? then Bad else Go(slots, seen, rest.value)
      else
        var d := DecodeField(fields, slots, i.value, key.value.0 % 8, key.value.1);
        if d.None? then Bad else Go(d.value.0, Mark(fields, i.value, seen), d.value.1)
  }

  function DecodeFields(fields: seq<Field>, slots: seq<Slot>, seen: set<nat>, input: Bytes): (r: Option<seq<Slot>>)
    requires Shapes(fields, slots)
    decreases |input|, 4
  {
    var t := if input == [] then End else DecodeKey(fields, slots, seen, input);
    match t
    case Bad => None
    case End => if AllSeen(fields, seen) then Some(slots) else None
    case Go(next, now, left) => DecodeFields(fields, next, now, left)
  }

  /** pb_decode: defaults, then the loop. */
  function Decode(fields: seq<Field>, input: Bytes): Option<seq<Slot>> {
    DefaultShapes(fields);
    DecodeFields(fields, Defaults(fields), {}, input)
  }

  lemma DefaultShapes(fields: seq<Field>)
    ensures Shapes(fields, Defaults(fields))
  {
  }
}
