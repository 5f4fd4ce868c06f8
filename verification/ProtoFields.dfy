/** Protocol-buffer messages driven by field descriptors: descriptors, values, wire values. */
module ProtoFields {
  import opened Options
  import opened Coding

  // ----- descriptors

  datatype Kind =
    | BoolK
    | IntK(bytes: nat)
    | UIntK(bytes: nat)
    | SIntK(bytes: nat)
    | Fixed32K
    | Fixed64K
    | BytesK(max: nat)
    | StringK(size: nat)          // with room for the terminating zero
    | FixedBytesK(n: nat)
    | MessageK(fields: seq<Field>)

  /** Singular is optional without a has_ flag: present when not zero.  Fields of one oneof share a group. */
  datatype Rule = Required | Optional | Singular | Repeated(max: nat) | OneOf(group: nat)

  datatype Field = Field(tag: nat, rule: Rule, kind: Kind)

  /** At most PB_LTYPE_LAST_PACKABLE. */
  predicate Packable(k: Kind) {
    k.BoolK? || k.IntK? || k.UIntK? || k.SIntK? || k.Fixed32K? || k.Fixed64K?
  }

  // ----- values

  datatype Value = Num(n: int) | Text(b: Bytes) | Message(slots: seq<Slot>)

  datatype Slot = One(v: Value) | Maybe(o: Option<Value>) | Many(vs: seq<Value>)

  predicate IntBytes(b: nat) { b == 1 || b == 2 || b == 4 || b == 8 }

  /** One more than the largest signed integer of so many bytes. */
  function Limit(b: nat): int {
    if b == 1 then 0x80 else if b == 2 then 0x8000 else if b == 4 then 0x8000_0000 else 0x8000_0000_0000_0000
  }

  ghost predicate Fits(k: Kind, v: Value)
    decreases k, 0
  {
    match k
    case BoolK => v == Num(0) || v == Num(1)
    case IntK(b) => IntBytes(b) && v.Num? && -Limit(b) <= v.n < Limit(b)
    case UIntK(b) => IntBytes(b) && v.Num? && 0 <= v.n < 2 * Limit(b)
    case SIntK(b) => IntBytes(b) && v.Num? && -Limit(b) <= v.n < Limit(b)
    case Fixed32K => v.Num? && 0 <= v.n < TWO32
    case Fixed64K => v.Num? && 0 <= v.n < TWO64
    case BytesK(max) => v.Text? && |v.b| <= max
    case StringK(size) => v.Text? && |v.b| < size && 0 !in v.b
    case FixedBytesK(n) => v.Text? && |v.b| == n
    case MessageK(fields) => v.Message? && WellFormed(fields, v.slots)
  }

  ghost predicate SlotFits(f: Field, s: Slot)
    decreases f, 1
  {
    match f.rule
    case Required => s.One? && Fits(f.kind, s.v)
    case Singular => s.One? && Fits(f.kind, s.v)
    case Optional => s.Maybe? && (s.o.Some? ==> Fits(f.kind, s.o.value))
    case OneOf(_) => s.Maybe? && (s.o.Some? ==> Fits(f.kind, s.o.value))
    case Repeated(max) => s.Many? && |s.vs| <= max && forall i :: 0 <= i < |s.vs| ==> Fits(f.kind, s.vs[i])
  }

  /** Slots match the descriptors, and no oneof has two members set. */
  ghost predicate WellFormed(fields: seq<Field>, slots: seq<Slot>)
    decreases fields, 2
  {
    && |slots| == |fields|
    && (forall i :: 0 <= i < |fields| ==> SlotFits(fields[i], slots[i]))
    && forall i, j :: 0 <= i < j < |fields| && fields[i].rule.OneOf? && fields[i].rule == fields[j].rule ==>
         !(slots[i].Maybe? && slots[i].o.Some? && slots[j].Maybe? && slots[j].o.Some?)
  }

  /** Tags are distinct and fit a 32-bit key. */
  ghost predicate FieldsOk(fields: seq<Field>)
    decreases fields, 2
  {
    && (forall i, j :: 0 <= i < j < |fields| ==> fields[i].tag != fields[j].tag)
    && forall i :: 0 <= i < |fields| ==> FieldOk(fields[i])
  }

  ghost predicate FieldOk(f: Field)
    decreases f, 1
  {
    1 <= f.tag < 0x2000_0000 && (f.kind.MessageK? ==> FieldsOk(f.kind.fields))
  }

  // ----- defaults

  function Default(k: Kind): Value
    decreases k, 0
  {
    match k
    case BytesK(_) => Text([])
    case StringK(_) => Text([])
    case FixedBytesK(n) => Text(Zeros(n))
    case MessageK(fields) => Message(Defaults(fields))
    case _ => Num(0)
  }

  function DefaultSlot(f: Field): Slot
    decreases f, 1
  {
    match f.rule
    case Required => One(Default(f.kind))
    case Singular => One(Default(f.kind))
    case Optional => Maybe(None)
    case OneOf(_) => Maybe(None)
    case Repeated(_) => Many([])
  }

  function Defaults(fields: seq<Field>): (s: seq<Slot>)
    ensures |s| == |fields|
    decreases fields, 2
  {
    seq(|fields|, i requires 0 <= i < |fields| => DefaultSlot(fields[i]))
  }

  /** Whether a field without has_ flag is left out: pb_check_proto3_default_value. */
  predicate IsZero(k: Kind, v: Value)
    decreases k, 0
  {
    match v
    case Num(n) => n == 0
    case Text(b) => if k.FixedBytesK? then k.n == 0 else b == []
    case Message(slots) => k.MessageK? && |slots| == |k.fields| && forall i :: 0 <= i < |slots| ==>
        ZeroSlot(k.fields[i], slots[i])
  }

  predicate ZeroSlot(f: Field, s: Slot)
    decreases f, 1
  {
    match s
    case One(v) => f.rule != Required && IsZero(f.kind, v)
    case Maybe(o) => o.None?
    case Many(vs) => vs == []
  }

  // ----- integers on the wire

  /** Two's complement in 64 bits. */
  function Unsigned(n: int): nat
    requires -0x8000_0000_0000_0000 <= n < TWO64
  {
    if n < 0 then n + TWO64 else n
  }

  function ZigZag(n: int): nat { if n < 0 then -2 * n - 1 else 2 * n }

  function UnZigZag(v: nat): int { if v % 2 == 1 then -(v / 2) - 1 else v / 2 }

  lemma ZigZagRoundTrip(n: int)
    ensures UnZigZag(ZigZag(n)) == n
  {
  }

  /** The low bits of v as a signed integer of so many bytes. */
  function Signed(v: nat, bytes: nat): int {
    var low: int := if bytes == 1 then v % 0x100 else if bytes == 2 then v % 0x1_0000 else
        if bytes == 4 then v % TWO32 else v % TWO64;
    if low < Limit(bytes) then low else low - 2 * Limit(bytes)
  }

  lemma SignedRoundTrip(n: int, bytes: nat)
    requires IntBytes(bytes) && -Limit(bytes) <= n < Limit(bytes)
    ensures Signed(Unsigned(n), bytes) == n
    ensures bytes < 8 ==> Signed(Unsigned(n), 4) == n
  {
    if n < 0 {
      LowByte(n);
      LowTwo(n);
      LowFour(n);
    }
  }

  lemma LowByte(n: int)
    ensures n < 0 <= n + 0x100 ==> (n + TWO64) % 0x100 == n + 0x100
  {
    assert n + TWO64 == n + 0x100 + 0x100 * 0xFF_FFFF_FFFF_FFFF;
  }

  lemma LowTwo(n: int)
    ensures n < 0 <= n + 0x1_0000 ==> (n + TWO64) % 0x1_0000 == n + 0x1_0000
  {
    assert n + TWO64 == n + 0x1_0000 + 0x1_0000 * 0xFFFF_FFFF_FFFF;
  }

  lemma LowFour(n: int)
    ensures n < 0 <= n + TWO32 ==> (n + TWO64) % TWO32 == n + TWO32
  {
    assert n + TWO64 == n + TWO32 + TWO32 * 0xFFFF_FFFF;
  }
}
