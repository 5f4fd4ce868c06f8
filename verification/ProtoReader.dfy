/** The decoder at work: a stream that is consumed, a wrapping iterator and a bitmap, agreeing with ProtoDecode. */
module ProtoReader {
  import opened Options
  import opened Coding
  import opened ProtoFields
  import opened ProtoEncode
  import opened ProtoDecode
  import opened ProtoIter
  import opened ProtoBitmap
  import opened Bloom

  class IStream {
    var left: Bytes

    constructor (left: Bytes)
      ensures this.left == left
    {
      this.left := left;
    }

    /** The call did what r says, or failed with it. */
    ghost predicate Got<T>(r: Option<(T, Bytes)>, ok: bool, v: T)
      reads this
    {
      (ok <==> r.Some?) && (ok ==> r.value == (v, left))
    }

    method ReadByte() returns (ok: bool, b: Byte)
      modifies this
      ensures ok <==> old(left) != []
      ensures ok ==> b == old(left)[0] && left == old(left)[1..]
      ensures !ok ==> left == []
    {
      if |left| == 0 {
        return false, 0;
      }
      ok, b := true, left[0];
      left := left[1..];
    }

    method Read(count: nat) returns (ok: bool, buf: Bytes)
      modifies this
      ensures Got(ReadBytes(old(left), count), ok, buf)
    {
      if |left| < count {
        return false, [];
      }
      ok, buf := true, left[..count];
      left := left[count..];
    }

    method DecodeVarint32() returns (ok: bool, dest: nat)
      modifies this
      ensures Got(ReadVarint32(old(left)), ok, dest)
    {
      hide WithBits;
      var byte: Byte;
      dest := 0;
      ok, byte := ReadByte();
      if !ok {
        return;
      }
      if byte < 128 {
        dest := byte;
        return;
      }
      var bitpos: nat := 7;
      dest := byte - 128;
      ghost var more := MoreVarint32(left, 7, dest);
      while byte >= 128
        invariant dest < TWO32 && bitpos < 256
        invariant byte >= 128 ==> more == MoreVarint32(left, bitpos, dest)
        invariant byte < 128 ==> more == if bitpos == 35 && byte / 16 % 8 != 0 then None else Some((dest, left))
        decreases if byte >= 128 then |left| + 1 else 0
      {
        ok, byte := ReadByte();
        if !ok {
          return;
        }
        if bitpos >= 32 {
          if byte % 128 != 0 && (dest < 0x8000_0000 || byte != if bitpos < 63 then 0xFF else 1) {
            ok := false;
            return;
          }
        } else {
          dest := WithBits(dest, byte % 128, bitpos);
        }
        bitpos := (bitpos + 7) % 256;
      }
      if bitpos == 35 && byte / 16 % 8 != 0 {
        ok := false;
      }
    }

    method DecodeVarint() returns (ok: bool, dest: nat)
      modifies this
      ensures Got(ReadVarint(old(left)), ok, dest)
    {
      hide Shifted, Whole, ReadVarint;
      var bitpos: nat, byte: Byte := 0, 128;
      ghost var sum: nat, j: nat, input := 0, 0, left;
      ok, dest := true, 0;
      WholeStart(input);
      while byte >= 128
        invariant ok && j <= 10 && bitpos == 7 * j && dest == sum % TWO64
        invariant byte >= 128 ==> Whole(input, sum, j, left)
        invariant byte < 128 ==> ReadVarint(input) == Some((dest, left))
        decreases if byte >= 128 then |left| + 1 else 0
      {
        if bitpos >= 64 {
          WholeFails(input, sum, j, left);
          ok := false;
          return;
        }
        ghost var before := left;
        ok, byte := ReadByte();
        if !ok {
          WholeFails(input, sum, j, before);
          return;
        }
        if byte >= 128 {
          WholeMore(input, sum, j, before);
        } else {
          WholeLast(input, sum, j, before);
        }
        AddModulo(sum, Shifted(byte % 128, bitpos));
        dest := (dest + Shifted(byte % 128, bitpos)) % TWO64;
        sum := sum + Shifted(byte % 128, bitpos);
        bitpos, j := bitpos + 7, j + 1;
      }
    }

    method SkipBytes(count: nat) returns (ok: bool)
      modifies this
      ensures var r := Rest(ReadBytes(old(left), count)); (ok <==> r.Some?) && (ok ==> r.value == left)
    {
      var buf;
      ok, buf := Read(count);
    }

    method SkipField(wireType: nat) returns (ok: bool)
      modifies this
      ensures var r := Skip(wireType, old(left)); (ok <==> r.Some?) && (ok ==> r.value == left)
    {
      hide ReadVarint32;
      if wireType == WT_VARINT {
        ghost var input := left;
        var byte: Byte := 128;
        ok := true;
        while byte >= 128
          invariant ok && SkipVarint(input) == if byte >= 128 then SkipVarint(left) else Some(left)
          decreases if byte >= 128 then |left| + 1 else 0
        {
          ok, byte := ReadByte();
          if !ok {
            return;
          }
        }
      } else if wireType == WT_64BIT {
        ok := SkipBytes(8);
      } else if wireType == WT_STRING {
        var length;
        ok, length := DecodeVarint32();
        if ok {
          ok := SkipBytes(length);
        }
      } else if wireType == WT_32BIT {
        ok := SkipBytes(4);
      } else {
        ok := false;
      }
    }

    /** A stream over the bytes of a length-prefixed string; what is left of it is skipped when it is closed. */
    method MakeSubstream() returns (ok: bool, sub: IStream)
      modifies this
      ensures fresh(sub) && Got(ReadString(old(left)), ok, sub.left)
    {
      hide ReadVarint32;
      var size;
      ok, size := DecodeVarint32();
      if !ok || |left| < size {
        ok := false;
        sub := new IStream([]);
        return;
      }
      sub := new IStream(left[..size]);
      left := left[size..];
    }

    method DecodeString() returns (ok: bool, b: Bytes)
      modifies this
      ensures Got(ReadString(old(left)), ok, b)
    {
      hide ReadVarint32;
      var size;
      ok, size := DecodeVarint32();
      if !ok {
        return false, [];
      }
      ok, b := Read(size);
    }
  }

  lemma AddModulo(a: nat, b: nat)
    ensures (a % TWO64 + b) % TWO64 == (a + b) % TWO64
  {
  }

  /** After j bytes with value sum, the rest of the varint is at the front of left. */
  ghost predicate Whole(input: Bytes, sum: nat, j: nat, left: Bytes) {
    j <= 10 && j <= |input| && left == input[j..] && GetVarint(input, 10) == After(sum, j, GetVarint(left, 10 - j))
  }

  ghost function After(sum: nat, j: nat, r: Option<(nat, nat)>): Option<(nat, nat)> {
    if r.None? then None else Some((sum + Shifted(r.value.0, 7 * j), j + r.value.1))
  }

  lemma WholeStart(input: Bytes)
    ensures Whole(input, 0, 0, input)
  {
    assert input[0..] == input;
  }

  lemma WholeFails(input: Bytes, sum: nat, j: nat, left: Bytes)
    requires Whole(input, sum, j, left) && (j == 10 || left == [])
    ensures ReadVarint(input) == None
  {
  }

  lemma {:induction false} ShiftedSum(a: nat, b: nat, bitpos: nat)
    ensures Shifted(a + b, bitpos) == Shifted(a, bitpos) + Shifted(b, bitpos)
  {
    if bitpos > 0 {
      ShiftedSum(a, b, bitpos - 1);
    }
  }

  lemma {:induction false} ShiftedTimes(n: nat, bitpos: nat)
    ensures Shifted(128 * n, bitpos) == 128 * Shifted(n, bitpos)
  {
    if bitpos > 0 {
      ShiftedTimes(n, bitpos - 1);
    }
  }

  lemma GetMore(left: Bytes, limit: nat)
    requires limit > 0 && left != [] && left[0] >= 128
    ensures GetVarint(left, limit) == var r := GetVarint(left[1..], limit - 1);
      if r.None? then None else Some((left[0] - 128 + 128 * r.value.0, r.value.1 + 1))
  {
  }

  lemma WholeMore(input: Bytes, sum: nat, j: nat, left: Bytes)
    requires Whole(input, sum, j, left) && j < 10 && left != [] && left[0] >= 128
    ensures Whole(input, sum + Shifted(left[0] % 128, 7 * j), j + 1, left[1..])
  {
    hide Shifted, GetVarint;
    var b, r := left[0], GetVarint(left[1..], 9 - j);
    assert left[1..] == input[j + 1..];
    GetMore(left, 10 - j);
    if r.Some? {
      ShiftedSum(b - 128, 128 * r.value.0, 7 * j);
      ShiftedTimes(r.value.0, 7 * j);
      ShiftedMore(r.value.0, 7 * j);
    }
  }

  lemma WholeLast(input: Bytes, sum: nat, j: nat, left: Bytes)
    requires Whole(input, sum, j, left) && j < 10 && left != [] && left[0] < 128
    ensures ReadVarint(input) == Some(((sum + Shifted(left[0], 7 * j)) % TWO64, left[1..]))
  {
    hide Shifted;
    assert GetVarint(left, 10 - j) == Some((left[0], 1));
    assert left[1..] == input[j + 1..];
  }

  // ----- decoding

  /** The field decoders by type. */
  method DecodeOne(stream: IStream, k: Kind, before: Value) returns (ok: bool, v: Value)
    requires k.MessageK? ==> FieldsOk(k.fields)
    modifies stream
    ensures stream.Got(DecodeValue(k, before, old(stream.left)), ok, v)
    decreases |stream.left|, 0
  {
    hide ReadVarint32, ReadVarint, ReadBytes, ReadString, DecodeFields, FieldsOk, UnFixed;
    var n: nat, b: Bytes;
    v := before;
    match k
    case BoolK =>
      ok, n := stream.DecodeVarint32();
      v := Num(if n != 0 then 1 else 0);
    case IntK(bytes) =>
      ok, n := stream.DecodeVarint();
      var svalue := Signed(n, if bytes == 8 then 8 else 4);
      v := Num(svalue);
      ok := ok && IntBytes(bytes) && -Limit(bytes) <= svalue < Limit(bytes);
    case UIntK(bytes) =>
      ok, n := stream.DecodeVarint();
      v := Num(n);
      ok := ok && IntBytes(bytes) && n < 2 * Limit(bytes);
    case SIntK(bytes) =>
      ok, n := stream.DecodeVarint();
      var svalue := UnZigZag(n);
      v := Num(svalue);
      ok := ok && IntBytes(bytes) && -Limit(bytes) <= svalue < Limit(bytes);
    case Fixed32K =>
      ok, b := stream.Read(4);
      v := Num(UnFixed(b));
    case Fixed64K =>
      ok, b := stream.Read(8);
      v := Num(UnFixed(b));
    case BytesK(max) =>
      ok, b := stream.DecodeString();
      v := Text(b);
      ok := ok && |b| <= max;
    case StringK(size) =>
      ok, b := stream.DecodeString();
      v := Text(b);
      ok := ok && |b| + 1 <= size;
    case FixedBytesK(size) =>
      ok, b := stream.DecodeString();
      v := Text(if |b| == 0 then Zeros(size) else b);
      ok := ok && (|b| == 0 || |b| == size);
    case MessageK(fields) =>
      var sub;
      ok, sub := stream.MakeSubstream();
      // the struct of a submessage always has the shape of its descriptors
      if !ok || !before.Message? || !Shapes(fields, before.slots) {
        return false, v;
      }
      var slots;
      ok, slots := DecodeNoInit(sub, fields, before.slots);
      v := Message(slots);
  }

  /** A packed array: items while there are bytes and room; bytes that are left mean overflow. */
  method DecodeItems(stream: IStream, k: Kind, before: seq<Value>, max: nat) returns (ok: bool, vs: seq<Value>)
    requires Packable(k)
    modifies stream
    ensures var r := DecodePacked(k, before, max, old(stream.left)); (ok <==> r.Some?) && (ok ==> vs == r.value)
    decreases |stream.left|, 1
  {
    hide DecodeValue;
    vs := before;
    var status, v := true, Default(k);
    while |stream.left| > 0 && |vs| < max && status
      invariant status ==> DecodePacked(k, before, max, old(stream.left)) == DecodePacked(k, vs, max, stream.left)
      invariant !status ==> DecodePacked(k, before, max, old(stream.left)).None?
      decreases status, |stream.left|
    {
      status, v := DecodeOne(stream, k, Default(k));
      if status {
        vs := vs + [v];
      }
    }
    ok := status && |stream.left| == 0;
  }

  method DecodeStaticField(stream: IStream, fields: seq<Field>, slots: seq<Slot>, i: nat, wireType: nat)
    returns (ok: bool, r: seq<Slot>)
    requires Shapes(fields, slots) && i < |fields| && FieldsOk(fields)
    modifies stream
    ensures stream.Got(DecodeField(fields, slots, i, wireType, old(stream.left)), ok, r)
    decreases |stream.left|, 2
  {
    hide DecodeValue, DecodePacked, ReadString;
    var f := fields[i];
    assert FieldOk(f);
    var v: Value;
    r := slots;
    match f.rule
    case Repeated(max) =>
      var vs := slots[i].vs;
      if wireType == WT_STRING && Packable(f.kind) {
        var sub;
        ok, sub := stream.MakeSubstream();
        if !ok {
          return;
        }
        ok, vs := DecodeItems(sub, f.kind, vs, max);
        r := slots[i := Many(vs)];
      } else {
        if |vs| >= max {
          return false, r;
        }
        ok, v := DecodeOne(stream, f.kind, Default(f.kind));
        r := slots[i := Many(vs + [v])];
      }
    case Required =>
      ok, v := DecodeOne(stream, f.kind, slots[i].v);
      r := slots[i := One(v)];
    case Singular =>
      ok, v := DecodeOne(stream, f.kind, slots[i].v);
      r := slots[i := One(v)];
    case Optional =>
      ok, v := DecodeOne(stream, f.kind, if slots[i].o.Some? then slots[i].o.value else Default(f.kind));
      r := Select(fields, slots, i, v);
    case OneOf(_) =>
      ok, v := DecodeOne(stream, f.kind, if slots[i].o.Some? then slots[i].o.value else Default(f.kind));
      r := Select(fields, slots, i, v);
  }

  /** One turn of the loop over keys. */
  method DecodeTurn(stream: IStream, iter: FieldIter, words: array<nat>, fields: seq<Field>, dest: seq<Slot>,
      ghost seen: set<nat>)
    returns (ok: bool, eof: bool, slots: seq<Slot>, ghost now: set<nat>)
    requires Shapes(fields, dest) && FieldsOk(fields) && iter.Valid() && iter.start == fields
        && Holds(words[..], seen) && stream.left != []
    modifies stream, iter, words
    ensures iter.Valid()
    ensures var t := DecodeKey(fields, dest, seen, old(stream.left));
      (ok <==> !t.Bad?) && (ok ==> (eof <==> t.End?)) && (ok && eof ==> slots == dest && now == seen)
      && (ok && !eof ==> t == Go(slots, now, stream.left))
    ensures ok ==> Holds(words[..], now)
    decreases |stream.left|, 3
  {
    hide DecodeField, ReadVarint32, Holds, Shapes, Find, FieldsOk, Skip, Count;
    slots, eof, now := dest, false, seen;
    var key, found;
    ok, key := stream.DecodeVarint32();
    if !ok {
      return;
    }
    if key == 0 {
      eof := true;
      return;
    }
    found := iter.Seek(key / 8);
    if !found {
      NotFound(fields, key / 8);
      ok := stream.SkipField(key % 8);
    } else if fields == [] {
      // the terminator, read as a bool
      NotFound(fields, key / 8);
      var ignored;
      ok, ignored := stream.DecodeVarint32();
    } else {
      TagsDistinct(fields);
      FindUnique(fields, iter.pos);
      if fields[iter.pos].rule.Required? && iter.required < MAX_REQUIRED {
        SetSeen(words, iter.required, seen);
        now := seen + {iter.required};
      }
      ok, slots := DecodeStaticField(stream, fields, dest, iter.pos, key % 8);
    }
  }

  /** pb_decode_noinit: keys until the input or a zero key ends the message, then the check for required fields. */
  method DecodeNoInit(stream: IStream, fields: seq<Field>, dest: seq<Slot>) returns (ok: bool, slots: seq<Slot>)
    requires Shapes(fields, dest) && FieldsOk(fields)
    modifies stream
    ensures var r := DecodeFields(fields, dest, {}, old(stream.left)); (ok <==> r.Some?) && (ok ==> slots == r.value)
    decreases |stream.left|, 4
  {
    hide DecodeKey, Holds, Shapes, FieldsOk, Count;
    var words := new nat[2](_ => 0);
    ghost var seen: set<nat> := {};
    HoldsNone(words[..]);
    var iter := new FieldIter(fields);
    slots, ok := dest, true;
    var eof := false;
    while |stream.left| > 0 && !eof
      invariant ok && Shapes(fields, slots) && iter.Valid() && iter.start == fields && Holds(words[..], seen)
      invariant Counted(fields, seen)
      invariant DecodeFields(fields, dest, {}, old(stream.left))
        == if !eof then DecodeFields(fields, slots, seen, stream.left) else
            if AllSeen(fields, seen) then Some(slots) else None
      decreases !eof, |stream.left|
    {
      ghost var before := seen;
      KeyCounted(fields, slots, seen, stream.left);
      ok, eof, slots, seen := DecodeTurn(stream, iter, words, fields, slots, seen);
      if !ok {
        return;
      }
    }
    var required := iter.CountRequired();
    ok := CheckSeen(words, required, seen);
  }

  /** Only indices of required fields are recorded. */
  ghost predicate Counted(fields: seq<Field>, seen: set<nat>) {
    forall r :: r in seen ==> r < Count(fields) && r < MAX_REQUIRED
  }

  lemma KeyCounted(fields: seq<Field>, slots: seq<Slot>, seen: set<nat>, input: Bytes)
    requires Shapes(fields, slots) && Counted(fields, seen)
    ensures var t := DecodeKey(fields, slots, seen, input); t.Go? ==> Counted(fields, t.seen)
  {
    hide DecodeField, ReadVarint32, Shapes, Skip, Count;
    forall i: nat | i < |fields| && fields[i].rule.Required? ensures Count(fields[..i]) < Count(fields) {
      CountGrows(fields, i);
    }
  }

  lemma TagsDistinct(fields: seq<Field>)
    requires FieldsOk(fields)
    ensures forall a, b :: 0 <= a < b < |fields| ==> fields[a].tag != fields[b].tag
  {
  }

  lemma NotFound(fields: seq<Field>, tag: nat)
    requires forall k :: 0 <= k < |fields| ==> fields[k].tag != tag
    ensures Find(fields, tag) == None
  {
  }

  lemma HoldsNone(w: seq<nat>)
    requires w == [0, 0]
    ensures Holds(w, {})
  {
    forall b: nat ensures !Bit(0, b) { NoBits(b); }
  }

  /** pb_decode: defaults first. */
  method DecodeMessage(input: Bytes, fields: seq<Field>) returns (ok: bool, slots: seq<Slot>)
    requires FieldsOk(fields)
    ensures var r := Decode(fields, input); (ok <==> r.Some?) && (ok ==> slots == r.value)
  {
    var stream := new IStream(input);
    DefaultShapes(fields);
    ok, slots := DecodeNoInit(stream, fields, Defaults(fields));
  }
}
