/** A small example of each format, byte for byte. */
module ByteExamples {
  import opened Options
  import opened Coding
  import Block
  import Bloom
  import FilterBlock
  import Log
  import PE = ProtoEncode
  import PF = ProtoFields
  import VE = VersionEdit
  import WB = WriteBatch

  lemma Varints()
    ensures Varint(1) == [0x01] && Varint(300) == [0xAC, 0x02] && Varint(0x4000) == [0x80, 0x80, 0x01]
    ensures Fixed32(0x0102_0304) == [0x04, 0x03, 0x02, 0x01] && Prefixed([0x61]) == [0x01, 0x61]
    ensures Fixed64(0x0102) == [0x02, 0x01, 0, 0, 0, 0, 0, 0]
  {
    assert Varint(2) == [0x02] && Varint(128) == [0x80, 0x01];
    FourBytes(0x0102_0304);
    FourBytes(0x0102);
    EightBytes(0x0102);
  }

  lemma FourBytes(n: nat)
    ensures Fixed32(n) == [n % 256, n / 256 % 256, n / 256 / 256 % 256, n / 256 / 256 / 256 % 256]
  {
    var m := n / 256 / 256;
    assert Fixed(m, 2) == [m % 256, m / 256 % 256];
    assert Fixed(n, 4) == [n % 256] + Fixed(n / 256, 3);
    assert Fixed(n / 256, 3) == [n / 256 % 256] + Fixed(m, 2);
  }

  lemma EightBytes(n: nat)
    requires n < 0x1_0000
    ensures Fixed64(n) == [n % 256, n / 256, 0, 0, 0, 0, 0, 0]
  {
    assert Fixed(0, 2) == [0, 0];
    assert Fixed(0, 4) == [0, 0] + Fixed(0, 2);
    assert Fixed(0, 6) == [0, 0] + Fixed(0, 4);
    assert n / 256 / 256 == 0;
    assert Fixed(n, 8) == [n % 256] + Fixed(n / 256, 7);
    assert Fixed(n / 256, 7) == [n / 256 % 256] + Fixed(0, 6);
  }

  lemma TwoRecords(a: WB.Action, b: WB.Action)
    ensures WB.Records([a, b]) == WB.RecordOf(a) + WB.RecordOf(b)
  {
    hide WB.RecordOf;
    assert [a, b][1..] == [b] && [b][1..] == [];
    assert WB.Records([b]) == WB.RecordOf(b) + WB.Records([]);
    assert WB.RecordOf(b) + [] == WB.RecordOf(b);
  }

  lemma RecordBytes()
    ensures WB.RecordOf(WB.Put([0x61], [0x62])) == [1, 1, 0x61, 1, 0x62] && WB.RecordOf(WB.Delete([0x63])) == [0, 1, 0x63]
  {
  }

  /** Put("a", "b") and Delete("c") from sequence number 5 on. */
  lemma Batch()
    ensures WB.Contents(5, [WB.Put([0x61], [0x62]), WB.Delete([0x63])]) ==
            [5, 0, 0, 0, 0, 0, 0, 0, 2, 0, 0, 0, 1, 1, 0x61, 1, 0x62, 0, 1, 0x63]
  {
    hide *;
    var ops := [WB.Put([0x61], [0x62]), WB.Delete([0x63])];
    EightBytes(5);
    FourBytes(2);
    RecordBytes();
    TwoRecords(ops[0], ops[1]);
    ThreeParts(ops);
  }

  lemma ThreeParts(ops: seq<WB.Action>)
    ensures WB.Contents(5, ops) == Fixed64(5) + Fixed32(|ops|) + WB.Records(ops)
  {
  }

  /** The record "a" under the checksum zero. */
  lemma LogRecord(crc: Log.Checksum)
    requires crc(1, [0x61]) == 0
    ensures Log.LogBytes(crc, 0, [[0x61]]) == [0xd8, 0xea, 0x82, 0xa2, 1, 0, 1, 0x61]
  {
    var data: Bytes := [0x61];
    FourBytes(0xa282_ead8);
    assert data[..1] == data && Log.Physical(crc, Log.FULL, data) == [0xd8, 0xea, 0x82, 0xa2, 1, 0, 1, 0x61];
    assert Log.Fragment(crc, 0, data, 1, true) == Zeros(0) + Log.Physical(crc, Log.FULL, data);
    Log.Unfold(crc, 0, data, true, 1, Log.Fragment(crc, 0, data, 1, true));
    assert [data][1..] == [] && Log.LogBytes(crc, 8, []) == [];
    hide Log.RecordBytes, Log.Physical, Log.Fragment;
  }

  /** Where fewer than seven bytes of a block are left they are zeros.  The type byte of a fragment says whether it is a
    whole record or the first, middle or last part of one. */
  lemma FragmentTypes(crc: Log.Checksum, at: nat, data: Bytes, n: nat, begin: bool)
    requires n <= |data| && n <= Log.Room(at)
    ensures Log.Fragment(crc, at, data, n, begin)[Log.Pad(at) + 6] ==
            if n == |data| then if begin then 1 else 4 else if begin then 2 else 3
    ensures Log.Pad(at) == if at % 32768 > 32761 then 32768 - at % 32768 else 0
    ensures forall i :: 0 <= i < Log.Pad(at) ==> Log.Fragment(crc, at, data, n, begin)[i] == 0
  {
    PadIs(at);
    hide Log.Pad, Log.Room, Fixed32;
  }

  lemma PadIs(at: nat)
    ensures Log.Pad(at) == if at % 32768 > 32761 then 32768 - at % 32768 else 0
  {
  }

  /** The keys "ab" and "ac", the second sharing its first byte. */
  lemma BlockEntries()
    ensures Block.Encoded(0, Block.Item([0x61, 0x62], [1])) == [0, 2, 1, 0x61, 0x62, 1]
    ensures Block.Encoded(1, Block.Item([0x61, 0x63], [2])) == [1, 1, 1, 0x63, 2]
    ensures Block.Finished([0, 2, 1, 0x61, 0x62, 1], [0]) == [0, 2, 1, 0x61, 0x62, 1, 0, 0, 0, 0, 1, 0, 0, 0]
  {
    FourBytes(0);
    FourBytes(1);
    assert [0][..0] == [] && Block.Fixeds([0]) == Block.Fixeds([]) + Fixed32(0);
  }

  /** Seven bytes of filters in two groups. */
  lemma Filters(result: Bytes)
    requires |result| == 7
    ensures FilterBlock.Contents(result, [0, 4]) == result + [0, 0, 0, 0, 4, 0, 0, 0, 7, 0, 0, 0, 11]
  {
    FourBytes(0);
    FourBytes(4);
    FourBytes(7);
    assert [0, 4][..1] == [0] && [0][..0] == [];
    assert Block.Fixeds([0]) == Block.Fixeds([]) + Fixed32(0);
    assert Block.Fixeds([0, 4]) == Block.Fixeds([0]) + Fixed32(4);
  }

  const ADDED := VE.NewFile(1, 5, 100, [0x61], [0x62])
  const EDIT := VE.Edit(Some([0x63]), Some(4), Some(0), Some(9), Some(300), [(2, [0x64])], [(2, 3)], [ADDED])

  function Fields(): seq<VE.Part> {
    [VE.Comparator([0x63]), VE.NumberPart(2, 4), VE.NumberPart(9, 0), VE.NumberPart(3, 9), VE.NumberPart(4, 300),
     VE.Pointer((2, [0x64])), VE.Deleted((2, 3)), VE.Added(ADDED)]
  }

  lemma FieldBytes()
    ensures var ps := Fields();
            && VE.PartBytes(ps[0]) == [1, 1, 0x63]
            && VE.PartBytes(ps[1]) == [2, 4] && VE.PartBytes(ps[2]) == [9, 0] && VE.PartBytes(ps[3]) == [3, 9]
            && VE.PartBytes(ps[4]) == [4, 0xAC, 0x02] && VE.PartBytes(ps[5]) == [5, 2, 1, 0x64]
            && VE.PartBytes(ps[6]) == [6, 2, 3] && VE.PartBytes(ps[7]) == [7, 1, 5, 100, 1, 0x61, 1, 0x62]
  {
    hide Fixed, Prefixed;
    Varints();
    AddedBytes();
    OneByteText(0x63);
    OneByteText(0x64);
  }

  lemma OneByteText(b: Byte)
    ensures Prefixed([b]) == [1, b]
  {
    assert Varint(1) == [1];
    hide Varint;
  }

  lemma AddedBytes()
    ensures VE.PartBytes(VE.Added(ADDED)) == [7, 1, 5, 100, 1, 0x61, 1, 0x62]
  {
    hide Varint, Prefixed;
    OneByte(7);
    OneByte(1);
    OneByte(5);
    OneByte(100);
    OneByteText(0x61);
    OneByteText(0x62);
  }

  lemma OneByte(n: nat)
    ensures n < 128 ==> Varint(n) == [n]
  {
  }

  lemma EditFields()
    ensures VE.Parts(EDIT) == Fields()
  {
  }

  /** Comparator "c", log number 4, previous log 0, next file 9, last sequence 300, compaction pointer "d" of level 2,
    file 3 of level 2 deleted, file 5 added at level 1. */
  lemma Edit()
    ensures VE.PartsBytes(VE.Parts(EDIT)) ==
            [1, 1, 0x63, 2, 4, 9, 0, 3, 9, 4, 0xAC, 0x02, 5, 2, 1, 0x64, 6, 2, 3, 7, 1, 5, 100, 1, 0x61, 1, 0x62]
  {
    var ps := Fields();
    EditFields();
    FieldBytes();
    hide VE.PartBytes, VE.PartsBytes, VE.Parts;
    NoFields(ps);
    PartsStep(ps, 0);
    PartsStep(ps, 1);
    PartsStep(ps, 2);
    PartsStep(ps, 3);
    PartsStep(ps, 4);
    PartsStep(ps, 5);
    PartsStep(ps, 6);
    PartsStep(ps, 7);
    assert ps[..8] == ps;
  }

  lemma NoFields(ps: seq<VE.Part>)
    ensures VE.PartsBytes(ps[..0]) == []
  {
  }

  lemma PartsStep(ps: seq<VE.Part>, n: nat)
    requires n < |ps|
    ensures VE.PartsBytes(ps[..n + 1]) == VE.PartsBytes(ps[..n]) + VE.PartBytes(ps[n])
  {
    assert ps[..n + 1][..n] == ps[..n];
  }

  lemma OneKey(z: Bytes, hash: Bloom.Hash, k: nat)
    requires hash([]) == 0 && z != []
    ensures Bloom.FilledAll(z, [[]], hash, k) == Bloom.Filled(z, 0, k)
  {
    hide Bloom.Filled;
    var keys: seq<Bytes> := [[]];
    assert keys[..0] == [] && Bloom.FilledAll(z, [], hash, k) == z;
  }

  /** A Bloom filter of one key that hashes to zero: one bit, and six probes for ten bits a key. */
  lemma OneBit(hash: Bloom.Hash)
    requires hash([]) == 0
    ensures Bloom.Filter([[]], 10, hash) == [1, 0, 0, 0, 0, 0, 0, 0, 6]
  {
    hide Bloom.Filled, Bloom.FilledAll;
    assert Bloom.Probes(10) == 6 && Bloom.Size(1, 10) == 8;
    OneKey(Zeros(8), hash, 6);
    FilledOne(Zeros(8), 6);
  }

  lemma {:induction false} ProbesZero(j: nat)
    ensures Bloom.Probe(0, j) == 0
  {
    if j > 0 { ProbesZero(j - 1); }
  }

  lemma {:induction false} FilledOne(z: Bytes, j: nat)
    requires z == [0, 0, 0, 0, 0, 0, 0, 0] && j > 0
    ensures Bloom.Filled(z, 0, j) == [1, 0, 0, 0, 0, 0, 0, 0]
    decreases j
  {
    ProbesZero(j - 1);
    if j > 1 { FilledOne(z, j - 1); }
  }

  /** Field 1 holds the number 150 and field 2 the text "testing". */
  lemma NumberAndText()
    ensures PE.Tagged(PF.Field(1, PF.Required, PF.UIntK(4)), PF.Num(150)) == [0x08, 0x96, 0x01]
    ensures PF.Fits(PF.StringK(9), PF.Text([0x74, 0x65, 0x73, 0x74, 0x69, 0x6e, 0x67]))
    ensures PE.Tagged(PF.Field(2, PF.Required, PF.StringK(9)), PF.Text([0x74, 0x65, 0x73, 0x74, 0x69, 0x6e, 0x67])) ==
            [0x12, 0x07, 0x74, 0x65, 0x73, 0x74, 0x69, 0x6e, 0x67]
  {
    assert Varint(150) == [0x96, 0x01] by { assert Varint(1) == [1]; }
  }

  /** Field 3 holds a zig-zag -1, and field 4 the fixed number 7. */
  lemma SignedAndFixed()
    ensures PE.Tagged(PF.Field(3, PF.Required, PF.SIntK(4)), PF.Num(-1)) == [0x18, 0x01]
    ensures PE.Tagged(PF.Field(4, PF.Required, PF.Fixed32K), PF.Num(7)) == [0x25, 7, 0, 0, 0]
  {
    FourBytes(7);
  }

  /** Field 4 holds the packed numbers 3 and 270. */
  lemma Packed()
    ensures PE.Packed(PF.Field(4, PF.Repeated(3), PF.UIntK(4)), [PF.Num(3), PF.Num(270)]) == [0x22, 3, 3, 0x8E, 0x02]
  {
    assert Varint(270) == [0x8E, 0x02] by { assert Varint(2) == [2]; }
    var k := PF.UIntK(4);
    assert [PF.Num(3), PF.Num(270)][..1] == [PF.Num(3)] && [PF.Num(3)][..0] == [];
    assert PE.Payloads(k, []) == [] && PE.Payload(k, PF.Num(3)) == [3] && PE.Payload(k, PF.Num(270)) == [0x8E, 0x02];
    assert PE.Payloads(k, [PF.Num(3)]) == PE.Payloads(k, []) + PE.Payload(k, PF.Num(3));
    assert PE.Payloads(k, [PF.Num(3), PF.Num(270)]) == PE.Payloads(k, [PF.Num(3)]) + PE.Payload(k, PF.Num(270));
    hide PE.Payloads;
  }

  const FIELDS := [PF.Field(1, PF.Singular, PF.UIntK(4)), PF.Field(2, PF.Optional, PF.Fixed64K),
                   PF.Field(4, PF.Repeated(3), PF.UIntK(4))]
  const SLOTS := [PF.One(PF.Num(0)), PF.Maybe(Some(PF.Num(7))), PF.Many([PF.Num(3), PF.Num(270)])]

  lemma FixedSeven()
    ensures PE.Tagged(PF.Field(2, PF.Optional, PF.Fixed64K), PF.Num(7)) == [0x11, 7, 0, 0, 0, 0, 0, 0, 0]
  {
    assert Varint(17) == [0x11];
    assert Fixed64(7) == [7, 0, 0, 0, 0, 0, 0, 0];
    hide Varint, Fixed64;
  }

  lemma MessageFields()
    ensures PF.WellFormed(FIELDS, SLOTS)
    ensures PE.FieldBytes(FIELDS[0], SLOTS[0]) == [] && PE.FieldBytes(FIELDS[1], SLOTS[1]) == [0x11, 7, 0, 0, 0, 0, 0, 0, 0]
        && PE.FieldBytes(FIELDS[2], SLOTS[2]) == [0x22, 3, 3, 0x8E, 0x02]
  {
    FixedSeven();
    Packed();
    hide PE.Tagged, PE.Packed;
  }

  /** A zero without has_ flag is left out, a fixed 7 takes eight bytes, and the numbers 3 and 270 are packed. */
  lemma WholeMessage()
    ensures PF.WellFormed(FIELDS, SLOTS)
    ensures PE.Encoded(FIELDS, SLOTS) == [0x11, 7, 0, 0, 0, 0, 0, 0, 0, 0x22, 3, 3, 0x8E, 0x02]
  {
    MessageFields();
    hide PE.FieldBytes, PF.WellFormed;
    assert PE.EncodedTo(FIELDS, SLOTS, 0) == [];
    assert PE.EncodedTo(FIELDS, SLOTS, 1) == PE.EncodedTo(FIELDS, SLOTS, 0) + PE.FieldBytes(FIELDS[0], SLOTS[0]);
    assert PE.EncodedTo(FIELDS, SLOTS, 2) == PE.EncodedTo(FIELDS, SLOTS, 1) + PE.FieldBytes(FIELDS[1], SLOTS[1]);
    assert PE.EncodedTo(FIELDS, SLOTS, 3) == PE.EncodedTo(FIELDS, SLOTS, 2) + PE.FieldBytes(FIELDS[2], SLOTS[2]);
    hide PE.EncodedTo;
  }
}
