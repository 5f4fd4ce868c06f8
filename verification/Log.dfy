/** The write-ahead log: records cut into fragments over fixed blocks, and the reader that joins them again. */
module Log {
  import opened Options
  import opened Coding

  const BLOCK: nat := 32768
  const HEADER: nat := 7

  const ZERO_TYPE: nat := 0
  const FULL: nat := 1
  const FIRST: nat := 2
  const MIDDLE: nat := 3
  const LAST: nat := 4
  const EOF: nat := 5          // not a type on disk: end of the file
  const BAD: nat := 6          // not a type on disk: something was skipped

  type Word = w: nat | w < TWO32

  /** Any checksum of a type byte and a payload. */
  type Checksum = (Byte, Bytes) -> Word

  // ----- masking: a rotation by 15 bits and a constant added modulo 2^32

  const DELTA: nat := 0xa282ead8

  function Mask(crc: Word): Word {
    (crc / 0x8000 + crc % 0x8000 * 0x2_0000 + DELTA) % TWO32
  }

  function Unmask(masked: Word): Word {
    var rot := (masked + TWO32 - DELTA) % TWO32;
    rot / 0x2_0000 + rot % 0x2_0000 * 0x8000
  }

  lemma MaskRoundTrip(crc: Word)
    ensures Unmask(Mask(crc)) == crc
  {
    var rot := crc / 0x8000 + crc % 0x8000 * 0x2_0000;
    assert rot < TWO32;
    assert (Mask(crc) + TWO32 - DELTA) % TWO32 == rot;
    assert rot / 0x2_0000 == crc % 0x8000 && rot % 0x2_0000 == crc / 0x8000;
  }

  // ----- the format

  /** Bytes to skip at a file position before a header fits in the block. */
  function Pad(at: nat): (r: nat)
    ensures (at + r) % BLOCK <= BLOCK - HEADER
  {
    var left := BLOCK - at % BLOCK;
    if left < HEADER then assert (at + left) % BLOCK == 0; left else 0
  }

  /** Payload that fits in the block after a header at this position. */
  function Room(at: nat): nat {
    BLOCK - HEADER - (at + Pad(at)) % BLOCK
  }

  function KindOf(begin: bool, end: bool): Byte {
    if begin && end then FULL else if begin then FIRST else if end then LAST else MIDDLE
  }

  function Physical(crc: Checksum, kind: Byte, data: Bytes): (r: Bytes)
    requires |data| < BLOCK
    ensures |r| == HEADER + |data|
  {
    Fixed32(Mask(crc(kind, data))) + [|data| % 256, |data| / 256, kind] + data
  }

  /** One fragment with the zeros before it. */
  function Fragment(crc: Checksum, at: nat, data: Bytes, n: nat, begin: bool): (r: Bytes)
    requires n <= |data| && n <= Room(at)
    ensures |r| == Pad(at) + HEADER + n
  {
    Zeros(Pad(at)) + Physical(crc, KindOf(begin, n == |data|), data[..n])
  }

  function Cut(at: nat, data: Bytes): nat {
    if |data| < Room(at) then |data| else Room(at)
  }

  /** What a record adds to a log of length at. */
  function RecordBytes(crc: Checksum, at: nat, data: Bytes, begin: bool): (r: Bytes)
    ensures |r| >= HEADER
    decreases |data|, if Room(at) == 0 then 1 else 0
  {
    var n := Cut(at, data);
    var f := Fragment(crc, at, data, n, begin);
    if n == |data| then f else
      NextHasRoom(at, n);
      f + RecordBytes(crc, at + |f|, data[n..], false)
  }

  /** A full block is followed by an empty one. */
  lemma NextHasRoom(at: nat, n: nat)
    requires n == Room(at)
    ensures Room(at + Pad(at) + HEADER + n) > 0
  {
    var next := at + Pad(at) + HEADER + n;
    assert next % BLOCK == 0;
  }

  /** So many blocks, the first from an offset on, hold a header each and the payload. */
  predicate Holds(offset: nat, blocks: nat, payload: nat) { offset + payload + blocks * HEADER <= blocks * BLOCK }

  /** A record takes as few fragments as its bytes and their headers allow: all but the last fill their blocks. */
  lemma {:induction false} FewestFragments(crc: Checksum, at: nat, data: Bytes, begin: bool) returns (k: nat)
    ensures k >= 1 && |RecordBytes(crc, at, data, begin)| == Pad(at) + |data| + k * HEADER
    ensures Holds((at + Pad(at)) % BLOCK, k, |data|)
    ensures k > 1 ==> !Holds((at + Pad(at)) % BLOCK, k - 1, |data|)
    decreases |data|, if Room(at) == 0 then 1 else 0
  {
    var n := Cut(at, data);
    var f := Fragment(crc, at, data, n, begin);
    Unfold(crc, at, data, begin, n, f);
    FirstFits(at, data);
    hide RecordBytes, Fragment, Pad, Room, Cut;
    k := 1;
    if n < |data| {
      k := FewestFragments(crc, at + |f|, data[n..], false);
      OneMoreBlock((at + Pad(at)) % BLOCK, n, k, |data|);
      if k > 1 { OneMoreBlock((at + Pad(at)) % BLOCK, n, k - 1, |data|); }
      hide Holds;
      k := k + 1;
    }
  }

  lemma OneMoreBlock(offset: nat, n: nat, k: nat, payload: nat)
    requires offset + HEADER + n == BLOCK && n < payload
    ensures Holds(offset, k + 1, payload) <==> Holds(0, k, payload - n)
    ensures !Holds(offset, 1, payload)
  {
  }

  lemma FirstFits(at: nat, data: Bytes)
    ensures var n, o := Cut(at, data), (at + Pad(at)) % BLOCK;
            && n <= |data| && o + HEADER + n <= BLOCK
            && (n < |data| ==>
                 var next := at + Pad(at) + HEADER + n;
                 o + HEADER + n == BLOCK && next % BLOCK == 0 && Pad(next) == 0 && (Room(at) == 0 ==> Room(next) > 0))
  {
    if Cut(at, data) < |data| { NextHasRoom(at, Cut(at, data)); }
  }

  function LogBytes(crc: Checksum, at: nat, recs: seq<Bytes>): Bytes
    decreases recs
  {
    if recs == [] then []
    else
      var r := RecordBytes(crc, at, recs[0], true);
      r + LogBytes(crc, at + |r|, recs[1..])
  }

  lemma {:induction false} LogBytesAppend(crc: Checksum, at: nat, recs: seq<Bytes>, data: Bytes)
    ensures var b := LogBytes(crc, at, recs); LogBytes(crc, at, recs + [data]) == b + RecordBytes(crc, at + |b|, data,
        true)
    decreases recs
  {
    hide RecordBytes;
    if recs == [] {
      assert recs + [data] == [data];
      assert LogBytes(crc, at + |RecordBytes(crc, at, data, true)|, []) == [];
    } else {
      var r := RecordBytes(crc, at, recs[0], true);
      LogBytesAppend(crc, at + |r|, recs[1..], data);
      assert (recs + [data])[1..] == recs[1..] + [data];
    }
  }

  /** The definition, one fragment deep. */
  lemma Unfold(crc: Checksum, at: nat, data: Bytes, begin: bool, n: nat, f: Bytes)
    requires n == Cut(at, data) && f == Fragment(crc, at, data, n, begin)
    ensures n == |data| ==> RecordBytes(crc, at, data, begin) == f
    ensures n < |data| ==> RecordBytes(crc, at, data, begin) == f + RecordBytes(crc, at + |f|, data[n..], false)
    ensures n < |data| ==> Room(at + |f|) > 0
  {
    hide Pad, Room, Physical, Fragment;
    if n < |data| {
      NextHasRoom(at, n);
    }
  }

  lemma Emitted(crc: Checksum, before: Bytes, after: Bytes, left: Bytes, n: nat, begin: bool, f: Bytes)
    requires n == Cut(|before|, left) && f == Fragment(crc, |before|, left, n, begin) && after == before + f
    ensures n == |left| ==> after == before + RecordBytes(crc, |before|, left, begin)
    ensures n < |left| ==> after + RecordBytes(crc, |after|, left[n..], false) == before + RecordBytes(crc, |before|,
        left, begin)
    ensures n < |left| ==> Room(|after|) > 0
  {
    hide RecordBytes, Pad, Room, Fragment, Cut;
    Unfold(crc, |before|, left, begin, n, f);
    if n < |left| {
      Assoc(before, f, RecordBytes(crc, |after|, left[n..], false));
    }
  }

  // ----- the writer

  class Writer {
    const crc: Checksum
    var file: Bytes
    var blockOffset: nat

    ghost predicate Valid()
      reads this
    {
      blockOffset <= BLOCK && (|file| - blockOffset) % BLOCK == 0
    }

    /** A writer at the end of what the file already holds. */
    constructor (crc: Checksum, file: Bytes)
      ensures Valid() && this.file == file && this.crc == crc
    {
      this.crc := crc;
      this.file := file;
      blockOffset := |file| % BLOCK;
    }

    method AddRecord(data: Bytes)
      requires Valid()
      modifies this
      ensures Valid()
      ensures file == old(file) + RecordBytes(crc, |old(file)|, data, true)
    {
      hide RecordBytes, Physical, Pad;
      var left := data;
      var begin := true;
      ghost var whole := file + RecordBytes(crc, |file|, data, true);
      while true
        invariant Valid()
        invariant file + RecordBytes(crc, |file|, left, begin) == whole
        decreases |left|, if Room(|file|) == 0 then 1 else 0
      {
        ghost var before := file;
        var leftover := BLOCK - blockOffset;
        if leftover < HEADER {
          file := file + Zeros(leftover);
          blockOffset := 0;
        }
        Opened(before, file, blockOffset, leftover);
        var avail := BLOCK - blockOffset - HEADER;
        var n := if |left| < avail then |left| else avail;
        var end := |left| == n;
        EmitPhysicalRecord(KindOf(begin, end), left[..n]);
        Assoc(before, Zeros(Pad(|before|)), Physical(crc, KindOf(begin, end), left[..n]));
        Emitted(crc, before, file, left, n, begin, Fragment(crc, |before|, left, n, begin));
        if end {
          break;
        }
        left := left[n..];
        begin := false;
      }
    }

    lemma Opened(before: Bytes, after: Bytes, offset: nat, leftover: nat)
      requires leftover <= BLOCK && (|before| + leftover) % BLOCK == 0
      requires if leftover < HEADER then after == before + Zeros(leftover) && offset == 0
               else after == before && offset == BLOCK - leftover
      ensures after == before + Zeros(Pad(|before|))
      ensures Room(|before|) == BLOCK - HEADER - offset
      ensures (|after| - offset) % BLOCK == 0
    {
      assert leftover < BLOCK ==> |before| % BLOCK == (BLOCK - leftover) % BLOCK;
    }

    method EmitPhysicalRecord(kind: Byte, data: Bytes)
      requires Valid() && blockOffset + HEADER + |data| <= BLOCK
      modifies this
      ensures Valid() && file == old(file) + Physical(crc, kind, data)
      ensures blockOffset == old(blockOffset) + HEADER + |data|
    {
      file := file + (Fixed32(Mask(crc(kind, data))) + [|data| % 256, |data| / 256, kind]);
      file := file + data;
      blockOffset := blockOffset + HEADER + |data|;
    }
  }

  // ----- what the reader does with any bytes at all

  /** The type byte as the reader sees it: a signed char widened to an unsigned int. */
  function TypeOf(b: Byte): nat {
    if b < 128 then b else b + 0xFFFF_FF00
  }

  function BlockEnd(at: nat): nat {
    at - at % BLOCK + BLOCK
  }

  datatype Found = Found(kind: nat, data: Bytes, next: nat, reports: seq<nat>)

  /** The physical record at the front of the buffered rest of a block; next counts buffer bytes. */
  function ParseBuffer(crc: Checksum, checksum: bool, b: Bytes, eof: bool): (r: Found)
    requires |b| >= HEADER
    ensures 0 < r.next <= |b|
  {
    var length := b[4] + 256 * (b[5] as int);
    if HEADER + length > |b| then
      if eof then Found(EOF, [], |b|, []) else Found(BAD, [], |b|, [|b|])
    else if b[6] == ZERO_TYPE && length == 0 then Found(BAD, [], |b|, [])
    else
      var data := b[HEADER..HEADER + length];
      if checksum && Unmask(UnFixed(b[..4]) % TWO32) != crc(b[6], data) then Found(BAD, [], |b|, [|b|])
      else Found(TypeOf(b[6]), data, HEADER + length, [])
  }

  /** The physical record at a position of the file, where to go on, and the sizes reported as dropped. */
  function Parse(crc: Checksum, checksum: bool, file: Bytes, at: nat): (r: Found)
    requires at <= |file|
    ensures at <= r.next <= |file|
    ensures r.kind != EOF ==> at < r.next
  {
    var s := at + Pad(at);
    var stop := Min(BlockEnd(s), |file|);
    if stop < s + HEADER then Found(EOF, [], |file|, [])
    else
      var f := ParseBuffer(crc, checksum, file[s..stop], |file| < BlockEnd(s));
      f.(next := s + f.next)
  }

  /** The fragments of an unfinished record, and the sizes reported as dropped so far. */
  datatype Assembly = Assembly(scratch: Bytes, within: bool, reports: seq<nat>)

  datatype Turn = Done(record: Option<Bytes>, reports: seq<nat>) | More(assembly: Assembly)

  /** What one physical record does to an assembly. */
  function Absorb(a: Assembly, f: Found): Turn {
    var seen := a.reports + f.reports;
    var unended := if a.within && a.scratch != [] then seen + [|a.scratch|] else seen;
    if f.kind == EOF then Done(None, seen)
    else if f.kind == FULL then Done(Some(f.data), unended)
    else if f.kind == FIRST then More(Assembly(f.data, true, unended))
    else if f.kind == MIDDLE then
      More(if a.within then Assembly(a.scratch + f.data, true, seen) else Assembly(a.scratch, false, seen + [|f.data|]))
    else if f.kind == LAST then
      if a.within then Done(Some(a.scratch + f.data), seen) else More(Assembly(a.scratch, false, seen + [|f.data|]))
    else if f.kind == BAD then
      More(if a.within then Assembly([], false, seen + [|a.scratch|]) else Assembly(a.scratch, false, seen))
    else More(Assembly([], false, seen + [|f.data| + if a.within then |a.scratch| else 0]))
  }

  datatype Logical = Logical(record: Option<Bytes>, next: nat, reports: seq<nat>)

  /** The next whole record. */
  function Assemble(crc: Checksum, checksum: bool, file: Bytes, at: nat, a: Assembly): (r: Logical)
    requires at <= |file|
    ensures at <= r.next <= |file|
    ensures r.record.Some? ==> at < r.next
    decreases |file| - at
  {
    var f := Parse(crc, checksum, file, at);
    match Absorb(a, f)
    case Done(record, reports) => Logical(record, f.next, reports)
    case More(a') => Assemble(crc, checksum, file, f.next, a')
  }

  datatype Recovered = Recovered(records: seq<Bytes>, reports: seq<nat>)

  /** Everything a reader returns until the end of the file. */
  function ReadAll(crc: Checksum, checksum: bool, file: Bytes, at: nat, reports: seq<nat>): (r: Recovered)
    requires at <= |file|
    decreases |file| - at
  {
    var l := Assemble(crc, checksum, file, at, Assembly([], false, reports));
    if l.record.None? then Recovered([], l.reports)
    else
      var rest := ReadAll(crc, checksum, file, l.next, l.reports);
      Recovered([l.record.value] + rest.records, rest.reports)
  }

  lemma TakeTurn(crc: Checksum, checksum: bool, file: Bytes, at: nat, a: Assembly)
    requires at <= |file|
    ensures var f := Parse(crc, checksum, file, at);
            Assemble(crc, checksum, file, at, a) == match Absorb(a, f)
              case Done(record, reports) => Logical(record, f.next, reports)
              case More(a') => Assemble(crc, checksum, file, f.next, a')
  {
  }

  lemma InFullBlock(at: nat, end: nat)
    ensures end % BLOCK == 0 && at <= end <= at + BLOCK ==>
        if end - at < HEADER then at + Pad(at) == end else Pad(at) == 0 && BlockEnd(at) == end
  {
    if end % BLOCK == 0 && at <= end <= at + BLOCK {
      assert end - at < BLOCK ==> at % BLOCK == (BLOCK - (end - at)) % BLOCK;
    }
  }

  lemma InLastBlock(at: nat, end: nat)
    ensures at <= end && end - at <= end % BLOCK ==> BlockEnd(at) > end && (end - at >= HEADER ==> Pad(at) == 0)
  {
    if at <= end && end - at <= end % BLOCK {
      assert at % BLOCK == end % BLOCK - (end - at);
    }
  }

  lemma ShortBlock(at: nat, n: nat)
    requires at % BLOCK == 0 && n < BLOCK
    ensures (at + n) % BLOCK == n
  {
  }

  // ----- the reader

  class Reader {
    const crc: Checksum
    const checksum: bool
    const file: Bytes
    var read: nat              // bytes taken from the file
    var buffer: Bytes
    var eof: bool
    var reports: seq<nat>

    ghost predicate Valid()
      reads `read, `buffer, `eof
    {
      && |buffer| <= read <= |file|
      && buffer == file[read - |buffer|..read]
      && (eof ==> read == |file| && |buffer| <= |file| % BLOCK)
      && (!eof ==> read % BLOCK == 0 && |buffer| <= BLOCK)
    }

    /** The file position of the next byte to look at. */
    ghost function At(): (at: nat)
      requires Valid()
      reads `read, `buffer, `eof
      ensures at <= |file|
    {
      read - |buffer|
    }

    constructor (crc: Checksum, checksum: bool, file: Bytes)
      ensures Valid() && At() == 0 && reports == []
      ensures this.crc == crc && this.checksum == checksum && this.file == file
    {
      this.crc, this.checksum, this.file := crc, checksum, file;
      read, buffer, eof, reports := 0, [], false, [];
    }

    /** Skips a trailer and takes the next block; the file has ended if that block is not full. */
    method Refill()
      requires Valid()
      modifies this
      ensures Valid() && reports == old(reports)
      ensures var s := old(At()) + Pad(old(At()));
              if |buffer| < HEADER then eof && |file| < s + HEADER
              else At() == s && read == Min(BlockEnd(s), |file|) && (eof <==> |file| < BlockEnd(s))
    {
      hide Pad, BlockEnd;
      InFullBlock(At(), read);
      InLastBlock(At(), |file|);
      if |buffer| < HEADER && !eof {
        var n := if |file| - read < BLOCK then |file| - read else BLOCK;
        ghost var at := read;
        buffer := file[read..read + n];
        read := read + n;
        if n < BLOCK {
          eof := true;
          ShortBlock(at, n);
        }
        InFullBlock(at, read);
        InLastBlock(at, |file|);
      }
    }

    method ReadPhysicalRecord() returns (kind: nat, data: Bytes)
      requires Valid()
      modifies this
      ensures Valid()
      ensures var p := Parse(crc, checksum, file, old(At()));
          kind == p.kind && data == p.data && At() == p.next && reports == old(reports) + p.reports
    {
      hide Pad, BlockEnd, Mask, Unmask, UnFixed;
      Refill();
      if |buffer| < HEADER {
        buffer := [];
        return EOF, [];
      }
      var length := buffer[4] + 256 * (buffer[5] as int);
      if HEADER + length > |buffer| {
        var drop := |buffer|;
        buffer := [];
        if !eof {
          ReportCorruption(drop);
          return BAD, [];
        }
        return EOF, [];
      }
      if buffer[6] == ZERO_TYPE && length == 0 {
        buffer := [];
        return BAD, [];
      }
      var payload := buffer[HEADER..HEADER + length];
      if checksum && Unmask(UnFixed(buffer[..4]) % TWO32) != crc(buffer[6], payload) {
        var drop := |buffer|;
        buffer := [];
        ReportCorruption(drop);
        return BAD, [];
      }
      kind, data := TypeOf(buffer[6]), payload;
      buffer := buffer[HEADER + length..];
    }

    method ReportCorruption(bytes: nat)
      modifies `reports
      ensures reports == old(reports) + [bytes]
    {
      reports := reports + [bytes];
    }

    method ReadRecord() returns (record: Option<Bytes>)
      requires Valid()
      modifies this
      ensures Valid()
      ensures var l := Assemble(crc, checksum, file, old(At()), Assembly([], false, old(reports)));
          record == l.record && At() == l.next && reports == l.reports
    {
      hide Parse, Assemble, Valid, At;
      var scratch: Bytes := [];
      var within := false;
      ghost var goal := Assemble(crc, checksum, file, At(), Assembly([], false, reports));
      while true
        invariant Valid()
        invariant Assemble(crc, checksum, file, At(), Assembly(scratch, within, reports)) == goal
        decreases |file| - At()
      {
        TakeTurn(crc, checksum, file, At(), Assembly(scratch, within, reports));
        var kind, data := ReadPhysicalRecord();
        if kind == FULL {
          if within && scratch != [] {
            ReportCorruption(|scratch|);
          }
          return Some(data);
        } else if kind == FIRST {
          if within && scratch != [] {
            ReportCorruption(|scratch|);
          }
          scratch, within := data, true;
        } else if kind == MIDDLE {
          if !within {
            ReportCorruption(|data|);
          } else {
            scratch := scratch + data;
          }
        } else if kind == LAST {
          if !within {
            ReportCorruption(|data|);
          } else {
            scratch := scratch + data;
            return Some(scratch);
          }
        } else if kind == EOF {
          return None;
        } else if kind == BAD {
          if within {
            ReportCorruption(|scratch|);
            within, scratch := false, [];
          }
        } else {
          ReportCorruption(|data| + if within then |scratch| else 0);
          within, scratch := false, [];
        }
      }
    }
  }

  /** The loop over a log file at recovery. */
  method Recover(crc: Checksum, checksum: bool, file: Bytes) returns (records: seq<Bytes>, reports: seq<nat>)
    ensures Recovered(records, reports) == ReadAll(crc, checksum, file, 0, [])
  {
    hide Parse, Assemble;
    var reader := new Reader(crc, checksum, file);
    records := [];
    ghost var goal := ReadAll(crc, checksum, file, 0, []);
    while true
      invariant reader.Valid() && fresh(reader)
      invariant reader.crc == crc && reader.checksum == checksum && reader.file == file
      invariant var rest := ReadAll(crc, checksum, file, reader.At(), reader.reports);
          goal == Recovered(records + rest.records, rest.reports)
      decreases |file| - reader.At()
    {
      var record := reader.ReadRecord();
      if record.None? {
        return records, reader.reports;
      }
      records := records + [record.value];
    }
  }

  // ----- reading what was written, whole or cut off

  lemma Parts(head: Bytes, mid: Bytes, data: Bytes)
    requires |head| == 4 && |mid| == 3
    ensures var p := head + mid + data;
        p[..4] == head && p[4] == mid[0] && p[5] == mid[1] && p[6] == mid[2] && p[HEADER..] == data
  {
  }

  lemma HeaderFields(crc: Checksum, kind: Byte, data: Bytes)
    requires |data| < BLOCK
    ensures var p := Physical(crc, kind, data);
        p[4] + 256 * (p[5] as int) == |data| && p[6] == kind && p[HEADER..] == data
        && Unmask(UnFixed(p[..4]) % TWO32) == crc(kind, data)
  {
    hide Mask, Unmask, Fixed32;
    var head := Fixed32(Mask(crc(kind, data)));
    Parts(head, [|data| % 256, |data| / 256, kind], data);
    Fixed32RoundTrip(Mask(crc(kind, data)));
    MaskRoundTrip(crc(kind, data));
  }

  lemma ParseBufferWhole(crc: Checksum, checksum: bool, b: Bytes, eof: bool, kind: Byte, data: Bytes)
    requires |data| < BLOCK && FULL <= kind <= LAST && Physical(crc, kind, data) <= b
    ensures ParseBuffer(crc, checksum, b, eof) == Found(kind, data, HEADER + |data|, [])
  {
    hide Physical, Unmask, UnFixed;
    var p := Physical(crc, kind, data);
    HeaderFields(crc, kind, data);
    assert b[..4] == p[..4] && b[HEADER..HEADER + |data|] == p[HEADER..];
    assert b[4] == p[4] && b[5] == p[5] && b[6] == p[6];
  }

  lemma ParseBufferCut(crc: Checksum, checksum: bool, b: Bytes, kind: Byte, data: Bytes)
    requires |data| < BLOCK && HEADER <= |b| < HEADER + |data| && b == Physical(crc, kind, data)[..|b|]
    ensures ParseBuffer(crc, checksum, b, true) == Found(EOF, [], |b|, [])
  {
    hide Physical, Unmask, UnFixed;
    HeaderFields(crc, kind, data);
  }

  /** A whole fragment is found where it was written. */
  lemma ParseWhole(crc: Checksum, checksum: bool, file: Bytes, at: nat, kind: Byte, data: Bytes)
    requires |data| <= Room(at) && FULL <= kind <= LAST
    requires var f := Zeros(Pad(at)) + Physical(crc, kind, data); at + |f| <= |file| && file[at..at + |f|] == f
    ensures Parse(crc, checksum, file, at) == Found(kind, data, at + Pad(at) + HEADER + |data|, [])
  {
    var p := Physical(crc, kind, data);
    var f := Zeros(Pad(at)) + p;
    var s := at + Pad(at);
    var stop := Min(BlockEnd(s), |file|);
    assert s + |p| <= stop;
    hide Pad, Room, BlockEnd, Physical, ParseBuffer;
    Within(file, at, f, Pad(at), |f|);
    assert f[Pad(at)..] == p;
    SliceOfSlice(file, s, stop, 0, |p|);
    assert file[s..stop][..|p|] == p;
    ParseBufferWhole(crc, checksum, file[s..stop], |file| < BlockEnd(s), kind, data);
  }

  lemma Within(file: Bytes, at: nat, f: Bytes, i: nat, j: nat)
    requires at + |f| <= |file| && file[at..at + |f|] == f && i <= j <= |f|
    ensures file[at + i..at + j] == f[i..j]
  {
    SliceOfSlice(file, at, at + |f|, i, j);
  }

  /** A fragment cut off at the end of the file reads as the end of the file. */
  lemma ParseCut(crc: Checksum, checksum: bool, file: Bytes, at: nat, kind: Byte, data: Bytes)
    requires |data| <= Room(at) && at <= |file|
    requires var f := Zeros(Pad(at)) + Physical(crc, kind, data); |file| < at + |f| && file[at..] == f[..|file| - at]
    ensures Parse(crc, checksum, file, at) == Found(EOF, [], |file|, [])
  {
    var p := Physical(crc, kind, data);
    var f := Zeros(Pad(at)) + p;
    var s := at + Pad(at);
    assert |file| < BlockEnd(s);
    hide Pad, Room, BlockEnd, Physical, ParseBuffer;
    if s + HEADER <= |file| {
      SliceOfSlice(file, at, |file|, Pad(at), |file| - at);
      assert f[..|file| - at][Pad(at)..] == p[..|file| - s];
      ParseBufferCut(crc, checksum, file[s..|file|], kind, data);
    }
  }

  /** A whole record is put together from its fragments. */
  lemma {:induction false} AssembleWhole(crc: Checksum, checksum: bool, file: Bytes, at: nat, data: Bytes,
      begin: bool, a: Assembly)
    requires var r := RecordBytes(crc, at, data, begin); at + |r| <= |file| && file[at..at + |r|] == r
    requires a.within == !begin && (begin ==> a.scratch == [])
    ensures Assemble(crc, checksum, file, at, a) == Logical(Some(a.scratch + data), at
        + |RecordBytes(crc, at, data, begin)|, a.reports)
    decreases |data|, if Room(at) == 0 then 1 else 0
  {
    hide RecordBytes, Parse, Pad, Room, Physical;
    var n := Cut(at, data);
    var kind := KindOf(begin, n == |data|);
    var f := Fragment(crc, at, data, n, begin);
    var r := RecordBytes(crc, at, data, begin);
    Unfold(crc, at, data, begin, n, f);
    Front(file, at, r, f);
    ParseWhole(crc, checksum, file, at, kind, data[..n]);
    assert a.reports + [] == a.reports;
    if n < |data| {
      var a' := Assembly(a.scratch + data[..n], true, a.reports);
      assert Absorb(a, Found(kind, data[..n], at + |f|, [])) == More(a');
      Back(file, at, r, f);
      AssembleWhole(crc, checksum, file, at + |f|, data[n..], false, a');
      assert a'.scratch + data[n..] == a.scratch + data by { assert data[..n] + data[n..] == data; }
    } else {
      assert data[..n] == data && (begin ==> a.scratch + data == data);
      assert Absorb(a, Found(kind, data, at + |f|, [])) == Done(Some(a.scratch + data), a.reports);
    }
  }

  lemma Front(file: Bytes, at: nat, r: Bytes, f: Bytes)
    requires at + |r| <= |file| && file[at..at + |r|] == r && f <= r
    ensures file[at..at + |f|] == f
  {
    Within(file, at, r, 0, |f|);
  }

  lemma Back(file: Bytes, at: nat, r: Bytes, f: Bytes)
    requires at + |r| <= |file| && file[at..at + |r|] == r && f <= r
    ensures file[at + |f|..at + |r|] == r[|f|..]
  {
    Within(file, at, r, |f|, |r|);
  }

  /** A record cut off by the end of the file is dropped without a word. */
  lemma {:induction false} AssembleCut(crc: Checksum, checksum: bool, file: Bytes, at: nat, data: Bytes, begin: bool,
      a: Assembly)
    requires at <= |file|
    requires var r := RecordBytes(crc, at, data, begin); |file| < at + |r| && file[at..] == r[..|file| - at]
    requires a.within == !begin && (begin ==> a.scratch == [])
    ensures Assemble(crc, checksum, file, at, a) == Logical(None, |file|, a.reports)
    decreases |data|, if Room(at) == 0 then 1 else 0
  {
    hide RecordBytes, Parse, Pad, Room, Physical;
    var n := Cut(at, data);
    var kind := KindOf(begin, n == |data|);
    var f := Fragment(crc, at, data, n, begin);
    var r := RecordBytes(crc, at, data, begin);
    Unfold(crc, at, data, begin, n, f);
    assert a.reports + [] == a.reports;
    if |file| < at + |f| {
      assert file[at..] == f[..|file| - at];
      ParseCut(crc, checksum, file, at, kind, data[..n]);
    } else {
      Prefix(file, at, r, f);
      ParseWhole(crc, checksum, file, at, kind, data[..n]);
      var a' := Assembly(a.scratch + data[..n], true, a.reports);
      assert Absorb(a, Found(kind, data[..n], at + |f|, [])) == More(a');
      AssembleCut(crc, checksum, file, at + |f|, data[n..], false, a');
    }
  }

  lemma Prefix(file: Bytes, at: nat, r: Bytes, f: Bytes)
    requires at + |f| <= |file| <= at + |r| && file[at..] == r[..|file| - at] && f <= r
    ensures file[at..at + |f|] == f
    ensures file[at + |f|..] == r[|f|..][..|file| - at - |f|]
  {
    SliceOfSlice(file, at, |file|, 0, |f|);
    SliceOfSlice(file, at, |file|, |f|, |file| - at);
    assert r[..|file| - at][..|f|] == f;
  }

  /** How many of the records lie wholly before a file position. */
  function Contained(crc: Checksum, at: nat, recs: seq<Bytes>, end: nat): (k: nat)
    ensures k <= |recs|
    decreases recs
  {
    if recs == [] then 0
    else
      var next := at + |RecordBytes(crc, at, recs[0], true)|;
      if end < next then 0 else 1 + Contained(crc, next, recs[1..], end)
  }

  /** Contained is the largest number of records whose log fits. */
  lemma {:induction false} ContainedIsLargest(crc: Checksum, at: nat, recs: seq<Bytes>, end: nat, k: nat)
    requires at <= end && k <= |recs|
    ensures k <= Contained(crc, at, recs, end) <==> at + |LogBytes(crc, at, recs[..k])| <= end
    decreases recs
  {
    hide RecordBytes;
    if recs != [] && k > 0 {
      var next := at + |RecordBytes(crc, at, recs[0], true)|;
      assert recs[..k][1..] == recs[1..][..k - 1];
      if next <= end {
        ContainedIsLargest(crc, next, recs[1..], end, k - 1);
      }
    }
  }

  /** A log cut off at any byte gives back exactly the records wholly before the cut, and reports nothing. */
  lemma {:induction false} ReadAllCut(crc: Checksum, checksum: bool, file: Bytes, at: nat, recs: seq<Bytes>,
      reports: seq<nat>)
    requires at <= |file|
    requires var log := LogBytes(crc, at, recs); |file| <= at + |log| && file[at..] == log[..|file| - at]
    ensures ReadAll(crc, checksum, file, at, reports) == Recovered(recs[..Contained(crc, at, recs, |file|)], reports)
    decreases recs
  {
    hide RecordBytes, Parse, Assemble;
    if recs == [] {
      AtTheEnd(crc, checksum, file, reports);
    } else {
      var r := RecordBytes(crc, at, recs[0], true);
      var log := LogBytes(crc, at, recs);
      var a := Assembly([], false, reports);
      if |file| < at + |r| {
        assert file[at..] == r[..|file| - at];
        AssembleCut(crc, checksum, file, at, recs[0], true, a);
      } else {
        Prefix(file, at, log, r);
        AssembleWhole(crc, checksum, file, at, recs[0], true, a);
        assert [] + recs[0] == recs[0];
        ReadAllCut(crc, checksum, file, at + |r|, recs[1..], reports);
        var k := Contained(crc, at + |r|, recs[1..], |file|);
        assert [recs[0]] + recs[1..][..k] == recs[..k + 1];
      }
    }
  }

  lemma AtTheEnd(crc: Checksum, checksum: bool, file: Bytes, reports: seq<nat>)
    ensures ReadAll(crc, checksum, file, |file|, reports) == Recovered([], reports)
  {
    assert Parse(crc, checksum, file, |file|) == Found(EOF, [], |file|, []);
    assert reports + [] == reports;
  }

  /** Reading back a log cut off after t bytes. */
  lemma CrashTruncation(crc: Checksum, checksum: bool, recs: seq<Bytes>, t: nat)
    requires t <= |LogBytes(crc, 0, recs)|
    ensures ReadAll(crc, checksum, LogBytes(crc, 0, recs)[..t], 0, []) ==
        Recovered(recs[..Contained(crc, 0, recs, t)], [])
  {
    var file := LogBytes(crc, 0, recs)[..t];
    assert file[0..] == file;
    ReadAllCut(crc, checksum, file, 0, recs, []);
  }

  lemma LogRoundTrip(crc: Checksum, checksum: bool, recs: seq<Bytes>)
    ensures ReadAll(crc, checksum, LogBytes(crc, 0, recs), 0, []) == Recovered(recs, [])
  {
    var log := LogBytes(crc, 0, recs);
    assert log[..|log|] == log && recs[..|recs|] == recs;
    CrashTruncation(crc, checksum, recs, |log|);
    ContainedIsLargest(crc, 0, recs, |log|, |recs|);
  }
}
