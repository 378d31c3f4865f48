/** The write-ahead log: records cut into physical records that never cross a block, and a reader
    that survives a file cut at any byte (db/log_format.h, db/log_writer.cc, db/log_reader.cc). */
module Log {
  import opened Keys
  import opened Coding

  const BLOCK := 32768
  const HEADER := 7

  const ZERO: Byte := 0
  const FULL: Byte := 1
  const FIRST: Byte := 2
  const MIDDLE: Byte := 3
  const LAST: Byte := 4

  // ---------- the format ----------

  /** End of the block that holds position p. */
  function BlockEnd(p: nat): nat { p - p % BLOCK + BLOCK }

  /** Zero bytes that fill a tail too short for a header. */
  function Padding(p: nat): nat
  {
    if BlockEnd(p) - p < HEADER then BlockEnd(p) - p else 0
  }

  function Zeros(n: nat): (b: Bytes)
    ensures |b| == n
  {
    seq(n, _ => 0)
  }

  /** Payload that fits in the block of the next physical record. */
  function Room(p: nat): nat
  {
    var q := p + Padding(p);
    BlockEnd(q) - q - HEADER
  }

  function LengthAndKind(length: nat, kind: Byte): (b: Bytes)
    requires length <= 0xffff
    ensures |b| == 3
  {
    [length % 256, length / 256, kind]
  }

  /** EmitPhysicalRecord: masked checksum of type and payload, length, type, payload. */
  function Emit(step: Crc, kind: Byte, payload: Bytes): (b: Bytes)
    requires |payload| <= 0xffff
    ensures |b| == HEADER + |payload|
  {
    Fixed32(Mask(Extend(step, Extend(step, 0, [kind]), payload))) + LengthAndKind(|payload|, kind) + payload
  }

  function Chunk(step: Crc, p: nat, kind: Byte, payload: Bytes): (b: Bytes)
    requires |payload| <= 0xffff
    ensures |b| == Padding(p) + HEADER + |payload|
  {
    Zeros(Padding(p)) + Emit(step, kind, payload)
  }

  function Kind(begin: bool, end: bool): Byte
  {
    if begin && end then FULL else if begin then FIRST else if end then LAST else MIDDLE
  }

  /** One logical record written at position p. */
  function Fragments(step: Crc, p: nat, data: Bytes, begin: bool): Bytes
    decreases |data|, if Room(p) == 0 then 1 else 0
  {
    if |data| <= Room(p) then Chunk(step, p, Kind(begin, true), data)
    else
      var n := Room(p);
      var q := p + Padding(p) + HEADER + n;
      Chunk(step, p, Kind(begin, false), data[..n]) + Fragments(step, q, data[n..], false)
  }

  /** A whole log, from position p on. */
  function Records(step: Crc, p: nat, records: seq<Bytes>): Bytes
    decreases |records|
  {
    if records == [] then []
    else
      var first := Fragments(step, p, records[0], true);
      first + Records(step, p + |first|, records[1..])
  }

  // ---------- the writer ----------

  class Writer {
    const step: Crc
    var dest: Bytes
    var blockOffset: nat

    /** The offset in the block is the length of the file, where a full block may also count as BLOCK. */
    ghost predicate Valid()
      reads this
    {
      blockOffset <= BLOCK && blockOffset % BLOCK == |dest| % BLOCK
    }

    constructor (step: Crc)
      ensures Valid() && dest == [] && this.step == step
    {
      this.step := step;
      dest := [];
      blockOffset := 0;
    }

    /** Continues a file of some length. */
    constructor Append(step: Crc, dest: Bytes)
      ensures Valid() && this.dest == dest && this.step == step
    {
      this.step := step;
      this.dest := dest;
      blockOffset := |dest| % BLOCK;
    }

    /** One turn of the loop: fills a short tail, then emits as much as fits. */
    method AddFragment(left: Bytes, begin: bool) returns (n: nat)
      requires Valid()
      modifies this
      ensures Valid() && n == Fit(|old(dest)|, left)
      ensures dest == old(dest) + Chunk(step, |old(dest)|, Kind(begin, |left| == n), left[..n])
    {
      hide Padding, Room, Emit, Chunk, Fit, Zeros, Kind;
      LeftoverIs(blockOffset, |dest|, left);
      var leftover := BLOCK - blockOffset;
      if leftover < HEADER {
        dest := dest + Zeros(leftover);
        blockOffset := 0;
      }
      var avail := BLOCK - blockOffset - HEADER;
      n := if |left| < avail then |left| else avail;
      var kind := Kind(begin, |left| == n);
      AppendChunk(step, old(dest), |dest| - |old(dest)|, kind, left[..n]);
      dest := dest + Emit(step, kind, left[..n]);
      blockOffset := blockOffset + HEADER + n;
    }

    method AddRecord(slice: Bytes)
      requires Valid()
      modifies this
      ensures Valid() && dest == old(dest) + Fragments(step, |old(dest)|, slice, true)
    {
      hide *;
      FragmentsStep(step, |dest|, slice, true);
      FitIs(|dest|, slice);
      ghost var target := dest + Fragments(step, |dest|, slice, true);
      ghost var m := Fit(|dest|, slice);
      ghost var head := Chunk(step, |dest|, Kind(true, |slice| == m), slice[..m]);
      Regroup(dest, head, Fragments(step, |dest| + |head|, slice[m..], false));
      var n := AddFragment(slice, true);
      var left := slice[n..];
      while |left| > 0
        invariant Valid()
        invariant target == if |left| > 0 then dest + Fragments(step, |dest|, left, false) else dest
        decreases |left|, if Room(|dest|) == 0 then 1 else 0
      {
        FragmentsStep(step, |dest|, left, false);
        RoomAfter(|dest|);
        FitIs(|dest|, left);
        ghost var chunk := Chunk(step, |dest|, Kind(false, |left| == Fit(|dest|, left)), left[..Fit(|dest|, left)]);
        Regroup(dest, chunk, Fragments(step, |dest| + |chunk|, left[Fit(|dest|, left)..], false));
        n := AddFragment(left, false);
        left := left[n..];
      }
    }
  }

  lemma Regroup(a: Bytes, b: Bytes, c: Bytes)
    ensures a + (b + c) == (a + b) + c && |a + b| == |a| + |b|
  {}

  lemma RoomAfter(p: nat)
    ensures Room(p) == 0 ==> Room(p + Padding(p) + HEADER) > 0
  {}

  lemma FitIs(p: nat, data: Bytes)
    ensures Fit(p, data) <= |data| && Fit(p, data) <= Room(p) <= 0xffff
            && (Fit(p, data) == 0 ==> |data| == 0 || Room(p) == 0)
  {}

  /** How much of the data goes into the next physical record. */
  function Fit(p: nat, data: Bytes): nat
  {
    if |data| < Room(p) then |data| else Room(p)
  }

  /** A block offset of BLOCK and one of 0 lead to the same next fragment. */
  lemma LeftoverIs(offset: nat, length: nat, left: Bytes)
    requires offset <= BLOCK && offset % BLOCK == length % BLOCK
    ensures var leftover := BLOCK - offset;
            var o, l := if leftover < HEADER then 0 else offset, if leftover < HEADER then length + leftover
                else length;
            var avail := BLOCK - o - HEADER;
            && 0 <= avail <= 0xffff && l - length == Padding(length)
            && Fit(length, left) == (if |left| < avail then |left| else avail)
            && (o + HEADER + Fit(length, left)) % BLOCK == (l + HEADER + Fit(length, left)) % BLOCK
            && o + HEADER + Fit(length, left) <= BLOCK
  {}

  lemma AppendChunk(step: Crc, dest: Bytes, pad: nat, kind: Byte, payload: Bytes)
    requires pad == Padding(|dest|) && |payload| <= 0xffff
    ensures dest + Zeros(pad) + Emit(step, kind, payload) == dest + Chunk(step, |dest|, kind, payload)
    ensures dest + Zeros(0) == dest
  {}

  lemma FragmentsStep(step: Crc, p: nat, data: Bytes, begin: bool)
    ensures var n := Fit(p, data);
            var chunk := Chunk(step, p, Kind(begin, |data| == n), data[..n]);
            Fragments(step, p, data, begin) ==
              if |data| == n then chunk else chunk + Fragments(step, p + |chunk|, data[n..], false)
  {
    hide Chunk, Padding, Room, Kind;
    if |data| <= Room(p) {
      assert data[..|data|] == data;
    }
  }

  // ---------- reading, as functions of the file ----------

  datatype Physical = Fragment(kind: Byte, data: Bytes) | Eof | Bad

  /** A physical read: what was found, how many bytes were consumed, how many corruptions were reported. */
  datatype Parsed = Parsed(what: Physical, used: nat, reports: nat)

  /** Reads one physical record from the rest of a block; `full` says whether the block is complete. */
  function ParseBlock(step: Crc, checksum: bool, buffer: Bytes, full: bool): (r: Parsed)
    requires |buffer| >= HEADER
    ensures 0 < r.used <= |buffer|
  {
    var a: int, b: int := buffer[4], buffer[5];
    var length := a + 256 * b;
    var kind := buffer[6];
    if HEADER + length > |buffer| then (if full then Parsed(Bad, |buffer|, 1) else Parsed(Eof, |buffer|, 0))
    else if kind == ZERO && length == 0 then Parsed(Bad, |buffer|, 0)
    else if checksum && Unmask(DecodeFixed32(buffer)) != Extend(step, 0, buffer[6..HEADER + length]) then
      Parsed(Bad, |buffer|, 1)
    else Parsed(Fragment(kind, buffer[HEADER..HEADER + length]), HEADER + length, 0)
  }

  function Min(a: nat, b: nat): nat { if a < b then a else b }

  /** The rest of the block that holds position p. */
  function Rest(file: Bytes, p: nat): Bytes
    requires p <= |file|
  {
    file[p..Min(BlockEnd(p), |file|)]
  }

  /** ReadPhysicalRecord, as a function of the position. */
  function NextPhysical(step: Crc, checksum: bool, file: Bytes, p: nat): (r: Parsed)
    requires p <= |file|
    ensures p + r.used <= |file|
    ensures !r.what.Eof? ==> 0 < r.used
    decreases |file| - p
  {
    var full := BlockEnd(p) <= |file|;
    if |Rest(file, p)| < HEADER then
      if full then
        var r := NextPhysical(step, checksum, file, BlockEnd(p));
        r.(used := r.used + (BlockEnd(p) - p))
      else Parsed(Eof, |Rest(file, p)|, 0)
    else ParseBlock(step, checksum, Rest(file, p), full)
  }

  /** A logical read: the record if there was one, bytes consumed, corruptions reported. */
  datatype Outcome = Outcome(record: Option<Bytes>, used: nat, reports: nat)

  /** What one physical record does to the record being assembled: finish, or go on. */
  datatype Turn = Done(record: Option<Bytes>, reports: nat) | GoOn(scratch: Option<Bytes>, reports: nat)

  /** The switch of ReadRecord; `scratch` holds the fragments of an open record. */
  function Assemble(what: Physical, scratch: Option<Bytes>): (t: Turn)
    ensures what.Eof? ==> t == Done(None, 0)
    ensures t.Done? && t.record.None? ==> what.Eof?
  {
    var partial := if scratch.Some? && scratch.value != [] then 1 else 0;
    match what
    case Eof => Done(None, 0)
    case Bad => GoOn(None, if scratch.Some? then 1 else 0)
    case Fragment(kind, data) =>
      if kind == FULL then Done(Some(data), partial)
      else if kind == FIRST then GoOn(Some(data), partial)
      else if kind == MIDDLE then (if scratch.None? then GoOn(None, 1) else GoOn(Some(scratch.value + data), 0))
      else if kind == LAST then (if scratch.None? then GoOn(None, 1) else Done(Some(scratch.value + data), 0))
      else GoOn(None, 1)
  }

  /** ReadRecord, as a function of the position. */
  function NextRecord(step: Crc, checksum: bool, file: Bytes, p: nat, scratch: Option<Bytes>): (r: Outcome)
    requires p <= |file|
    ensures p + r.used <= |file|
    ensures r.record.Some? ==> 0 < r.used
    decreases |file| - p
  {
    var ph := NextPhysical(step, checksum, file, p);
    match Assemble(ph.what, scratch)
    case Done(record, reports) => Outcome(record, ph.used, ph.reports + reports)
    case GoOn(more, reports) =>
      var r := NextRecord(step, checksum, file, p + ph.used, more);
      Outcome(r.record, ph.used + r.used, ph.reports + reports + r.reports)
  }

  // ---------- the reader ----------

  class Reader {
    const step: Crc
    const checksum: bool
    const file: Bytes
    var read: nat          // bytes of the file read so far
    var buffer: Bytes
    var eof: bool
    var reports: nat       // corruptions reported

    ghost function Position(): nat
      requires Valid()
      reads this`read, this`buffer, this`eof
    {
      read - |buffer|
    }

    ghost predicate Loaded()
      reads this`read, this`buffer, this`eof
    {
      && |buffer| <= read <= |file|
      && buffer == Rest(file, read - |buffer|) && (eof <==> BlockEnd(read - |buffer|) > |file|)
    }

    /** The buffer is the rest of the current block, or empty because the next block has not been read. */
    ghost predicate Valid()
      reads this`read, this`buffer, this`eof
    {
      |buffer| <= read <= |file| && (Loaded() || (buffer == [] && !eof && read % BLOCK == 0))
    }

    constructor (step: Crc, checksum: bool, file: Bytes)
      ensures Valid() && Position() == 0 && reports == 0
      ensures this.step == step && this.checksum == checksum && this.file == file
    {
      this.step, this.checksum, this.file := step, checksum, file;
      read, buffer, eof, reports := 0, [], false, 0;
    }

    /** Drops a tail too short for a header and reads the next block. */
    method Refill()
      requires Valid() && !eof && |buffer| < HEADER
      modifies this`buffer, this`read, this`eof
      ensures Loaded() && old(Position()) <= Position()
      ensures SameFrom(step, checksum, file, old(Position()), Position())
      ensures read >= old(read) && (eof || read > old(read))
    {
      hide NextPhysical, SameFrom;
      TailIs(file, Position());
      SkipTail(step, checksum, file, Position(), read);
      var n := Min(BLOCK, |file| - read);
      buffer := file[read..read + n];
      read := read + n;
      if n < BLOCK {
        eof := true;
      }
    }

    /** Reads on until a header is there or the file has ended. */
    method FillBuffer()
      requires Valid()
      modifies this`buffer, this`read, this`eof
      ensures Loaded() && old(Position()) <= Position() && (|buffer| < HEADER ==> eof)
      ensures SameFrom(step, checksum, file, old(Position()), Position())
    {
      hide NextPhysical, Rest, BlockEnd;
      while |buffer| < HEADER && !eof
        invariant Valid() && old(Position()) <= Position()
        invariant |buffer| >= HEADER || eof ==> Loaded()
        invariant SameFrom(step, checksum, file, old(Position()), Position())
        decreases |file| - read, !eof
      {
        Refill();
      }
    }

    /** Removes the bytes of one physical record from the buffer. */
    method Consume(n: nat)
      requires Loaded() && n <= |buffer|
      modifies this`buffer
      ensures Valid() && Position() == old(Position()) + n
    {
      BlockEndWithin(Position(), n);
      buffer := buffer[n..];
    }

    method ReadPhysicalRecord() returns (what: Physical)
      requires Valid()
      modifies this
      ensures Valid()
      ensures var r := NextPhysical(step, checksum, file, old(Position()));
              what == r.what && Position() == old(Position()) + r.used && reports == old(reports) + r.reports
    {
      hide NextPhysical, ParseBlock, BlockEnd;
      FillBuffer();
      if |buffer| < HEADER {
        PhysicalIs(step, checksum, file, Position());
        buffer := [];
        EndOfFile(file);
        return Eof;
      }
      PhysicalIs(step, checksum, file, Position());
      var r := ParseBlock(step, checksum, buffer, !eof);
      reports := reports + r.reports;
      Consume(r.used);
      return r.what;
    }

    /** Reads physical records until a logical one is complete or the file ends. */
    method ReadRecord() returns (record: Option<Bytes>)
      requires Valid()
      modifies this
      ensures Valid()
      ensures var r := NextRecord(step, checksum, file, old(Position()), None);
              record == r.record && Position() == old(Position()) + r.used && reports == old(reports) + r.reports
    {
      hide NextPhysical, Assemble, Loaded;
      var turn := GoOn(None, 0);
      while turn.GoOn?
        invariant Valid() && old(Position()) <= Position()
        invariant var r := NextRecord(step, checksum, file, old(Position()), None);
                  match turn
                  case Done(rec, _) => rec == r.record && Position() == old(Position()) + r.used
                      && reports == old(reports) + r.reports
                  case GoOn(scratch, _) =>
                    var q := NextRecord(step, checksum, file, Position(), scratch);
                    && r.record == q.record && old(Position()) + r.used == Position() + q.used
                    && old(reports) + r.reports == reports + q.reports
        decreases turn.GoOn?, |file| - Position()
      {
        var what := ReadPhysicalRecord();
        turn := Assemble(what, turn.scratch);
        reports := reports + turn.reports;
      }
      record := turn.record;
    }
  }

  lemma TailIs(file: Bytes, p: nat)
    requires p <= |file|
    ensures p < BlockEnd(p) && (p % BLOCK == 0 ==> BlockEnd(p) == p + BLOCK) && BlockEnd(p) % BLOCK == 0
    ensures BlockEnd(p) <= |file| ==> p + |Rest(file, p)| == BlockEnd(p)
  {}

  lemma EndOfFile(file: Bytes)
    ensures Rest(file, |file|) == [] && BlockEnd(|file|) > |file|
  {}

  lemma PhysicalIs(step: Crc, checksum: bool, file: Bytes, p: nat)
    requires p <= |file|
    ensures |Rest(file, p)| >= HEADER ==>
              NextPhysical(step, checksum, file, p) == ParseBlock(step, checksum, Rest(file, p), BlockEnd(p) <= |file|)
    ensures |Rest(file, p)| < HEADER && BlockEnd(p) > |file| ==>
              NextPhysical(step, checksum, file, p) == Parsed(Eof, |Rest(file, p)|, 0) && |Rest(file, p)| == |file| - p
  {}

  lemma BlockEndWithin(p: nat, n: nat)
    ensures p + n < BlockEnd(p) ==> BlockEnd(p + n) == BlockEnd(p)
    ensures p + n == BlockEnd(p) ==> (p + n) % BLOCK == 0
  {}

  /** Reading from q gives what reading from p would. */
  ghost predicate SameFrom(step: Crc, checksum: bool, file: Bytes, p: nat, q: nat)
    requires p <= |file| && q <= |file|
  {
    var r, t := NextPhysical(step, checksum, file, p), NextPhysical(step, checksum, file, q);
    r.what == t.what && p + r.used == q + t.used && r.reports == t.reports
  }

  lemma SkipTail(step: Crc, checksum: bool, file: Bytes, p: nat, q: nat)
    requires p <= q <= |file| && (p == q || (q == BlockEnd(p) && q - p < HEADER))
    ensures SameFrom(step, checksum, file, p, q)
  {}

  // ---------- what a cut file yields ----------

  ghost predicate RecordKind(kind: Byte)
  {
    FULL <= kind <= LAST
  }

  lemma EmitLayout(step: Crc, kind: Byte, payload: Bytes, tail: Bytes)
    requires |payload| <= 0xffff
    ensures var b := Emit(step, kind, payload) + tail;
            && b[4] == |payload| % 256 && b[5] == |payload| / 256 && b[6] == kind
            && b[6..HEADER + |payload|] == [kind] + payload && b[HEADER..HEADER + |payload|] == payload
  {}

  lemma Reassociate(a: Bytes, b: Bytes, c: Bytes, d: Bytes)
    ensures a + b + c + d == a + (b + c + d)
    ensures a + (b + c) == a + b + c
  {}

  lemma EmitChecksum(step: Crc, kind: Byte, payload: Bytes, tail: Bytes)
    requires |payload| <= 0xffff
    ensures Unmask(DecodeFixed32(Emit(step, kind, payload) + tail)) == Extend(step, 0, [kind] + payload)
  {
    hide *;
    var crc := Extend(step, Extend(step, 0, [kind]), payload);
    EmitIs(step, kind, payload, tail, crc);
    Fixed32RoundTrip(Mask(crc), LengthAndKind(|payload|, kind) + payload + tail);
    MaskRoundTrip(crc);
    ExtendConcat(step, 0, [kind], payload);
  }

  lemma EmitIs(step: Crc, kind: Byte, payload: Bytes, tail: Bytes, crc: U32)
    requires |payload| <= 0xffff && crc == Extend(step, Extend(step, 0, [kind]), payload)
    ensures Emit(step, kind, payload) + tail == Fixed32(Mask(crc)) + (LengthAndKind(|payload|, kind) + payload + tail)
  {
    hide Extend, Mask, Fixed32, LengthAndKind;
    Reassociate(Fixed32(Mask(crc)), LengthAndKind(|payload|, kind), payload, tail);
  }

  lemma ParseWhole(step: Crc, checksum: bool, kind: Byte, payload: Bytes, buffer: Bytes, full: bool)
    requires |payload| <= 0xffff && RecordKind(kind) && Emit(step, kind, payload) <= buffer
    ensures ParseBlock(step, checksum, buffer, full) == Parsed(Fragment(kind, payload), HEADER + |payload|, 0)
  {
    hide Emit, Extend, Unmask, DecodeFixed32;
    var n := HEADER + |payload|;
    EmitLayout(step, kind, payload, buffer[n..]);
    EmitChecksum(step, kind, payload, buffer[n..]);
    assert buffer == Emit(step, kind, payload) + buffer[n..];
  }

  lemma ParseCut(step: Crc, checksum: bool, kind: Byte, payload: Bytes, buffer: Bytes)
    requires |payload| <= 0xffff && buffer <= Emit(step, kind, payload) && HEADER <= |buffer| < HEADER + |payload|
    ensures ParseBlock(step, checksum, buffer, false) == Parsed(Eof, |buffer|, 0)
  {
    hide Emit, Extend, Unmask, DecodeFixed32;
    EmitLayout(step, kind, payload, []);
    assert Emit(step, kind, payload) + [] == Emit(step, kind, payload);
  }

  /** A physical record at p is read back whole when the file reaches its end, and otherwise reads as end of file. */
  ghost predicate ReadsChunk(step: Crc, checksum: bool, file: Bytes, p: nat, kind: Byte, payload: Bytes)
    requires p <= |file|
  {
    var r, n := NextPhysical(step, checksum, file, p), Padding(p) + HEADER + |payload|;
    r.reports == 0 && if n <= |file| - p then r.what == Fragment(kind, payload) && r.used == n else r.what == Eof
  }

  lemma ReadAligned(step: Crc, checksum: bool, file: Bytes, p: nat, kind: Byte, payload: Bytes, more: Bytes)
    requires p <= |file| && Padding(p) == 0 && |payload| <= Room(p) && RecordKind(kind)
    requires file[p..] <= Emit(step, kind, payload) + more
    ensures ReadsChunk(step, checksum, file, p, kind, payload)
  {
    hide Emit, ParseBlock;
    PhysicalIs(step, checksum, file, p);
    var n, rest := HEADER + |payload|, Rest(file, p);
    assert rest <= file[p..];
    if |rest| < HEADER {
    } else if n <= |file| - p {
      assert Emit(step, kind, payload) == (Emit(step, kind, payload) + more)[..n] == file[p..][..n] == rest[..n];
      ParseWhole(step, checksum, kind, payload, rest, BlockEnd(p) <= |file|);
    } else {
      assert rest == (Emit(step, kind, payload) + more)[..|rest|] == Emit(step, kind, payload)[..|rest|];
      ParseCut(step, checksum, kind, payload, rest);
    }
  }

  lemma ReadChunk(step: Crc, checksum: bool, file: Bytes, p: nat, kind: Byte, payload: Bytes, more: Bytes)
    requires p <= |file| && |payload| <= Room(p) && RecordKind(kind)
    requires file[p..] <= Chunk(step, p, kind, payload) + more
    ensures ReadsChunk(step, checksum, file, p, kind, payload)
  {
    hide Emit, ParseBlock;
    var pad := Padding(p);
    if pad == 0 {
      assert Chunk(step, p, kind, payload) == Emit(step, kind, payload);
      ReadAligned(step, checksum, file, p, kind, payload, more);
    } else if BlockEnd(p) <= |file| {
      var q := BlockEnd(p);
      assert file[q..] == file[p..][pad..];
      assert (Chunk(step, p, kind, payload) + more)[pad..] == Emit(step, kind, payload) + more;
      ReadAligned(step, checksum, file, q, kind, payload, more);
      SkipTail(step, checksum, file, p, q);
    } else {
      PhysicalIs(step, checksum, file, p);
    }
  }

  /** A logical record at p, likewise; `scratch` holds what earlier fragments brought. */
  lemma {:induction false} ReadFragments(step: Crc, checksum: bool, file: Bytes, p: nat,
                                         data: Bytes, scratch: Option<Bytes>, more: Bytes)
    requires p <= |file| && file[p..] <= Fragments(step, p, data, scratch.None?) + more
    ensures var r, n := NextRecord(step, checksum, file, p, scratch), |Fragments(step, p, data, scratch.None?)|;
            && r.reports == 0
            && if n <= |file| - p then r.used == n && r.record == Some(Joined(scratch, data))
               else r.record == None
    decreases |data|, if Room(p) == 0 then 1 else 0
  {
    hide Fragments, Chunk, NextPhysical, Room, Padding, NextRecord, ReadsChunk;
    FitIs(p, data);
    var begin, n := scratch.None?, Fit(p, data);
    var kind, part := Kind(begin, |data| == n), data[..n];
    var chunk := Chunk(step, p, kind, part);
    FragmentsStep(step, p, data, begin);
    if |data| == n {
      assert part == data;
      ReadChunk(step, checksum, file, p, kind, part, more);
      RecordStep(step, checksum, file, p, scratch, true, part);
    } else {
      var after := Fragments(step, p + |chunk|, data[n..], false);
      assert Fragments(step, p, data, begin) + more == chunk + (after + more);
      ReadChunk(step, checksum, file, p, kind, part, after + more);
      RecordStep(step, checksum, file, p, scratch, false, part);
      if |chunk| <= |file| - p {
        var q := p + |chunk|;
        NextPart(file, p, chunk, after + more);
        RoomAfter(p);
        ReadFragments(step, checksum, file, q, data[n..], Some(Joined(scratch, part)), more);
        assert Joined(scratch, part) + data[n..] == Joined(scratch, data) by { assert part + data[n..] == data; }
      }
    }
  }

  /** What has been assembled once a fragment is added. */
  function Joined(scratch: Option<Bytes>, data: Bytes): Bytes
  {
    if scratch.None? then data else scratch.value + data
  }

  lemma NextPart(file: Bytes, p: nat, chunk: Bytes, more: Bytes)
    requires p + |chunk| <= |file| && file[p..] <= chunk + more
    ensures file[p + |chunk|..] <= more
  {}

  /** One well-placed physical record, seen by ReadRecord. */
  lemma RecordStep(step: Crc, checksum: bool, file: Bytes, p: nat, scratch: Option<Bytes>, end: bool, part: Bytes)
    requires p <= |file| && ReadsChunk(step, checksum, file, p, Kind(scratch.None?, end), part)
    ensures var r, n := NextRecord(step, checksum, file, p, scratch), Padding(p) + HEADER + |part|;
            if |file| - p < n then r.record == None && r.reports == 0
            else if end then r == Outcome(Some(Joined(scratch, part)), n, 0)
            else var q := NextRecord(step, checksum, file, p + n, Some(Joined(scratch, part)));
                 r == Outcome(q.record, n + q.used, q.reports)
  {
    hide NextPhysical, Padding;
  }

  /** Every record of the file and the corruptions reported, as repeated ReadRecord calls give them. */
  function ReadAll(step: Crc, checksum: bool, file: Bytes, p: nat): (seq<Bytes>, nat)
    requires p <= |file|
    decreases |file| - p
  {
    var r := NextRecord(step, checksum, file, p, None);
    if r.record.None? then ([], r.reports)
    else
      var rest := ReadAll(step, checksum, file, p + r.used);
      ([r.record.value] + rest.0, r.reports + rest.1)
  }

  /** Reads a file to its end. */
  method ReadFile(step: Crc, checksum: bool, file: Bytes) returns (records: seq<Bytes>, reports: nat)
    ensures (records, reports) == ReadAll(step, checksum, file, 0)
  {
    hide NextRecord, Reader.Loaded;
    var reader := new Reader(step, checksum, file);
    records := [];
    var more := true;
    while more
      invariant reader.Valid() && fresh(reader) && reader.file == file && reader.step == step
                && reader.checksum == checksum
      invariant var all := ReadAll(step, checksum, file, 0);
                if more
                then var rest := ReadAll(step, checksum, file, reader.Position());
                     all.0 == records + rest.0 && all.1 == reader.reports + rest.1
                else all == (records, reader.reports)
      decreases more, |file| - reader.Position()
    {
      var r := reader.ReadRecord();
      if r.None? {
        more := false;
        assert records + [] == records;
      } else {
        records := records + [r.value];
      }
    }
    reports := reader.reports;
  }

  /** How many of the records lie wholly before the cut at n. */
  function Whole(step: Crc, p: nat, records: seq<Bytes>, n: nat): (m: nat)
    ensures m <= |records|
    decreases |records|
  {
    if records == [] then 0
    else
      var q := p + |Fragments(step, p, records[0], true)|;
      if q <= n then 1 + Whole(step, q, records[1..], n) else 0
  }

  /** The count means what it says: that many records end before the cut, and the next one does not. */
  lemma {:induction false} WholeIs(step: Crc, p: nat, records: seq<Bytes>, n: nat)
    requires p <= n
    ensures var m := Whole(step, p, records, n);
            && p + |Records(step, p, records[..m])| <= n
            && (m < |records| ==> n < p + |Records(step, p, records[..m + 1])|)
    decreases |records|
  {
    hide Fragments;
    if records == [] {
    } else {
      var first := |Fragments(step, p, records[0], true)|;
      if p + first <= n {
        var m := Whole(step, p + first, records[1..], n);
        WholeIs(step, p + first, records[1..], n);
        assert records[..m + 1][1..] == records[1..][..m];
        if m < |records[1..]| {
          assert records[..m + 2][1..] == records[1..][..m + 1];
        }
      } else {
        assert records[..1] == [records[0]];
        assert Records(step, p, [records[0]]) == Fragments(step, p, records[0], true) + [];
      }
    }
  }

  lemma {:induction false} ReadCut(step: Crc, checksum: bool, file: Bytes, p: nat, records: seq<Bytes>)
    requires p <= |file| && file[p..] <= Records(step, p, records)
    ensures ReadAll(step, checksum, file, p) == (records[..Whole(step, p, records, |file|)], 0)
    decreases |records|
  {
    hide Fragments, NextRecord;
    if records == [] {
      EmptyRest(step, checksum, file, p);
    } else {
      var first := Fragments(step, p, records[0], true);
      var after := Records(step, p + |first|, records[1..]);
      ReadFragments(step, checksum, file, p, records[0], None, after);
      if |first| <= |file| - p {
        var q := p + |first|;
        assert file[q..] == file[p..][|first|..] && (first + after)[|first|..] == after;
        ReadCut(step, checksum, file, q, records[1..]);
        var m := Whole(step, q, records[1..], |file|);
        assert records[..m + 1] == [records[0]] + records[1..][..m];
      }
    }
  }

  lemma EmptyRest(step: Crc, checksum: bool, file: Bytes, p: nat)
    requires p <= |file| && file[p..] == []
    ensures ReadAll(step, checksum, file, p) == ([], 0)
  {}

  /** Crash truncation: a log cut at any byte yields exactly the records written wholly before the cut, in
      order, and no corruption is reported. */
  lemma CrashTruncation(step: Crc, checksum: bool, records: seq<Bytes>, n: nat)
    requires n <= |Records(step, 0, records)|
    ensures var m := Whole(step, 0, records, n);
            && ReadAll(step, checksum, Records(step, 0, records)[..n], 0) == (records[..m], 0)
            && |Records(step, 0, records[..m])| <= n
            && (m < |records| ==> n < |Records(step, 0, records[..m + 1])|)
  {
    hide Records, ReadAll;
    var file := Records(step, 0, records)[..n];
    assert file[0..] == file;
    ReadCut(step, checksum, file, 0, records);
    WholeIs(step, 0, records, n);
  }

  /** The whole log reads back. */
  lemma RoundTrip(step: Crc, checksum: bool, records: seq<Bytes>)
    ensures ReadAll(step, checksum, Records(step, 0, records), 0) == (records, 0)
  {
    hide ReadAll, Records;
    var file := Records(step, 0, records);
    assert file[..|file|] == file;
    CrashTruncation(step, checksum, records, |file|);
    var m := Whole(step, 0, records, |file|);
    if m < |records| {
      PrefixShorter(step, 0, records, m + 1);
    }
    assert records[..|records|] == records;
  }

  lemma {:induction false} PrefixShorter(step: Crc, p: nat, records: seq<Bytes>, m: nat)
    requires m <= |records|
    ensures |Records(step, p, records[..m])| <= |Records(step, p, records)|
    decreases |records|
  {
    hide Fragments;
    if m == 0 {
    } else {
      var first := Fragments(step, p, records[0], true);
      PrefixShorter(step, p + |first|, records[1..], m - 1);
      assert records[..m][1..] == records[1..][..m - 1];
    }
  }

  // ---------- an append that fails ----------

  /** The fragments before number k of a record written at p are shorter than it, and fragment k exists. */
  predicate HasFragment(p: nat, data: Bytes, k: nat)
    decreases k
  {
    k == 0 || (Fit(p, data) < |data| && HasFragment(AfterFit(p, data), data[Fit(p, data)..], k - 1))
  }

  function AfterFit(p: nat, data: Bytes): nat
  {
    p + Padding(p) + HEADER + Fit(p, data)
  }

  /** Where fragment k would begin, and what it would hold. */
  function FailsAt(p: nat, data: Bytes, k: nat): nat
    requires HasFragment(p, data, k)
    decreases k
  {
    if k == 0 then p + Padding(p) else FailsAt(AfterFit(p, data), data[Fit(p, data)..], k - 1)
  }

  function FailedPart(p: nat, data: Bytes, k: nat): Bytes
    requires HasFragment(p, data, k)
    decreases k
  {
    if k == 0 then data[..Fit(p, data)] else FailedPart(AfterFit(p, data), data[Fit(p, data)..], k - 1)
  }

  function FailedKind(p: nat, data: Bytes, begin: bool, k: nat): (kind: Byte)
    requires HasFragment(p, data, k)
    ensures RecordKind(kind)
    decreases k
  {
    if k == 0 then Kind(begin, |data| == Fit(p, data))
    else FailedKind(AfterFit(p, data), data[Fit(p, data)..], false, k - 1)
  }

  /** What an append of a record leaves in the file when it fails after k whole fragments and x bytes of the next. */
  function Sent(step: Crc, p: nat, data: Bytes, begin: bool, k: nat, x: nat): Bytes
    requires HasFragment(p, data, k) && x <= HEADER + |FailedPart(p, data, k)|
    decreases k
  {
    var n := Fit(p, data);
    FitIs(p, data);
    var chunk := Chunk(step, p, Kind(begin, |data| == n), data[..n]);
    if k == 0 then chunk[..Padding(p) + x]
    else chunk + Sent(step, AfterFit(p, data), data[n..], false, k - 1, x)
  }

  /** The bytes do not begin with a physical record that carries its own checksum. */
  ghost predicate NoRecord(step: Crc, buffer: Bytes, full: bool)
  {
    |buffer| >= HEADER ==> !ParseBlock(step, true, buffer, full).what.Fragment?
  }

  /** The file ends in the block of the failed fragment, and nothing there passes for a record. */
  lemma BrokenAt(step: Crc, file: Bytes, p: nat, scratch: Option<Bytes>)
    requires p + Padding(p) <= |file| <= BlockEnd(p + Padding(p))
    requires NoRecord(step, file[p + Padding(p)..], |file| == BlockEnd(p + Padding(p)))
    ensures NextRecord(step, true, file, p, scratch).record == None
    ensures var buffer := file[p + Padding(p)..];
      |buffer| >= HEADER &&
      ParseBlock(step, true, buffer, |file| == BlockEnd(p + Padding(p))) == Parsed(Bad, |buffer|, 1) ==>
        NextRecord(step, true, file, p, scratch).reports == if scratch.Some? then 2 else 1
  {
    var q, n := p + Padding(p), |file|;
    BrokenPhysical(step, file, p);
    SkipTail(step, true, file, p, q);
    AtEnd(step, file);
    hide NextPhysical, ParseBlock, BlockEnd, Padding;
  }

  lemma AtEnd(step: Crc, file: Bytes)
    ensures NextRecord(step, true, file, |file|, None) == Outcome(None, 0, 0)
  {
    assert Rest(file, |file|) == [];
  }

  lemma BrokenPhysical(step: Crc, file: Bytes, p: nat)
    requires p + Padding(p) <= |file| <= BlockEnd(p + Padding(p))
    requires NoRecord(step, file[p + Padding(p)..], |file| == BlockEnd(p + Padding(p)))
    ensures var q := p + Padding(p); var r, buffer := NextPhysical(step, true, file, q), file[q..];
      && (r.what.Eof? || (r.what.Bad? && q + r.used == |file|))
      && (|buffer| >= HEADER ==> r == ParseBlock(step, true, buffer, |file| == BlockEnd(q)))
  {
    var q := p + Padding(p);
    assert Rest(file, q) == file[q..];
    PhysicalIs(step, true, file, q);
    if |file[q..]| >= HEADER { BadTakesAll(step, file[q..], |file| == BlockEnd(q)); }
    hide ParseBlock;
  }

  lemma BadTakesAll(step: Crc, buffer: Bytes, full: bool)
    requires |buffer| >= HEADER
    ensures var r := ParseBlock(step, true, buffer, full); !r.what.Fragment? ==> r.used == |buffer|
  {}

  /** Whole fragments of the lost record are assembled, and given up at the broken one. */
  lemma {:induction false} ReadSent(step: Crc, file: Bytes, p: nat, data: Bytes, scratch: Option<Bytes>, k: nat, x: nat,
                                    later: Bytes)
    requires HasFragment(p, data, k) && x <= HEADER + |FailedPart(p, data, k)| && p <= |file|
    requires file[p..] == Sent(step, p, data, scratch.None?, k, x) + later
    requires var q := FailsAt(p, data, k);
      q <= |file| <= BlockEnd(q) && NoRecord(step, file[q..], |file| == BlockEnd(q))
    ensures NextRecord(step, true, file, p, scratch).record == None
    ensures var q := FailsAt(p, data, k); var buffer := file[q..];
      |buffer| >= HEADER && ParseBlock(step, true, buffer, |file| == BlockEnd(q)) == Parsed(Bad, |buffer|, 1) ==>
        NextRecord(step, true, file, p, scratch).reports == if k > 0 || scratch.Some? then 2 else 1
    decreases k
  {
    hide ParseBlock, NextPhysical, NextRecord, Chunk, BlockEnd, Room;
    if k == 0 {
      BrokenAt(step, file, p, scratch);
    } else {
      FitIs(p, data);
      var n := Fit(p, data);
      var part, q := data[..n], AfterFit(p, data);
      var chunk := Chunk(step, p, Kind(scratch.None?, false), part);
      var more := Sent(step, q, data[n..], false, k - 1, x) + later;
      assert file[p..] == chunk + more;
      ReadChunk(step, true, file, p, Kind(scratch.None?, false), part, more);
      RecordStep(step, true, file, p, scratch, false, part);
      assert file[q..] == file[p..][|chunk|..] == more;
      ReadSent(step, file, q, data[n..], Some(Joined(scratch, part)), k - 1, x, later);
    }
  }

  /** The records before are read as ever. */
  lemma {:induction false} ReadBefore(step: Crc, file: Bytes, p: nat, records: seq<Bytes>, tail: Bytes)
    requires p <= |file| && file[p..] == Records(step, p, records) + tail
    ensures p + |Records(step, p, records)| <= |file|
    ensures var r := NextRecord(step, true, file, p + |Records(step, p, records)|, None);
      r.record == None ==> ReadAll(step, true, file, p) == (records, r.reports)
    decreases |records|
  {
    hide Fragments, NextRecord;
    if records != [] {
      var first := Fragments(step, p, records[0], true);
      var after := Records(step, p + |first|, records[1..]);
      assert file[p..] == first + (after + tail);
      ReadFragments(step, true, file, p, records[0], None, after + tail);
      var q := p + |first|;
      assert file[q..] == file[p..][|first|..] == after + tail;
      ReadBefore(step, file, q, records[1..], tail);
      assert records == [records[0]] + records[1..];
    }
  }

  /** EmitPhysicalRecord appends a header and a payload, and a failing append may leave any part of them.  The writer
      counts the whole of the record, so that what is appended next stands where the reader expects the rest.  Unless
      that happens to carry the right checksum, nothing appended to the block after the failure is ever read. */
  lemma FailedAppendHides(step: Crc, before: seq<Bytes>, lost: Bytes, k: nat, x: nat, later: Bytes)
    requires var p := |Records(step, 0, before)|;
      HasFragment(p, lost, k) && x <= HEADER + |FailedPart(p, lost, k)|
    requires var p := |Records(step, 0, before)|;
      var file, q := Records(step, 0, before) + (Sent(step, p, lost, true, k, x) + later), FailsAt(p, lost, k);
      q <= |file| <= BlockEnd(q) && NoRecord(step, file[q..], |file| == BlockEnd(q))
    ensures var p := |Records(step, 0, before)|;
      ReadAll(step, true, Records(step, 0, before) + (Sent(step, p, lost, true, k, x) + later), 0).0 == before
  {
    var whole := Records(step, 0, before);
    var p := |whole|;
    var tail := Sent(step, p, lost, true, k, x) + later;
    var file := whole + tail;
    hide Records, Sent, ReadAll, NextRecord, ParseBlock, BlockEnd;
    assert file[0..] == whole + tail && file[p..] == tail;
    ReadSent(step, file, p, lost, None, k, x, later);
    ReadBefore(step, file, 0, before, tail);
  }

  /** With the header and m payload bytes of the failed fragment in the file, and enough appended later to stand for
      the rest, exactly the records before the failure are returned and a corruption is reported, if the checksum of
      what stands there is not that of the lost payload. */
  lemma FailedPayloadHides(step: Crc, before: seq<Bytes>, lost: Bytes, k: nat, m: nat, later: Bytes)
    requires var p := |Records(step, 0, before)|;
      HasFragment(p, lost, k) &&
      var q, part, kind := FailsAt(p, lost, k), FailedPart(p, lost, k), FailedKind(p, lost, true, k);
      && m < |part| <= m + |later| && q + HEADER + m + |later| <= BlockEnd(q)
      && Extend(step, 0, [kind] + (part[..m] + later)[..|part|]) != Extend(step, 0, [kind] + part)
    ensures var p := |Records(step, 0, before)|;
      var r := ReadAll(step, true, Records(step, 0, before) + (Sent(step, p, lost, true, k, HEADER + m) + later), 0);
      r == (before, if k > 0 then 2 else 1)
  {
    hide Records, Sent, ReadAll, NextRecord, ParseBlock, BlockEnd, Extend, Emit, FailedKind, FailedPart, FailsAt,
         HasFragment;
    var whole := Records(step, 0, before);
    var p := |whole|;
    var tail := Sent(step, p, lost, true, k, HEADER + m) + later;
    var file := whole + tail;
    var part, kind := FailedPart(p, lost, k), FailedKind(p, lost, true, k);
    BrokenPart(step, whole, lost, k, HEADER + m, later);
    HalfParsed(step, kind, part, m, later, |file| == BlockEnd(FailsAt(p, lost, k)));
    assert file[0..] == whole + tail && file[p..] == tail;
    ReadSent(step, file, p, lost, None, k, HEADER + m, later);
    ReadBefore(step, file, 0, before, tail);
  }

  /** Where the broken fragment lies in the file. */
  lemma BrokenPart(step: Crc, whole: Bytes, lost: Bytes, k: nat, x: nat, later: Bytes)
    requires HasFragment(|whole|, lost, k) && x <= HEADER + |FailedPart(|whole|, lost, k)|
    ensures var p := |whole|; var q, part := FailsAt(p, lost, k), FailedPart(p, lost, k);
      var file := whole + (Sent(step, p, lost, true, k, x) + later);
      && |part| <= 0xffff && p <= q && |file| == q + x + |later|
      && file[q..] == Emit(step, FailedKind(p, lost, true, k), part)[..x] + later
  {
    hide Sent, Emit, FailedKind, FailedPart, FailsAt, HasFragment;
    var p := |whole|;
    var sent, q := Sent(step, p, lost, true, k, x), FailsAt(p, lost, k);
    SentEnds(step, p, lost, true, k, x);
    assert (whole + (sent + later))[q..] == sent[q - p..] + later;
  }

  lemma {:induction false} SentEnds(step: Crc, p: nat, data: Bytes, begin: bool, k: nat, x: nat)
    requires HasFragment(p, data, k) && x <= HEADER + |FailedPart(p, data, k)|
    ensures var q, part := FailsAt(p, data, k), FailedPart(p, data, k); var sent := Sent(step, p, data, begin, k, x);
      && |part| <= 0xffff && p <= q && |sent| == q - p + x
      && sent[q - p..] == Emit(step, FailedKind(p, data, begin, k), part)[..x]
    decreases k
  {
    hide Emit, Room, Padding, Kind;
    FitIs(p, data);
    var n := Fit(p, data);
    if k == 0 {
      var kind := Kind(begin, |data| == n);
      assert Chunk(step, p, kind, data[..n])[..Padding(p) + x][Padding(p)..] == Emit(step, kind, data[..n])[..x];
    } else {
      SentEnds(step, AfterFit(p, data), data[n..], false, k - 1, x);
      var chunk := Chunk(step, p, Kind(begin, |data| == n), data[..n]);
      var rest := Sent(step, AfterFit(p, data), data[n..], false, k - 1, x);
      var q := FailsAt(p, data, k);
      assert (chunk + rest)[q - p..] == rest[q - p - |chunk|..];
    }
  }

  lemma HalfParsed(step: Crc, kind: Byte, part: Bytes, m: nat, later: Bytes, full: bool)
    requires m < |part| <= 0xffff && |part| <= m + |later| && RecordKind(kind)
    requires Extend(step, 0, [kind] + (part[..m] + later)[..|part|]) != Extend(step, 0, [kind] + part)
    ensures var buffer := Emit(step, kind, part)[..HEADER + m] + later;
      ParseBlock(step, true, buffer, full) == Parsed(Bad, |buffer|, 1)
  {
    var whole, n := Emit(step, kind, part), |part|;
    var buffer := whole[..HEADER + m] + later;
    assert whole + [] == whole;
    EmitLayout(step, kind, part, []);
    EmitChecksum(step, kind, part, []);
    hide Extend, Unmask, Emit;
    assert whole[..HEADER + m][HEADER..] == whole[HEADER..HEADER + n][..m] == part[..m];
    assert DecodeFixed32(buffer) == DecodeFixed32(whole) by { assert forall i :: 0 <= i < 4 ==> buffer[i] == whole[i]; }
    hide DecodeFixed32;
    assert buffer[6..HEADER + n] == [kind] + (part[..m] + later)[..n];
  }

  /** With a checksum that adds the bytes up: the acknowledged record [7] is not found after the failed append
      of [0]. */
  lemma FailedAppendExample()
    ensures var sum := (crc: U32, b: Byte) => (crc + b) % LIMIT;
      ReadAll(sum, true, Emit(sum, FULL, [0])[..HEADER] + Emit(sum, FULL, [7]), 0) == ([], 1)
  {
    var sum := (crc: U32, b: Byte) => (crc + b) % LIMIT;
    var later := Emit(sum, FULL, [7]);
    SumsDiffer(sum, later);
    hide Extend, ReadAll, Emit, Mask, Fixed32;
    assert FailsAt(0, [0], 0) == 0 && FailedPart(0, [0], 0) == [0] && FailedKind(0, [0], true, 0) == FULL;
    assert ([0][..0] + later)[..1] == later[..1];
    assert Records(sum, 0, []) == [];
    SentAlone(sum, [0], later);
    FailedPayloadHides(sum, [], [0], 0, 0, later);
  }

  lemma SentAlone(step: Crc, lost: Bytes, later: Bytes)
    requires |lost| <= Room(0) && HasFragment(0, lost, 0) && FailedPart(0, lost, 0) == lost
    ensures [] + (Sent(step, 0, lost, true, 0, HEADER + 0) + later) == Emit(step, FULL, lost)[..HEADER] + later
  {
    hide Emit;
    assert lost[..|lost|] == lost;
    assert Padding(0) == 0 && Zeros(0) + Emit(step, FULL, lost) == Emit(step, FULL, lost);
  }

  lemma SumsDiffer(sum: Crc, later: Bytes)
    requires sum == ((crc: U32, b: Byte) => (crc + b) % LIMIT) && later == Emit(sum, FULL, [7])
    ensures Extend(sum, 0, [FULL] + later[..1]) != Extend(sum, 0, [FULL] + [0])
  {
    assert Extend(sum, 0, []) == 0 && [FULL][..0] == [];
    assert Extend(sum, 0, [FULL]) == 1;
    assert [7][..0] == [] && Extend(sum, 1, [7]) == 8;
    assert Mask(8) == 0xa292ead8 && later[0] == 0xd8;
    assert ([FULL] + later[..1])[..1] == [FULL] && ([FULL] + [0])[..1] == [FULL];
    assert Extend(sum, 0, [FULL] + later[..1]) == 0xd9 && Extend(sum, 0, [FULL] + [0]) == 1;
  }

  /** Writing records one after another gives the log of them all. */
  method WriteAll(step: Crc, records: seq<Bytes>) returns (file: Bytes)
    ensures file == Records(step, 0, records)
  {
    hide Fragments;
    var writer := new Writer(step);
    for i := 0 to |records|
      invariant writer.Valid() && fresh(writer) && writer.step == step
      invariant Records(step, 0, records) == writer.dest + Records(step, |writer.dest|, records[i..])
    {
      assert records[i..][1..] == records[i + 1..];
      ghost var d := writer.dest;
      ghost var first := Fragments(step, |d|, records[i], true);
      writer.AddRecord(records[i]);
      Reassociate(d, first, Records(step, |writer.dest|, records[i + 1..]), []);
    }
    file := writer.dest;
  }
}
