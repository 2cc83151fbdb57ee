/** The write batch: an append-only buffer of records under a size limit, with direct writes and with
    reservations that the caller fills in and finishes or rolls back. */
module Batch {
  import opened Digits
  import opened Ordering
  import opened RecordFormat
  import opened Sequences
  import VarInt

  const MAX_USER_KEY_BYTES: nat := 65535

  datatype Error =
    | KeyTooLarge(size: nat, max: nat)
    | ValueTooLarge(size: nat, max: nat)
    | RecordTooLarge(encodedSize: nat, maxBatchSize: nat)
    | BatchFull(recordSize: nat, currentSize: nat, maxBatchSize: nat)

  datatype Result<T> = Ok(value: T) | Err(error: Error)

  /** The encoded lengths and the size of the whole record. */
  datatype Layout = Layout(keyVarint: Bytes, valueVarint: Bytes, recordSize: nat)

  /** `key_value_record_layout`. */
  function KeyValueRecordLayout(keyLen: nat, valueLen: nat): Result<Layout> {
    if keyLen > MAX_USER_KEY_BYTES then Err(KeyTooLarge(keyLen, MAX_USER_KEY_BYTES))
    else if valueLen >= U32_LIMIT then Err(ValueTooLarge(valueLen, U32_LIMIT - 1))
    else
      var k, v := VarInt.Encode(keyLen), VarInt.Encode(valueLen);
      Ok(Layout(k, v, 1 + 8 + |k| + keyLen + |v| + valueLen))
  }

  /** The size that is computed beforehand is the size of the encoding. */
  lemma LayoutExact(r: Record)
    ensures KeyValueRecordLayout(|r.key|, |r.value|).Ok? <==> |r.key| <= MAX_USER_KEY_BYTES && |r.value| < U32_LIMIT
    ensures var l := KeyValueRecordLayout(|r.key|, |r.value|);
            l.Ok? ==> l.value.recordSize == |Encode(r)| && 11 <= l.value.recordSize <= 17 + |r.key| + |r.value|
  {
    VarInt.EncodedSize(|r.key|);
    VarInt.EncodedSize(|r.value|);
  }

  /** Why a record of this size is refused. */
  function RefusedSize(recordSize: nat, currentSize: nat, maxBatchSize: nat): Error {
    if HEADER_SIZE + recordSize > maxBatchSize then RecordTooLarge(HEADER_SIZE + recordSize, maxBatchSize)
    else BatchFull(recordSize, currentSize, maxBatchSize)
  }

  function Zeros(n: nat): (s: Bytes)
    ensures |s| == n && forall i :: 0 <= i < n ==> s[i] == 0
  {
    if n == 0 then [] else Zeros(n - 1) + [0]
  }

  /** A reservation in the buffer that its holder has not finished. */
  datatype DeferredOp = DeferredOp(
    start: nat, end: nat,
    keyOffset: nat, keyLen: nat, valueOffset: nat, valueLen: nat)

  /** The two regions are apart, and both inside the reservation. */
  predicate WellPlaced(op: DeferredOp) {
    && op.start < op.keyOffset && op.keyOffset + op.keyLen < op.valueOffset
    && op.valueOffset + op.valueLen == op.end
  }

  /** What the first bytes of a buffer hold: a header with this count, then these records. */
  ghost predicate Holds(data: Bytes, count: nat, records: seq<Record>) {
    && |data| >= HEADER_SIZE
    && data[COUNT_OFFSET..HEADER_SIZE] == LittleEndian(count, 4)
    && data[HEADER_SIZE..] == EncodeAll(records)
  }

  function CopyInto(data: Bytes, at: nat, src: Bytes): (r: Bytes)
    requires at + |src| <= |data|
    ensures |r| == |data|
  {
    data[..at] + src + data[at + |src|..]
  }

  lemma HoldsMore(data: Bytes, count: nat, records: seq<Record>, r: Record)
    requires Holds(data, count, records)
    ensures Holds(data + Encode(r), count, records + [r])
  {
    EncodeAllSnoc(records, r);
    var more := data + Encode(r);
    assert more[HEADER_SIZE..] == data[HEADER_SIZE..] + Encode(r);
    assert more[COUNT_OFFSET..HEADER_SIZE] == data[COUNT_OFFSET..HEADER_SIZE];
  }

  class BatchInner {
    const maxBatchSize: nat
    var data: Bytes
    var count: nat
    /** The records in the buffer, and how many of them were written without being counted. */
    ghost var records: seq<Record>
    ghost var uncounted: nat

    /** The first n bytes are a good batch. */
    ghost predicate GoodUpTo(n: nat)
      reads this
    {
      && n <= |data| <= maxBatchSize
      && Holds(data[..n], count, records)
      && (forall i :: 0 <= i < |records| ==> ValidRecord(records[i]))
      && count + uncounted == |records|
    }

    ghost predicate Valid()
      reads this
    {
      && HEADER_SIZE <= maxBatchSize < U32_LIMIT
      && (data == [] ==> records == [] && count == 0 && uncounted == 0)
      && (data != [] ==> GoodUpTo(|data|))
    }

    /** A good batch with the reservation behind it, laid out as a record of whatever the two regions hold. */
    ghost predicate Reserved(op: DeferredOp, kind: RecordKind, cf: nat)
      reads this
    {
      && HEADER_SIZE <= maxBatchSize < U32_LIMIT
      && WellPlaced(op) && op.end == |data|
      && op.keyOffset == op.start + |Front(kind, cf, op.keyLen)|
      && op.valueOffset == op.keyOffset + op.keyLen + |VarInt.Encode(op.valueLen)|
      && GoodUpTo(op.start)
      && ValidRecord(InRegions(op, kind, cf))
      && data[op.start..] == Encode(InRegions(op, kind, cf))
    }

    ghost function InRegions(op: DeferredOp, kind: RecordKind, cf: nat): Record
      requires WellPlaced(op) && op.end == |data|
      reads this
    {
      Record(kind, cf, data[op.keyOffset..op.keyOffset + op.keyLen], data[op.valueOffset..op.valueOffset + op.valueLen])
    }

    /** A good batch with a record's encoding behind it is a reservation that holds that record. */
    lemma ReservedBy(op: DeferredOp, base: Bytes, r: Record)
      requires HEADER_SIZE <= maxBatchSize < U32_LIMIT && |data| <= maxBatchSize
      requires data == base + Encode(r) && Placed(op, |base|, r) && ValidRecord(r)
      requires Holds(base, count, records) && count + uncounted == |records|
      requires forall i :: 0 <= i < |records| ==> ValidRecord(records[i])
      ensures Reserved(op, r.kind, r.cf) && InRegions(op, r.kind, r.cf) == r && data[..op.start] == base
    {
      RegionsOf(data, base, op, r);
    }

    constructor (maxBatchSize: nat)
      requires HEADER_SIZE <= maxBatchSize < U32_LIMIT
      ensures Valid() && records == [] && |data| == HEADER_SIZE && count == 0 && uncounted == 0
      ensures this.maxBatchSize == maxBatchSize
    {
      this.maxBatchSize := maxBatchSize;
      data := Zeros(HEADER_SIZE);
      count, records, uncounted := 0, [], 0;
      EmptyHeader();
    }

    /** What a reader of the buffer finds: exactly the records, and in the header the number counted. The
        number always fits its four bytes. */
    lemma ReadBack()
      requires Valid() && data != []
      ensures ParseAll(data[HEADER_SIZE..]) == Some(records)
      ensures FromLittleEndian(data[COUNT_OFFSET..HEADER_SIZE]) == count == |records| - uncounted
      ensures forall i :: 0 <= i < 4 ==> data[8..12][i] as nat == count / Pow256(i) % 256
      ensures HEADER_SIZE + 11 * |records| <= |data| <= maxBatchSize
    {
      assert data[..|data|] == data;
      ParseEncodedAll(records);
      EncodeAllSize(records);
      PowersOf256();
      LittleEndianRoundTrip(count, 4);
      LittleEndianBytes(count, 4);
    }

    /** `reserve_operation`. */
    method ReserveOperation(recordSize: nat) returns (r: Result<(nat, nat)>)
      requires Valid()
      modifies this`data
      ensures var base := if old(data) == [] then Zeros(HEADER_SIZE) else old(data);
              && (r.Ok? <==> |base| + recordSize <= maxBatchSize)
              && (r.Ok? ==> r.value == (|base|, |base| + recordSize) && data == base + Zeros(recordSize))
      ensures r.Err? ==> data == old(data)
      ensures r.Err? ==> r.error == RefusedSize(recordSize, |data|, maxBatchSize)
    {
      var emptyBatchSize := HEADER_SIZE + recordSize;
      if emptyBatchSize > maxBatchSize {
        return Err(RecordTooLarge(emptyBatchSize, maxBatchSize));
      }
      var currentSize := |data|;
      if |data| == 0 {
        data := Zeros(HEADER_SIZE);
        currentSize := HEADER_SIZE;
      }
      var end := currentSize + recordSize;
      if end > maxBatchSize {
        return Err(BatchFull(recordSize, currentSize, maxBatchSize));
      }
      var start := |data|;
      data := data + Zeros(end - start);
      return Ok((start, end));
    }

    /** The header and the records are the same again once a buffer that was empty has its header. */
    lemma GoodBase(base: Bytes)
      requires Valid() && base == if data == [] then Zeros(HEADER_SIZE) else data
      ensures Holds(base, count, records)
    {
      if data == [] { EmptyHeader(); } else { assert data[..|data|] == data; }
    }

    /** Copies bytes into the buffer at an index and moves the index on. The bytes from the index on have
        only been reserved so far. */
    method CopyFrom(index: nat, src: Bytes, ghost done: Bytes, ghost left: nat) returns (next: nat)
      requires data == done + Zeros(left) && index == |done| && |src| <= left
      modifies this`data
      ensures data == done + src + Zeros(left - |src|) && next == |done + src|
    {
      ZerosFrom(left, |src|);
      data := CopyInto(data, index, src);
      next := index + |src|;
    }

    /** Writes the kind, the column family and the key length. */
    method WriteFront(start: nat, kind: RecordKind, cf: nat, keyVarint: Bytes, ghost base: Bytes, ghost size: nat)
      returns (next: nat)
      requires data == base + Zeros(size) && start == |base| && 9 + |keyVarint| <= size
      modifies this`data
      ensures data == base + ([kind.Code()] + LittleEndian(cf, 8) + keyVarint) + Zeros(size - 9 - |keyVarint|)
      ensures next == start + 9 + |keyVarint|
    {
      var index := CopyFrom(start, [kind.Code()], base, size);
      index := CopyFrom(index, LittleEndian(cf, 8), base + [kind.Code()], size - 1);
      next := CopyFrom(index, keyVarint, base + [kind.Code()] + LittleEndian(cf, 8), size - 9);
      assert base + [kind.Code()] + LittleEndian(cf, 8) + keyVarint == base + ([kind.Code()] + LittleEndian(cf, 8) + keyVarint);
    }

    /** `adjust_count_in_header`. */
    method AdjustCountInHeader(c: nat) returns (was: nat)
      requires |data| >= HEADER_SIZE
      modifies this`data
      ensures was == FromLittleEndian(old(data)[COUNT_OFFSET..HEADER_SIZE])
      ensures data == CopyInto(old(data), COUNT_OFFSET, LittleEndian(c, 4))
    {
      was := FromLittleEndian(data[COUNT_OFFSET..HEADER_SIZE]);
      data := CopyInto(data, COUNT_OFFSET, LittleEndian(c, 4));
    }

    /** Writes key, value length and value behind the front of a record. */
    method WriteBody(start: nat, key: Bytes, vv: Bytes, value: Bytes, ghost front: Bytes)
      requires data == front + Zeros(|key| + |vv| + |value|) && start == |front|
      modifies this`data
      ensures data == front + key + vv + value
    {
      var index := CopyFrom(start, key, front, |key| + |vv| + |value|);
      index := CopyFrom(index, vv, front + key, |vv| + |value|);
      index := CopyFrom(index, value, front + key + vv, |value|);
    }

    /** Writes a whole record into its reservation. */
    method WriteRecord(start: nat, cf: nat, key: Bytes, value: Bytes, layout: Layout, ghost base: Bytes)
      requires KeyValueRecordLayout(|key|, |value|) == Ok(layout)
      requires data == base + Zeros(layout.recordSize) && start == |base|
      modifies this`data
      ensures data == base + Encode(Record(RecordKind.Put, cf, key, value))
    {
      var index := WriteFront(start, RecordKind.Put, cf, layout.keyVarint, base, layout.recordSize);
      ghost var front := Front(RecordKind.Put, cf, |key|);
      WriteBody(index, key, layout.valueVarint, value, base + front);
      RegroupRecord(base, front, key, layout.valueVarint, value);
    }

    /** The end of `put`: one more in the count and in the header. */
    method CountRecord(ghost base: Bytes, ghost rec: Record)
      requires HEADER_SIZE <= maxBatchSize < U32_LIMIT && |data| <= maxBatchSize
      requires data == base + Encode(rec) && Holds(base, count, records) && ValidRecord(rec)
      requires count + uncounted == |records| && forall i :: 0 <= i < |records| ==> ValidRecord(records[i])
      modifies this
      ensures Valid() && uncounted == old(uncounted)
      ensures records == old(records) + [rec] && count == old(count) + 1
    {
      HoldsMore(base, count, records, rec);
      HoldsCount(data, count, count + 1, records + [rec]);
      count := count + 1;
      records := records + [rec];
      var _ := AdjustCountInHeader(count);
      assert data[..|data|] == data;
    }

    /** `put`: the record at the end of the log and one more in the count, or an error and no change. */
    method Put(cf: nat, key: Bytes, value: Bytes) returns (r: Result<()>)
      requires Valid() && cf < U64_LIMIT
      modifies this
      ensures Valid() && uncounted == old(uncounted)
      ensures r.Ok? ==> records == old(records) + [Record(RecordKind.Put, cf, key, value)] && count == old(count) + 1
      ensures r.Err? ==> data == old(data) && records == old(records) && count == old(count)
      ensures r == Outcome(|key|, |value|, |Encode(Record(RecordKind.Put, cf, key, value))|, |old(data)|, maxBatchSize)
    {
      ghost var rec := Record(RecordKind.Put, cf, key, value);
      LayoutExact(rec);
      var layout := KeyValueRecordLayout(|key|, |value|);
      if layout.Err? {
        return Err(layout.error);
      }
      ghost var base := if data == [] then Zeros(HEADER_SIZE) else data;
      GoodBase(base);
      var span := ReserveOperation(layout.value.recordSize);
      if span.Err? {
        return Err(span.error);
      }
      WriteRecord(span.value.0, cf, key, value, layout.value, base);
      CountRecord(base, rec);
      return Ok(());
    }

    /** Writes everything of a record but key and value, which stay as they were reserved. */
    method WriteBlank(start: nat, kind: RecordKind, cf: nat, keyLen: nat, valueLen: nat, layout: Layout, ghost base: Bytes)
      returns (op: DeferredOp)
      requires KeyValueRecordLayout(keyLen, valueLen) == Ok(layout)
      requires data == base + Zeros(layout.recordSize) && start == |base|
      modifies this`data
      ensures data == base + Encode(Record(kind, cf, Zeros(keyLen), Zeros(valueLen)))
      ensures Placed(op, start, Record(kind, cf, Zeros(keyLen), Zeros(valueLen)))
    {
      var kv, vv, size := layout.keyVarint, layout.valueVarint, layout.recordSize;
      var keyOffset := WriteFront(start, kind, cf, kv, base, size);
      ghost var front := base + Front(kind, cf, keyLen);
      ZerosSplit(keyLen, |vv| + valueLen);
      assert data == front + Zeros(keyLen) + Zeros(|vv| + valueLen);
      var valueOffset := CopyFrom(keyOffset + keyLen, vv, front + Zeros(keyLen), |vv| + valueLen);
      op := DeferredOp(start, start + size, keyOffset, keyLen, valueOffset, valueLen);
      assert front + Zeros(keyLen) + vv + Zeros(valueLen) == base + (Front(kind, cf, keyLen) + Zeros(keyLen) + vv + Zeros(valueLen));
    }

    /** `prepare_with_key_value_impl`: reserves a record and writes everything of it but key and value. */
    method Prepare(cf: nat, keyLen: nat, valueLen: nat, kind: RecordKind) returns (r: Result<DeferredOp>)
      requires Valid() && cf < U64_LIMIT
      modifies this`data
      ensures r.Ok? ==> Reserved(r.value, kind, cf) && r.value.keyLen == keyLen && r.value.valueLen == valueLen
      ensures r.Ok? ==> data[..r.value.start] == if old(data) == [] then Zeros(HEADER_SIZE) else old(data)
      ensures r.Err? ==> Valid() && data == old(data)
      ensures var size := |Encode(Record(kind, cf, Zeros(keyLen), Zeros(valueLen)))|;
              Outcome(keyLen, valueLen, size, |old(data)|, maxBatchSize) == if r.Ok? then Ok(()) else Err(r.error)
    {
      ghost var blank := Record(kind, cf, Zeros(keyLen), Zeros(valueLen));
      LayoutExact(blank);
      var layout := KeyValueRecordLayout(keyLen, valueLen);
      if layout.Err? {
        return Err(layout.error);
      }
      ghost var base := if data == [] then Zeros(HEADER_SIZE) else data;
      GoodBase(base);
      var span := ReserveOperation(layout.value.recordSize);
      if span.Err? {
        return Err(span.error);
      }
      var op := WriteBlank(span.value.0, kind, cf, keyLen, valueLen, layout.value, base);
      ReservedBy(op, base, blank);
      return Ok(op);
    }

    /** Writing through `key_mut`. */
    method FillKey(op: DeferredOp, key: Bytes, ghost kind: RecordKind, ghost cf: nat)
      requires Reserved(op, kind, cf) && |key| == op.keyLen
      modifies this`data
      ensures Reserved(op, kind, cf) && data[..op.start] == old(data)[..op.start]
      ensures InRegions(op, kind, cf) == old(InRegions(op, kind, cf)).(key := key)
    {
      ghost var was, base := InRegions(op, kind, cf), data[..op.start];
      assert data == base + Encode(was);
      KeyReplaced(base, op, was, key);
      data := CopyInto(data, op.keyOffset, key);
      ReservedBy(op, base, was.(key := key));
    }

    /** Writing through `value_mut`. */
    method FillValue(op: DeferredOp, value: Bytes, ghost kind: RecordKind, ghost cf: nat)
      requires Reserved(op, kind, cf) && |value| == op.valueLen
      modifies this`data
      ensures Reserved(op, kind, cf) && data[..op.start] == old(data)[..op.start]
      ensures InRegions(op, kind, cf) == old(InRegions(op, kind, cf)).(value := value)
    {
      ghost var was, base := InRegions(op, kind, cf), data[..op.start];
      assert data == base + Encode(was);
      ValueReplaced(base, op, was, value);
      data := CopyInto(data, op.valueOffset, value);
      ReservedBy(op, base, was.(value := value));
    }

    /** `finish`: the reservation, as it was filled, is a record of the batch; the count does not know of it. */
    ghost method Finish(op: DeferredOp, kind: RecordKind, cf: nat)
      requires Reserved(op, kind, cf)
      modifies this`records, this`uncounted
      ensures Valid() && uncounted == old(uncounted) + 1
      ensures records == old(records) + [old(InRegions(op, kind, cf))]
    {
      var rec := InRegions(op, kind, cf);
      HoldsMore(data[..op.start], count, records, rec);
      assert data == data[..op.start] + Encode(rec);
      assert data[..|data|] == data;
      records := records + [rec];
      uncounted := uncounted + 1;
    }

    /** `rollback`: the batch as it was before the reservation. */
    method Rollback(op: DeferredOp, ghost kind: RecordKind, ghost cf: nat)
      requires Reserved(op, kind, cf)
      modifies this`data
      ensures Valid() && data == old(data)[..op.start]
    {
      data := data[..op.start];
      assert data[..|data|] == data;
    }

    /** The closure fills in key and value and returns, or unwinds, which drops the reservation. */
    method Fill(op: DeferredOp, key: Bytes, value: Bytes, completes: bool, ghost kind: RecordKind, ghost cf: nat)
      requires Reserved(op, kind, cf) && |key| == op.keyLen && |value| == op.valueLen
      modifies this`data, this`records, this`uncounted
      ensures Valid()
      ensures completes ==> records == old(records) + [Record(kind, cf, key, value)] && uncounted == old(uncounted) + 1
      ensures !completes ==> data == old(data)[..op.start] && records == old(records) && uncounted == old(uncounted)
    {
      FillKey(op, key, kind, cf);
      FillValue(op, value, kind, cf);
      if completes {
        Finish(op, kind, cf);
      } else {
        Rollback(op, kind, cf);
      }
    }

    /** `put_with`. The closure fills in key and value, and returns or unwinds: either the record is there,
        uncounted, or the batch is back where it was. */
    method PutWith(cf: nat, keyLen: nat, valueLen: nat, kind: RecordKind, key: Bytes, value: Bytes, completes: bool)
      returns (r: Result<()>)
      requires Valid() && cf < U64_LIMIT && |key| == keyLen && |value| == valueLen
      modifies this
      ensures Valid() && count == old(count)
      ensures r == Outcome(keyLen, valueLen, |Encode(Record(kind, cf, key, value))|, |old(data)|, maxBatchSize)
      ensures r.Ok? && completes ==> records == old(records) + [Record(kind, cf, key, value)] && uncounted == old(uncounted) + 1
      ensures r.Ok? && !completes ==> data == if old(data) == [] then Zeros(HEADER_SIZE) else old(data)
      ensures r.Err? ==> data == old(data)
      ensures r.Err? || !completes ==> records == old(records) && uncounted == old(uncounted)
    {
      SameSize(kind, cf, key, value);
      var prepared := Prepare(cf, keyLen, valueLen, kind);
      if prepared.Err? {
        return Err(prepared.error);
      }
      Fill(prepared.value, key, value, completes, kind, cf);
      return Ok(());
    }

    /** `clear`. */
    method Clear()
      requires Valid()
      modifies this
      ensures Valid() && data == [] && records == [] && count == 0 && uncounted == 0
    {
      count := 0;
      data := [];
      records := [];
      uncounted := 0;
    }

    /** `assign_seq_num_once`: stamps the sequence number over the first eight bytes and nothing else. */
    method AssignSeqNumOnce(seqNum: nat)
      requires Valid() && data != [] && seqNum < U64_LIMIT
      modifies this`data
      ensures Valid() && |data| == |old(data)|
      ensures FromLittleEndian(data[..COUNT_OFFSET]) == seqNum && data[COUNT_OFFSET..] == old(data)[COUNT_OFFSET..]
      ensures forall i :: 0 <= i < 8 ==> data[..8][i] as nat == seqNum / Pow256(i) % 256
    {
      ghost var was := data;
      assert data[..|data|] == data;
      data := CopyInto(data, 0, LittleEndian(seqNum, 8));
      assert data[..|data|] == data;
      assert data[COUNT_OFFSET..] == was[COUNT_OFFSET..];
      assert data[HEADER_SIZE..] == was[HEADER_SIZE..] && data[COUNT_OFFSET..HEADER_SIZE] == was[COUNT_OFFSET..HEADER_SIZE];
      assert data[..COUNT_OFFSET] == LittleEndian(seqNum, 8);
      PowersOf256();
      LittleEndianRoundTrip(seqNum, 8);
      LittleEndianBytes(seqNum, 8);
    }
  }

  /** What a write of these lengths comes to: the first check that fails decides. */
  function Outcome(keyLen: nat, valueLen: nat, recordSize: nat, currentSize: nat, maxBatchSize: nat): Result<()> {
    var base := if currentSize == 0 then HEADER_SIZE else currentSize;
    if keyLen > MAX_USER_KEY_BYTES then Err(KeyTooLarge(keyLen, MAX_USER_KEY_BYTES))
    else if valueLen >= U32_LIMIT then Err(ValueTooLarge(valueLen, U32_LIMIT - 1))
    else if base + recordSize > maxBatchSize then Err(RefusedSize(recordSize, currentSize, maxBatchSize))
    else Ok(())
  }

  /** Which error is returned, and what it says. A record is too large exactly when a batch with nothing in it
      could not take it, and the batch is full exactly when such a batch could and this one cannot. */
  lemma OutcomeExact(keyLen: nat, valueLen: nat, recordSize: nat, currentSize: nat, maxBatchSize: nat)
    requires currentSize == 0 || currentSize >= HEADER_SIZE
    ensures var lengthsOk := keyLen <= 65535 && valueLen <= 0xffff_ffff;
            var r := Outcome(keyLen, valueLen, recordSize, currentSize, maxBatchSize);
            && (keyLen > 65535 <==> r == Err(KeyTooLarge(keyLen, 65535)))
            && (r.Err? && r.error.KeyTooLarge? ==> keyLen > 65535)
            && (keyLen <= 65535 && valueLen > 0xffff_ffff <==> r == Err(ValueTooLarge(valueLen, 0xffff_ffff)))
            && (r.Err? && r.error.ValueTooLarge? ==> valueLen > 0xffff_ffff)
            && (lengthsOk && 12 + recordSize > maxBatchSize <==> r == Err(RecordTooLarge(12 + recordSize, maxBatchSize)))
            && (r.Err? && r.error.RecordTooLarge? <==> lengthsOk && Outcome(keyLen, valueLen, recordSize, 0, maxBatchSize).Err?)
            && (lengthsOk && 12 + recordSize <= maxBatchSize < currentSize + recordSize <==>
                  r == Err(BatchFull(recordSize, currentSize, maxBatchSize)))
            && (r.Err? && r.error.BatchFull? ==> Outcome(keyLen, valueLen, recordSize, 0, maxBatchSize).Ok?)
            && (r.Ok? <==> lengthsOk && 12 + recordSize <= maxBatchSize && currentSize + recordSize <= maxBatchSize)
  {
  }

  lemma SameSize(kind: RecordKind, cf: nat, key: Bytes, value: Bytes)
    ensures |Encode(Record(kind, cf, key, value))| == |Encode(Record(kind, cf, Zeros(|key|), Zeros(|value|)))|
  {
  }

  /** The reservation starts here and its regions are where the encoding of r has key and value. */
  ghost predicate Placed(op: DeferredOp, start: nat, r: Record) {
    && op.start == start && op.end == start + |Encode(r)|
    && op.keyLen == |r.key| && op.valueLen == |r.value|
    && op.keyOffset == op.start + |Front(r.kind, r.cf, op.keyLen)|
    && op.valueOffset == op.keyOffset + op.keyLen + |VarInt.Encode(op.valueLen)|
  }

  lemma KeyReplaced(base: Bytes, op: DeferredOp, r: Record, key: Bytes)
    requires Placed(op, |base|, r) && |key| == |r.key|
    ensures op.keyOffset + |key| <= |base + Encode(r)|
    ensures CopyInto(base + Encode(r), op.keyOffset, key) == base + Encode(r.(key := key)) && Placed(op, |base|, r.(key := key))
  {
    var front, back := base + Front(r.kind, r.cf, |key|), VarInt.Encode(|r.value|) + r.value;
    KeyInMiddle(base, Front(r.kind, r.cf, |key|), r.key, VarInt.Encode(|r.value|), r.value);
    KeyInMiddle(base, Front(r.kind, r.cf, |key|), key, VarInt.Encode(|r.value|), r.value);
    MiddleReplaced(front, r.key, back, key);
  }

  lemma KeyInMiddle(base: Bytes, front: Bytes, key: Bytes, vv: Bytes, value: Bytes)
    ensures base + (front + key + vv + value) == (base + front) + key + (vv + value)
  {
  }

  lemma MiddleReplaced(a: Bytes, b: Bytes, c: Bytes, b': Bytes)
    requires |b'| == |b|
    ensures CopyInto(a + b + c, |a|, b') == a + b' + c
  {
  }

  lemma ValueReplaced(base: Bytes, op: DeferredOp, r: Record, value: Bytes)
    requires Placed(op, |base|, r) && |value| == |r.value|
    ensures op.valueOffset + |value| <= |base + Encode(r)|
    ensures CopyInto(base + Encode(r), op.valueOffset, value) == base + Encode(r.(value := value))
    ensures Placed(op, |base|, r.(value := value))
  {
    var front := base + Front(r.kind, r.cf, |r.key|) + r.key + VarInt.Encode(|r.value|);
    assert base + Encode(r) == front + r.value;
    assert base + Encode(r.(value := value)) == front + value;
  }

  lemma SliceMiddle(a: Bytes, b: Bytes, c: Bytes)
    ensures (a + b + c)[|a|..|a| + |b|] == b
  {
  }

  /** Where the regions of a record's encoding are. */
  lemma RegionsOf(data: Bytes, base: Bytes, op: DeferredOp, r: Record)
    requires data == base + Encode(r) && Placed(op, |base|, r)
    ensures WellPlaced(op) && op.end == |data| && data[..op.start] == base
    ensures data[op.keyOffset..op.keyOffset + op.keyLen] == r.key
    ensures data[op.valueOffset..op.valueOffset + op.valueLen] == r.value
    ensures data[op.start..] == Encode(r)
  {
    var front, vv := base + Front(r.kind, r.cf, |r.key|), VarInt.Encode(|r.value|);
    assert data == front + r.key + (vv + r.value);
    SliceMiddle(front, r.key, vv + r.value);
    assert data == (front + r.key + vv) + r.value + [];
    SliceMiddle(front + r.key + vv, r.value, []);
  }

  lemma HoldsCount(data: Bytes, count: nat, count': nat, records: seq<Record>)
    requires Holds(data, count, records)
    ensures Holds(CopyInto(data, COUNT_OFFSET, LittleEndian(count', 4)), count', records)
  {
    var more := CopyInto(data, COUNT_OFFSET, LittleEndian(count', 4));
    assert more[HEADER_SIZE..] == data[HEADER_SIZE..];
    assert more[COUNT_OFFSET..HEADER_SIZE] == LittleEndian(count', 4);
  }

  lemma {:induction false} ZerosFrom(n: nat, k: nat)
    requires k <= n
    ensures Zeros(n)[k..] == Zeros(n - k)
  {
  }

  lemma ZerosSplit(a: nat, b: nat)
    ensures Zeros(a + b) == Zeros(a) + Zeros(b)
  {
  }

  lemma EmptyHeader()
    ensures Holds(Zeros(HEADER_SIZE), 0, [])
  {
    ZeroBytes(4);
    assert Zeros(HEADER_SIZE)[COUNT_OFFSET..HEADER_SIZE] == LittleEndian(0, 4);
  }

  lemma {:induction false} ZeroBytes(n: nat)
    ensures forall i :: 0 <= i < n ==> LittleEndian(0, n)[i] == 0
  {
    if n > 0 {
      ZeroBytes(n - 1);
      assert LittleEndian(0, n)[1..] == LittleEndian(0, n - 1);
    }
  }

  lemma RegroupRecord(base: Bytes, front: Bytes, key: Bytes, vv: Bytes, value: Bytes)
    ensures base + front + key + vv + value == base + (front + key + vv + value)
  {
  }
}
