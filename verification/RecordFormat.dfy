/** The binary log inside a batch: a twelve-byte header, then one record after another, and a parser of that
    layout. */
module RecordFormat {
  import opened Digits
  import opened Ordering
  import VarInt
  import opened Sequences

  const HEADER_SIZE: nat := 12
  const COUNT_OFFSET: nat := 8
  const U32_LIMIT: nat := 0x1_0000_0000
  const U64_LIMIT: nat := 0x1_0000_0000_0000_0000

  datatype RecordKind = Put | Delete | Merge | RangeDel | LogData {
    function Code(): Byte {
      match this
      case Put => 1
      case Delete => 2
      case Merge => 3
      case RangeDel => 4
      case LogData => 5
    }
  }

  function KindOf(code: Byte): Option<RecordKind> {
    if code == 1 then Some(Put) else if code == 2 then Some(Delete) else if code == 3 then Some(Merge)
    else if code == 4 then Some(RangeDel) else if code == 5 then Some(LogData) else None
  }

  datatype Record = Record(kind: RecordKind, cf: nat, key: Bytes, value: Bytes)

  predicate ValidRecord(r: Record) {
    r.cf < U64_LIMIT && |r.key| < U32_LIMIT && |r.value| < U32_LIMIT
  }

  // ---- Fixed-width integers ----

  /** The n low bytes of v, least significant first. */
  function LittleEndian(v: nat, n: nat): (s: Bytes)
    ensures |s| == n
  {
    if n == 0 then [] else [(v % 256) as Byte] + LittleEndian(v / 256, n - 1)
  }

  function FromLittleEndian(s: Bytes): nat {
    if s == [] then 0 else s[0] as nat + 256 * FromLittleEndian(s[1..])
  }

  lemma {:induction false} LittleEndianRoundTrip(v: nat, n: nat)
    requires v < Pow256(n)
    ensures FromLittleEndian(LittleEndian(v, n)) == v
  {
    if n > 0 { LittleEndianRoundTrip(v / 256, n - 1); }
  }

  /** Byte i of a little-endian number is the number divided by 256^i, modulo 256. */
  lemma {:induction false} LittleEndianBytes(v: nat, n: nat)
    ensures forall i :: 0 <= i < n ==> LittleEndian(v, n)[i] as nat == v / Pow256(i) % 256
  {
    if n > 0 {
      LittleEndianBytes(v / 256, n - 1);
      forall i | 0 <= i < n ensures LittleEndian(v, n)[i] as nat == v / Pow256(i) % 256 {
        if i > 0 {
          assert LittleEndian(v, n)[i] == LittleEndian(v / 256, n - 1)[i - 1];
          DivDiv(v, 256, Pow256(i - 1));
        }
      }
    }
  }

  lemma PowersOf256()
    ensures Pow256(4) == U32_LIMIT && Pow256(8) == U64_LIMIT
  {
    assert Pow256(2) == 0x1_0000;
    assert Pow256(4) == U32_LIMIT;
    assert Pow256(6) == 0x1_0000_0000_0000;
  }

  // ---- Records ----

  /** The record up to its key: kind, column family, key length. */
  function Front(kind: RecordKind, cf: nat, keyLen: nat): Bytes {
    [kind.Code()] + LittleEndian(cf, 8) + VarInt.Encode(keyLen)
  }

  function Encode(r: Record): Bytes {
    Front(r.kind, r.cf, |r.key|) + r.key + VarInt.Encode(|r.value|) + r.value
  }

  function EncodeAll(rs: seq<Record>): Bytes {
    if rs == [] then [] else EncodeAll(rs[..|rs| - 1]) + Encode(rs[|rs| - 1])
  }

  /** A string behind its length, as the program's decoder reads it, at the front of s, and what is left. */
  function ParseString(s: Bytes): Option<(Bytes, Bytes)> {
    match VarInt.DecodeResult(s)
    case ShiftOverflow => None
    case Decoded(size, start) =>
      if start == 0 || s[start - 1] >= 128 || size > |s| - start then None
      else Some((s[start..start + size], s[start + size..]))
  }

  function ParseRecord(s: Bytes): (p: Option<(Record, Bytes)>)
    ensures p.Some? ==> |p.value.1| < |s|
  {
    if |s| < 9 || KindOf(s[0]).None? then None
    else
      var cf := FromLittleEndian(s[1..9]);
      match ParseString(s[9..])
      case None => None
      case Some((key, afterKey)) =>
        match ParseString(afterKey)
        case None => None
        case Some((value, rest)) => Some((Record(KindOf(s[0]).value, cf, key, value), rest))
  }

  function ParseAll(s: Bytes): Option<seq<Record>>
    decreases |s|
  {
    if s == [] then Some([])
    else
      match ParseRecord(s)
      case None => None
      case Some((r, rest)) =>
        match ParseAll(rest)
        case None => None
        case Some(rs) => Some([r] + rs)
  }

  /** s is t behind its length, and then rest. */
  ghost predicate Prefixed(s: Bytes, prefix: Bytes, t: Bytes, rest: Bytes) {
    && s == prefix + (t + rest) && |prefix| > 0
    && VarInt.DecodeResult(s) == VarInt.Decoded.Decoded(|t|, |prefix|) && s[|prefix| - 1] < 128
  }

  lemma EncodedLength(t: Bytes, rest: Bytes)
    requires |t| < U32_LIMIT
    ensures Prefixed(VarInt.Encode(|t|) + (t + rest), VarInt.Encode(|t|), t, rest)
  {
    var prefix := VarInt.Encode(|t|);
    VarInt.DecodeUndoesEncode(|t|, t + rest);
    VarInt.EncodeComplete(|t|);
    assert (prefix + (t + rest))[|prefix| - 1] == prefix[|prefix| - 1];
  }

  lemma SplitAt(a: Bytes, b: Bytes, c: Bytes)
    ensures (a + (b + c))[|a|..|a| + |b|] == b && (a + (b + c))[|a| + |b|..] == c
  {
  }

  lemma Regroup(a: Bytes, b: Bytes, c: Bytes)
    ensures a + b + c == a + (b + c)
  {
  }

  lemma ParseStringAt(s: Bytes, prefix: Bytes, t: Bytes, rest: Bytes)
    requires Prefixed(s, prefix, t, rest)
    ensures ParseString(s) == Some((t, rest))
  {
    SplitAt(prefix, t, rest);
  }

  lemma ParseEncodedString(t: Bytes, rest: Bytes)
    requires |t| < U32_LIMIT
    ensures ParseString(VarInt.Encode(|t|) + t + rest) == Some((t, rest))
  {
    EncodedLength(t, rest);
    Regroup(VarInt.Encode(|t|), t, rest);
    ParseStringAt(VarInt.Encode(|t|) + (t + rest), VarInt.Encode(|t|), t, rest);
  }

  lemma EncodeLayout(r: Record, rest: Bytes)
    ensures Encode(r) + rest ==
            [r.kind.Code()] + LittleEndian(r.cf, 8) + (VarInt.Encode(|r.key|) + r.key + (VarInt.Encode(|r.value|) + r.value + rest))
  {
  }

  lemma ParseFields(r: Record, tail: Bytes, afterKey: Bytes, rest: Bytes)
    requires r.cf < U64_LIMIT
    requires ParseString(tail) == Some((r.key, afterKey)) && ParseString(afterKey) == Some((r.value, rest))
    ensures ParseRecord([r.kind.Code()] + LittleEndian(r.cf, 8) + tail) == Some((r, rest))
  {
    FrontParts(r.kind.Code(), LittleEndian(r.cf, 8), tail);
    PowersOf256();
    LittleEndianRoundTrip(r.cf, 8);
  }

  lemma FrontParts(code: Byte, cf: Bytes, tail: Bytes)
    requires |cf| == 8
    ensures var s := [code] + cf + tail; |s| >= 9 && s[0] == code && s[1..9] == cf && s[9..] == tail
  {
  }

  /** A record is read back whatever follows it. */
  lemma ParseEncoded(r: Record, rest: Bytes)
    requires ValidRecord(r)
    ensures ParseRecord(Encode(r) + rest) == Some((r, rest))
  {
    EncodeLayout(r, rest);
    var afterKey := VarInt.Encode(|r.value|) + r.value + rest;
    var tail := VarInt.Encode(|r.key|) + r.key + afterKey;
    ParseEncodedString(r.key, afterKey);
    ParseEncodedString(r.value, rest);
    ParseFields(r, tail, afterKey, rest);
  }

  /** The bytes of a record, one field after another. */
  lemma RecordBytes(r: Record)
    ensures var e, k, v := Encode(r), |VarInt.Encode(|r.key|)|, |VarInt.Encode(|r.value|)|;
            && |e| == 9 + k + |r.key| + v + |r.value|
            && e[0] == (match r.kind case Put => 1 case Delete => 2 case Merge => 3 case RangeDel => 4 case LogData => 5)
            && (forall i :: 0 <= i < 8 ==> e[1 + i] as nat == r.cf / Pow256(i) % 256)
            && e[9..9 + k] == VarInt.Encode(|r.key|)
            && e[9 + k..9 + k + |r.key|] == r.key
            && e[9 + k + |r.key|..9 + k + |r.key| + v] == VarInt.Encode(|r.value|)
            && e[9 + k + |r.key| + v..] == r.value
  {
    var front := [r.kind.Code()] + LittleEndian(r.cf, 8);
    Fields(front, VarInt.Encode(|r.key|), r.key, VarInt.Encode(|r.value|), r.value);
    assert Encode(r) == front + VarInt.Encode(|r.key|) + r.key + VarInt.Encode(|r.value|) + r.value;
    FrontBytes(r.kind, r.cf, Encode(r)[9..]);
    assert Encode(r) == front + Encode(r)[9..];
  }

  lemma FrontBytes(kind: RecordKind, cf: nat, tail: Bytes)
    ensures var e := [kind.Code()] + LittleEndian(cf, 8) + tail;
            && e[0] == kind.Code() && forall i :: 0 <= i < 8 ==> e[1 + i] as nat == cf / Pow256(i) % 256
  {
    LittleEndianBytes(cf, 8);
    var e := [kind.Code()] + LittleEndian(cf, 8) + tail;
    assert forall i :: 0 <= i < 8 ==> e[1 + i] == LittleEndian(cf, 8)[i];
  }

  /** Five fields, one after another, and where they are. */
  lemma Fields(a: Bytes, b: Bytes, c: Bytes, d: Bytes, e: Bytes)
    ensures var s, k, m, n := a + b + c + d + e, |a| + |b|, |a| + |b| + |c|, |a| + |b| + |c| + |d|;
            && |s| == n + |e| && s[..|a|] == a && s[|a|..k] == b && s[k..m] == c && s[m..n] == d && s[n..] == e
  {
  }

  /** A kind is read back from its code, and nothing else is. */
  lemma KindOfExact(code: Byte, kind: RecordKind)
    ensures KindOf(code) == Some(kind) <==> code == kind.Code()
    ensures KindOf(code).None? <==> code == 0 || code > 5
  {
  }

  lemma EncodeAllSnoc(rs: seq<Record>, r: Record)
    ensures EncodeAll(rs + [r]) == EncodeAll(rs) + Encode(r)
  {
    assert (rs + [r])[..|rs + [r]| - 1] == rs;
  }

  lemma {:induction false} EncodeAllCons(r: Record, rs: seq<Record>)
    ensures EncodeAll([r] + rs) == Encode(r) + EncodeAll(rs)
  {
    if rs == [] {
      assert [r] + rs == [] + [r];
      EncodeAllSnoc([], r);
    } else {
      var init, last := rs[..|rs| - 1], rs[|rs| - 1];
      assert rs == init + [last] && [r] + rs == ([r] + init) + [last];
      EncodeAllSnoc([r] + init, last);
      EncodeAllCons(r, init);
      EncodeAllSnoc(init, last);
    }
  }

  /** The parser gives back exactly the records that were written, in their order. */
  lemma {:induction false} ParseEncodedAll(rs: seq<Record>)
    requires forall i :: 0 <= i < |rs| ==> ValidRecord(rs[i])
    ensures ParseAll(EncodeAll(rs)) == Some(rs)
    decreases |rs|
  {
    if rs != [] {
      assert rs == [rs[0]] + rs[1..];
      EncodeAllCons(rs[0], rs[1..]);
      ParseEncoded(rs[0], EncodeAll(rs[1..]));
      ParseEncodedAll(rs[1..]);
    }
  }

  /** So a log has one reading only. */
  lemma UniquelyDecodable(a: seq<Record>, b: seq<Record>)
    requires forall i :: 0 <= i < |a| ==> ValidRecord(a[i])
    requires forall i :: 0 <= i < |b| ==> ValidRecord(b[i])
    requires EncodeAll(a) == EncodeAll(b)
    ensures a == b
  {
    ParseEncodedAll(a);
    ParseEncodedAll(b);
  }

  /** No record is shorter than eleven bytes. */
  lemma {:induction false} EncodeAllSize(rs: seq<Record>)
    ensures |EncodeAll(rs)| >= 11 * |rs|
  {
    if rs != [] { EncodeAllSize(rs[..|rs| - 1]); }
  }
}
