/** The internal key: user key bytes followed by an eight-byte trailer that packs the sequence number
    and the operation kind, and the two comparators over key bytes. */
module InternalKey {
  import opened Bits
  import opened Digits
  import opened Ordering

  const TRAILER_BYTES: nat := 8
  const SEQ_LIMIT: nat := 0x100_0000_0000_0000  // 2^56

  datatype Kind = Put | Delete | Merge | RangeDel | Log | Max {
    function Code(): (c: nat)
      ensures 1 <= c < 256
    {
      match this
      case Put => 1
      case Delete => 2
      case Merge => 3
      case RangeDel => 4
      case Log => 5
      case Max => 255
    }
  }

  datatype KindResult = Known(kind: Kind) | Invalid(raw: nat)

  /** Decoding a kind byte: RangeDel and Log are not accepted as stored kinds. */
  function KindFromRaw(raw: nat): (r: KindResult)
    ensures r.Known? ==> r.kind.Code() == raw
    ensures r.Invalid? ==> r.raw == raw && raw !in {1, 2, 3, 255}
  {
    match raw
    case 1 => Known(Put)
    case 2 => Known(Delete)
    case 3 => Known(Merge)
    case 255 => Known(Max)
    case _ => Invalid(raw)
  }

  type EncodedKey = k: Bytes | |k| >= 8 witness [0, 0, 0, 0, 0, 0, 0, 0]

  datatype InternalKeyRef = InternalKeyRef(userKey: Bytes, seqNo: nat, op: nat)

  // ---- Trailer ----

  function PackTrailer(seqNo: nat, kind: Kind): nat {
    Or(ShiftLeft(seqNo, 8), kind.Code())
  }

  function UnpackTrailer(trailer: nat): (nat, nat) {
    (ShiftRight(trailer, 8), And(trailer, 0xff))
  }

  /** The n low bytes of v, most significant first. */
  function BigEndian(v: nat, n: nat): (s: Bytes)
    ensures |s| == n
  {
    if n == 0 then [] else BigEndian(v / 256, n - 1) + [(v % 256) as Byte]
  }

  function FromBigEndian(s: Bytes): nat {
    if s == [] then 0 else 256 * FromBigEndian(s[..|s| - 1]) + s[|s| - 1] as nat
  }

  function EncodeTrailer(seqNo: nat, kind: Kind): (s: Bytes)
    ensures |s| == TRAILER_BYTES
  {
    BigEndian(PackTrailer(seqNo, kind), TRAILER_BYTES)
  }

  function Encode(userKey: Bytes, seqNo: nat, kind: Kind): EncodedKey {
    userKey + EncodeTrailer(seqNo, kind)
  }

  function UserPart(key: EncodedKey): Bytes { key[..|key| - TRAILER_BYTES] }

  function TrailerPart(key: EncodedKey): Bytes { key[|key| - TRAILER_BYTES..] }

  function Decode(key: EncodedKey): InternalKeyRef {
    var (seqNo, op) := UnpackTrailer(FromBigEndian(TrailerPart(key)));
    InternalKeyRef(UserPart(key), seqNo, op)
  }

  /** Writes the internal key into the front of a caller's buffer. */
  method EncodeInto(dst: array<Byte>, userKey: Bytes, seqNo: nat, kind: Kind)
    requires |userKey| + TRAILER_BYTES <= dst.Length
    requires seqNo < SEQ_LIMIT
    modifies dst
    ensures dst[..|userKey| + TRAILER_BYTES] == Encode(userKey, seqNo, kind)
    ensures dst[|userKey| + TRAILER_BYTES..] == old(dst[|userKey| + TRAILER_BYTES..])
  {
    var userLen := |userKey|;
    forall i | 0 <= i < userLen {
      dst[i] := userKey[i];
    }
    var trailer := EncodeTrailer(seqNo, kind);
    forall i | 0 <= i < TRAILER_BYTES {
      dst[userLen + i] := trailer[i];
    }
    assert dst[..userLen] == userKey && dst[userLen..userLen + TRAILER_BYTES] == trailer;
    assert dst[..userLen + TRAILER_BYTES] == dst[..userLen] + dst[userLen..userLen + TRAILER_BYTES];
  }

  /** `InternalKeyComparator`: user keys ascending, then trailers by reversed byte order. */
  function InternalCompare(a: EncodedKey, b: EncodedKey): Ordering {
    match CompareBytes(UserPart(a), UserPart(b))
    case Equal => CompareBytes(TrailerPart(b), TrailerPart(a))
    case other => other
  }

  /** What the comparator is meant to compute on decoded keys. */
  function LogicalCompare(a: InternalKeyRef, b: InternalKeyRef): Ordering {
    if a.userKey != b.userKey then CompareBytes(a.userKey, b.userKey)
    else if a.seqNo != b.seqNo then CompareInt(b.seqNo, a.seqNo)
    else CompareInt(b.op, a.op)
  }

  // ---- Big-endian numbers ----

  lemma {:induction false} BigEndianRoundTrip(v: nat, n: nat)
    requires v < Pow2(8 * n)
    ensures FromBigEndian(BigEndian(v, n)) == v
  {
    if n == 0 {
    } else {
      Pow2Add(8, 8 * (n - 1));
      assert Pow2(8) == 256;
      BigEndianRoundTrip(v / 256, n - 1);
      var s := BigEndian(v, n);
      assert s[..|s| - 1] == BigEndian(v / 256, n - 1);
    }
  }

  lemma {:induction false} FromBigEndianRoundTrip(s: Bytes)
    ensures BigEndian(FromBigEndian(s), |s|) == s
  {
    if s != [] {
      var front, last := s[..|s| - 1], s[|s| - 1] as nat;
      FromBigEndianRoundTrip(front);
      var v := FromBigEndian(s);
      assert v / 256 == FromBigEndian(front) && v % 256 == last;
      assert s == front + [s[|s| - 1]];
    }
  }

  /** Byte i of a big-endian number of n bytes is the number divided by 256^(n - 1 - i), modulo 256. */
  lemma {:induction false} BigEndianBytes(v: nat, n: nat)
    ensures forall i :: 0 <= i < n ==> BigEndian(v, n)[i] as nat == v / Pow256(n - 1 - i) % 256
  {
    if n > 0 {
      BigEndianBytes(v / 256, n - 1);
      forall i | 0 <= i < n ensures BigEndian(v, n)[i] as nat == v / Pow256(n - 1 - i) % 256 {
        if i < n - 1 {
          assert BigEndian(v, n)[i] == BigEndian(v / 256, n - 1)[i];
          DivDiv(v, 256, Pow256(n - 2 - i));
        }
      }
    }
  }

  lemma {:induction false} CompareBytesSnoc(a: Bytes, b: Bytes, x: Byte, y: Byte)
    requires |a| == |b|
    ensures CompareBytes(a + [x], b + [y])
         == if CompareBytes(a, b) == Equal then CompareInt(x as int, y as int) else CompareBytes(a, b)
  {
    if a == [] {
      assert a + [x] == [x] && b + [y] == [y];
    } else {
      assert (a + [x])[1..] == a[1..] + [x] && (b + [y])[1..] == b[1..] + [y];
      CompareBytesSnoc(a[1..], b[1..], x, y);
    }
  }

  /** Byte order of equally long big-endian strings is numeric order. */
  lemma {:induction false} BigEndianOrder(a: Bytes, b: Bytes)
    requires |a| == |b|
    ensures CompareBytes(a, b) == CompareInt(FromBigEndian(a), FromBigEndian(b))
  {
    if a != [] {
      var n := |a| - 1;
      BigEndianOrder(a[..n], b[..n]);
      assert a == a[..n] + [a[n]] && b == b[..n] + [b[n]];
      CompareBytesSnoc(a[..n], b[..n], a[n], b[n]);
    }
  }

  // ---- Trailers ----

  lemma PackTrailerValue(seqNo: nat, kind: Kind)
    ensures PackTrailer(seqNo, kind) == 256 * seqNo + kind.Code()
    ensures UnpackTrailer(PackTrailer(seqNo, kind)) == (seqNo, kind.Code())
    ensures seqNo < SEQ_LIMIT ==> PackTrailer(seqNo, kind) < Pow2(64)
  {
    PackTrailerSum(seqNo, kind.Code());
    UnpackSum(seqNo, kind.Code());
    WordPowers();
  }

  lemma PackTrailerSum(seqNo: nat, code: nat)
    requires code < 256
    ensures Or(ShiftLeft(seqNo, 8), code) == 256 * seqNo + code
  {
    assert Pow2(8) == 256;
    OrDisjoint(seqNo, code, 8);
  }

  lemma UnpackSum(seqNo: nat, code: nat)
    requires code < 256
    ensures UnpackTrailer(256 * seqNo + code) == (seqNo, code)
  {
    UnpackParts(256 * seqNo + code);
    DivModUnique(256 * seqNo + code, 256, seqNo, code);
  }

  /** The sequence number and the kind of a trailer are its quotient and remainder by 256. */
  lemma UnpackParts(trailer: nat)
    ensures UnpackTrailer(trailer) == (trailer / 256, trailer % 256)
  {
    assert Pow2(8) == 256;
    AndMask(trailer, 8);
  }

  lemma EncodedParts(userKey: Bytes, seqNo: nat, kind: Kind)
    ensures UserPart(Encode(userKey, seqNo, kind)) == userKey
    ensures TrailerPart(Encode(userKey, seqNo, kind)) == EncodeTrailer(seqNo, kind)
  {
  }

  /** Decoding undoes encoding for every sequence number below 2^56. */
  lemma DecodeEncode(userKey: Bytes, seqNo: nat, kind: Kind)
    requires seqNo < SEQ_LIMIT
    ensures Decode(Encode(userKey, seqNo, kind)) == InternalKeyRef(userKey, seqNo, kind.Code())
  {
    EncodedParts(userKey, seqNo, kind);
    PackTrailerValue(seqNo, kind);
    BigEndianRoundTrip(PackTrailer(seqNo, kind), TRAILER_BYTES);
  }

  /** Byte i of a trailer, counted from its end: the kind in the last, the sequence number in the others. */
  lemma TrailerByte(s: nat, kind: Kind, i: nat)
    requires 0 < i < 8
    ensures EncodeTrailer(s, kind)[7 - i] as nat == s / Pow256(i - 1) % 256
    ensures EncodeTrailer(s, kind)[7] as nat == kind.Code()
  {
    var t := 256 * s + kind.Code();
    PackTrailerValue(s, kind);
    BigEndianBytes(t, 8);
    DivModUnique(t, 256, s, kind.Code());
    DivDiv(t, 256, Pow256(i - 1));
    assert Pow256(0) == 1 && Pow256(i) == 256 * Pow256(i - 1);
  }

  /** The bytes of an encoded key: the user key, the sequence number in seven bytes, most significant first, and
      the kind. */
  lemma EncodedBytes(u: Bytes, s: nat, kind: Kind)
    ensures var e := Encode(u, s, kind); var t := e[|u|..];
            && |t| == 8 && e[..|u|] == u
            && (forall i :: 0 <= i < 7 ==> t[i] as nat == s / Pow256(6 - i) % 256)
            && t[7] == (match kind case Put => 1 case Delete => 2 case Merge => 3 case RangeDel => 4 case Log => 5 case Max => 255)
  {
    assert Encode(u, s, kind)[|u|..] == EncodeTrailer(s, kind);
    TrailerByte(s, kind, 1);
    forall i | 0 <= i < 7 ensures EncodeTrailer(s, kind)[i] as nat == s / Pow256(6 - i) % 256 {
      TrailerByte(s, kind, 7 - i);
    }
  }

  /** A stored kind byte is read as exactly the kind it was written for; only these four are ever read. */
  lemma KindFromRawExact(raw: nat, kind: Kind)
    ensures KindFromRaw(raw) == Known(kind) <==> raw == kind.Code() && kind !in {RangeDel, Log}
    ensures KindFromRaw(raw).Invalid? <==> raw !in {1, 2, 3, 255}
  {
  }

  /** Of the versions of a user key with one sequence number a lookup comes first, then a merge, a delete and a
      put. */
  lemma KindsInOrder(u: Bytes, s: nat)
    requires s < SEQ_LIMIT
    ensures InternalCompare(Encode(u, s, Max), Encode(u, s, Merge)) == Less
    ensures InternalCompare(Encode(u, s, Merge), Encode(u, s, Delete)) == Less
    ensures InternalCompare(Encode(u, s, Delete), Encode(u, s, Put)) == Less
  {
    KindBefore(u, s, Max, Merge);
    KindBefore(u, s, Merge, Delete);
    KindBefore(u, s, Delete, Put);
  }

  lemma KindBefore(u: Bytes, s: nat, a: Kind, b: Kind)
    requires s < SEQ_LIMIT && a.Code() > b.Code()
    ensures InternalCompare(Encode(u, s, a), Encode(u, s, b)) == Less
  {
    InternalCompareIsLogical(Encode(u, s, a), Encode(u, s, b));
    DecodeEncode(u, s, a);
    DecodeEncode(u, s, b);
  }

  /** Different (user key, sequence, kind) triples have different encodings. */
  lemma EncodeInjective(u1: Bytes, s1: nat, k1: Kind, u2: Bytes, s2: nat, k2: Kind)
    requires s1 < SEQ_LIMIT && s2 < SEQ_LIMIT
    requires Encode(u1, s1, k1) == Encode(u2, s2, k2)
    ensures u1 == u2 && s1 == s2 && k1 == k2
  {
    DecodeEncode(u1, s1, k1);
    DecodeEncode(u2, s2, k2);
  }

  /** On any two encoded keys the byte comparator orders by user key, then newer sequence first, then
      larger kind first. */
  lemma InternalCompareIsLogical(a: EncodedKey, b: EncodedKey)
    ensures InternalCompare(a, b) == LogicalCompare(Decode(a), Decode(b))
  {
    CompareBytesEqual(UserPart(a), UserPart(b));
    BigEndianOrder(TrailerPart(b), TrailerPart(a));
    var ta, tb := FromBigEndian(TrailerPart(a)), FromBigEndian(TrailerPart(b));
    UnpackParts(ta);
    UnpackParts(tb);
  }

  lemma InternalCompareEqual(a: EncodedKey, b: EncodedKey)
    ensures InternalCompare(a, b) == Equal <==> a == b
  {
    CompareBytesEqual(UserPart(a), UserPart(b));
    CompareBytesEqual(TrailerPart(b), TrailerPart(a));
    SameParts(a, b);
  }

  lemma SameParts(a: EncodedKey, b: EncodedKey)
    ensures a == b <==> UserPart(a) == UserPart(b) && TrailerPart(a) == TrailerPart(b)
  {
    assert a == UserPart(a) + TrailerPart(a) && b == UserPart(b) + TrailerPart(b);
  }

  lemma InternalCompareReverse(a: EncodedKey, b: EncodedKey)
    ensures InternalCompare(b, a) == InternalCompare(a, b).Reverse()
  {
    CompareBytesReverse(UserPart(a), UserPart(b));
    CompareBytesReverse(TrailerPart(a), TrailerPart(b));
  }

  lemma InternalCompareTransitive(a: EncodedKey, b: EncodedKey, c: EncodedKey)
    requires InternalCompare(a, b) == Less && InternalCompare(b, c) == Less
    ensures InternalCompare(a, c) == Less
  {
    var ua, ub, uc := UserPart(a), UserPart(b), UserPart(c);
    CompareBytesEqual(ua, ub);
    CompareBytesEqual(ub, uc);
    if CompareBytes(ua, ub) == Less && CompareBytes(ub, uc) == Less {
      CompareBytesTransitive(ua, ub, uc);
    } else if ua == ub && ub == uc {
      CompareBytesReverse(TrailerPart(a), TrailerPart(b));
      CompareBytesReverse(TrailerPart(b), TrailerPart(c));
      CompareBytesReverse(TrailerPart(a), TrailerPart(c));
      CompareBytesTransitive(TrailerPart(c), TrailerPart(b), TrailerPart(a));
    }
  }

  /** The internal-key comparator is a total order on every byte string long enough to hold a trailer. */
  lemma InternalTotalOrder()
    ensures TotalOrder(InternalCompare)
  {
    forall a: EncodedKey, b: EncodedKey ensures InternalCompare(a, b) == Equal <==> a == b {
      InternalCompareEqual(a, b);
    }
    forall a: EncodedKey, b: EncodedKey
      ensures InternalCompare(a, b) == Less <==> InternalCompare(b, a) == Greater
    {
      InternalCompareReverse(a, b);
    }
    forall a: EncodedKey, b: EncodedKey, c: EncodedKey | InternalCompare(a, b) == Less && InternalCompare(b, c) == Less
      ensures InternalCompare(a, c) == Less
    {
      InternalCompareTransitive(a, b, c);
    }
  }

  /** The lookup key for snapshot s of user key u sorts after exactly the versions of u newer than s and
      the keys of smaller user keys. */
  lemma LookupKeyPosition(u: Bytes, s: nat, stored: EncodedKey)
    requires s < SEQ_LIMIT
    ensures InternalCompare(stored, Encode(u, s, Max)) == Less <==>
            var k := Decode(stored);
            CompareBytes(k.userKey, u) == Less || (k.userKey == u && k.seqNo > s)
  {
    InternalCompareIsLogical(stored, Encode(u, s, Max));
    DecodeEncode(u, s, Max);
    CompareBytesEqual(Decode(stored).userKey, u);
    UnpackParts(FromBigEndian(TrailerPart(stored)));
  }
}
