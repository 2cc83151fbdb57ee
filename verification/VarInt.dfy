/** Unsigned LEB128 limited to 32 bits (section 7.6 of DWARF Version 5): seven payload bits a byte, least
    significant group first, the top bit saying that more bytes follow. */
module VarInt {
  import opened Bits
  import opened Digits
  import opened Ordering

  const MAX_VARINT: nat := 5
  const U32_LIMIT: nat := 0x1_0000_0000

  // ---- The format ----

  function Encode(v: nat): (s: Bytes)
    ensures |s| >= 1
  {
    if v <= 127 then [v as Byte] else [(v % 128 + 128) as Byte] + Encode(v / 128)
  }

  /** The bytes up to and including the first without the top bit, or all of them. */
  function Length(s: Bytes): (n: nat)
    ensures n <= |s|
  {
    if s == [] then 0 else if s[0] < 128 then 1 else 1 + Length(s[1..])
  }

  /** Their value, not yet cut to 32 bits. */
  function Value(s: Bytes): nat {
    if s == [] then 0 else if s[0] < 128 then s[0] as nat else s[0] as nat - 128 + 128 * Value(s[1..])
  }

  predicate Complete(s: Bytes) { s != [] && Length(s) == |s| && s[|s| - 1] < 128 }

  /** Byte i of an encoding is the value's i-th group of seven bits, with the top bit set in all but the last. */
  lemma {:induction false} EncodeBytes(v: nat)
    ensures forall i :: 0 <= i < |Encode(v)| ==>
              Encode(v)[i] as nat == v / Pow128(i) % 128 + (if i < |Encode(v)| - 1 then 128 else 0)
  {
    assert Pow128(0) == 1;
    if v > 127 {
      EncodeBytes(v / 128);
      forall i | 0 < i < |Encode(v)|
        ensures Encode(v)[i] as nat == v / Pow128(i) % 128 + (if i < |Encode(v)| - 1 then 128 else 0)
      {
        assert Encode(v)[i] == Encode(v / 128)[i - 1];
        DivDiv(v, 128, Pow128(i - 1));
      }
    }
  }

  /** The shift of a sixth byte is wider than the word. */
  datatype Decoded = Decoded(value: nat, bytesRead: nat) | ShiftOverflow

  /** What the program's decoder makes of a buffer. */
  function DecodeResult(s: Bytes): Decoded {
    if Length(s) > MAX_VARINT then ShiftOverflow else Decoded(Value(s) % U32_LIMIT, Length(s))
  }

  /** What follows an encoding does not matter to the decoder. */
  lemma {:induction false} RoundTrip(v: nat, rest: Bytes)
    ensures Value(Encode(v) + rest) == v && Length(Encode(v) + rest) == |Encode(v)|
  {
    var s := Encode(v) + rest;
    if v > 127 {
      assert s[1..] == Encode(v / 128) + rest;
      RoundTrip(v / 128, rest);
    }
  }

  lemma {:induction false} EncodeComplete(v: nat)
    ensures Complete(Encode(v))
  {
    if v > 127 {
      EncodeComplete(v / 128);
      assert Encode(v)[1..] == Encode(v / 128);
    }
  }

  /** No other bytes that decode to the same value are fewer. */
  lemma {:induction false} EncodeMinimal(s: Bytes)
    requires Complete(s)
    ensures |Encode(Value(s))| <= |s|
  {
    if s[0] >= 128 {
      assert Complete(s[1..]);
      EncodeMinimal(s[1..]);
      assert Value(s) / 128 == Value(s[1..]);
    }
  }

  /** Each byte more is worth a factor of 128. */
  lemma EncodedSizeStep(v: nat, limit: nat, k: nat)
    requires v < 128 * limit && v / 128 < limit ==> |Encode(v / 128)| <= k
    ensures v < 128 * limit ==> |Encode(v)| <= k + 1
  {
  }

  /** Five bytes are enough for 32 bits, three for a key length. */
  lemma EncodedSize(v: nat)
    ensures v < U32_LIMIT ==> |Encode(v)| <= MAX_VARINT
    ensures v < 0x1_0000 ==> |Encode(v)| <= 3
  {
    var v1, v2, v3 := v / 128, v / 128 / 128, v / 128 / 128 / 128;
    assert v3 / 128 < 128 ==> |Encode(v3 / 128)| == 1;
    EncodedSizeStep(v3, 128, 1);
    EncodedSizeStep(v2, 0x4000, 2);
    EncodedSizeStep(v1, 0x20_0000, 3);
    EncodedSizeStep(v, 0x1000_0000, 4);
    assert v2 < 128 ==> |Encode(v2)| == 1;
    EncodedSizeStep(v1, 128, 1);
    EncodedSizeStep(v, 0x4000, 2);
  }

  /** The decoder undoes the encoder on every 32-bit value, whatever follows, and says how many bytes it took. */
  lemma DecodeUndoesEncode(v: nat, rest: Bytes)
    requires v < U32_LIMIT
    ensures DecodeResult(Encode(v) + rest) == Decoded(v, |Encode(v)|)
  {
    RoundTrip(v, rest);
    EncodedSize(v);
  }

  // ---- The code ----

  lemma LowBits(x: nat)
    ensures And(x, 0x7f) == x % 128 && ShiftRight(x, 7) == x / 128
  {
    assert Pow2(7) == 128;
    AndMask(x, 7);
  }

  /** The low group of v with the top bit set. */
  function ContinuedByte(v: nat): (b: nat)
    ensures b == 128 + v % 128
  {
    LowBits(v);
    OrDisjoint(1, v % 128, 7);
    assert Pow2(7) == 128 && ShiftLeft(1, 7) == 128;
    Or(0x80, And(v, 0x7f))
  }

  lemma EncodeStep(v: nat)
    requires v > 127
    ensures v / 128 < v && Encode(v) == [(128 + v % 128) as Byte] + Encode(v / 128)
  {
    var q, r := v / 128, v % 128;
    assert v == 128 * q + r;
    assert Encode(v) == [(r + 128) as Byte] + Encode(q);
  }

  /** The bytes so far and the encoding of what is left of the value make up the encoding. */
  ghost predicate Encoding(value: nat, done: Bytes, v: nat) {
    Encode(value) == done + Encode(v) && |Encode(value)| <= MAX_VARINT
  }

  lemma EncodingStep(value: nat, done: Bytes, v: nat)
    requires Encoding(value, done, v) && v > 127
    ensures Encoding(value, done + [(128 + v % 128) as Byte], v / 128) && |done| + 2 <= MAX_VARINT && v / 128 < v
  {
    EncodeStep(v);
  }

  /** `VarInt::new`. */
  method New(value: nat) returns (buf: array<Byte>, len: nat)
    requires value < U32_LIMIT
    ensures fresh(buf) && buf.Length == MAX_VARINT && 1 <= len <= MAX_VARINT
    ensures buf[..len] == Encode(value)
  {
    buf := new Byte[MAX_VARINT](_ => 0);
    var v := value;
    var i := 0;
    EncodedSize(value);
    while v > 127
      invariant i < MAX_VARINT && Encoding(value, buf[..i], v)
      decreases v
    {
      EncodingStep(value, buf[..i], v);
      LowBits(v);
      ghost var done := buf[..i];
      buf[i] := ContinuedByte(v) as Byte;
      assert buf[..i + 1] == done + [(128 + v % 128) as Byte];
      v := ShiftRight(v, 7);
      i := i + 1;
    }
    buf[i] := v as Byte;
    len := i + 1;
  }

  /** The first n bytes are worth acc, more bytes follow, and a payload there is worth place times as much. */
  ghost predicate SoFar(s: Bytes, n: nat, acc: nat, place: nat) {
    && n <= |s| && acc < place
    && Value(s) == acc + place * Value(s[n..])
    && Length(s) == n + Length(s[n..])
  }

  lemma Distribute(p: nat, d: nat, v: nat)
    ensures p * (d + 128 * v) == p * d + (128 * p) * v
    ensures d < 128 ==> p * d + p <= 128 * p
  {
    assert (128 * p) * v == p * (128 * v);
    if d < 128 { assert p * (127 - d) >= 0; }
  }

  lemma MoreBytes(s: Bytes, n: nat, acc: nat, place: nat)
    requires SoFar(s, n, acc, place) && n < |s| && s[n] >= 128
    ensures SoFar(s, n + 1, acc + s[n] as nat % 128 * place, 128 * place)
  {
    var t, d := s[n..], s[n] as nat - 128;
    assert t[0] == s[n] && t[1..] == s[n + 1..] && s[n] as nat % 128 == d;
    Distribute(place, d, Value(s[n + 1..]));
  }

  lemma LastByte(s: Bytes, n: nat, acc: nat, place: nat)
    requires SoFar(s, n, acc, place) && n < |s| && s[n] < 128
    ensures Value(s) == acc + s[n] as nat % 128 * place && Length(s) == n + 1
  {
    var t, low := s[n..], s[n] as nat % 128;
    assert t[0] == s[n] && Value(t) == low;
    assert place * Value(t) == low * place;
  }

  lemma PowersOfSeven()
    ensures Pow2(0) == 1 && Pow2(7) == 0x80 && Pow2(14) == 0x4000 && Pow2(21) == 0x20_0000
    ensures Pow2(28) == 0x1000_0000
  {
    assert Pow2(7) == 128;
    Pow2Add(7, 7);
    Pow2Add(14, 7);
    Pow2Add(21, 7);
  }

  lemma CutSmall(low: nat, place: nat, acc: nat)
    requires low < 128 && acc < place <= 0x20_0000
    ensures (acc + low * place) % U32_LIMIT == acc + low * place
  {
    assert (127 - low) * place >= 0;
    InWord(acc + low * place, U32_LIMIT);
  }

  lemma CutLarge(low: nat, acc: nat)
    requires low < 128 && acc < 0x1000_0000
    ensures (acc + low * 0x1000_0000) % U32_LIMIT == acc + low % 16 * 0x1000_0000
  {
    assert low == 16 * (low / 16) + low % 16;
    DivModUnique(acc + low * 0x1000_0000, U32_LIMIT, low / 16, acc + low % 16 * 0x1000_0000);
  }

  /** What a word keeps of a payload. */
  lemma CutPayload(low: nat, shift: nat, acc: nat)
    requires shift in {0, 7, 14, 21, 28} && low < 128 && acc < Pow2(shift)
    ensures (acc + low * Pow2(shift)) % U32_LIMIT == acc + (if shift == 28 then low % 16 else low) * Pow2(shift)
  {
    PowersOfSeven();
    if shift == 28 { CutLarge(low, acc); } else { CutSmall(low, Pow2(shift), acc); }
  }

  /** Adding a byte's payload above the bits so far, inside a word of 32 bits. */
  lemma PayloadAt(low: nat, shift: nat, acc: nat)
    requires shift in {0, 7, 14, 21, 28} && low < 128 && acc < Pow2(shift)
    ensures Or(ShiftLeft(low, shift) % U32_LIMIT, acc) == (acc + low * Pow2(shift)) % U32_LIMIT
  {
    var kept := if shift == 28 then low % 16 else low;
    CutPayload(low, shift, acc);
    CutPayload(low, shift, 0);
    OrKept(ShiftLeft(low, shift) % U32_LIMIT, kept, shift, acc);
  }

  lemma OrKept(x: nat, kept: nat, shift: nat, acc: nat)
    requires x == kept * Pow2(shift) && acc < Pow2(shift)
    ensures Or(x, acc) == acc + kept * Pow2(shift)
  {
    OrDisjoint(kept, acc, shift);
  }

  lemma SmallPlace(shift: nat)
    requires shift in {0, 7, 14, 21, 28}
    ensures Pow2(shift) <= U32_LIMIT && Pow2(shift + 7) == 128 * Pow2(shift)
  {
    PowersOfSeven();
    Pow2Add(7, shift);
  }

  /** One turn of the decoder's loop, on a word. */
  function AddPayload(result: nat, byte: Byte, shift: nat): nat {
    Or(ShiftLeft(And(byte as nat, 0x7f), shift) % U32_LIMIT, result)
  }

  lemma InWord(acc: nat, place: nat)
    requires acc < place <= U32_LIMIT
    ensures acc % U32_LIMIT == acc
  {
  }

  lemma AddPayloadOk(byte: Byte, shift: nat, acc: nat, low: nat)
    requires shift in {0, 7, 14, 21, 28} && acc < Pow2(shift) && low == byte as nat % 128
    ensures AddPayload(acc, byte, shift) == (acc + low * Pow2(shift)) % U32_LIMIT
  {
    LowBits(byte as nat);
    PayloadAt(low, shift, acc);
  }

  ghost predicate Decoding(s: Bytes, n: nat, acc: nat, result: nat) {
    n <= MAX_VARINT && SoFar(s, n, acc, Pow2(7 * n)) && result == acc % U32_LIMIT
  }

  lemma WordStep(acc: nat, byte: Byte, n: nat, low: nat)
    requires n < MAX_VARINT && acc < Pow2(7 * n) && low == byte as nat % 128
    ensures AddPayload(acc % U32_LIMIT, byte, 7 * n) == (acc + low * Pow2(7 * n)) % U32_LIMIT
  {
    var shift := 7 * n;
    assert shift in {0, 7, 14, 21, 28};
    SmallPlace(shift);
    InWord(acc, Pow2(shift));
    AddPayloadOk(byte, shift, acc, low);
  }

  lemma NextPlace(n: nat)
    ensures Pow2(7 * (n + 1)) == 128 * Pow2(7 * n)
  {
    Pow2Add(7, 7 * n);
    assert Pow2(7) == 128;
  }

  lemma FormatStep(s: Bytes, n: nat, acc: nat, low: nat, place: nat)
    requires SoFar(s, n, acc, place) && n < |s| && low == s[n] as nat % 128
    ensures s[n] >= 128 ==> SoFar(s, n + 1, acc + low * place, 128 * place)
    ensures s[n] < 128 ==> Value(s) == acc + low * place && Length(s) == n + 1
  {
    if s[n] >= 128 {
      MoreBytes(s, n, acc, place);
    } else {
      LastByte(s, n, acc, place);
    }
  }

  lemma DecodeStep(s: Bytes, n: nat, acc: nat, result: nat) returns (acc': nat)
    requires Decoding(s, n, acc, result) && n < |s| && n < MAX_VARINT
    ensures s[n] >= 128 ==> Decoding(s, n + 1, acc', AddPayload(result, s[n], 7 * n))
    ensures s[n] < 128 ==> AddPayload(result, s[n], 7 * n) == Value(s) % U32_LIMIT && Length(s) == n + 1
  {
    var low := s[n] as nat % 128;
    acc' := acc + low * Pow2(7 * n);
    WordStep(acc, s[n], n, low);
    NextPlace(n);
    FormatStep(s, n, acc, low, Pow2(7 * n));
  }

  /** `VarInt::decode`: the value of the bytes up to the end of the encoding, cut to 32 bits. */
  method Decode(buf: Bytes) returns (r: Decoded)
    ensures r == DecodeResult(buf)
  {
    var result, shift, bytesRead := 0, 0, 0;
    ghost var acc: nat := 0;
    assert buf[0..] == buf;
    while bytesRead < |buf|
      invariant bytesRead <= |buf| && shift == 7 * bytesRead && Decoding(buf, bytesRead, acc, result)
    {
      var byte := buf[bytesRead];
      if shift >= 32 {
        assert buf[bytesRead..][0] == byte;
        return ShiftOverflow;
      }
      acc := DecodeStep(buf, bytesRead, acc, result);
      result := AddPayload(result, byte, shift);
      bytesRead := bytesRead + 1;
      if byte < 128 {
        return Decoded(result, bytesRead);
      }
      shift := shift + 7;
    }
    r := Decoded(result, bytesRead);
  }
}
