/** Bytes, three-way comparison results, and what it means for a comparator to be a total order. */
module Ordering {

  newtype Byte = b: int | 0 <= b < 256

  type Bytes = seq<Byte>

  datatype Ordering = Less | Equal | Greater {
    function Reverse(): Ordering {
      match this
      case Less => Greater
      case Equal => Equal
      case Greater => Less
    }
  }

  function CompareInt(x: int, y: int): Ordering {
    if x < y then Less else if x == y then Equal else Greater
  }

  /** The comparison of byte slices: the first differing byte decides, a proper prefix is smaller. */
  function CompareBytes(a: Bytes, b: Bytes): Ordering {
    if a == [] then (if b == [] then Equal else Less)
    else if b == [] then Greater
    else if a[0] == b[0] then CompareBytes(a[1..], b[1..])
    else CompareInt(a[0] as int, b[0] as int)
  }

  /** A comparator that decides equality, is antisymmetric and is transitive. */
  ghost predicate TotalOrder<K(!new)>(compare: (K, K) -> Ordering) {
    && (forall a, b :: compare(a, b) == Equal <==> a == b)
    && (forall a, b :: compare(a, b) == Less <==> compare(b, a) == Greater)
    && (forall a, b, c :: compare(a, b) == Less && compare(b, c) == Less ==> compare(a, c) == Less)
  }

  lemma {:induction false} CompareBytesEqual(a: Bytes, b: Bytes)
    ensures CompareBytes(a, b) == Equal <==> a == b
  {
    if a != [] && b != [] && a[0] == b[0] {
      CompareBytesEqual(a[1..], b[1..]);
      assert a == [a[0]] + a[1..] && b == [b[0]] + b[1..];
    }
  }

  lemma {:induction false} CompareBytesReverse(a: Bytes, b: Bytes)
    ensures CompareBytes(b, a) == CompareBytes(a, b).Reverse()
  {
    if a != [] && b != [] && a[0] == b[0] {
      CompareBytesReverse(a[1..], b[1..]);
    }
  }

  lemma {:induction false} CompareBytesTransitive(a: Bytes, b: Bytes, c: Bytes)
    requires CompareBytes(a, b) == Less && CompareBytes(b, c) == Less
    ensures CompareBytes(a, c) == Less
  {
    if a != [] && b != [] && c != [] && a[0] == b[0] == c[0] {
      CompareBytesTransitive(a[1..], b[1..], c[1..]);
    }
  }

  /** The byte strings agree up to i, where the first has the smaller byte. */
  predicate SmallerAt(a: Bytes, b: Bytes, i: nat) {
    i < |a| && i < |b| && a[..i] == b[..i] && a[i] < b[i]
  }

  lemma SmallerAtTail(a: Bytes, b: Bytes, i: nat)
    requires a != [] && b != [] && a[0] == b[0]
    ensures SmallerAt(a, b, i + 1) <==> SmallerAt(a[1..], b[1..], i)
  {
    if i < |a[1..]| && i < |b[1..]| {
      assert a[..i + 1] == [a[0]] + a[1..][..i] && b[..i + 1] == [b[0]] + b[1..][..i];
    }
  }

  lemma SmallerAtStart(a: Bytes, b: Bytes, i: nat)
    requires SmallerAt(a, b, i) && i > 0
    ensures a[0] == b[0]
  {
    assert a[..i][0] == a[0] && b[..i][0] == b[0];
  }

  /** A string is below another exactly when it is a proper beginning of it or has the smaller byte at the first
      place where they differ. */
  lemma {:induction false} BytesLexicographic(a: Bytes, b: Bytes)
    ensures CompareBytes(a, b) == Less <==> a < b || exists i: nat :: SmallerAt(a, b, i)
  {
    if a != [] && b != [] {
      if a[0] == b[0] {
        BytesLexicographic(a[1..], b[1..]);
        assert a < b <==> a[1..] < b[1..] by { assert a == [a[0]] + a[1..] && b == [b[0]] + b[1..]; }
        if i: nat :| SmallerAt(a[1..], b[1..], i) {
          SmallerAtTail(a, b, i);
        }
        if i: nat :| SmallerAt(a, b, i) {
          SmallerAtTail(a, b, i - 1);
        }
      } else {
        assert SmallerAt(a, b, 0) <==> a[0] < b[0];
        if i: nat :| i > 0 && SmallerAt(a, b, i) { SmallerAtStart(a, b, i); }
      }
    } else {
      assert forall i: nat :: !SmallerAt(a, b, i);
    }
  }

  /** The byte order used by `DefaultComparator` is a total order on all byte strings. */
  lemma BytesTotalOrder()
    ensures TotalOrder(CompareBytes)
  {
    forall a, b ensures CompareBytes(a, b) == Equal <==> a == b { CompareBytesEqual(a, b); }
    forall a, b ensures CompareBytes(a, b) == Less <==> CompareBytes(b, a) == Greater { CompareBytesReverse(a, b); }
    forall a, b, c | CompareBytes(a, b) == Less && CompareBytes(b, c) == Less
      ensures CompareBytes(a, c) == Less
    {
      CompareBytesTransitive(a, b, c);
    }
  }
}
