/**
 Keys of the trie: 32-byte strings, read bit by bit from the most significant bit of the
 first byte, and ordered byte by byte.
 */
module Keys {

  const HASH_LEN := 32
  const TRIE_HEIGHT := 256

  type Key = k: seq<bv8> | |k| == 32 witness seq(32, _ => 0)

  /** The mask `1 << (7 - j)`. */
  function Mask(j: nat): bv8
    requires j < 8
  {
    match j
    case 0 => 0x80
    case 1 => 0x40
    case 2 => 0x20
    case 3 => 0x10
    case 4 => 0x08
    case 5 => 0x04
    case 6 => 0x02
    case _ => 0x01
  }

  predicate ByteBit(b: bv8, j: nat)
    requires j < 8
  {
    b & Mask(j) != 0
  }

  /** bitIsSet */
  predicate BitIsSet(bits: seq<bv8>, i: nat)
    requires i < 8 * |bits|
  {
    ByteBit(bits[i / 8], i % 8)
  }

  /** bitSet, which the source performs in place. */
  function BitSet(bits: seq<bv8>, i: nat): (r: seq<bv8>)
    requires i < 8 * |bits|
    ensures |r| == |bits|
  {
    bits[i / 8 := bits[i / 8] | Mask(i % 8)]
  }

  predicate Agree(a: Key, b: Key, d: nat)
    requires d <= TRIE_HEIGHT
  {
    forall i :: 0 <= i < d ==> BitIsSet(a, i) == BitIsSet(b, i)
  }

  /** `bytes.Compare(a[i..], b[i..]) < 0` */
  predicate LessFrom(a: Key, b: Key, i: nat)
    requires i <= 32
    decreases 32 - i
  {
    i < 32 && (a[i] < b[i] || (a[i] == b[i] && LessFrom(a, b, i + 1)))
  }

  predicate Less(a: Key, b: Key) {
    LessFrom(a, b, 0)
  }

  lemma {:induction false} LessTotalFrom(a: Key, b: Key, i: nat)
    requires i <= 32
    ensures LessFrom(a, b, i) || LessFrom(b, a, i) || a[i..] == b[i..]
    ensures !(LessFrom(a, b, i) && LessFrom(b, a, i))
    ensures a[i..] == b[i..] ==> !LessFrom(a, b, i)
    decreases 32 - i
  {
    if i < 32 {
      LessTotalFrom(a, b, i + 1);
      assert a[i..] == [a[i]] + a[i + 1..] && b[i..] == [b[i]] + b[i + 1..];
    }
  }

  /** `bytes.Compare` is a strict total order on keys. */
  lemma LessTotal(a: Key, b: Key)
    ensures Less(a, b) || Less(b, a) || a == b
    ensures !(Less(a, b) && Less(b, a))
    ensures a == b ==> !Less(a, b)
  {
    LessTotalFrom(a, b, 0);
    assert a[0..] == a && b[0..] == b;
  }

  lemma {:induction false} LessTransFrom(a: Key, b: Key, c: Key, i: nat)
    requires i <= 32 && LessFrom(a, b, i) && LessFrom(b, c, i)
    ensures LessFrom(a, c, i)
    decreases 32 - i
  {
    if a[i] == b[i] && b[i] == c[i] {
      LessTransFrom(a, b, c, i + 1);
    }
  }

  lemma LessTrans(a: Key, b: Key, c: Key)
    requires Less(a, b) && Less(b, c)
    ensures Less(a, c)
  {
    LessTransFrom(a, b, c, 0);
  }

  lemma ByteBitsDetermine(a: bv8, b: bv8)
    requires forall j :: 0 <= j < 8 ==> ByteBit(a, j) == ByteBit(b, j)
    ensures a == b
  {
    assert ByteBit(a, 0) == ByteBit(b, 0) && ByteBit(a, 1) == ByteBit(b, 1)
        && ByteBit(a, 2) == ByteBit(b, 2) && ByteBit(a, 3) == ByteBit(b, 3)
        && ByteBit(a, 4) == ByteBit(b, 4) && ByteBit(a, 5) == ByteBit(b, 5)
        && ByteBit(a, 6) == ByteBit(b, 6) && ByteBit(a, 7) == ByteBit(b, 7);
  }

  lemma ByteBitsOrder(a: bv8, b: bv8, j: nat)
    requires j < 8 && !ByteBit(a, j) && ByteBit(b, j)
    requires forall i :: 0 <= i < j ==> ByteBit(a, i) == ByteBit(b, i)
    ensures a < b
  {
    assert j > 0 ==> ByteBit(a, 0) == ByteBit(b, 0);
    assert j > 1 ==> ByteBit(a, 1) == ByteBit(b, 1);
    assert j > 2 ==> ByteBit(a, 2) == ByteBit(b, 2);
    assert j > 3 ==> ByteBit(a, 3) == ByteBit(b, 3);
    assert j > 4 ==> ByteBit(a, 4) == ByteBit(b, 4);
    assert j > 5 ==> ByteBit(a, 5) == ByteBit(b, 5);
    assert j > 6 ==> ByteBit(a, 6) == ByteBit(b, 6);
  }

  lemma AgreeBytes(a: Key, b: Key, d: nat, m: nat)
    requires d <= TRIE_HEIGHT && Agree(a, b, d) && 8 * m + 8 <= d
    ensures a[m] == b[m]
  {
    forall j | 0 <= j < 8
      ensures ByteBit(a[m], j) == ByteBit(b[m], j)
    {
      assert BitIsSet(a, 8 * m + j) == BitIsSet(b, 8 * m + j);
    }
    ByteBitsDetermine(a[m], b[m]);
  }

  /** A key is determined by its 256 bits. */
  lemma AgreeAll(a: Key, b: Key)
    requires Agree(a, b, TRIE_HEIGHT)
    ensures a == b
  {
    forall m | 0 <= m < 32
      ensures a[m] == b[m]
    {
      AgreeBytes(a, b, TRIE_HEIGHT, m);
    }
  }

  lemma {:induction false} LessAfterPrefix(a: Key, b: Key, i: nat, m: nat)
    requires i <= m < 32 && a[m] < b[m]
    requires forall j :: i <= j < m ==> a[j] == b[j]
    ensures LessFrom(a, b, i)
    decreases m - i
  {
    if i < m {
      LessAfterPrefix(a, b, i + 1, m);
    }
  }

  /** The first differing bit decides the byte-wise order. */
  lemma BitOrder(a: Key, b: Key, d: nat)
    requires d < TRIE_HEIGHT && Agree(a, b, d) && !BitIsSet(a, d) && BitIsSet(b, d)
    ensures Less(a, b)
  {
    var m := d / 8;
    forall j | 0 <= j < m
      ensures a[j] == b[j]
    {
      AgreeBytes(a, b, d, j);
    }
    forall i | 0 <= i < d % 8
      ensures ByteBit(a[m], i) == ByteBit(b[m], i)
    {
      assert BitIsSet(a, 8 * m + i) == BitIsSet(b, 8 * m + i);
    }
    ByteBitsOrder(a[m], b[m], d % 8);
    LessAfterPrefix(a, b, 0, m);
  }

  lemma ByteBitOr(b: bv8, j: nat, i: nat)
    requires j < 8 && i < 8
    ensures ByteBit(b | Mask(i), j) == (j == i || ByteBit(b, j))
  {
  }

  /** bitSet sets exactly the bit it names. */
  lemma BitSetSets(bits: seq<bv8>, i: nat, j: nat)
    requires i < 8 * |bits| && j < 8 * |bits|
    ensures BitIsSet(BitSet(bits, i), j) == (j == i || BitIsSet(bits, j))
  {
    if i / 8 == j / 8 {
      ByteBitOr(bits[i / 8], j % 8, i % 8);
    }
  }
}
