/**
 The byte form of a batch in the database: a 4-byte bitmap and the packed 33-byte slots.
 */
module Codec {
  import opened Keys
  import opened Trie
  import opened Batch
  import opened Reads

  type Bytes31 = seq<seq<bv8>>

  const SLOT_LEN := 33

  /** Batches as the trie builds them: every slot empty or 33 bytes, a shortcut in slots 1 and 2 alone. */
  predicate WellFormed(b: Bytes31) {
    && |b| == BATCH_LEN
    && (b[0] == [0] || b[0] == [1])
    && (forall i :: 1 <= i < BATCH_LEN ==> |b[i]| == 0 || |b[i]| == SLOT_LEN)
    && (b[0] == [1] ==> |b[1]| == SLOT_LEN && |b[2]| == SLOT_LEN && forall i :: 3 <= i < BATCH_LEN ==> |b[i]| == 0)
  }

  // ----- serializeBatch

  function ZeroBitmap(): (r: seq<bv8>)
    ensures |r| == 4 && forall i :: 0 <= i < 32 ==> !BitIsSet(r, i)
  {
    [0, 0, 0, 0]
  }

  /** The bitmap once slots 1 to n have been visited. */
  function Bitmap(b: Bytes31, n: nat): (r: seq<bv8>)
    requires |b| == BATCH_LEN && n < BATCH_LEN
    ensures |r| == 4
  {
    if n == 0 then if b[0] == [1] then BitSet(ZeroBitmap(), 31) else ZeroBitmap()
    else if |b[n]| != 0 then BitSet(Bitmap(b, n - 1), n - 1) else Bitmap(b, n - 1)
  }

  /** The slots 1 to n, packed. */
  function Packed(b: Bytes31, n: nat): seq<bv8>
    requires |b| == BATCH_LEN && n < BATCH_LEN
  {
    if n == 0 then [] else Packed(b, n - 1) + b[n]
  }

  function Serialized(b: Bytes31): seq<bv8>
    requires |b| == BATCH_LEN
  {
    Bitmap(b, 30) + Packed(b, 30)
  }

  /** serializeBatch */
  method SerializeBatch(b: Bytes31) returns (serialized: seq<bv8>)
    requires |b| == BATCH_LEN && |b[0]| == 1
    ensures serialized == Serialized(b)
  {
    hide BitIsSet, BitSet;
    var bitmap := ZeroBitmap();
    if b[0][0] == 1 {
      bitmap := BitSet(bitmap, 31);
    }
    var payload := [];
    for i := 1 to BATCH_LEN
      invariant bitmap == Bitmap(b, i - 1) && payload == Packed(b, i - 1)
    {
      if |b[i]| != 0 {
        bitmap := BitSet(bitmap, i - 1);
      }
      payload := payload + b[i];
    }
    serialized := bitmap + payload;
  }

  lemma {:induction false} BitmapBits(b: Bytes31, n: nat, j: nat)
    requires |b| == BATCH_LEN && n < BATCH_LEN && j < 32
    ensures BitIsSet(Bitmap(b, n), j) <==> (j < n && |b[j + 1]| != 0) || (j == 31 && b[0] == [1])
  {
    hide BitIsSet, BitSet;
    if n == 0 {
      BitSetSets(ZeroBitmap(), 31, j);
    } else {
      BitmapBits(b, n - 1, j);
      BitSetSets(Bitmap(b, n - 1), n - 1, j);
    }
  }

  // ----- parseBatch

  /** The number of set bits below bit n. */
  function CountBits(val: seq<bv8>, n: nat): (c: nat)
    requires n <= 8 * |val|
    ensures c <= n
  {
    if n == 0 then 0 else CountBits(val, n - 1) + if BitIsSet(val, n - 1) then 1 else 0
  }

  lemma {:induction false} CountBitsMono(val: seq<bv8>, m: nat, n: nat)
    requires m <= n <= 8 * |val|
    ensures CountBits(val, m) <= CountBits(val, n)
    ensures m < n && BitIsSet(val, m) ==> CountBits(val, m) < CountBits(val, n)
    decreases n
  {
    hide BitIsSet;
    if m < n {
      CountBitsMono(val, m, n - 1);
    }
  }

  /** The slot of index i in a regular batch. */
  function SlotBytes(val: seq<bv8>, i: nat): seq<bv8>
    requires 1 <= i < BATCH_LEN && |val| >= 4 && |val| >= 4 + SLOT_LEN * CountBits(val, 30)
  {
    CountBitsMono(val, i - 1, 30);
    var at := 4 + SLOT_LEN * CountBits(val, i - 1);
    if BitIsSet(val, i - 1) then val[at..at + SLOT_LEN] else []
  }

  function Parsed(val: seq<bv8>): Option<Bytes31> {
    if |val| < 4 then None
    else if BitIsSet(val, 31) then
      if |val| < 70 then None
      else Some([[1], val[4..37], val[37..70]] + seq(28, _ => []))
    else if |val| < 4 + SLOT_LEN * CountBits(val, 30) then None
    else Some([[0]] + seq(30, i requires 0 <= i < 30 => SlotBytes(val, i + 1)))
  }

  /** parseBatch */
  method ParseBatch(val: seq<bv8>) returns (res: Option<Bytes31>)
    ensures res == Parsed(val)
  {
    hide BitIsSet;
    if |val| < 4 {
      return None;
    }
    var batch: Bytes31 := seq(BATCH_LEN, _ => []);
    if BitIsSet(val, 31) {
      if |val| < 70 {
        return None;
      }
      batch := batch[0 := [1]][1 := val[4..37]][2 := val[37..70]];
      assert batch == [[1], val[4..37], val[37..70]] + seq(28, _ => []);
      return Some(batch);
    }
    var j := 0;
    for i := 1 to BATCH_LEN
      invariant j == CountBits(val, i - 1)
    {
      if BitIsSet(val, i - 1) {
        j := j + 1;
      }
    }
    if |val| < 4 + SLOT_LEN * j {
      return None;
    }
    batch := batch[0 := [0]];
    j := 0;
    for i := 1 to BATCH_LEN
      invariant j == CountBits(val, i - 1) && |batch| == BATCH_LEN && batch[0] == [0]
      invariant forall k :: 1 <= k < BATCH_LEN ==> batch[k] == if k < i then SlotBytes(val, k) else []
    {
      CountBitsMono(val, i - 1, 30);
      if BitIsSet(val, i - 1) {
        batch := batch[i := val[4 + SLOT_LEN * j..4 + SLOT_LEN * (j + 1)]];
        j := j + 1;
      }
    }
    assert batch == [[0]] + seq(30, i requires 0 <= i < 30 => SlotBytes(val, i + 1));
    res := Some(batch);
  }

  // ----- round trip

  /** The slots packed so far are the first of the packed bytes, 33 for each bit. */
  lemma {:induction false} PackedAt(b: Bytes31, n: nat)
    requires WellFormed(b) && n < BATCH_LEN
    ensures Packed(b, n) <= Packed(b, 30)
    ensures |Packed(b, n)| == SLOT_LEN * CountBits(Serialized(b), n)
    decreases 30 - n
  {
    PackedPrefix(b, n, 30);
    PackedLen(b, n);
  }

  lemma {:induction false} PackedPrefix(b: Bytes31, m: nat, n: nat)
    requires |b| == BATCH_LEN && m <= n < BATCH_LEN
    ensures Packed(b, m) <= Packed(b, n)
  {
    if m < n {
      PackedPrefix(b, m, n - 1);
    }
  }

  lemma SerializedBits(b: Bytes31, j: nat)
    requires |b| == BATCH_LEN && j < 32
    ensures |Serialized(b)| >= 4
    ensures BitIsSet(Serialized(b), j) <==> (j < 30 && |b[j + 1]| != 0) || (j == 31 && b[0] == [1])
  {
    BitmapBits(b, 30, j);
    assert Serialized(b)[j / 8] == Bitmap(b, 30)[j / 8];
  }

  lemma {:induction false} PackedLen(b: Bytes31, n: nat)
    requires WellFormed(b) && n < BATCH_LEN
    ensures |Packed(b, n)| == SLOT_LEN * CountBits(Serialized(b), n)
  {
    hide BitIsSet, Bitmap, Serialized;
    if n > 0 {
      PackedLen(b, n - 1);
      SerializedBits(b, n - 1);
    }
  }

  lemma SlotRoundTrip(b: Bytes31, i: nat)
    requires WellFormed(b) && 1 <= i < BATCH_LEN
    ensures var val := Serialized(b);
            && |val| == 4 + SLOT_LEN * CountBits(val, 30)
            && SlotBytes(val, i) == b[i]
  {
    hide BitIsSet, Bitmap, CountBits;
    var val := Serialized(b);
    PackedLen(b, 30);
    PackedAt(b, i);
    PackedLen(b, i - 1);
    SerializedBits(b, i - 1);
    if |b[i]| != 0 {
      var at := |Packed(b, i - 1)|;
      assert Packed(b, 30)[at..at + SLOT_LEN] == Packed(b, i)[at..] == b[i];
      assert val[4 + at..4 + at + SLOT_LEN] == Packed(b, 30)[at..at + SLOT_LEN];
    }
  }

  /** parseBatch undoes serializeBatch on every well-formed batch. */
  lemma RoundTrip(b: Bytes31)
    requires WellFormed(b)
    ensures Parsed(Serialized(b)) == Some(b)
  {
    hide BitIsSet, Bitmap, CountBits, SlotBytes;
    var val := Serialized(b);
    SerializedBits(b, 31);
    if b[0] == [1] {
      ShortcutPacked(b);
      assert val[4..37] == b[1] && val[37..70] == b[2];
      assert b == [[1], b[1], b[2]] + seq(28, _ => []);
    } else {
      forall i | 1 <= i < BATCH_LEN
        ensures |val| == 4 + SLOT_LEN * CountBits(val, 30) && SlotBytes(val, i) == b[i]
      {
        SlotRoundTrip(b, i);
      }
      SlotRoundTrip(b, 1);
      assert b == [[0]] + seq(30, i requires 0 <= i < 30 => SlotBytes(val, i + 1));
    }
  }

  lemma ShortcutPacked(b: Bytes31)
    requires WellFormed(b) && b[0] == [1]
    ensures Packed(b, 30) == b[1] + b[2]
  {
    ShortcutPackedFrom(b, 30);
  }

  lemma {:induction false} ShortcutPackedFrom(b: Bytes31, n: nat)
    requires WellFormed(b) && b[0] == [1] && 2 <= n < BATCH_LEN
    ensures Packed(b, n) == b[1] + b[2]
  {
    if n > 2 {
      ShortcutPackedFrom(b, n - 1);
    } else {
      assert Packed(b, 1) == b[1];
    }
  }

  // ----- what any bytes parse to

  /** A batch whose slots are where the bitmap of these bytes says. */
  predicate Marked(val: seq<bv8>, b: Bytes31)
    requires |val| >= 4 && |b| == BATCH_LEN
  {
    && (BitIsSet(val, 31) <==> b[0] == [1])
    && (b[0] == [0] ==> forall j :: 0 <= j < 30 ==> (BitIsSet(val, j) <==> |b[j + 1]| != 0))
  }

  lemma {:induction false} MarkedLen(val: seq<bv8>, b: Bytes31, n: nat)
    requires WellFormed(b) && b[0] == [0] && |val| >= 4 && Marked(val, b) && n < BATCH_LEN
    ensures |Packed(b, n)| == SLOT_LEN * CountBits(val, n)
  {
    hide BitIsSet;
    if n > 0 {
      MarkedLen(val, b, n - 1);
      assert BitIsSet(val, n - 1) <==> |b[n]| != 0;
    }
  }

  lemma MarkedSlot(val: seq<bv8>, b: Bytes31, i: nat)
    requires WellFormed(b) && b[0] == [0] && |val| >= 4 && Marked(val, b) && Packed(b, 30) <= val[4..] && 1 <= i < BATCH_LEN
    ensures |val| >= 4 + SLOT_LEN * CountBits(val, 30) && SlotBytes(val, i) == b[i]
  {
    hide BitIsSet, CountBits;
    MarkedLen(val, b, 30);
    MarkedLen(val, b, i - 1);
    PackedPrefix(b, i, 30);
    assert BitIsSet(val, i - 1) <==> |b[i]| != 0;
    if |b[i]| != 0 {
      var at := |Packed(b, i - 1)|;
      assert Packed(b, 30)[at..at + SLOT_LEN] == Packed(b, i)[at..] == b[i];
      assert val[4..][at..at + SLOT_LEN] == val[4 + at..4 + at + SLOT_LEN];
    }
  }

  lemma ParsedRegular(val: seq<bv8>, b: Bytes31)
    requires Parsed(val) == Some(b) && b[0] == [0]
    ensures |b| == BATCH_LEN && |val| >= 4 && |val| >= 4 + SLOT_LEN * CountBits(val, 30)
    ensures forall i :: 1 <= i < BATCH_LEN ==> b[i] == SlotBytes(val, i)
  {
    hide BitIsSet, CountBits, SlotBytes;
  }

  lemma NoBitsYet(val: seq<bv8>)
    ensures CountBits(val, 0) == 0
  {
  }

  lemma SlotFollows(val: seq<bv8>, b: Bytes31, n: nat)
    requires |b| == BATCH_LEN && 1 <= n < BATCH_LEN && |val| >= 4 && |val| >= 4 + SLOT_LEN * CountBits(val, 30)
    requires b[n] == SlotBytes(val, n)
    requires 4 + SLOT_LEN * CountBits(val, n) <= |val|
    ensures 0 <= CountBits(val, n - 1) <= CountBits(val, n)
    ensures val[4..4 + SLOT_LEN * CountBits(val, n)] == val[4..4 + SLOT_LEN * CountBits(val, n - 1)] + b[n]
  {
    hide BitIsSet;
  }

  lemma {:induction false} ParsedPacks(val: seq<bv8>, b: Bytes31, n: nat)
    requires Parsed(val) == Some(b) && b[0] == [0] && n < BATCH_LEN
    ensures 4 + SLOT_LEN * CountBits(val, n) <= |val| && Packed(b, n) == val[4..4 + SLOT_LEN * CountBits(val, n)]
  {
    hide BitIsSet, Parsed, SlotBytes, CountBits;
    ParsedRegular(val, b);
    CountBitsMono(val, n, 30);
    if n > 0 {
      ParsedPacks(val, b, n - 1);
      SlotFollows(val, b, n);
    } else {
      NoBitsYet(val);
    }
  }

  lemma ParsedIsMarked(val: seq<bv8>, b: Bytes31)
    requires Parsed(val) == Some(b)
    ensures |val| >= 4 && WellFormed(b) && Marked(val, b)
  {
    hide BitIsSet, CountBits;
    if b[0] == [0] {
      forall i | 1 <= i < BATCH_LEN
        ensures |b[i]| == if BitIsSet(val, i - 1) then SLOT_LEN else 0
      {
        CountBitsMono(val, i - 1, 30);
        assert b[i] == SlotBytes(val, i);
      }
      forall j | 0 <= j < 30
        ensures BitIsSet(val, j) <==> |b[j + 1]| != 0
      {
        assert |b[j + 1]| == if BitIsSet(val, j) then SLOT_LEN else 0;
      }
    }
  }

  lemma TwoSlots(val: seq<bv8>)
    requires |val| >= 70
    ensures val[4..37] + val[37..70] == val[4..][..66]
    ensures val[4..37] == val[4..][..66][..33] && val[37..70] == val[4..][..66][33..]
  {
  }

  /**
   Any bytes parse to a batch if and only if it is well formed, their bitmap marks its kind and
   its slots, and they go on with its packed slots; whatever stands behind these is not looked at.
   */
  lemma ParsedIff(val: seq<bv8>, b: Bytes31)
    ensures Parsed(val) == Some(b) <==>
            WellFormed(b) && |val| >= 4 && Marked(val, b) && Packed(b, 30) <= val[4..]
  {
    hide BitIsSet, CountBits, Packed, SlotBytes;
    if Parsed(val) == Some(b) {
      ParsedIsMarked(val, b);
      if b[0] == [1] {
        ShortcutPacked(b);
        TwoSlots(val);
      } else {
        ParsedPacks(val, b, 30);
      }
    }
    if WellFormed(b) && |val| >= 4 && Marked(val, b) && Packed(b, 30) <= val[4..] {
      if b[0] == [1] {
        ShortcutPacked(b);
        TwoSlots(val);
        assert (b[1] + b[2])[..33] == b[1] && (b[1] + b[2])[33..] == b[2];
        assert val[4..][..66] == b[1] + b[2];
        assert b == [[1], b[1], b[2]] + seq(28, _ => []);
      } else {
        forall i | 1 <= i < BATCH_LEN
          ensures |val| >= 4 + SLOT_LEN * CountBits(val, 30) && SlotBytes(val, i) == b[i]
        {
          MarkedSlot(val, b, i);
        }
        MarkedSlot(val, b, 1);
        assert b == [[0]] + seq(30, i requires 0 <= i < 30 => SlotBytes(val, i + 1));
      }
    }
  }

  // ----- every batch of a trie has this form

  /** A slot in bytes, for any choice of the 32 bytes of each word. */
  function SlotInBytes(s: Slot, render: Word -> Key): seq<bv8> {
    match s
    case Empty => []
    case Entry(w, f) => render(w) + [FlagByte(f)]
    case Bare(w) => render(w)
    case Marker(f) => [FlagByte(f)]
  }

  function FlagByte(f: nat): bv8 {
    if f == 0 then 0 else if f == 1 then 1 else 2
  }

  function InBytes(b: seq<Slot>, render: Word -> Key): Bytes31 {
    seq(|b|, i requires 0 <= i < |b| => SlotInBytes(b[i], render))
  }

  lemma {:induction false} SlotsBelow(b: seq<Slot>, i: nat, n: nat, s: Slot)
    requires |b| == BATCH_LEN && OnLevel(i, n) && Holds(b, i, n, s)
    ensures forall j :: 0 <= j < BATCH_LEN && Below(i, j) ==> b[j].Empty? || (b[j].Entry? && b[j].flag <= 2)
    decreases n
  {
    hide Below;
    if n > 0 {
      SlotsBelow(b, 2 * i + 1, n - 1, Child(s, false));
      SlotsBelow(b, 2 * i + 2, n - 1, Child(s, true));
    }
    forall j | 0 <= j < BATCH_LEN && Below(i, j)
      ensures b[j].Empty? || (b[j].Entry? && b[j].flag <= 2)
    {
      BelowSplit(i, n, j);
    }
  }

  /** Every batch stored under a digest survives the trip through the database. */
  lemma StoredBatchRoundTrip(b: seq<Slot>, d: Word, render: Word -> Key)
    requires IsBatch(b, d)
    ensures Parsed(Serialized(InBytes(b, render))) == Some(InBytes(b, render))
  {
    hide Holds, Serialized, Parsed;
    SlotsBelow(b, 0, 4, SlotOf(d));
    assert forall j :: 0 < j < BATCH_LEN ==> Below(0, j);
    if d.Leaf? {
      ShortcutBatch(b, d);
    }
    RoundTrip(InBytes(b, render));
  }

  /** No two of the words in these slots have the same bytes. */
  ghost predicate TellsApart(render: Word -> Key, b: seq<Slot>, c: seq<Slot>) {
    forall i, j :: 0 <= i < |b| && 0 <= j < |c| && b[i].Entry? && c[j].Entry? && render(b[i].word) == render(c[j].word) ==>
      b[i].word == c[j].word
  }

  /** What is stored for a batch is stored for no other one: digests, flags and kind can all be read back. */
  lemma StoredBatchesDiffer(b: seq<Slot>, c: seq<Slot>, d: Word, e: Word, render: Word -> Key)
    requires IsBatch(b, d) && IsBatch(c, e) && TellsApart(render, b, c)
    requires Serialized(InBytes(b, render)) == Serialized(InBytes(c, render))
    ensures b == c
  {
    hide Holds, Serialized, Parsed, Below;
    StoredBatchRoundTrip(b, d, render);
    StoredBatchRoundTrip(c, e, render);
    assert InBytes(b, render) == InBytes(c, render);
    SlotsBelow(b, 0, 4, SlotOf(d));
    SlotsBelow(c, 0, 4, SlotOf(e));
    forall j | 0 <= j < BATCH_LEN
      ensures b[j] == c[j]
    {
      assert InBytes(b, render)[j] == SlotInBytes(b[j], render) && InBytes(c, render)[j] == SlotInBytes(c[j], render);
      if j > 0 {
        AllBelowTop(j);
        SlotReadBack(b[j], c[j], render);
      }
    }
  }

  lemma AllBelowTop(j: nat)
    requires 0 < j < BATCH_LEN
    ensures Below(0, j)
  {
  }

  lemma SlotReadBack(s: Slot, t: Slot, render: Word -> Key)
    requires s.Empty? || (s.Entry? && s.flag <= 2)
    requires t.Empty? || (t.Entry? && t.flag <= 2)
    requires s.Entry? && t.Entry? && render(s.word) == render(t.word) ==> s.word == t.word
    requires SlotInBytes(s, render) == SlotInBytes(t, render)
    ensures s == t
  {
    if s.Entry? && t.Entry? {
      var x, y := SlotInBytes(s, render), SlotInBytes(t, render);
      assert x[..32] == render(s.word) && y[..32] == render(t.word) && x[32] == FlagByte(s.flag) && y[32] == FlagByte(t.flag);
    }
  }

  /** Four zero bytes parse, to the regular batch in which nothing is there. */
  lemma ZerosParse(render: Word -> Key)
    ensures Parsed([0, 0, 0, 0]) == Some(InBytes(NoSlots()[0 := Marker(0)], render))
  {
    hide BitIsSet;
    var val, b := ZeroBitmap(), NoSlots()[0 := Marker(0)];
    NoBits(val, 30);
    assert InBytes(b, render) == [[0]] + seq(30, i requires 0 <= i < 30 => SlotBytes(val, i + 1));
  }

  lemma {:induction false} NoBits(val: seq<bv8>, n: nat)
    requires |val| == 4 && n <= 30 && forall i :: 0 <= i < 32 ==> !BitIsSet(val, i)
    ensures CountBits(val, n) == 0
  {
    hide BitIsSet;
    if n > 0 {
      NoBits(val, n - 1);
    }
  }
}
