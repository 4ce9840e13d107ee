/**
 Runs of updates: which batches are safe, what a run leaves behind, and a batch that is not safe.
 */
module History {
  import opened Keys
  import opened Trie
  import opened TreeUpdate
  import opened Doubling
  import opened ExactUpdate

  // ----- safe batches

  lemma InsertsMerge(m: Map, kvs: seq<KV>)
    requires forall i :: 0 <= i < |kvs| ==> kvs[i].value != Default
    ensures Mergeable(m, kvs, 0)
  {
  }

  /** Batches that only delete keys of the map are safe. */
  lemma DeletesMerge(m: Map, kvs: seq<KV>)
    requires Sorted(kvs) && forall i :: 0 <= i < |kvs| ==> kvs[i].value == Default && kvs[i].key in m
    ensures Mergeable(m, kvs, 0)
  {
    hide Less, BitIsSet;
    forall j, d | 0 < j < |kvs| - 1 && 0 <= d <= TRIE_HEIGHT && Isolated(m, kvs[j].key, d)
      ensures !Agree(kvs[j - 1].key, kvs[j].key, d)
    {
      assert kvs[j - 1].key in m;
      LessTotal(kvs[j - 1].key, kvs[j].key);
    }
  }

  // ----- runs

  function RunTree(d: Word, batches: seq<seq<KV>>): (e: Word)
    requires Shaped(d, TRIE_HEIGHT) && forall i :: 0 <= i < |batches| ==> batches[i] != []
    ensures Shaped(e, TRIE_HEIGHT)
  {
    if batches == [] then d
    else UpdateTree(RunTree(d, batches[..|batches| - 1]), batches[|batches| - 1], TRIE_HEIGHT).tree
  }

  function RunMap(m: Map, batches: seq<seq<KV>>): Map {
    if batches == [] then m
    else Apply(RunMap(m, batches[..|batches| - 1]), Asked(batches[|batches| - 1]))
  }

  /** Every batch of the run is sorted, not empty, and safe on the map it meets. */
  predicate SafeRun(m: Map, batches: seq<seq<KV>>) {
    forall i :: 0 <= i < |batches| ==>
      batches[i] != [] && Sorted(batches[i]) && Mergeable(RunMap(m, batches[..i]), batches[i], 0)
  }

  /** After any run, the tree is the reference tree of the map the run describes. */
  lemma {:induction false} RunMeaning(d: Word, batches: seq<seq<KV>>)
    requires Canonical(d, []) && SafeRun(MapOf(d), batches)
    ensures Shaped(d, TRIE_HEIGHT)
    ensures Canonical(RunTree(d, batches), [])
    ensures MapOf(RunTree(d, batches)) == RunMap(MapOf(d), batches)
    ensures RunTree(d, batches) == Canon(RunMap(MapOf(d), batches), [])
  {
    hide Sorted, Asked, Mergeable, UpdateTree, Apply, Canonical, MapOf, Canon, Shaped;
    CanonicalShaped(d, []);
    if batches == [] {
      CanonOfMap(d, []);
    } else {
      var n := |batches| - 1;
      var before := batches[..n];
      forall i | 0 <= i < n
        ensures before[i] != [] && Sorted(before[i]) && Mergeable(RunMap(MapOf(d), before[..i]), before[i], 0)
      {
        assert before[..i] == batches[..i];
      }
      RunMeaning(d, before);
      UpdateMeaning(RunTree(d, before), batches[n], []);
      CanonOfMap(RunTree(d, batches), []);
    }
  }

  /** Every batch of the run is sorted, not empty, and deletes only keys of the map it meets. */
  predicate KnownRun(m: Map, batches: seq<seq<KV>>) {
    forall i :: 0 <= i < |batches| ==>
      batches[i] != [] && Sorted(batches[i]) && DeletesKnown(RunMap(m, batches[..i]), batches[i])
  }

  /** After the first `n` batches the tree is the reference tree. */
  ghost predicate RightAfter(d: Word, batches: seq<seq<KV>>, n: nat)
    requires Shaped(d, TRIE_HEIGHT) && n <= |batches| && forall i :: 0 <= i < |batches| ==> batches[i] != []
  {
    RunTree(d, batches[..n]) == Canon(RunMap(MapOf(d), batches[..n]), [])
  }

  ghost predicate RescuedBatch(m: Map, batches: seq<seq<KV>>, i: nat)
    requires i < |batches|
  {
    Rescues(RunMap(m, batches[..i]), batches[i], 0, |batches[i]|)
  }

  /** The trees of a run are all right if and only if each batch rescues what it takes back. */
  lemma {:induction false} RunIff(d: Word, batches: seq<seq<KV>>, n: nat)
    requires Canonical(d, []) && KnownRun(MapOf(d), batches) && n <= |batches|
    ensures Shaped(d, TRIE_HEIGHT)
    ensures (forall i :: 0 <= i <= n ==> RightAfter(d, batches, i)) <==>
            (forall i :: 0 <= i < n ==> RescuedBatch(MapOf(d), batches, i))
    decreases n
  {
    hide Sorted, DeletesKnown, RightAfter, RescuedBatch, RunMap, MapOf, Shaped, Canonical;
    CanonicalShaped(d, []);
    if n == 0 {
      RightAtFirst(d, batches);
    } else {
      RunIff(d, batches, n - 1);
      if RightAfter(d, batches, n - 1) {
        NextIsRightIff(d, batches, n - 1);
      }
    }
  }

  lemma RightAtFirst(d: Word, batches: seq<seq<KV>>)
    requires Canonical(d, []) && Shaped(d, TRIE_HEIGHT) && forall i :: 0 <= i < |batches| ==> batches[i] != []
    ensures RightAfter(d, batches, 0)
  {
    CanonOfMap(d, []);
  }

  lemma NextIsRightIff(d: Word, batches: seq<seq<KV>>, n: nat)
    requires Canonical(d, []) && Shaped(d, TRIE_HEIGHT) && KnownRun(MapOf(d), batches) && n < |batches|
    requires RightAfter(d, batches, n)
    ensures RightAfter(d, batches, n + 1) <==> RescuedBatch(MapOf(d), batches, n)
  {
    hide Sorted, Asked, Apply, UpdateTree, DeletesKnown, Canon, Rescues, MapOf, Shaped, Canonical;
    var m := RunMap(MapOf(d), batches[..n]);
    assert batches[..n + 1][..n] == batches[..n] && batches[..n + 1][n] == batches[n];
    RunUnder(d, batches[..n]);
    CanonIsCanonical(m, []);
    UpdateIff(Canon(m, []), batches[n]);
  }

  lemma {:induction false} RunUnder(d: Word, batches: seq<seq<KV>>)
    requires Canonical(d, [])
    ensures Under(RunMap(MapOf(d), batches), [])
  {
    CanonicalUnder(d, []);
    if batches != [] {
      RunUnder(d, batches[..|batches| - 1]);
    }
  }

  /** Order and history do not matter: two runs from empty that describe the same map end in the same root. */
  lemma HistoryIndependence(a: seq<seq<KV>>, b: seq<seq<KV>>)
    requires SafeRun(map[], a) && SafeRun(map[], b) && RunMap(map[], a) == RunMap(map[], b)
    ensures RunTree(Default, a) == RunTree(Default, b)
  {
    RunMeaning(Default, a);
    RunMeaning(Default, b);
  }

  // ----- a batch that is not safe

  /** The key with this first byte and zeros behind it. */
  function Starting(b: bv8): (k: Key)
    ensures k[0] == b && forall i :: 1 <= i < 32 ==> k[i] == 0
  {
    seq(32, i => if i == 0 then b else 0)
  }

  lemma HighBits(i: nat)
    requires i < TRIE_HEIGHT
    ensures BitIsSet(Starting(0x00), i) == false
    ensures BitIsSet(Starting(0x80), i) == (i == 0)
    ensures BitIsSet(Starting(0xC0), i) == (i <= 1)
  {
    hide Starting;
    assert i / 8 > 0 ==> Starting(0x00)[i / 8] == 0 && Starting(0x80)[i / 8] == 0 && Starting(0xC0)[i / 8] == 0;
  }

  lemma LowMidHigh()
    ensures Less(Starting(0x00), Starting(0x80)) && Less(Starting(0x80), Starting(0xC0)) && Less(Starting(0x00), Starting(0xC0))
  {
    assert Starting(0x00)[0] == 0 && Starting(0x80)[0] == 0x80 && Starting(0xC0)[0] == 0xC0;
  }

  /** A deletion between two insertions. */
  function Three(a: Key, k: Key, b: Key, x: Word, y: Word): seq<KV> {
    [KV(a, x), KV(k, Default), KV(b, y)]
  }

  lemma ThreeFacts(a: Key, k: Key, b: Key, x: Word, y: Word)
    requires Less(a, k) && Less(k, b)
    ensures var kvs := Three(a, k, b, x, y);
            Sorted(kvs) && Rank(kvs, k) == 1 && Asked(kvs) == map[a := x, k := Default, b := y]
  {
    hide Less;
    LessTrans(a, k, b);
    LessTotal(k, k);
    var kvs := Three(a, k, b, x, y);
    assert kvs[1..][0] == kvs[1];
    AskedAt(kvs);
    assert kvs[0].key in Asked(kvs) && kvs[1].key in Asked(kvs) && kvs[2].key in Asked(kvs);
  }

  /** The map that the three ask for, when the deleted key was alone. */
  lemma MapOfThree(a: Key, k: Key, b: Key, x: Word, y: Word, v: Word)
    requires Less(a, k) && Less(k, b) && x != Default && y != Default
    ensures Apply(map[k := v], Asked(Three(a, k, b, x, y))) == map[a := x, b := y]
  {
    hide Less, Asked, Sorted, Rank;
    LessTrans(a, k, b);
    LessTotal(a, k);
    LessTotal(k, b);
    LessTotal(a, b);
    ThreeFacts(a, k, b, x, y);
  }

  /** The deleted key was alone: its doubled list decides. */
  lemma ThreeIff(a: Key, k: Key, b: Key, x: Word, y: Word, v: Word)
    requires Less(a, k) && Less(k, b) && x != Default && y != Default && v != Default
    ensures var d, kvs := ShortcutOf(KV(k, v), TRIE_HEIGHT), Three(a, k, b, x, y);
            && Canonical(d, []) && Shaped(d, TRIE_HEIGHT)
            && (UpdateTree(d, kvs, TRIE_HEIGHT).tree == Canon(Apply(MapOf(d), Asked(kvs)), []) <==> Rescued(kvs, 1, 0))
  {
    hide Less, Asked, Sorted, Rank, Rescued, Canon, UpdateTree, Apply;
    ThreeFacts(a, k, b, x, y);
    ShortcutIff(ShortcutOf(KV(k, v), TRIE_HEIGHT), Three(a, k, b, x, y), []);
  }

  function Mixed(x: Word, y: Word): seq<KV> {
    Three(Starting(0x00), Starting(0x80), Starting(0xC0), x, y)
  }

  /**
   A batch that deletes the middle key and inserts one on either side does not produce the
   tree of the resulting map: the list passed on names every key twice.
   */
  lemma MixedBatchFails(v: Word, x: Word, y: Word)
    requires v != Default && x != Default && y != Default
    ensures var d, kvs := ShortcutOf(KV(Starting(0x80), v), TRIE_HEIGHT), Mixed(x, y);
            && Canonical(d, []) && Shaped(d, TRIE_HEIGHT) && Sorted(kvs)
            && Apply(MapOf(d), Asked(kvs)) == map[Starting(0x00) := x, Starting(0xC0) := y]
            && UpdateTree(d, kvs, TRIE_HEIGHT).tree != Canon(Apply(MapOf(d), Asked(kvs)), [])
  {
    hide Less, BitIsSet, Asked, Apply, UpdateTree, Canon, Canonical, Starting, Rank, Sorted, Fades;
    var a, k, b := Starting(0x00), Starting(0x80), Starting(0xC0);
    LowMidHigh();
    ThreeFacts(a, k, b, x, y);
    MapOfThree(a, k, b, x, y, v);
    ThreeIff(a, k, b, x, y, v);
    HighBits(0);
    HighBits(TRIE_HEIGHT - 1);
    assert Without(Mixed(x, y), 1) == [KV(a, x), KV(b, y)];
    assert BitIsSet(a, 0) != BitIsSet(b, 0);
  }

  // ----- and one that is not safe either, but reaches the right root

  /** The key with this last byte and zeros before it. */
  function Ending(b: bv8): (k: Key)
    ensures k[31] == b && forall i :: 0 <= i < 31 ==> k[i] == 0
  {
    seq(32, i => if i == 31 then b else 0)
  }

  lemma LowBits(i: nat)
    requires i < TRIE_HEIGHT
    ensures BitIsSet(Ending(0), i) == false
    ensures BitIsSet(Ending(1), i) == (i == 255)
  {
    hide Ending;
    assert i / 8 < 31 ==> Ending(0)[i / 8] == 0 && Ending(1)[i / 8] == 0;
    assert i / 8 == 31 ==> Ending(0)[31] == 0 && Ending(1)[31] == 1;
  }

  lemma EndingOrder()
    ensures Less(Ending(0), Ending(1)) && Less(Ending(1), Starting(0x80))
  {
    hide BitIsSet, Ending, Starting;
    forall i | 0 <= i < 255
      ensures BitIsSet(Ending(0), i) == BitIsSet(Ending(1), i)
    {
      LowBits(i);
    }
    LowBits(0);
    LowBits(255);
    HighBits(0);
    BitOrder(Ending(0), Ending(1), 255);
    BitOrder(Ending(1), Starting(0x80), 0);
  }

  /** The merge condition is not necessary: a batch whose keys part at the very first bit, and whose doubled list comes out right. */
  lemma MergeableNotNecessary(x: Word, y: Word, v: Word)
    requires x != Default && y != Default && v != Default
    ensures var a, k, b := Ending(0), Ending(1), Starting(0x80);
            var d, kvs := ShortcutOf(KV(k, v), TRIE_HEIGHT), Three(a, k, b, x, y);
            && Canonical(d, []) && Shaped(d, TRIE_HEIGHT) && Sorted(kvs) && !Mergeable(MapOf(d), kvs, 0)
            && UpdateTree(d, kvs, TRIE_HEIGHT).tree == Canon(Apply(MapOf(d), Asked(kvs)), [])
  {
    hide BitIsSet, Ending, Starting, Less, Asked, Canon, Sorted, Apply, UpdateTree, Canonical, Mergeable, Rank, Fades;
    var a, k, b := Ending(0), Ending(1), Starting(0x80);
    var kvs := Three(a, k, b, x, y);
    EndingOrder();
    ThreeFacts(a, k, b, x, y);
    ThreeIff(a, k, b, x, y, v);
    NotMergeable(a, k, b, x, y, v);
    forall q | 0 <= q < TRIE_HEIGHT
      ensures q < TRIE_HEIGHT - 1 ==> Passes(kvs, q)
      ensures q == TRIE_HEIGHT - 1 ==> Turns(kvs, 1, q)
    {
      LowBits(q);
      HighBits(q);
    }
    assert RescuedAt(kvs, 1, Close(Without(kvs, 1)), 0, TRIE_HEIGHT - 1);
  }

  lemma NotMergeable(a: Key, k: Key, b: Key, x: Word, y: Word, v: Word)
    ensures !Mergeable(map[k := v], Three(a, k, b, x, y), 0)
  {
    var m, kvs := map[k := v], Three(a, k, b, x, y);
    assert kvs[1].key == k && Isolated(m, kvs[1].key, 0);
    assert Agree(kvs[1 - 1].key, kvs[1].key, 0) && Agree(kvs[1 + 1].key, kvs[1].key, 0);
  }
}
