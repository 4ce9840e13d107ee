/**
 The doubled list that maybeAddShortcutToKV makes of a batch which deletes the shortcut between
 a smaller and a larger key, and exactly when it reaches the right tree all the same.
 */
module Doubling {
  import opened Keys
  import opened Trie
  import opened TreeUpdate

  // ----- updates of an empty subtree, one level at a time

  /** What a list does to an empty subtree; no list does nothing. */
  function OnList(kvs: seq<KV>, height: nat): Updated
    requires height <= TRIE_HEIGHT
  {
    if kvs == [] then Updated(Default, false) else UpdateTree(Default, kvs, height)
  }

  function Combined(l: Updated, r: Updated, height: nat): Updated {
    if l.deleted || r.deleted then Join(l.tree, r.tree, height) else Updated(Node(l.tree, r.tree), false)
  }

  lemma Level(kvs: seq<KV>, height: nat)
    requires |kvs| > 1 && 0 < height <= TRIE_HEIGHT
    ensures var s := Split(kvs, TRIE_HEIGHT - height);
            UpdateTree(Default, kvs, height) == Combined(OnList(kvs[..s], height - 1), OnList(kvs[s..], height - 1), height)
  {
    hide WithShortcut;
  }

  /** The first pair of a list decides its bottom, and a single pair is a shortcut. */
  lemma Short(kvs: seq<KV>, height: nat)
    requires kvs != [] && height <= TRIE_HEIGHT && (height == 0 || |kvs| == 1)
    ensures UpdateTree(Default, kvs, height) == PutOne(kvs[0], height)
  {
    hide WithShortcut;
  }

  /** A first pair that is not a deletion leaves something. */
  lemma {:induction false} FirstStays(kvs: seq<KV>, height: nat)
    requires kvs != [] && height <= TRIE_HEIGHT && kvs[0].value != Default
    ensures !UpdateTree(Default, kvs, height).tree.Default?
    decreases height
  {
    hide UpdateTree, Split;
    if height == 0 || |kvs| == 1 {
      Short(kvs, height);
    } else {
      Level(kvs, height);
      var s := Split(kvs, TRIE_HEIGHT - height);
      if s > 0 { FirstStays(kvs[..s], height - 1); } else { FirstStays(kvs[s..], height - 1); }
    }
  }

  predicate Inserts(kvs: seq<KV>) {
    forall i :: 0 <= i < |kvs| ==> kvs[i].value != Default
  }

  /** Without deletions nothing moves up. */
  lemma {:induction false} InsertsStand(kvs: seq<KV>, height: nat)
    requires kvs != [] && height <= TRIE_HEIGHT && Inserts(kvs)
    ensures var u := UpdateTree(Default, kvs, height);
            !u.deleted && !u.tree.Default? && (|kvs| > 1 && height > 0 ==> u.tree.Node?)
    decreases height
  {
    hide UpdateTree, Split;
    if height == 0 || |kvs| == 1 {
      Short(kvs, height);
    } else {
      Level(kvs, height);
      var s := Split(kvs, TRIE_HEIGHT - height);
      if s > 0 { InsertsStand(kvs[..s], height - 1); }
      if s < |kvs| { InsertsStand(kvs[s..], height - 1); }
    }
  }

  /** A longer list ends in a shortcut only by moving one up. */
  lemma LeafWasMoved(kvs: seq<KV>, height: nat)
    requires |kvs| > 1 && 0 < height <= TRIE_HEIGHT && UpdateTree(Default, kvs, height).tree.Leaf?
    ensures UpdateTree(Default, kvs, height).deleted
  {
    hide UpdateTree, Split, OnList;
    Level(kvs, height);
  }

  // ----- a list with something behind it

  /** The list does what it does without the rest. */
  predicate Right(s: seq<KV>, rest: seq<KV>, height: nat)
    requires s != [] && height <= TRIE_HEIGHT
  {
    UpdateTree(Default, s + rest, height).tree == UpdateTree(Default, s, height).tree
  }

  predicate Clear(kvs: seq<KV>, q: nat)
    requires q < TRIE_HEIGHT
  {
    forall i :: 0 <= i < |kvs| ==> !BitIsSet(kvs[i].key, q)
  }

  predicate Sorts(s: seq<KV>, path: seq<bool>) {
    s != [] && Sorted(s) && Inserts(s) && AllUnder(s, path)
  }

  function Last(s: seq<KV>): Key
    requires s != []
  {
    s[|s| - 1].key
  }

  lemma SplitConcat(s: seq<KV>, rest: seq<KV>, q: nat)
    requires q < TRIE_HEIGHT
    ensures Split(s + rest, q) == if Clear(s, q) then |s| + Split(rest, q) else Split(s, q)
    ensures Clear(s, q) <==> Split(s, q) == |s|
  {
    hide BitIsSet;
    SplitIs(s + rest, q, if Clear(s, q) then |s| + Split(rest, q) else Split(s, q));
    if Clear(s, q) { SplitIs(s, q, |s|); }
  }

  lemma {:induction false} SplitIs(kvs: seq<KV>, q: nat, n: nat)
    requires q < TRIE_HEIGHT && n <= |kvs| && (forall i :: 0 <= i < n ==> !BitIsSet(kvs[i].key, q))
    requires n < |kvs| ==> BitIsSet(kvs[n].key, q)
    ensures Split(kvs, q) == n
  {
    hide BitIsSet;
    if n > 0 {
      SplitIs(kvs[1..], q, n - 1);
    }
  }

  lemma ClearSplit(kvs: seq<KV>, q: nat)
    requires q < TRIE_HEIGHT
    ensures Clear(kvs, q) <==> Split(kvs, q) == |kvs|
  {
    hide BitIsSet;
    SplitConcat(kvs, [], q);
  }

  /** In a sorted list below one path the last key tells whether a bit is set anywhere. */
  lemma LastTells(s: seq<KV>, path: seq<bool>)
    requires Sorts(s, path) && |path| < TRIE_HEIGHT
    ensures Clear(s, |path|) <==> !BitIsSet(Last(s), |path|)
  {
    hide BitIsSet, Less;
    var n := Split(s, |path|);
    SplitBits(s, path);
    SplitConcat(s, [], |path|);
  }

  lemma Halves(s: seq<KV>, path: seq<bool>)
    requires Sorts(s, path) && |path| < TRIE_HEIGHT
    ensures var n := Split(s, |path|);
            && (n > 0 ==> Sorts(s[..n], path + [false])) && (n < |s| ==> Sorts(s[n..], path + [true]))
            && (n < |s| ==> Last(s[n..]) == Last(s))
  {
    hide BitIsSet, Sorted, AllUnder, Asked, Half, Split;
    SplitExact(s, path);
  }

  /** At the bottom only one key is left. */
  lemma OneAtBottom(s: seq<KV>, path: seq<bool>)
    requires Sorts(s, path) && |path| == TRIE_HEIGHT
    ensures |s| == 1
  {
    NoTwoAtBottom(s, path);
  }

  // ----- one level of a list with something behind it

  /** A shortcut that moves up is the one it was. */
  lemma MovedUp(t: Word, kv: KV, height: nat)
    requires 0 < height <= TRIE_HEIGHT && Shaped(t, height - 1) && t.Leaf?
    ensures Leaf(t.key, t.value, height % 256) == ShortcutOf(kv, height) <==> t == ShortcutOf(kv, height - 1)
  {
  }

  lemma OneAlone(s: seq<KV>, height: nat)
    requires |s| == 1 && height <= TRIE_HEIGHT && Inserts(s)
    ensures UpdateTree(Default, s, height).tree == ShortcutOf(s[0], height)
  {
    hide UpdateTree;
    Short(s, height);
  }

  /** The list has the bit set at its end: what stands behind goes with the upper part. */
  lemma StepSet(s: seq<KV>, rest: seq<KV>, path: seq<bool>)
    requires Sorts(s, path) && rest != [] && |path| < TRIE_HEIGHT && BitIsSet(Last(s), |path|)
    ensures var n, h := Split(s, |path|), TRIE_HEIGHT - |path|;
            && n < |s|
            && (Right(s, rest, h) <==>
                Right(s[n..], rest, h - 1) && (|s| == 1 ==> UpdateTree(Default, s[n..] + rest, h - 1).deleted))
  {
    hide BitIsSet, UpdateTree, Split, Sorted, AllUnder;
    var q, h := |path|, TRIE_HEIGHT - |path|;
    var n := Split(s, q);
    LastTells(s, path);
    SplitConcat(s, rest, q);
    Halves(s, path);
    assert (s + rest)[..n] == s[..n] && (s + rest)[n..] == s[n..] + rest;
    Level(s + rest, h);
    var l, r := OnList(s[..n], h - 1), UpdateTree(Default, s[n..] + rest, h - 1);
    if n > 0 { InsertsStand(s[..n], h - 1); }
    FirstStays(s[n..] + rest, h - 1);
    InsertsStand(s[n..], h - 1);
    if |s| == 1 {
      OneAlone(s, h);
      OneAlone(s, h - 1);
      assert s[n..] == s;
      if r.tree.Leaf? { MovedUp(r.tree, s[0], h); }
    } else {
      Level(s, h);
      if n == 0 {
        assert s[n..] == s;
        if h == 1 { OneAtBottom(s[n..], path + [true]); }
      }
    }
  }

  /** What a clear list makes, seen from one level down. */
  lemma ClearAlone(s: seq<KV>, path: seq<bool>)
    requires Sorts(s, path) && |path| < TRIE_HEIGHT && !BitIsSet(Last(s), |path|)
    ensures var h := TRIE_HEIGHT - |path|;
            var t, below := UpdateTree(Default, s, h).tree, UpdateTree(Default, s, h - 1).tree;
            if |s| == 1 then t == ShortcutOf(s[0], h) && below == ShortcutOf(s[0], h - 1)
            else t == Node(below, Default) && below.Node?
  {
    hide BitIsSet, UpdateTree, Split, Sorted, AllUnder;
    var h := TRIE_HEIGHT - |path|;
    InsertsStand(s, h - 1);
    if |s| == 1 {
      OneAlone(s, h);
      OneAlone(s, h - 1);
    } else {
      LastTells(s, path);
      SplitConcat(s, [], |path|);
      Halves(s, path);
      assert s[..|s|] == s && s[|s|..] == [] && s + [] == s;
      Level(s, h);
      if h == 1 { OneAtBottom(s, path + [false]); }
    }
  }

  /** The list is clear and so is the rest: both go down together. */
  lemma StepTogether(s: seq<KV>, rest: seq<KV>, path: seq<bool>)
    requires Sorts(s, path) && rest != [] && |path| < TRIE_HEIGHT && !BitIsSet(Last(s), |path|) && Clear(rest, |path|)
    ensures var h := TRIE_HEIGHT - |path|;
            Right(s, rest, h) <==> Right(s, rest, h - 1) && (|s| == 1 ==> UpdateTree(Default, s + rest, h - 1).deleted)
  {
    hide BitIsSet, UpdateTree, Split, Sorted, AllUnder;
    var q, h, x := |path|, TRIE_HEIGHT - |path|, s + rest;
    LastTells(s, path);
    SplitConcat(s, rest, q);
    SplitConcat(rest, [], q);
    assert x[..|x|] == x && x[|x|..] == [];
    Level(x, h);
    var l := UpdateTree(Default, x, h - 1);
    FirstStays(x, h - 1);
    ClearAlone(s, path);
    if |s| == 1 && l.tree.Leaf? { MovedUp(l.tree, s[0], h); }
  }

  lemma SplitApart(s: seq<KV>, rest: seq<KV>, path: seq<bool>)
    requires Sorts(s, path) && |path| < TRIE_HEIGHT && !BitIsSet(Last(s), |path|) && !Clear(rest, |path|)
    ensures var j := Split(rest, |path|);
            j < |rest| && Split(s + rest, |path|) == |s| + j && s + rest != [] && |s| > 0
  {
    hide BitIsSet, Split, Sorted, AllUnder, Inserts, Clear;
    LastTells(s, path);
    SplitConcat(s, rest, |path|);
    ClearSplit(rest, |path|);
  }

  lemma PartsApart(s: seq<KV>, rest: seq<KV>, height: nat, j: nat)
    requires s != [] && j < |rest| && 0 < height <= TRIE_HEIGHT && Split(s + rest, TRIE_HEIGHT - height) == |s| + j
    ensures UpdateTree(Default, s + rest, height)
            == Combined(UpdateTree(Default, s + rest[..j], height - 1), UpdateTree(Default, rest[j..], height - 1), height)
  {
    hide UpdateTree, Split, Combined;
    var x := s + rest;
    assert x[..|s| + j] == s + rest[..j];
    assert x[|s| + j..] == rest[j..];
    Level(x, height);
  }

  /** The list is clear and a part of the rest is not: that part has to leave nothing. */
  lemma StepApart(s: seq<KV>, rest: seq<KV>, path: seq<bool>)
    requires Sorts(s, path) && |path| < TRIE_HEIGHT && !BitIsSet(Last(s), |path|) && !Clear(rest, |path|)
    ensures var j, h := Split(rest, |path|), TRIE_HEIGHT - |path|;
            && j < |rest|
            && (Right(s, rest, h) <==> UpdateTree(Default, rest[j..], h - 1).tree.Default? && Right(s, rest[..j], h - 1))
  {
    hide BitIsSet, UpdateTree, Split, Sorted, AllUnder;
    var h := TRIE_HEIGHT - |path|;
    SplitApart(s, rest, path);
    var j := Split(rest, |path|);
    PartsApart(s, rest, h, j);
    var head := s + rest[..j];
    var l := UpdateTree(Default, head, h - 1);
    assert head[0] == s[0];
    FirstStays(head, h - 1);
    ClearAlone(s, path);
    if |s| == 1 && l.tree.Leaf? { MovedUp(l.tree, s[0], h); }
  }

  // ----- exactly when the rest does no harm

  /** The last two keys part at the last bit only. */
  predicate Close(s: seq<KV>) {
    |s| > 1 && Agree(s[|s| - 2].key, Last(s), TRIE_HEIGHT - 1)
  }

  lemma NotClose(a: Key, b: Key, q: nat)
    requires q < TRIE_HEIGHT - 1 && BitIsSet(a, q) != BitIsSet(b, q)
    ensures !Agree(a, b, TRIE_HEIGHT - 1)
  {
    hide BitIsSet;
  }

  /** Going up the last key keeps the last two apart or together as they were. */
  lemma CloseStep(s: seq<KV>, path: seq<bool>)
    requires Sorts(s, path) && |path| < TRIE_HEIGHT - 1 && BitIsSet(Last(s), |path|)
    ensures Split(s, |path|) < |s| && (Close(s[Split(s, |path|)..]) <==> Close(s))
  {
    hide BitIsSet, Sorted, AllUnder, Clear, Split, Agree;
    LastTells(s, path);
    ClearSplit(s, |path|);
    var n := Split(s, |path|);
    var up := s[n..];
    if |up| > 1 {
      assert up[|up| - 2] == s[|s| - 2];
    } else if |s| > 1 {
      NotClose(s[|s| - 2].key, Last(s), |path|);
    }
  }

  lemma CloseAtLast(s: seq<KV>, path: seq<bool>)
    requires Sorts(s, path) && |path| == TRIE_HEIGHT - 1
    ensures Close(s) <==> |s| > 1
    ensures !BitIsSet(Last(s), |path|) ==> |s| == 1
  {
    hide BitIsSet;
    if |s| > 1 { PrefixAgree(s[|s| - 2].key, Last(s), path); }
    if !BitIsSet(Last(s), |path|) {
      LastTells(s, path);
      ClearSplit(s, |path|);
      Halves(s, path);
      assert s[..|s|] == s;
      OneAtBottom(s, path + [false]);
    }
  }

  /** From one bit on, the key has every bit set that is set anywhere in the list. */
  predicate Covered(key: Key, kvs: seq<KV>, from: nat) {
    forall q :: from <= q < TRIE_HEIGHT ==> BitIsSet(key, q) || Clear(kvs, q)
  }

  lemma CoveredStep(key: Key, kvs: seq<KV>, q: nat)
    requires q < TRIE_HEIGHT
    ensures Covered(key, kvs, q) <==> (BitIsSet(key, q) || Clear(kvs, q)) && Covered(key, kvs, q + 1)
  {
    hide BitIsSet, Clear;
  }

  lemma CoveredEnd(key: Key, kvs: seq<KV>)
    ensures Covered(key, kvs, TRIE_HEIGHT)
  {
  }

  lemma ClearHalf(s: seq<KV>, path: seq<bool>)
    requires Sorts(s, path) && |path| < TRIE_HEIGHT && !BitIsSet(Last(s), |path|)
    ensures Sorts(s, path + [false])
  {
    hide BitIsSet, Sorted, AllUnder, Inserts, Clear;
    LastTells(s, path);
    ClearSplit(s, |path|);
    Halves(s, path);
    assert s[..|s|] == s;
  }

  lemma RightAtBottom(s: seq<KV>, rest: seq<KV>)
    requires s != []
    ensures Right(s, rest, 0)
  {
    hide UpdateTree;
    Short(s, 0);
    Short(s + rest, 0);
  }

  /** Only insertions behind a list. */
  lemma {:induction false} InsertsBehind(s: seq<KV>, a: seq<KV>, path: seq<bool>)
    requires Sorts(s, path) && |path| < TRIE_HEIGHT && a != [] && Inserts(a)
    ensures Right(s, a, TRIE_HEIGHT - |path|) <==> Close(s) && Covered(Last(s), a, |path|)
    decreases TRIE_HEIGHT - |path|
  {
    hide BitIsSet, UpdateTree, Split, Sorted, AllUnder, Clear, Covered, Agree, Right;
    var q, h := |path|, TRIE_HEIGHT - |path|;
    CoveredStep(Last(s), a, q);
    if h == 1 {
      CloseAtLast(s, path);
    }
    if BitIsSet(Last(s), q) {
      StepSet(s, a, path);
      var up := s[Split(s, q)..];
      InsertsStand(up + a, h - 1);
      if h == 1 {
        RightAtBottom(up, a);
        CoveredEnd(Last(s), a);
      } else {
        Halves(s, path);
        CloseStep(s, path);
        InsertsBehind(up, a, path + [true]);
      }
    } else if Clear(a, q) {
      StepTogether(s, a, path);
      InsertsStand(s + a, h - 1);
      if h > 1 {
        ClearHalf(s, path);
        InsertsBehind(s, a, path + [false]);
      }
    } else {
      StepApart(s, a, path);
      FirstStays(a[Split(a, q)..], h - 1);
    }
  }

  /** A deletion in front, its own insertion behind it and more insertions. */
  function Refill(k: Key, value: Word, b: seq<KV>): seq<KV> {
    [KV(k, Default), KV(k, value)] + b
  }

  /** It leaves nothing exactly when no key turns away upwards before the deletion meets the bottom. */
  lemma {:induction false} RefillVanishes(k: Key, value: Word, b: seq<KV>, height: nat)
    requires value != Default && Inserts(b) && height <= TRIE_HEIGHT
    ensures UpdateTree(Default, Refill(k, value, b), height).tree.Default? <==> Covered(k, b, TRIE_HEIGHT - height)
    decreases height
  {
    hide BitIsSet, UpdateTree, Split, Clear, Covered;
    var kvs, q := Refill(k, value, b), TRIE_HEIGHT - height;
    if height == 0 {
      Short(kvs, height);
      CoveredEnd(k, b);
    } else {
      Level(kvs, height);
      CoveredStep(k, b, q);
      RefillVanishes(k, value, b, height - 1);
      RefillSplit(k, value, b, q);
      if BitIsSet(k, q) {
        assert kvs[..0] == [] && kvs[0..] == kvs;
      } else if Clear(b, q) {
        assert kvs[..|kvs|] == kvs && kvs[|kvs|..] == [];
      } else {
        FirstStays(kvs[Split(kvs, q)..], height - 1);
      }
    }
  }

  lemma RefillSplit(k: Key, value: Word, b: seq<KV>, q: nat)
    requires q < TRIE_HEIGHT
    ensures var kvs := Refill(k, value, b);
            var n := Split(kvs, q);
            if BitIsSet(k, q) then n == 0
            else if Clear(b, q) then n == |kvs|
            else 2 <= n < |kvs|
  {
    hide BitIsSet, Split;
    var front, kvs := [KV(k, Default), KV(k, value)], Refill(k, value, b);
    if BitIsSet(k, q) {
      SplitIs(kvs, q, 0);
    } else {
      SplitConcat(front, b, q);
      ClearSplit(b, q);
    }
  }

  // ----- exactly when a doubled list does no harm

  /** The batch `kvs` with the deletion at `j` taken back by an insertion of its own. */
  function Doubled(kvs: seq<KV>, j: nat, value: Word): seq<KV>
    requires j < |kvs|
  {
    kvs[..j] + Refill(kvs[j].key, value, kvs[j + 1..])
  }

  /** Only the last key goes up at this bit, or no key does. */
  predicate Passes(kvs: seq<KV>, q: nat)
    requires kvs != [] && q < TRIE_HEIGHT
  {
    BitIsSet(Last(kvs), q) || Clear(kvs, q)
  }

  /** The deleted key goes up at this bit, the keys before it and the last one do not. */
  predicate Turns(kvs: seq<KV>, j: nat, q: nat)
    requires j < |kvs| && q < TRIE_HEIGHT
  {
    !BitIsSet(Last(kvs), q) && Clear(kvs[..j], q) && BitIsSet(kvs[j].key, q)
  }

  /** What was before the deletion and what was behind it both disappear from this bit on. */
  predicate Fades(kvs: seq<KV>, j: nat, from: nat)
    requires j < |kvs|
  {
    Covered(kvs[j].key, kvs[j + 1..], from) && Covered(Last(kvs), kvs[..j], from)
  }

  /** All bits pass up to `q`, and there the doubled list falls apart into nothing and the right list. */
  predicate RescuedAt(kvs: seq<KV>, j: nat, close: bool, depth: nat, q: nat)
    requires j < |kvs|
  {
    && depth <= q < TRIE_HEIGHT
    && (forall i :: depth <= i < q ==> Passes(kvs, i))
    && if q == TRIE_HEIGHT - 1 then close || Turns(kvs, j, q)
       else close && Turns(kvs, j, q) && Fades(kvs, j, q + 1)
  }

  ghost predicate RescuedFrom(kvs: seq<KV>, j: nat, close: bool, depth: nat)
    requires j < |kvs|
  {
    exists q: nat :: RescuedAt(kvs, j, close, depth, q)
  }

  lemma RescuedStep(kvs: seq<KV>, j: nat, close: bool, depth: nat)
    requires j < |kvs| && depth < TRIE_HEIGHT - 1
    ensures RescuedFrom(kvs, j, close, depth) <==>
            || (close && Turns(kvs, j, depth) && Fades(kvs, j, depth + 1))
            || (Passes(kvs, depth) && RescuedFrom(kvs, j, close, depth + 1))
  {
    hide Passes, Turns, Fades;
    if close && Turns(kvs, j, depth) && Fades(kvs, j, depth + 1) {
      assert RescuedAt(kvs, j, close, depth, depth);
    }
    if Passes(kvs, depth) && RescuedFrom(kvs, j, close, depth + 1) {
      var q: nat :| RescuedAt(kvs, j, close, depth + 1, q);
      assert RescuedAt(kvs, j, close, depth, q);
    }
    if RescuedFrom(kvs, j, close, depth) {
      var q: nat :| RescuedAt(kvs, j, close, depth, q);
      if q > depth {
        assert RescuedAt(kvs, j, close, depth + 1, q);
      }
    }
  }

  lemma RescuedLast(kvs: seq<KV>, j: nat, close: bool)
    requires j < |kvs|
    ensures RescuedFrom(kvs, j, close, TRIE_HEIGHT - 1) <==> close || Turns(kvs, j, TRIE_HEIGHT - 1)
  {
    hide Passes, Turns, Fades;
    if close || Turns(kvs, j, TRIE_HEIGHT - 1) {
      assert RescuedAt(kvs, j, close, TRIE_HEIGHT - 1, TRIE_HEIGHT - 1);
    }
  }

  lemma DoubledClear(kvs: seq<KV>, j: nat, value: Word, q: nat)
    requires j < |kvs| && q < TRIE_HEIGHT
    ensures Clear(Doubled(kvs, j, value), q) <==> Clear(kvs, q)
    ensures Doubled(kvs, j, value) != []
    ensures Clear(kvs, q) ==> !BitIsSet(kvs[j].key, q)
  {
    hide BitIsSet;
    var w := Doubled(kvs, j, value);
    assert forall i :: 0 <= i < j ==> w[i] == kvs[i];
    assert w[j].key == kvs[j].key && w[j + 1].key == kvs[j].key;
    assert forall i :: j < i < |kvs| ==> w[i + 1] == kvs[i];
    if Clear(kvs, q) {
      forall i | 0 <= i < |w| ensures !BitIsSet(w[i].key, q) {
        assert w[i].key == kvs[if i <= j then i else i - 1].key;
      }
    }
    if Clear(w, q) {
      forall i | 0 <= i < |kvs| ensures !BitIsSet(kvs[i].key, q) {
        assert kvs[i].key == w[if i <= j then i else i + 1].key;
      }
    }
  }

  lemma DoubledSplit(kvs: seq<KV>, j: nat, value: Word, q: nat)
    requires j < |kvs| && q < TRIE_HEIGHT && value != Default && Inserts(kvs[..j]) && Inserts(kvs[j + 1..])
    ensures var w := Doubled(kvs, j, value);
            var n := Split(w, q);
            if Clear(kvs[..j], q) && BitIsSet(kvs[j].key, q)
            then w[..n] == kvs[..j] && w[n..] == Refill(kvs[j].key, value, kvs[j + 1..])
            else n < |w| ==> w[n].value != Default
  {
    hide BitIsSet, Split, Clear;
    var a, r := kvs[..j], Refill(kvs[j].key, value, kvs[j + 1..]);
    SplitConcat(a, r, q);
    RefillSplit(kvs[j].key, value, kvs[j + 1..], q);
    var n := Split(a + r, q);
    if Clear(a, q) && !BitIsSet(kvs[j].key, q) && n < |a + r| {
      assert (a + r)[n] == r[n - |a|] == kvs[j + 1..][n - |a| - 2];
    }
  }

  /** The parts of a doubled list that is not clear, when the last key is. */
  lemma DoubledApart(s: seq<KV>, kvs: seq<KV>, j: nat, value: Word, path: seq<bool>, n: nat)
    requires Sorts(s, path) && |path| < TRIE_HEIGHT && 0 < j < |kvs| - 1 && value != Default
    requires Last(s) == Last(kvs) && Inserts(kvs[..j]) && Inserts(kvs[j + 1..]) && !BitIsSet(Last(s), |path|)
    requires n == Split(Doubled(kvs, j, value), |path|) < |Doubled(kvs, j, value)|
    ensures var w, h := Doubled(kvs, j, value), TRIE_HEIGHT - |path|;
            UpdateTree(Default, w[n..], h - 1).tree.Default? && Right(s, w[..n], h - 1) <==>
            Turns(kvs, j, |path|) && (h == 1 || (Close(s) && Fades(kvs, j, |path| + 1)))
  {
    hide BitIsSet, UpdateTree, Split, Sorted, AllUnder, Clear, Covered, Close, Right, Doubled, Refill, Inserts;
    var w, q, h := Doubled(kvs, j, value), |path|, TRIE_HEIGHT - |path|;
    DoubledSplit(kvs, j, value, q);
    if Clear(kvs[..j], q) && BitIsSet(kvs[j].key, q) {
      RefillVanishes(kvs[j].key, value, kvs[j + 1..], h - 1);
      if h == 1 {
        RightAtBottom(s, kvs[..j]);
        CoveredEnd(kvs[j].key, kvs[j + 1..]);
      } else {
        ClearHalf(s, path);
        InsertsBehind(s, kvs[..j], path + [false]);
      }
    } else {
      FirstStays(w[n..], h - 1);
    }
  }

  lemma {:induction false} DoubledBehind(s: seq<KV>, kvs: seq<KV>, j: nat, value: Word, path: seq<bool>)
    requires Sorts(s, path) && |path| < TRIE_HEIGHT && 0 < j < |kvs| - 1 && value != Default
    requires Last(s) == Last(kvs) && Inserts(kvs[..j]) && Inserts(kvs[j + 1..])
    ensures Right(s, Doubled(kvs, j, value), TRIE_HEIGHT - |path|) <==> RescuedFrom(kvs, j, Close(s), |path|)
    decreases TRIE_HEIGHT - |path|
  {
    hide BitIsSet, UpdateTree, Split, Sorted, AllUnder, Clear, Covered, Agree, Right, RescuedFrom, Doubled;
    var q, h, w := |path|, TRIE_HEIGHT - |path|, Doubled(kvs, j, value);
    DoubledClear(kvs, j, value, q);
    if h == 1 {
      CloseAtLast(s, path);
      RescuedLast(kvs, j, Close(s));
    } else {
      RescuedStep(kvs, j, Close(s), q);
    }
    if BitIsSet(Last(s), q) {
      StepSet(s, w, path);
      var up := s[Split(s, q)..];
      if |s| == 1 && Right(up, w, h - 1) { AloneMoves(up, w, h - 1); }
      if h == 1 {
        RightAtBottom(up, w);
      } else {
        Halves(s, path);
        CloseStep(s, path);
        DoubledBehind(up, kvs, j, value, path + [true]);
      }
    } else if Clear(w, q) {
      StepTogether(s, w, path);
      if |s| == 1 && Right(s, w, h - 1) { AloneMoves(s, w, h - 1); }
      if h > 1 {
        ClearHalf(s, path);
        DoubledBehind(s, kvs, j, value, path + [false]);
      }
    } else {
      StepApart(s, w, path);
      DoubledApart(s, kvs, j, value, path, Split(w, q));
    }
  }

  /** A single key that comes out right with something behind it was moved up, except at the bottom. */
  lemma AloneMoves(s: seq<KV>, rest: seq<KV>, height: nat)
    requires |s| == 1 && Inserts(s) && rest != [] && height < TRIE_HEIGHT && Right(s, rest, height)
    ensures UpdateTree(Default, s + rest, height).deleted <==> height > 0
  {
    hide UpdateTree;
    OneAlone(s, height);
    if height > 0 {
      LeafWasMoved(s + rest, height);
    } else {
      Short(s + rest, 0);
    }
  }
}
