/**
 Exactly which permitted batches take the tree of a map to the tree of the updated map.
 */
module ExactUpdate {
  import opened Keys
  import opened Trie
  import opened TreeUpdate
  import opened Doubling

  // ----- one shortcut

  function Without(kvs: seq<KV>, j: nat): seq<KV>
    requires j < |kvs|
  {
    kvs[..j] + kvs[j + 1..]
  }

  /** What the doubled list of the batch `kvs` with its deletion at `j` has to meet, below a shortcut at `depth`. */
  ghost predicate Rescued(kvs: seq<KV>, j: nat, depth: nat)
    requires j < |kvs|
  {
    RescuedFrom(kvs, j, Close(Without(kvs, j)), depth)
  }

  lemma WithoutSorts(kvs: seq<KV>, j: nat, path: seq<bool>)
    requires Sorted(kvs) && AllUnder(kvs, path) && j < |kvs| - 1
    requires Inserts(kvs[..j]) && Inserts(kvs[j + 1..])
    ensures Sorts(Without(kvs, j), path) && Last(Without(kvs, j)) == Last(kvs)
  {
    hide Less, Sorted, HasPrefix;
    SortedCut(kvs, j, j + 1);
    SortedConcat(kvs[..j], kvs[j + 1..]);
  }

  /** Taking the deleted shortcut out of the batch is what the merge has to do. */
  lemma WithoutMeans(kvs: seq<KV>, s: KV)
    requires Sorted(kvs) && Reinserts(kvs, s.key)
    ensures Apply(map[], Asked(Without(kvs, Rank(kvs, s.key)))) == Apply(map[s.key := s.value], Asked(kvs))
  {
    hide Less, Asked, Sorted, Rank;
    var p := Rank(kvs, s.key);
    RankSplits(kvs, s.key);
    RankCut(kvs, s.key);
    AskedHere(kvs, p);
    AskedConcat(kvs[..p], kvs[p + 1..]);
  }

  lemma MergeDoubles(kvs: seq<KV>, s: KV)
    requires Reinserts(kvs, s.key)
    ensures var p := Rank(kvs, s.key);
            WithShortcut(kvs, s) == Without(kvs, p) + Doubled(kvs, p, s.value)
  {
    hide Rank, Less;
    var p := Rank(kvs, s.key);
    assert kvs[..p + 1] + [s] + kvs[p + 1..] == Doubled(kvs, p, s.value);
  }

  lemma DoubledUpdate(d: Word, kvs: seq<KV>, height: nat)
    requires kvs != [] && 0 < height <= TRIE_HEIGHT && d.Leaf? && Shaped(d, height) && Reinserts(kvs, d.key.bytes)
    ensures var p := Rank(kvs, d.key.bytes);
            UpdateTree(d, kvs, height) == UpdateTree(Default, Without(kvs, p) + Doubled(kvs, p, d.value), height)
  {
    hide Less, WithShortcut, Rank, UpdateChildren;
    MergeDoubles(kvs, KV(d.key.bytes, d.value));
  }

  /** A shortcut that is deleted between a smaller and a larger key. */
  lemma ShortcutIff(d: Word, kvs: seq<KV>, path: seq<bool>)
    requires kvs != [] && Sorted(kvs) && AllUnder(kvs, path) && Canonical(d, path) && d.Leaf? && |path| < TRIE_HEIGHT
    requires Reinserts(kvs, d.key.bytes)
    requires var p := Rank(kvs, d.key.bytes); Inserts(kvs[..p]) && Inserts(kvs[p + 1..])
    ensures Shaped(d, TRIE_HEIGHT - |path|)
    ensures UpdateTree(d, kvs, TRIE_HEIGHT - |path|).tree == Canon(Apply(MapOf(d), Asked(kvs)), path) <==>
            Rescued(kvs, Rank(kvs, d.key.bytes), |path|)
  {
    hide Less, Asked, WithShortcut, Rank, Sorted, AllUnder, Apply, RescuedFrom, Close, Doubled, Canon, UpdateTree, HasPrefix, Inserts;
    var s, h := KV(d.key.bytes, d.value), TRIE_HEIGHT - |path|;
    var p := Rank(kvs, s.key);
    var w := Without(kvs, p);
    WithoutSorts(kvs, p, path);
    WithoutMeans(kvs, s);
    DoubledUpdate(d, kvs, h);
    DoubledBehind(w, kvs, p, s.value, path);
    EmptyMeaning(w, path);
    CanonOfMap(UpdateTree(Default, w, h).tree, path);
  }

  // ----- which deletions are taken back

  /**
   The deletion at `j` meets a shortcut at depth `e`, where the batch keys from `lo` to `hi`
   meet it too, and it has a smaller and a larger key beside it.
   */
  ghost predicate Triggers(m: Map, kvs: seq<KV>, lo: nat, j: nat, hi: nat, e: nat) {
    && lo < j < hi - 1 < |kvs| && e <= TRIE_HEIGHT && kvs[j].value == Default
    && Isolated(m, kvs[j].key, e) && (e > 0 ==> !Isolated(m, kvs[j].key, e - 1))
    && forall i :: 0 <= i < |kvs| ==> (Agree(kvs[i].key, kvs[j].key, e) <==> lo <= i < hi)
  }

  /** Every deletion of the batch that is taken back is rescued. */
  ghost predicate Rescues(m: Map, kvs: seq<KV>, from: nat, to: nat) {
    forall lo: nat, j: nat, hi: nat, e: nat ::
      Triggers(m, kvs, lo, j, hi, e) && from <= lo && hi <= to ==> Rescued(kvs[lo..hi], j - lo, e)
  }

  /** Deletions are only asked for keys of the map. */
  predicate DeletesKnown(m: Map, kvs: seq<KV>) {
    forall i :: 0 <= i < |kvs| && kvs[i].value == Default ==> kvs[i].key in m
  }

  /** The subtree `d` at `path` of the tree of `m`, and the part of the batch that falls there. */
  ghost predicate Place(m: Map, kvs: seq<KV>, d: Word, from: nat, to: nat, path: seq<bool>) {
    && Canonical(d, path) && Sorted(kvs) && from <= to <= |kvs| && DeletesKnown(m, kvs)
    && (forall i :: 0 <= i < |kvs| ==> (HasPrefix(kvs[i].key, path) <==> from <= i < to))
    && (forall k :: k in MapOf(d) <==> k in m && HasPrefix(k, path))
    && (d.Leaf? && |path| > 0 ==> !Isolated(m, d.key.bytes, |path| - 1))
  }

  lemma PartOf(m: Map, kvs: seq<KV>, d: Word, from: nat, to: nat, path: seq<bool>)
    requires Place(m, kvs, d, from, to, path)
    ensures Sorted(kvs[from..to]) && AllUnder(kvs[from..to], path)
  {
    hide Less, HasPrefix;
  }

  lemma AgreeLess(a: Key, b: Key, d: nat, e: nat)
    requires d <= e <= TRIE_HEIGHT && Agree(a, b, e)
    ensures Agree(a, b, d)
  {
    hide BitIsSet;
  }

  lemma IsolatedDeeper(m: Map, k: Key, d: nat, e: nat)
    requires d <= e <= TRIE_HEIGHT && Isolated(m, k, d)
    ensures Isolated(m, k, e)
  {
    hide Agree;
    forall x | x in m && x != k
      ensures !Agree(x, k, e)
    {
      if Agree(x, k, e) { AgreeLess(x, k, d, e); }
    }
  }

  lemma AgreeIsPrefix(a: Key, b: Key, path: seq<bool>)
    requires |path| <= TRIE_HEIGHT && HasPrefix(b, path)
    ensures Agree(a, b, |path|) <==> HasPrefix(a, path)
  {
    hide BitIsSet;
  }

  // ----- at a shortcut

  /** A deletion of the part that is taken back meets the shortcut of this subtree. */
  lemma TriggerAtShortcut(m: Map, kvs: seq<KV>, d: Word, from: nat, to: nat, path: seq<bool>, lo: nat, j: nat, hi: nat, e: nat)
    requires Place(m, kvs, d, from, to, path) && Triggers(m, kvs, lo, j, hi, e) && from <= lo && hi <= to && !d.Node?
    ensures d.Leaf? && e == |path| && lo == from && hi == to && kvs[j].key == d.key.bytes
  {
    hide BitIsSet, Less, Agree, HasPrefix, Sorted;
    var k := kvs[j].key;
    assert k in MapOf(d);
    IsolatedHere(m, kvs, d, from, to, path);
    if e > |path| {
      IsolatedDeeper(m, k, |path|, e - 1);
    } else if e < |path| {
      IsolatedDeeper(m, k, e, |path| - 1);
    }
    AgreeIsPrefix(kvs[from].key, k, path);
    AgreeIsPrefix(kvs[to - 1].key, k, path);
  }

  lemma IsolatedHere(m: Map, kvs: seq<KV>, d: Word, from: nat, to: nat, path: seq<bool>)
    requires Place(m, kvs, d, from, to, path) && d.Leaf?
    ensures Isolated(m, d.key.bytes, |path|)
  {
    hide BitIsSet, Less, Agree, HasPrefix, Sorted;
    var k := d.key.bytes;
    assert k in MapOf(d);
    forall x | x in m && x != k
      ensures !Agree(x, k, |path|)
    {
      AgreeIsPrefix(x, k, path);
      assert x !in MapOf(d);
    }
  }

  lemma RankOfKey(kvs: seq<KV>, j: nat)
    requires Sorted(kvs) && j < |kvs|
    ensures Rank(kvs, kvs[j].key) == j
  {
    hide Less;
    LessTotal(kvs[j].key, kvs[j].key);
  }

  /** Below a shortcut, at most one deletion is taken back. */
  lemma RescuesAtShortcut(m: Map, kvs: seq<KV>, d: Word, from: nat, to: nat, path: seq<bool>)
    requires Place(m, kvs, d, from, to, path) && d.Leaf?
    ensures var part := kvs[from..to];
            Rescues(m, kvs, from, to) <==>
            (Reinserts(part, d.key.bytes) ==> Rescued(part, Rank(part, d.key.bytes), |path|))
  {
    hide BitIsSet, Less, Agree, HasPrefix, Sorted, Rescued, Triggers, Rank, Isolated;
    var part, k := kvs[from..to], d.key.bytes;
    PartOf(m, kvs, d, from, to, path);
    forall lo: nat, j: nat, hi: nat, e: nat | Triggers(m, kvs, lo, j, hi, e) && from <= lo && hi <= to
      ensures lo == from && hi == to && e == |path| && Reinserts(part, k) && j - lo == Rank(part, k)
    {
      OneTrigger(m, kvs, d, from, to, path, lo, j, hi, e);
    }
    if Reinserts(part, k) {
      TriggerHere(m, kvs, d, from, to, path);
    }
  }

  lemma OneTrigger(m: Map, kvs: seq<KV>, d: Word, from: nat, to: nat, path: seq<bool>, lo: nat, j: nat, hi: nat, e: nat)
    requires Place(m, kvs, d, from, to, path) && Triggers(m, kvs, lo, j, hi, e) && from <= lo && hi <= to && d.Leaf?
    ensures lo == from && hi == to && e == |path|
    ensures Reinserts(kvs[from..to], d.key.bytes) && j - lo == Rank(kvs[from..to], d.key.bytes)
  {
    hide BitIsSet, Less, Agree, HasPrefix, Sorted, Rank, Isolated;
    var part := kvs[from..to];
    PartOf(m, kvs, d, from, to, path);
    TriggerAtShortcut(m, kvs, d, from, to, path, lo, j, hi, e);
    assert part[j - from] == kvs[j];
    RankOfKey(part, j - from);
  }

  lemma TriggerHere(m: Map, kvs: seq<KV>, d: Word, from: nat, to: nat, path: seq<bool>)
    requires Place(m, kvs, d, from, to, path) && d.Leaf? && Reinserts(kvs[from..to], d.key.bytes)
    ensures Triggers(m, kvs, from, from + Rank(kvs[from..to], d.key.bytes), to, |path|)
  {
    hide BitIsSet, Less, Agree, HasPrefix, Sorted, Rank, Isolated;
    var k := d.key.bytes;
    IsolatedHere(m, kvs, d, from, to, path);
    forall i | 0 <= i < |kvs|
      ensures Agree(kvs[i].key, k, |path|) <==> from <= i < to
    {
      AgreeIsPrefix(kvs[i].key, k, path);
    }
  }

  // ----- at an interior node

  lemma PrefixBoth(k: Key, path: seq<bool>, side: bool)
    requires |path| < TRIE_HEIGHT
    ensures HasPrefix(k, path + [side]) <==> HasPrefix(k, path) && BitIsSet(k, |path|) == side
  {
    hide HasPrefix, BitIsSet;
    if HasPrefix(k, path + [side]) { PrefixDrop(k, path, side); }
    if HasPrefix(k, path) { PrefixStep(k, path); }
  }

  function Branch(d: Word, side: bool): Word
    requires d.Node?
  {
    if side then d.right else d.left
  }

  /** Where the part of the batch is split between the children. */
  function Mid(kvs: seq<KV>, from: nat, to: nat, depth: nat): (mid: nat)
    requires from <= to <= |kvs| && depth < TRIE_HEIGHT
    ensures from <= mid <= to
  {
    from + Split(kvs[from..to], depth)
  }

  lemma SplitPlaces(m: Map, kvs: seq<KV>, d: Word, from: nat, to: nat, path: seq<bool>)
    requires Place(m, kvs, d, from, to, path) && |path| < TRIE_HEIGHT
    ensures forall i :: from <= i < to ==> (BitIsSet(kvs[i].key, |path|) <==> Mid(kvs, from, to, |path|) <= i)
  {
    hide BitIsSet, Less, Sorted, HasPrefix;
    var part := kvs[from..to];
    PartOf(m, kvs, d, from, to, path);
    SplitBits(part, path);
    forall i | from <= i < to
      ensures BitIsSet(kvs[i].key, |path|) <==> Mid(kvs, from, to, |path|) <= i
    {
      assert part[i - from] == kvs[i];
    }
  }

  /** No key is alone below an interior node. */
  lemma NotAlone(m: Map, kvs: seq<KV>, d: Word, from: nat, to: nat, path: seq<bool>, k: Key)
    requires Place(m, kvs, d, from, to, path) && d.Node? && HasPrefix(k, path)
    ensures !Isolated(m, k, |path|)
  {
    hide BitIsSet, Less, Agree, HasPrefix, Sorted;
    var a, b := NodeHasTwo(d, path);
    var x := if a == k then b else a;
    assert x in MapOf(d);
    PrefixAgree(x, k, path);
  }

  lemma PlaceDown(m: Map, kvs: seq<KV>, d: Word, from: nat, to: nat, path: seq<bool>, side: bool)
    requires Place(m, kvs, d, from, to, path) && d.Node?
    ensures var mid := Mid(kvs, from, to, |path|);
            Place(m, kvs, Branch(d, side), if side then mid else from, if side then to else mid, path + [side])
  {
    hide BitIsSet, Less, Sorted, HasPrefix, Isolated;
    var c := Branch(d, side);
    SplitPlaces(m, kvs, d, from, to, path);
    CanonicalHalves(d, path);
    forall k: Key
      ensures HasPrefix(k, path + [side]) <==> HasPrefix(k, path) && BitIsSet(k, |path|) == side
    {
      PrefixBoth(k, path, side);
    }
    assert Canonical(c, path + [side]);
    if c.Leaf? { NotAlone(m, kvs, d, from, to, path, c.key.bytes); }
  }

  /** A deletion that is taken back falls on one side of an interior node. */
  lemma TriggerOneSide(m: Map, kvs: seq<KV>, d: Word, from: nat, to: nat, path: seq<bool>, lo: nat, j: nat, hi: nat, e: nat)
    requires Place(m, kvs, d, from, to, path) && Triggers(m, kvs, lo, j, hi, e) && from <= lo && hi <= to && d.Node?
    ensures hi <= Mid(kvs, from, to, |path|) || Mid(kvs, from, to, |path|) <= lo
  {
    hide BitIsSet, Less, HasPrefix, Sorted;
    var k := kvs[j].key;
    assert e > |path| by {
      if e <= |path| { IsolatedDeeper(m, k, e, |path|); }
      NotAlone(m, kvs, d, from, to, path, k);
    }
    SplitPlaces(m, kvs, d, from, to, path);
    assert BitIsSet(kvs[lo].key, |path|) == BitIsSet(k, |path|) == BitIsSet(kvs[hi - 1].key, |path|);
  }

  lemma RescuesBothSides(m: Map, kvs: seq<KV>, d: Word, from: nat, to: nat, path: seq<bool>)
    requires Place(m, kvs, d, from, to, path) && d.Node?
    ensures var mid := Mid(kvs, from, to, |path|);
            Rescues(m, kvs, from, to) <==> Rescues(m, kvs, from, mid) && Rescues(m, kvs, mid, to)
  {
    hide Sorted, HasPrefix, MapOf, DeletesKnown, Isolated, Triggers, Rescued, Mid;
    var mid := Mid(kvs, from, to, |path|);
    forall lo: nat, j: nat, hi: nat, e: nat | Triggers(m, kvs, lo, j, hi, e) && from <= lo && hi <= to
      ensures hi <= mid || mid <= lo
    {
      TriggerOneSide(m, kvs, d, from, to, path, lo, j, hi, e);
    }
  }

  lemma MergedUnder(kvs: seq<KV>, s: KV, path: seq<bool>)
    requires AllUnder(kvs, path) && HasPrefix(s.key, path)
    ensures AllUnder(WithShortcut(kvs, s), path)
  {
    hide HasPrefix, Rank, Less;
  }

  ghost predicate KeysUnder(d: Word, path: seq<bool>) {
    forall k :: k in MapOf(d) ==> HasPrefix(k, path)
  }

  /** An update only leaves keys of the tree or of the batch. */
  lemma {:induction false} KeysStay(d: Word, kvs: seq<KV>, height: nat, path: seq<bool>)
    requires kvs != [] && height <= TRIE_HEIGHT && Shaped(d, height) && KeysUnder(d, path) && AllUnder(kvs, path)
    ensures KeysUnder(UpdateTree(d, kvs, height).tree, path)
    decreases height, 1
  {
    hide HasPrefix, WithShortcut, UpdateChildren;
    if height > 0 {
      var all := if d.Leaf? then WithShortcut(kvs, KV(d.key.bytes, d.value)) else kvs;
      if d.Leaf? { MergedUnder(kvs, KV(d.key.bytes, d.value), path); }
      KeysOfChildren(d, path);
      if all != [] {
        KeysStayBelow(if d.Node? then d.left else Default, if d.Node? then d.right else Default, all, height, path);
      }
    }
  }

  lemma {:induction false} KeysStayBelow(l: Word, r: Word, all: seq<KV>, height: nat, path: seq<bool>)
    requires all != [] && 0 < height <= TRIE_HEIGHT && Shaped(l, height - 1) && Shaped(r, height - 1)
    requires KeysUnder(l, path) && KeysUnder(r, path) && AllUnder(all, path)
    ensures KeysUnder(UpdateChildren(l, r, all, height).tree, path)
    decreases height, 0
  {
    hide HasPrefix, UpdateTree, Split, Join, AllUnder, KeysUnder;
    var s := Split(all, TRIE_HEIGHT - height);
    PartsUnder(all, s, path);
    if s > 0 { KeysStay(l, all[..s], height - 1, path); }
    if s < |all| { KeysStay(r, all[s..], height - 1, path); }
    JoinKeys(if s == 0 then l else UpdateTree(l, all[..s], height - 1).tree,
             if s == |all| then r else UpdateTree(r, all[s..], height - 1).tree, height, path);
  }

  lemma PartsUnder(kvs: seq<KV>, s: nat, path: seq<bool>)
    requires AllUnder(kvs, path) && s <= |kvs|
    ensures AllUnder(kvs[..s], path) && AllUnder(kvs[s..], path)
  {
  }

  lemma KeysOfChildren(d: Word, path: seq<bool>)
    requires KeysUnder(d, path)
    ensures d.Node? ==> KeysUnder(d.left, path) && KeysUnder(d.right, path)
    ensures KeysUnder(Default, path)
  {
    hide HasPrefix;
  }

  lemma JoinKeys(l: Word, r: Word, height: nat, path: seq<bool>)
    requires KeysUnder(l, path) && KeysUnder(r, path)
    ensures KeysUnder(Join(l, r, height).tree, path) && KeysUnder(Node(l, r), path)
  {
    hide HasPrefix;
  }

  /** Two updated children join to the right tree exactly when both are right. */
  lemma JoinIff(l: Updated, r: Updated, m: Map, path: seq<bool>)
    requires |path| < TRIE_HEIGHT && Under(m, path)
    requires Shaped(l.tree, TRIE_HEIGHT - |path| - 1) && KeysUnder(l.tree, path + [false])
    requires Shaped(r.tree, TRIE_HEIGHT - |path| - 1) && KeysUnder(r.tree, path + [true])
    requires !l.deleted && !r.deleted ==> (l.tree.Default? ==> r.tree.Node?) && (r.tree.Default? ==> l.tree.Node?)
    ensures Combined(l, r, TRIE_HEIGHT - |path|).tree == Canon(m, path) <==>
            l.tree == Canon(Half(m, |path|, false), path + [false]) && r.tree == Canon(Half(m, |path|, true), path + [true])
  {
    hide BitIsSet, Canon, Half;
    var wl, wr := Canon(Half(m, |path|, false), path + [false]), Canon(Half(m, |path|, true), path + [true]);
    UnderHalf(m, path, false);
    UnderHalf(m, path, true);
    CanonIsCanonical(Half(m, |path|, false), path + [false]);
    CanonIsCanonical(Half(m, |path|, true), path + [true]);
    HalvesJoin(m, |path|);
    JoinCanonical(wl, wr, path);
    CanonOfMap(Join(wl, wr, TRIE_HEIGHT - |path|).tree, path);
    JoinInjective(l, r, wl, wr, path);
  }

  lemma JoinInjective(l: Updated, r: Updated, wl: Word, wr: Word, path: seq<bool>)
    requires |path| < TRIE_HEIGHT && Canonical(wl, path + [false]) && Canonical(wr, path + [true])
    requires Shaped(l.tree, TRIE_HEIGHT - |path| - 1) && KeysUnder(l.tree, path + [false])
    requires Shaped(r.tree, TRIE_HEIGHT - |path| - 1) && KeysUnder(r.tree, path + [true])
    requires !l.deleted && !r.deleted ==> (l.tree.Default? ==> r.tree.Node?) && (r.tree.Default? ==> l.tree.Node?)
    ensures Combined(l, r, TRIE_HEIGHT - |path|).tree == Join(wl, wr, TRIE_HEIGHT - |path|).tree <==> l.tree == wl && r.tree == wr
  {
    hide BitIsSet;
    CanonicalShaped(wl, path + [false]);
    CanonicalShaped(wr, path + [true]);
    if wl.Leaf? {
      var k := wl.key.bytes;
      PrefixBoth(k, path, true);
      PrefixBoth(k, path, false);
    }
    if wr.Leaf? {
      var k := wr.key.bytes;
      PrefixBoth(k, path, true);
      PrefixBoth(k, path, false);
    }
    if l.tree.Leaf? { assert l.tree.key.bytes in MapOf(l.tree); }
    if r.tree.Leaf? { assert r.tree.key.bytes in MapOf(r.tree); }
  }

  // ----- the whole tree

  lemma ApplyUnder(d: Word, kvs: seq<KV>, path: seq<bool>)
    requires Canonical(d, path) && Sorted(kvs) && AllUnder(kvs, path)
    ensures Under(Apply(MapOf(d), Asked(kvs)), path)
  {
    hide HasPrefix, Canonical, Asked, AllUnder;
    CanonicalUnder(d, path);
    AskedUnder(kvs, path);
  }

  lemma NoneToRescue(m: Map, kvs: seq<KV>, from: nat, to: nat)
    requires to <= from + 2
    ensures Rescues(m, kvs, from, to)
  {
    hide Rescued, Isolated, Agree;
  }

  /** Below a shortcut, the batch deletes no other key. */
  lemma OthersInsert(m: Map, kvs: seq<KV>, d: Word, from: nat, to: nat, path: seq<bool>)
    requires Place(m, kvs, d, from, to, path) && d.Leaf? && Reinserts(kvs[from..to], d.key.bytes)
    ensures var part := kvs[from..to];
            var p := Rank(part, d.key.bytes);
            Inserts(part[..p]) && Inserts(part[p + 1..])
  {
    hide HasPrefix, Less, Rank, Isolated, Sorted;
    var part, k := kvs[from..to], d.key.bytes;
    var p := Rank(part, k);
    PartOf(m, kvs, d, from, to, path);
    forall i | 0 <= i < |part| && i != p
      ensures part[i].value != Default
    {
      assert part[i] == kvs[from + i];
      RankOfKey(part, i);
      var key := part[i].key;
      assert key in MapOf(d) <==> key in m;
    }
  }

  lemma LeafIff(m: Map, kvs: seq<KV>, d: Word, from: nat, to: nat, path: seq<bool>)
    requires Place(m, kvs, d, from, to, path) && from < to && d.Leaf? && |path| < TRIE_HEIGHT
    ensures Shaped(d, TRIE_HEIGHT - |path|)
    ensures UpdateTree(d, kvs[from..to], TRIE_HEIGHT - |path|).tree == Canon(Apply(MapOf(d), Asked(kvs[from..to])), path) <==>
            Rescues(m, kvs, from, to)
  {
    hide HasPrefix, Less, Sorted, Asked, UpdateTree, Canon, Isolated, DeletesKnown, Apply, AllUnder, Rescues, Rescued, Rank, Inserts;
    var part := kvs[from..to];
    CanonicalShaped(d, path);
    PartOf(m, kvs, d, from, to, path);
    RescuesAtShortcut(m, kvs, d, from, to, path);
    if Reinserts(part, d.key.bytes) {
      OthersInsert(m, kvs, d, from, to, path);
      ShortcutIff(d, part, path);
    } else {
      ShortcutMeaning(d, part, path);
      CanonOfMap(UpdateTree(d, part, TRIE_HEIGHT - |path|).tree, path);
    }
  }

  function ChildOn(c: Word, kvs: seq<KV>, height: nat): Updated
    requires height <= TRIE_HEIGHT && Shaped(c, height)
  {
    if kvs == [] then Updated(c, false) else UpdateTree(c, kvs, height)
  }

  lemma NodeUpdate(d: Word, kvs: seq<KV>, height: nat)
    requires d.Node? && Shaped(d, height) && 0 < height <= TRIE_HEIGHT && kvs != [] && !(d.left.Default? && d.right.Default?)
    ensures var s := Split(kvs, TRIE_HEIGHT - height);
            UpdateTree(d, kvs, height) == Combined(ChildOn(d.left, kvs[..s], height - 1), ChildOn(d.right, kvs[s..], height - 1), height)
    ensures !UpdateTree(d, kvs, height).deleted ==> UpdateTree(d, kvs, height).tree.Node?
  {
    hide Split, WithShortcut, Join;
  }

  /** What stays empty without a deletion stays beside an interior node. */
  lemma NoCollapse(d: Word, side: bool, path: seq<bool>, a: seq<KV>, b: seq<KV>)
    requires Canonical(d, path) && d.Node? && (a != [] || b != [])
    ensures Shaped(Branch(d, side), TRIE_HEIGHT - |path| - 1) && Shaped(Branch(d, !side), TRIE_HEIGHT - |path| - 1)
    ensures var u, v := ChildOn(Branch(d, side), a, TRIE_HEIGHT - |path| - 1), ChildOn(Branch(d, !side), b, TRIE_HEIGHT - |path| - 1);
            !u.deleted && !v.deleted && u.tree.Default? ==> v.tree.Node?
  {
    hide UpdateTree, HasPrefix;
    CanonicalShaped(d, path);
    var c := Branch(d, !side);
    if c.Node? && b != [] {
      assert Canonical(c, path + [!side]);
      NodeUpdate(c, b, TRIE_HEIGHT - |path| - 1);
    }
  }

  /** A child of an interior node, with the part of the batch on its side, or none. */
  lemma {:induction false} ChildIff(m: Map, kvs: seq<KV>, c: Word, from: nat, to: nat, path: seq<bool>) returns (u: Updated)
    requires Place(m, kvs, c, from, to, path) && |path| > 0
    ensures Shaped(c, TRIE_HEIGHT - |path|) && Shaped(u.tree, TRIE_HEIGHT - |path|) && KeysUnder(u.tree, path)
    ensures u == if from == to then Updated(c, false) else UpdateTree(c, kvs[from..to], TRIE_HEIGHT - |path|)
    ensures u.tree == Canon(Apply(MapOf(c), Asked(kvs[from..to])), path) <==> Rescues(m, kvs, from, to)
    decreases TRIE_HEIGHT - |path|, 2
  {
    hide HasPrefix, Less, Sorted, Asked, UpdateTree, Canon, Rescues, Isolated, DeletesKnown, Apply;
    var part := kvs[from..to];
    CanonicalShaped(c, path);
    CanonicalUnder(c, path);
    PartOf(m, kvs, c, from, to, path);
    if from == to {
      u := Updated(c, false);
      AskedEmpty();
      ApplyNothing(MapOf(c), path);
      assert part == [];
      CanonOfMap(c, path);
      NoneToRescue(m, kvs, from, to);
    } else {
      u := UpdateTree(c, part, TRIE_HEIGHT - |path|);
      KeysStay(c, part, TRIE_HEIGHT - |path|, path);
      TreeIff(m, kvs, c, from, to, path);
    }
  }

  lemma ApplyNothing(m: Map, path: seq<bool>)
    requires Under(m, path)
    ensures Apply(m, map[]) == m
  {
  }

  lemma HalvesOf(d: Word, kvs: seq<KV>, path: seq<bool>)
    requires Canonical(d, path) && d.Node? && Sorted(kvs) && AllUnder(kvs, path)
    ensures var s, m := Split(kvs, |path|), Apply(MapOf(d), Asked(kvs));
            && Half(m, |path|, false) == Apply(MapOf(d.left), Asked(kvs[..s]))
            && Half(m, |path|, true) == Apply(MapOf(d.right), Asked(kvs[s..]))
  {
    hide BitIsSet, Asked, Apply, Half, Split, Sorted, AllUnder, HasPrefix;
    CanonicalHalves(d, path);
    SplitExact(kvs, path);
    ApplyHalf(MapOf(d), Asked(kvs), |path|, false);
    ApplyHalf(MapOf(d), Asked(kvs), |path|, true);
  }

  lemma {:induction false} NodeIff(m: Map, kvs: seq<KV>, d: Word, from: nat, to: nat, path: seq<bool>)
    requires Place(m, kvs, d, from, to, path) && from < to && d.Node?
    ensures Shaped(d, TRIE_HEIGHT - |path|)
    ensures UpdateTree(d, kvs[from..to], TRIE_HEIGHT - |path|).tree == Canon(Apply(MapOf(d), Asked(kvs[from..to])), path) <==>
            Rescues(m, kvs, from, to)
    decreases TRIE_HEIGHT - |path|, 0
  {
    hide HasPrefix, Less, Sorted, Asked, UpdateTree, Canon, Isolated, DeletesKnown, Apply, AllUnder, Rescues, Split, MapOf, Half, Combined, KeysUnder;
    var part, mid, h := kvs[from..to], Mid(kvs, from, to, |path|), TRIE_HEIGHT - |path|;
    var s := mid - from;
    CanonicalShaped(d, path);
    PartOf(m, kvs, d, from, to, path);
    PlaceDown(m, kvs, d, from, to, path, false);
    PlaceDown(m, kvs, d, from, to, path, true);
    assert part[..s] == kvs[from..mid] && part[s..] == kvs[mid..to];
    var l := ChildIff(m, kvs, d.left, from, mid, path + [false]);
    var r := ChildIff(m, kvs, d.right, mid, to, path + [true]);
    NodeUpdate(d, part, h);
    NoCollapse(d, false, path, part[..s], part[s..]);
    NoCollapse(d, true, path, part[s..], part[..s]);
    RescuesBothSides(m, kvs, d, from, to, path);
    HalvesOf(d, part, path);
    ApplyUnder(d, part, path);
    JoinIff(l, r, Apply(MapOf(d), Asked(part)), path);
  }

  lemma {:induction false} TreeIff(m: Map, kvs: seq<KV>, d: Word, from: nat, to: nat, path: seq<bool>)
    requires Place(m, kvs, d, from, to, path) && from < to
    ensures Shaped(d, TRIE_HEIGHT - |path|)
    ensures UpdateTree(d, kvs[from..to], TRIE_HEIGHT - |path|).tree == Canon(Apply(MapOf(d), Asked(kvs[from..to])), path) <==>
            Rescues(m, kvs, from, to)
    decreases TRIE_HEIGHT - |path|, 1
  {
    hide HasPrefix, Less, Sorted, Asked, UpdateTree, Canon, Isolated, DeletesKnown, Apply, Reinserts, AllUnder, Triggers, Rescued, Rank;
    var part, h := kvs[from..to], TRIE_HEIGHT - |path|;
    CanonicalShaped(d, path);
    PartOf(m, kvs, d, from, to, path);
    if |path| == TRIE_HEIGHT {
      LastMeaning(d, part, path);
      CanonOfMap(UpdateTree(d, part, h).tree, path);
      NoneToRescue(m, kvs, from, to);
    } else if d.Node? {
      NodeIff(m, kvs, d, from, to, path);
    } else if d.Leaf? {
      LeafIff(m, kvs, d, from, to, path);
    } else {
      EmptyMeaning(part, path);
      CanonOfMap(UpdateTree(d, part, h).tree, path);
      forall lo: nat, j: nat, hi: nat, e: nat | Triggers(m, kvs, lo, j, hi, e) && from <= lo && hi <= to
        ensures false
      {
        TriggerAtShortcut(m, kvs, d, from, to, path, lo, j, hi, e);
      }
    }
  }

  /**
   On the tree of a map, a sorted batch that only deletes known keys yields the tree of the
   updated map if and only if every deletion that the merge takes back is rescued.
   */
  lemma UpdateIff(d: Word, kvs: seq<KV>)
    requires Canonical(d, []) && kvs != [] && Sorted(kvs) && DeletesKnown(MapOf(d), kvs)
    ensures Shaped(d, TRIE_HEIGHT)
    ensures UpdateTree(d, kvs, TRIE_HEIGHT).tree == Canon(Apply(MapOf(d), Asked(kvs)), []) <==>
            Rescues(MapOf(d), kvs, 0, |kvs|)
  {
    hide Less, Sorted, Asked, UpdateTree, Canon, Rescues, Isolated, DeletesKnown, Apply;
    assert kvs[0..|kvs|] == kvs;
    TreeIff(MapOf(d), kvs, d, 0, |kvs|, []);
  }

  /** A mergeable batch has no deletion to rescue. */
  lemma MergeableRescues(m: Map, kvs: seq<KV>)
    requires Mergeable(m, kvs, 0)
    ensures Rescues(m, kvs, 0, |kvs|)
  {
    hide Isolated, Agree, Rescued;
  }
}
