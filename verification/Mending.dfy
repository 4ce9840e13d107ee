/**
 The flags of the lowest slots, which no receiver can check: what they say shows only in the
 batches below.  Up to these flags a batch that passes is the one of the trie, and they make
 no difference to a reader or to the sync.
 */
module Mending {
  import opened Keys
  import opened Trie
  import opened TreeUpdate
  import opened Batch
  import opened Reads
  import opened Sync
  import opened BatchChecks

  /** A slot of the lowest level with the flag that its digest asks for. */
  function MendedSlot(s: Slot): Slot {
    if s.Entry? && s.flag <= 1 && (s.word.Leaf? || s.word.Node?) then SlotOf(s.word) else s
  }

  function Mended(b: seq<Slot>): (c: seq<Slot>)
    requires |b| == BATCH_LEN
    ensures |c| == BATCH_LEN
    ensures forall i :: 0 <= i < BATCH_LEN ==> c[i] == if i < 15 then b[i] else MendedSlot(b[i])
  {
    seq(BATCH_LEN, i requires 0 <= i < BATCH_LEN => if i < 15 then b[i] else MendedSlot(b[i]))
  }

  /** Presence and digests stay as they are. */
  lemma MendedSeen(b: seq<Slot>, i: nat)
    requires |b| == BATCH_LEN && i < BATCH_LEN
    ensures var c := Mended(b);
            && (c[i].Empty? <==> b[i].Empty?) && (c[i].Entry? <==> b[i].Entry?) && SlotWord(c[i]) == SlotWord(b[i])
            && Words(c[i]) == Words(b[i]) && TreeOf(c[i]) == TreeOf(b[i])
            && (c[i].Entry? ==> c[i].word == b[i].word)
    ensures HasChildren(Mended(b), i) == HasChildren(b, i)
  {
    hide Mended;
    var c := Mended(b);
    assert 2 * i + 2 < BATCH_LEN ==> c[2 * i + 1].Empty? == b[2 * i + 1].Empty? && c[2 * i + 2].Empty? == b[2 * i + 2].Empty?;
  }

  lemma MendedTest(b: seq<Slot>, i: nat, height: int, root: Word)
    requires |b| == BATCH_LEN && i < 15
    ensures NodeTest(Mended(b), i, height, root) == NodeTest(b, i, height, root)
  {
    hide Mended, HasChildren, MendedSlot;
    MendedSeen(b, i);
    MendedSeen(b, 2 * i + 1);
    MendedSeen(b, 2 * i + 2);
  }

  /** The check decides alike. */
  lemma MendedVerdict(b: seq<Slot>, root: Word, layer: nat)
    requires |b| == BATCH_LEN
    ensures Accepts(VerifyBatch(Mended(b), root, layer)) <==> Accepts(VerifyBatch(b, root, layer))
  {
    hide Mended, HasChildren, NodeTest, VerifyBelow;
    var c := Mended(b);
    if b[0] == Marker(0) {
      forall i | 0 <= i < BATCH_LEN
        ensures HasChildren(b, i) == HasChildren(c, i)
      {
        MendedSeen(b, i);
      }
      var h := TRIE_HEIGHT - 4 * (layer + 1);
      forall i | 0 <= i < 15
        ensures NodeTest(b, i, h, root) == NodeTest(c, i, h, root)
      {
        MendedTest(b, i, h, root);
      }
      hide VerifyBatch;
      SameVerdict(b, c, root, layer);
      SameVerdict(c, b, root, layer);
    } else {
      forall i | 3 <= i < BATCH_LEN
        ensures b[i].Empty? <==> c[i].Empty?
      {
        MendedSeen(b, i);
      }
    }
  }

  lemma {:induction false} MendedNext(b: seq<Slot>, idx: nat, levels: nat)
    requires |b| == BATCH_LEN && OnLevel(idx, levels)
    ensures NextRoots(Mended(b), idx, levels) == NextRoots(b, idx, levels)
    decreases levels
  {
    hide Mended, HasChildren, Words, NextRoots;
    NextRootsOf(b, idx, levels);
    NextRootsOf(Mended(b), idx, levels);
    if levels > 0 {
      MendedAround(b, idx);
      MendedNext(b, 2 * idx + 1, levels - 1);
      MendedNext(b, 2 * idx + 2, levels - 1);
    }
  }

  lemma NextRootsOf(b: seq<Slot>, idx: nat, levels: nat)
    requires |b| == BATCH_LEN && OnLevel(idx, levels)
    ensures levels == 0 ==> NextRoots(b, idx, levels) == []
    ensures levels > 0 ==>
              var l, r := 2 * idx + 1, 2 * idx + 2;
              NextRoots(b, idx, levels)
              == if !HasChildren(b, l) && !HasChildren(b, r) then
                   if b[idx].Entry? && b[idx].flag == 1 then [] else Words(b[l]) + Words(b[r])
                 else
                   (if HasChildren(b, l) then NextRoots(b, l, levels - 1) else [])
                   + if HasChildren(b, r) then NextRoots(b, r, levels - 1) else []
  {
    hide HasChildren, Words;
  }

  lemma FinalLeavesOf(b: seq<Slot>, idx: nat, levels: nat)
    requires |b| == BATCH_LEN && OnLevel(idx, levels)
    ensures levels == 0 ==> FinalLeaves(b, idx, levels) == Some([])
    ensures levels > 0 ==>
              var l, r := 2 * idx + 1, 2 * idx + 2;
              FinalLeaves(b, idx, levels)
              == if b[idx].Empty? then None
                 else if b[idx] == Marker(1) || (b[idx].Entry? && b[idx].flag == 1) then
                   if b[l].Entry? && b[r].Entry? then Some([LeafNode(b[l].word, b[r].word)]) else None
                 else
                   var ls := if HasChildren(b, l) then FinalLeaves(b, l, levels - 1) else Some([]);
                   var rs := if HasChildren(b, r) then FinalLeaves(b, r, levels - 1) else Some([]);
                   if ls.None? || rs.None? then None else Some(ls.value + rs.value)
  {
    hide HasChildren;
  }

  lemma {:induction false} MendedLeaves(b: seq<Slot>, idx: nat, levels: nat)
    requires |b| == BATCH_LEN && OnLevel(idx, levels)
    ensures FinalLeaves(Mended(b), idx, levels) == FinalLeaves(b, idx, levels)
    decreases levels
  {
    hide Mended, HasChildren, Words, FinalLeaves;
    FinalLeavesOf(b, idx, levels);
    FinalLeavesOf(Mended(b), idx, levels);
    if levels > 0 {
      MendedAround(b, idx);
      MendedLeaves(b, 2 * idx + 1, levels - 1);
      MendedLeaves(b, 2 * idx + 2, levels - 1);
    }
  }

  lemma MendedAround(b: seq<Slot>, i: nat)
    requires |b| == BATCH_LEN && i < 15
    ensures var c, l, r := Mended(b), 2 * i + 1, 2 * i + 2;
            && c[i] == b[i] && HasChildren(c, l) == HasChildren(b, l) && HasChildren(c, r) == HasChildren(b, r)
            && Words(c[l]) == Words(b[l]) && Words(c[r]) == Words(b[r])
            && (c[l].Entry? <==> b[l].Entry?) && (c[r].Entry? <==> b[r].Entry?)
            && (b[l].Entry? ==> c[l].word == b[l].word) && (b[r].Entry? ==> c[r].word == b[r].word)
  {
    hide Mended, HasChildren, Words;
    MendedSeen(b, 2 * i + 1);
    MendedSeen(b, 2 * i + 2);
  }

  /** What a batch leads to and delivers is the same. */
  lemma MendedContents(b: seq<Slot>)
    requires |b| == BATCH_LEN
    ensures InteriorNodes(Mended(b)) == InteriorNodes(b) && FinalLeaves(Mended(b), 0, 4) == FinalLeaves(b, 0, 4)
  {
    hide Mended;
    MendedNext(b, 0, 4);
    MendedLeaves(b, 0, 4);
  }

  // ----- the lowest digests of a batch that passes are those of the trie

  /** One node that passes: the digests of its children are the subtrees. */
  lemma RightChildren(b: seq<Slot>, i: nat, height: int, root: Word, path: seq<bool>)
    requires |b| == BATCH_LEN && b[0] == Marker(0) && InnerFits(b) && i < 15 && NodeTest(b, i, height, root).Right?
    requires i > 0 ==> b[i].Entry? && b[i].flag == 0
    requires forall c :: 2 * i + 1 <= c <= 2 * i + 2 && c < 15 && b[c].Entry? && b[c].flag <= 1 ==> HasChildren(b, c)
    requires Canonical(if i == 0 then root else b[i].word, path)
    ensures forall c :: 2 * i + 1 <= c <= 2 * i + 2 && b[c].Entry? && b[c].flag <= 1 ==>
              Canonical(b[c].word, path + [c == 2 * i + 2])
  {
    hide InnerFits;
    InnerAt(b, if i > 0 then i else 1);
    if i < 7 {
      InnerAt(b, 2 * i + 1);
      InnerAt(b, 2 * i + 2);
    }
  }

  lemma {:induction false} BottomKinds(b: seq<Slot>, idx: nat, levels: nat, height: int, root: Word, path: seq<bool>, j: nat)
    requires |b| == BATCH_LEN && b[0] == Marker(0) && InnerFits(b) && OnLevel(idx, levels) && levels > 0
    requires idx > 0 ==> b[idx].Entry? && b[idx].flag <= 1
    requires Accepts(VerifyBelow(b, idx, levels, height, root)) && Canonical(if idx == 0 then root else b[idx].word, path)
    requires 15 <= j < BATCH_LEN && Below(idx, j) && b[j].Entry? && b[j].flag <= 1
    ensures !b[j].word.Bytes?
    decreases levels
  {
    hide VerifyBelow, NodeTest, InnerFits, Below, FirstFailure, HasChildren;
    var l, r := 2 * idx + 1, 2 * idx + 2;
    SidesPass(b, idx, levels, height, root);
    BelowSplit(idx, levels, j);
    BelowSplit(l, levels - 1, j);
    BelowSplit(r, levels - 1, j);
    if idx > 0 && b[idx].flag == 1 {
      InnerAt(b, idx);
      if levels > 1 {
        if Below(l, j) { NothingThere(b, l, levels - 1, j); } else if Below(r, j) { NothingThere(b, r, levels - 1, j); }
      }
    } else {
      forall c | l <= c <= r && c < 15 && b[c].Entry? && b[c].flag <= 1
        ensures HasChildren(b, c)
      {
        FlaggedHasChildren(b, c);
      }
      RightChildren(b, idx, height, root, path);
      if levels > 1 {
        var c := if Below(l, j) then l else r;
        if b[c].Entry? && b[c].flag <= 1 {
          FlaggedHasChildren(b, c);
          BottomKinds(b, c, levels - 1, height, root, path + [c == r], j);
        } else {
          NothingThere(b, c, levels - 1, j);
        }
      }
    }
  }

  lemma FlaggedHasChildren(b: seq<Slot>, c: nat)
    requires |b| == BATCH_LEN && b[0] == Marker(0) && InnerFits(b) && 1 <= c < 15 && b[c].Entry? && b[c].flag <= 1
    ensures HasChildren(b, c)
  {
    hide InnerFits;
    InnerAt(b, c);
  }

  /** Below an empty slot, a key or a value there is no digest. */
  lemma {:induction false} NothingThere(b: seq<Slot>, i: nat, n: nat, j: nat)
    requires |b| == BATCH_LEN && b[0] == Marker(0) && InnerFits(b) && OnLevel(i, n) && i > 0
    requires !(b[i].Entry? && b[i].flag <= 1) && j < BATCH_LEN && Below(i, j)
    ensures b[j].Empty?
    decreases n
  {
    hide InnerFits, Below;
    BelowSplit(i, n, j);
    InnerAt(b, i);
    if Below(2 * i + 1, j) {
      NothingThere(b, 2 * i + 1, n - 1, j);
    } else if Below(2 * i + 2, j) {
      NothingThere(b, 2 * i + 2, n - 1, j);
    }
  }

  lemma MendedFits(b: seq<Slot>, d: Word, layer: nat, path: seq<bool>)
    requires |b| == BATCH_LEN && FlagsFit(b) && Canonical(d, path) && Accepts(VerifyBatch(b, d, layer))
    ensures WellFlagged(Mended(b))
  {
    hide Mended, VerifyBelow, Below, InnerFits;
    var c := Mended(b);
    MendedInner(b);
    forall j | 15 <= j < BATCH_LEN && b[0] == Marker(0)
      ensures BottomFits(c[j])
    {
      assert BottomTested(b[j]);
      if b[j].Entry? && b[j].flag <= 1 {
        AllBelowRoot(j);
        BottomKinds(b, 0, 4, TRIE_HEIGHT - 4 * (layer + 1), d, path, j);
      }
    }
  }

  lemma MendedInner(b: seq<Slot>)
    requires |b| == BATCH_LEN
    ensures InnerFits(Mended(b)) <==> InnerFits(b)
  {
    hide Mended, SlotFits;
    var c := Mended(b);
    forall i | 1 <= i < 15
      ensures SlotFits(c[i], c[2 * i + 1], c[2 * i + 2]) <==> SlotFits(b[i], b[2 * i + 1], b[2 * i + 2])
    {
      MendedFit(b[i], b[2 * i + 1], b[2 * i + 2]);
    }
  }

  lemma MendedFit(s: Slot, l: Slot, r: Slot)
    ensures SlotFits(s, MendedSlot(l), MendedSlot(r)) <==> SlotFits(s, l, r)
    ensures SlotFits(s, MendedSlot(l), r) <==> SlotFits(s, l, r)
  {
  }

  /** On a digest of the trie: a batch passes with flags that a receiver finds fit, if and only if up to the lowest flags it is the one of the trie. */
  lemma MendIff(b: seq<Slot>, d: Word, layer: nat, path: seq<bool>)
    requires |b| == BATCH_LEN && Canonical(d, path) && |path| == 4 * layer
    ensures FlagsFit(b) && Accepts(VerifyBatch(b, d, layer)) <==> IsBatch(Mended(b), d)
  {
    hide Mended, VerifyBatch, InnerFits, Holds;
    MendedVerdict(b, d, layer);
    CheckIff(Mended(b), d, layer, path);
    if IsBatch(Mended(b), d) {
      MendedInner(b);
      forall i | 15 <= i < BATCH_LEN && b[0] == Marker(0)
        ensures BottomTested(b[i])
      {
        assert BottomFits(Mended(b)[i]);
      }
    } else if FlagsFit(b) && Accepts(VerifyBatch(b, d, layer)) {
      MendedFits(b, d, layer, path);
    }
  }

  /** A batch of the trie needs no mending. */
  lemma BatchIsMended(b: seq<Slot>, d: Word)
    requires IsBatch(b, d)
    ensures Mended(b) == b
  {
    hide Holds, Mended, Below;
    var c := Mended(b);
    forall i | 15 <= i < BATCH_LEN
      ensures c[i] == b[i]
    {
      AllBelowRoot(i);
      HeldKinds(b, 0, 4, SlotOf(d), i);
    }
  }

  lemma {:induction false} HeldKinds(b: seq<Slot>, i: nat, n: nat, s: Slot, j: nat)
    requires |b| == BATCH_LEN && OnLevel(i, n) && Holds(b, i, n, s) && j < BATCH_LEN && Below(i, j)
    ensures MendedSlot(b[j]) == b[j]
    decreases n
  {
    hide Holds, Below;
    BelowSplit(i, n, j);
    HoldsElim(b, i, n, s);
    if Below(2 * i + 1, j) {
      HeldKinds(b, 2 * i + 1, n - 1, Child(s, false), j);
    } else if Below(2 * i + 2, j) {
      HeldKinds(b, 2 * i + 2, n - 1, Child(s, true), j);
    }
  }

  // ----- reading

  ghost predicate Sound(nodes: Nodes) {
    forall d :: d in nodes ==> |nodes[d]| == BATCH_LEN && IsBatch(Mended(nodes[d]), d)
  }

  lemma CoherentIsSound(nodes: Nodes)
    requires Coherent(nodes)
    ensures Sound(nodes)
  {
    hide Mended, IsBatch;
    forall d | d in nodes
      ensures |nodes[d]| == BATCH_LEN && IsBatch(Mended(nodes[d]), d)
    {
      CoherentAt(nodes, d);
      BatchIsLong(nodes[d], d);
      BatchIsMended(nodes[d], d);
    }
  }

  lemma SoundPut(nodes: Nodes, d: Word, b: seq<Slot>)
    requires Sound(nodes) && |b| == BATCH_LEN && IsBatch(Mended(b), d)
    ensures Sound(nodes[d := b])
  {
    hide Mended, IsBatch;
  }

  function MendedStore(nodes: Nodes): Nodes {
    map d | d in nodes && |nodes[d]| == BATCH_LEN :: Mended(nodes[d])
  }

  /** Two slots that a reader takes for the same subtree. */
  predicate Alike(s: Slot, t: Slot) {
    (s.Empty? <==> t.Empty?) && TreeOf(s) == TreeOf(t)
  }

  /** A read goes the same way through the batches as they are and as they should be. */
  lemma {:induction false} ReadsAlike(nodes: Nodes, root: Slot, other: Slot, key: Key, batch: seq<Slot>, mended: seq<Slot>,
                                      index: nat, height: nat)
    requires Sound(nodes) && height <= TRIE_HEIGHT && Alike(root, other)
    requires height % 4 != 0 ==> |batch| == BATCH_LEN && OnLevel(index, height % 4) && mended == Mended(batch)
    ensures GetNode(nodes, root, key, batch, index, height) == GetNode(MendedStore(nodes), other, key, mended, index, height)
    decreases height
  {
    hide Mended, BitIsSet, IsBatch, OnLevel, LoadChildren, Sound, MendedStore, GetNode;
    GetNodeEnds(nodes, root, key, batch, index, height);
    GetNodeEnds(MendedStore(nodes), other, key, mended, index, height);
    if !root.Empty? {
      LoadsAlike(nodes, root, other, batch, mended, index, height);
      var a, b := LoadChildren(nodes, root, height, index, batch), LoadChildren(MendedStore(nodes), other, height, index, mended);
      if a.Loaded? && !a.isShortcut && height > 0 {
        NextLevel(a.index, height);
        GetNodeDown(nodes, root, key, batch, index, height, a);
        GetNodeDown(MendedStore(nodes), other, key, mended, index, height, b);
        ReadsAlike(nodes, a.left, b.left, key, a.batch, b.batch, 2 * a.index + 1, height - 1);
        ReadsAlike(nodes, a.right, b.right, key, a.batch, b.batch, 2 * a.index + 2, height - 1);
      }
    }
  }

  lemma NextLevel(i: nat, height: nat)
    requires height > 0 && OnLevel(i, Levels(height))
    ensures (height - 1) % 4 != 0 ==> OnLevel(2 * i + 1, (height - 1) % 4) && OnLevel(2 * i + 2, (height - 1) % 4)
  {
  }

  /** Where get ends. */
  function EndOf(a: Loaded, key: Key): Read<Option<Word>> {
    if a.Missing? then Unavailable
    else if !a.isShortcut || a.left.Empty? then Panicked
    else if TreeOf(a.left) != Bytes(key) then Found(None)
    else if a.right.Empty? then Panicked
    else Found(Some(TreeOf(a.right)))
  }

  lemma GetNodeEnds(nodes: Nodes, root: Slot, key: Key, batch: seq<Slot>, index: nat, height: nat)
    requires height <= TRIE_HEIGHT && (height % 4 != 0 ==> |batch| == BATCH_LEN && OnLevel(index, height % 4))
    ensures root.Empty? ==> GetNode(nodes, root, key, batch, index, height) == Found(None)
    ensures var a := LoadChildren(nodes, root, height, index, batch);
            !root.Empty? && (a.Missing? || a.isShortcut || height == 0) ==>
              GetNode(nodes, root, key, batch, index, height) == EndOf(a, key)
  {
    hide LoadChildren, BitIsSet;
  }

  lemma GetNodeDown(nodes: Nodes, root: Slot, key: Key, batch: seq<Slot>, index: nat, height: nat, a: Loaded)
    requires height <= TRIE_HEIGHT && (height % 4 != 0 ==> |batch| == BATCH_LEN && OnLevel(index, height % 4))
    requires !root.Empty? && a == LoadChildren(nodes, root, height, index, batch) && a.Loaded? && !a.isShortcut && height > 0
    requires (height - 1) % 4 != 0 ==> OnLevel(2 * a.index + 1, (height - 1) % 4) && OnLevel(2 * a.index + 2, (height - 1) % 4)
    ensures GetNode(nodes, root, key, batch, index, height)
            == if BitIsSet(key, TRIE_HEIGHT - height) then GetNode(nodes, a.right, key, a.batch, 2 * a.index + 2, height - 1)
               else GetNode(nodes, a.left, key, a.batch, 2 * a.index + 1, height - 1)
  {
    hide LoadChildren, BitIsSet;
  }

  lemma LoadsAlike(nodes: Nodes, root: Slot, other: Slot, batch: seq<Slot>, mended: seq<Slot>, index: nat, height: nat)
    requires Sound(nodes) && height <= TRIE_HEIGHT && Alike(root, other) && !root.Empty?
    requires height % 4 != 0 ==> |batch| == BATCH_LEN && OnLevel(index, height % 4) && mended == Mended(batch)
    ensures var a := LoadChildren(nodes, root, height, index, batch);
            var b := LoadChildren(MendedStore(nodes), other, height, index, mended);
            && (a.Missing? <==> b.Missing?)
            && (a.Loaded? ==>
                 && |a.batch| == BATCH_LEN && b.batch == Mended(a.batch) && b.index == a.index && OnLevel(a.index, Levels(height))
                 && (a.isShortcut <==> b.isShortcut) && Alike(a.left, b.left) && Alike(a.right, b.right))
  {
    hide Mended, IsBatch;
    if height % 4 == 0 {
      var d := TreeOf(root);
      if d in nodes {
        MendedAlike(nodes[d], 1);
        MendedAlike(nodes[d], 2);
      }
    } else {
      MendedAlike(batch, 2 * index + 1);
      MendedAlike(batch, 2 * index + 2);
    }
  }

  lemma MendedAlike(b: seq<Slot>, i: nat)
    requires |b| == BATCH_LEN && i < BATCH_LEN
    ensures Alike(b[i], Mended(b)[i])
  {
    hide Mended;
    MendedSeen(b, i);
  }

  /** With sound batches, all of them there, every key is answered as the map answers it. */
  lemma SoundReads(nodes: Nodes, d: Word, key: Key)
    requires Sound(nodes) && Canonical(d, []) && !d.Default? && Available(nodes, d, TRIE_HEIGHT)
    ensures GetNode(nodes, Bare(d), key, [], 0, TRIE_HEIGHT) == Found(MapGet(MapOf(d), key))
  {
    hide Mended, IsBatch, GetNode, MapOf, Available, BitIsSet;
    var store := MendedStore(nodes);
    assert Coherent(store) && nodes.Keys <= store.Keys;
    CanonicalShaped(d, []);
    RootIs(d);
    AvailableAlike(nodes, store, d, TRIE_HEIGHT);
    ReadsAlike(nodes, Bare(d), Bare(d), key, [], [], 0, TRIE_HEIGHT);
    GetNodeFinds(store, Bare(d), key, [], 0, TRIE_HEIGHT);
    LookupIsMapGet(d, key, []);
  }

  lemma RootIs(d: Word)
    requires Canonical(d, []) && !d.Default?
    ensures d.Leaf? || d.Node?
  {
  }

  lemma AvailableAlike(nodes: Nodes, store: Nodes, d: Word, height: nat)
    requires Available(nodes, d, height) && nodes.Keys <= store.Keys
    ensures Available(store, d, height)
  {
    StillAvailable(nodes, store, d, height);
  }
}
