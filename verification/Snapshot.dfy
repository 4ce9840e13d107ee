/**
 SnapShot: the flag-driven walk over the batches of a committed trie, and the copy it makes.
 */
module Snapshot {
  import opened Keys
  import opened Trie
  import opened TreeUpdate
  import opened Batch
  import opened Reads
  import opened Smt
  import opened Sync
  import opened FastSync

  /** The digests under which the batches of a subtree are stored. */
  function BatchRoots(d: Word, height: nat): set<Word>
    requires Shaped(d, height)
  {
    match d
    case Leaf(_, _, _) => if height % 4 == 0 then {d} else {}
    case Node(l, r) => (if height % 4 == 0 then {d} else {}) + BatchRoots(l, height - 1) + BatchRoots(r, height - 1)
    case _ => {}
  }

  lemma {:induction false} AvailableIsRoots(nodes: Nodes, d: Word, height: nat)
    requires Shaped(d, height)
    ensures Available(nodes, d, height) <==> BatchRoots(d, height) <= nodes.Keys
    decreases d
  {
    if d.Node? {
      AvailableIsRoots(nodes, d.left, height - 1);
      AvailableIsRoots(nodes, d.right, height - 1);
    }
  }

  // ----- the bottom slots of a batch

  /** The words of slots lo..hi flagged 0 (interior) or 1 (shortcut); flag 2 is data. */
  function Flagged(b: seq<Slot>, lo: nat, hi: nat): seq<Word>
    requires lo <= hi <= |b|
    decreases hi
  {
    if lo == hi then [] else Flagged(b, lo, hi - 1) + SubRoot(b[hi - 1])
  }

  function SubRoot(s: Slot): seq<Word> {
    if s.Entry? && s.flag <= 1 then [s.word] else []
  }

  lemma {:induction false} FlaggedConcat(b: seq<Slot>, lo: nat, mid: nat, hi: nat)
    requires lo <= mid <= hi <= |b|
    ensures Flagged(b, lo, hi) == Flagged(b, lo, mid) + Flagged(b, mid, hi)
    decreases hi
  {
    if mid < hi {
      FlaggedConcat(b, lo, mid, hi - 1);
    }
  }

  /** What a slot shows `n` levels down. */
  function SlotFrontier(s: Slot, n: nat): seq<Word>
    decreases n
  {
    if n == 0 then SubRoot(s) else SlotFrontier(Child(s, false), n - 1) + SlotFrontier(Child(s, true), n - 1)
  }

  function Pow2(n: nat): nat {
    if n == 0 then 1 else 2 * Pow2(n - 1)
  }

  /** The bottom slots below index i, n levels down. */
  function FirstBelow(i: nat, n: nat): nat
    decreases n
  {
    if n == 0 then i else FirstBelow(2 * i + 1, n - 1)
  }

  lemma {:induction false} FirstBelowAt(i: nat, n: nat)
    ensures FirstBelow(i, n) + 1 == (i + 1) * Pow2(n)
    decreases n
  {
    if n > 0 {
      FirstBelowAt(2 * i + 1, n - 1);
    }
  }

  lemma BelowSides(i: nat, n: nat)
    requires n > 0
    ensures FirstBelow(i, n) == FirstBelow(2 * i + 1, n - 1)
    ensures FirstBelow(2 * i + 2, n - 1) == FirstBelow(i, n) + Pow2(n - 1)
    ensures Pow2(n) == 2 * Pow2(n - 1)
  {
    var p := Pow2(n - 1);
    FirstBelowAt(2 * i + 1, n - 1);
    FirstBelowAt(2 * i + 2, n - 1);
    assert (2 * i + 3) * p == (2 * i + 2) * p + p;
  }

  lemma {:induction false} BottomSlots(b: seq<Slot>, i: nat, n: nat, s: Slot)
    requires |b| == BATCH_LEN && OnLevel(i, n) && Holds(b, i, n, s) && (n == 0 ==> b[i] == s)
    ensures FirstBelow(i, n) + Pow2(n) <= BATCH_LEN
    ensures Flagged(b, FirstBelow(i, n), FirstBelow(i, n) + Pow2(n)) == SlotFrontier(s, n)
    decreases n
  {
    hide Holds, Child, Flagged, FirstBelow, Pow2, SubRoot;
    if n == 0 {
      BottomSlot(b, i);
    } else {
      HoldsElim(b, i, n, s);
      BelowSides(i, n);
      BottomSlots(b, 2 * i + 1, n - 1, Child(s, false));
      BottomSlots(b, 2 * i + 2, n - 1, Child(s, true));
      var lo := FirstBelow(i, n);
      FlaggedConcat(b, lo, lo + Pow2(n - 1), lo + Pow2(n));
    }
  }

  lemma BottomSlot(b: seq<Slot>, i: nat)
    requires i < |b|
    ensures FirstBelow(i, 0) == i && Pow2(0) == 1 && Flagged(b, i, i + 1) == SubRoot(b[i])
  {
    assert Flagged(b, i, i) == [];
  }

  lemma {:induction false} NothingShown(s: Slot, n: nat)
    requires s.Empty? || (s.Entry? && s.flag == 2)
    ensures SlotFrontier(s, n) == []
    decreases n
  {
    if n > 0 {
      NothingShown(Child(s, false), n - 1);
      NothingShown(Child(s, true), n - 1);
    }
  }

  lemma {:induction false} SlotFrontierIs(d: Word, n: nat, height: nat)
    requires Shaped(d, height)
    ensures SlotFrontier(SlotOf(d), n) == Frontier(d, n)
    decreases n
  {
    if n > 0 {
      if d.Node? {
        SlotFrontierIs(d.left, n - 1, height - 1);
        SlotFrontierIs(d.right, n - 1, height - 1);
      } else {
        NothingShown(Child(SlotOf(d), false), n - 1);
        NothingShown(Child(SlotOf(d), true), n - 1);
      }
    }
  }

  /** The flagged slots 15..30 of a batch are exactly the roots of the batches below it. */
  lemma BottomIsFrontier(b: seq<Slot>, d: Word, height: nat)
    requires IsBatch(b, d) && Shaped(d, height)
    ensures Flagged(b, 15, 31) == Frontier(d, 4)
  {
    hide Flagged, SlotFrontier, Frontier, Shaped, SlotOf;
    BottomSlots(b, 0, 4, SlotOf(d));
    SlotFrontierIs(d, 4, height);
    FirstBelowAt(0, 4);
    assert Pow2(4) == 16;
  }

  lemma {:induction false} FrontierShaped(d: Word, n: nat, height: nat)
    requires Shaped(d, height) && n <= height
    ensures forall x :: x in Frontier(d, n) ==>
              !x.Default? && Shaped(x, height - n) && BatchRoots(x, height - n) <= BatchRoots(d, height)
    decreases n
  {
    if n > 0 && d.Node? {
      FrontierShaped(d.left, n - 1, height - 1);
      FrontierShaped(d.right, n - 1, height - 1);
    }
  }

  // ----- the walk

  /** The words of slots lo..hi with the flag `f`. */
  function FlaggedAs(b: seq<Slot>, lo: nat, hi: nat, f: nat): seq<Word>
    requires lo <= hi <= |b|
    decreases hi
  {
    if lo == hi then []
    else FlaggedAs(b, lo, hi - 1, f) + if b[hi - 1].Entry? && b[hi - 1].flag == f then [b[hi - 1].word] else []
  }

  lemma {:induction false} FlaggedSplit(b: seq<Slot>, lo: nat, hi: nat)
    requires lo <= hi <= |b|
    ensures forall x :: x in Flagged(b, lo, hi) <==> x in FlaggedAs(b, lo, hi, 0) || x in FlaggedAs(b, lo, hi, 1)
    decreases hi
  {
    if lo < hi {
      FlaggedSplit(b, lo, hi - 1);
    }
  }

  lemma {:induction false} FlaggedWork(b: seq<Slot>, lo: nat, hi: nat)
    requires lo <= hi <= |b|
    ensures Work(FlaggedAs(b, lo, hi, 0)) <= Work(Flagged(b, lo, hi))
    decreases hi
  {
    hide Work;
    if lo < hi {
      FlaggedWork(b, lo, hi - 1);
      var s := b[hi - 1];
      WorkConcat(FlaggedAs(b, lo, hi - 1, 0), if s.Entry? && s.flag == 0 then [s.word] else []);
      WorkConcat(Flagged(b, lo, hi - 1), SubRoot(s));
      NoWork();
    }
  }

  lemma NoWork()
    ensures Work([]) == 0
  {
  }

  lemma {:induction false} FlagsTell(b: seq<Slot>, i: nat, n: nat, s: Slot)
    requires |b| == BATCH_LEN && OnLevel(i, n) && Holds(b, i, n, s)
    ensures forall j :: 0 <= j < BATCH_LEN && Below(i, j) && b[j].Entry? ==>
              (b[j].flag == 0 ==> b[j].word.Node?) && (b[j].flag == 1 ==> b[j].word.Leaf?)
    decreases n
  {
    hide Below;
    if n > 0 {
      FlagsTell(b, 2 * i + 1, n - 1, Child(s, false));
      FlagsTell(b, 2 * i + 2, n - 1, Child(s, true));
    }
    forall j | 0 <= j < BATCH_LEN && Below(i, j)
      ensures b[j].Entry? ==> (b[j].flag == 0 ==> b[j].word.Node?) && (b[j].flag == 1 ==> b[j].word.Leaf?)
    {
      BelowSplit(i, n, j);
    }
  }

  lemma {:induction false} FlaggedKinds(b: seq<Slot>, hi: nat)
    requires |b| == BATCH_LEN && 15 <= hi <= BATCH_LEN
    requires forall j :: 0 <= j < BATCH_LEN && Below(0, j) && b[j].Entry? ==>
              (b[j].flag == 0 ==> b[j].word.Node?) && (b[j].flag == 1 ==> b[j].word.Leaf?)
    ensures forall x :: x in FlaggedAs(b, 15, hi, 0) ==> x.Node?
    ensures forall x :: x in FlaggedAs(b, 15, hi, 1) ==> x.Leaf?
  {
    if hi > 15 {
      FlaggedKinds(b, hi - 1);
      assert Below(0, hi - 1);
    }
  }

  /** What one walker finds in a batch: the walks to start, and the shortcut batches to report. */
  lemma WalkerFinds(b: seq<Slot>, d: Word, height: nat)
    requires IsBatch(b, d) && Shaped(d, height)
    ensures forall x :: x in Frontier(d, 4) <==> x in FlaggedAs(b, 15, 31, 0) || x in FlaggedAs(b, 15, 31, 1)
    ensures forall x :: x in FlaggedAs(b, 15, 31, 0) ==> x.Node?
    ensures forall x :: x in FlaggedAs(b, 15, 31, 1) ==> x.Leaf?
    ensures Work(FlaggedAs(b, 15, 31, 0)) < Size(d)
  {
    hide Holds, Flagged, FlaggedAs, Frontier, Work;
    BottomIsFrontier(b, d, height);
    FlaggedSplit(b, 15, 31);
    FlaggedWork(b, 15, 31);
    FlagsTell(b, 0, 4, SlotOf(d));
    FlaggedKinds(b, 31);
    FrontierWork(d, 4);
  }

  ghost predicate Copies(kept: Nodes, nodes: Nodes) {
    forall x :: x in kept ==> x in nodes && kept[x] == nodes[x]
  }

  /** The slots 15..30 of one batch, as walkNodes and walk go through them. */
  method ScanBottom(nodes: Nodes, b: seq<Slot>, kept: Nodes) returns (more: Nodes, subs: seq<Word>)
    requires |b| == BATCH_LEN && Copies(kept, nodes)
    requires forall x :: x in FlaggedAs(b, 15, 31, 1) ==> x in nodes
    ensures subs == FlaggedAs(b, 15, 31, 0)
    ensures Copies(more, nodes) && more.Keys == kept.Keys + (set x | x in FlaggedAs(b, 15, 31, 1))
  {
    more, subs := kept, [];
    for i := 15 to BATCH_LEN
      invariant subs == FlaggedAs(b, 15, i, 0)
      invariant Copies(more, nodes) && more.Keys == kept.Keys + (set x | x in FlaggedAs(b, 15, i, 1))
    {
      if b[i].Entry? {
        if b[i].flag == 0 {
          subs := subs + [b[i].word];
        }
        if b[i].flag == 1 {
          FlaggedGrows(b, i + 1, 31);
          assert b[i].word in FlaggedAs(b, 15, i + 1, 1);
          more := more[b[i].word := nodes[b[i].word]];
        }
      }
    }
  }

  lemma {:induction false} FlaggedGrows(b: seq<Slot>, mid: nat, hi: nat)
    requires 15 <= mid <= hi <= |b|
    ensures forall x :: x in FlaggedAs(b, 15, mid, 1) ==> x in FlaggedAs(b, 15, hi, 1)
    decreases hi
  {
    if mid < hi {
      FlaggedGrows(b, mid, hi - 1);
    }
  }

  /** A batch on the walk: it is stored, and leads only to batches of the trie. */
  ghost predicate InWalk(nodes: Nodes, root: Word, a: Ask)
    requires Shaped(root, TRIE_HEIGHT)
  {
    && 4 * a.layer <= TRIE_HEIGHT
    && var h := TRIE_HEIGHT - 4 * a.layer;
       && (a.digest.Leaf? || a.digest.Node?) && Shaped(a.digest, h) && Available(nodes, a.digest, h)
       && BatchRoots(a.digest, h) <= BatchRoots(root, TRIE_HEIGHT)
  }

  lemma WalkGoesOn(nodes: Nodes, root: Word, a: Ask)
    requires Coherent(nodes) && Shaped(root, TRIE_HEIGHT) && InWalk(nodes, root, a)
    ensures a.digest in nodes && IsBatch(nodes[a.digest], a.digest) && a.digest in BatchRoots(root, TRIE_HEIGHT)
    ensures a.digest.Node? ==> 4 * a.layer < TRIE_HEIGHT
    ensures forall x :: x in Frontier(a.digest, 4) ==>
              InWalk(nodes, root, Ask(x, a.layer + 1)) && x in nodes && x in BatchRoots(root, TRIE_HEIGHT)
  {
    hide Frontier, Available, BatchRoots, Holds;
    var h := TRIE_HEIGHT - 4 * a.layer;
    OwnRoot(a.digest, h);
    AvailableIsRoots(nodes, a.digest, h);
    if a.digest.Node? {
      FrontierShaped(a.digest, 4, h);
      forall x | x in Frontier(a.digest, 4)
        ensures InWalk(nodes, root, Ask(x, a.layer + 1)) && x in nodes && x in BatchRoots(root, TRIE_HEIGHT)
      {
        AvailableIsRoots(nodes, x, h - 4);
        OwnRoot(x, h - 4);
      }
    } else {
      ShortcutFrontier(a.digest);
    }
  }

  lemma WalkShaped(nodes: Nodes, root: Word, a: Ask)
    requires Shaped(root, TRIE_HEIGHT) && InWalk(nodes, root, a)
    ensures 4 * a.layer <= TRIE_HEIGHT && Shaped(a.digest, TRIE_HEIGHT - 4 * a.layer)
  {
  }

  lemma OwnRoot(d: Word, height: nat)
    requires height % 4 == 0 && Shaped(d, height) && !d.Default?
    ensures d in BatchRoots(d, height) && (d.Leaf? || d.Node?) && (d.Node? ==> height > 0)
  {
  }

  /** walkNodes reports exactly the batches of the trie, whatever order the walkers run in. */
  method WalkNodes(nodes: Nodes, root: Word) returns (kept: Nodes)
    requires Coherent(nodes) && (root.Leaf? || root.Node?) && Shaped(root, TRIE_HEIGHT) && Available(nodes, root, TRIE_HEIGHT)
    ensures kept.Keys == BatchRoots(root, TRIE_HEIGHT) && Copies(kept, nodes)
  {
    hide Available, BatchRoots, Covered, IsBatch, FlaggedAs, Frontier, Size, Work, Digests, Shaped, Asks, AsksFor, InWalk, Coherent;
    kept := map[];
    var pending := [Ask(root, 0)];
    WalkStart(nodes, root);
    while pending != []
      invariant forall a :: a in pending ==> InWalk(nodes, root, a)
      invariant Copies(kept, nodes) && kept.Keys <= BatchRoots(root, TRIE_HEIGHT)
      invariant Covered(kept, pending, root, TRIE_HEIGHT)
      decreases Work(Digests(pending))
    {
      var k :| 0 <= k < |pending|;
      var a := pending[k];
      WalkGoesOn(nodes, root, a);
      WalkShaped(nodes, root, a);
      var b := nodes[a.digest];
      assert |b| == BATCH_LEN by { BatchIsLong(b, a.digest); }
      WalkerFinds(b, a.digest, TRIE_HEIGHT - 4 * a.layer);
      ghost var before, was := kept, pending;
      var subs;
      kept, subs := ScanBottom(nodes, b, kept[a.digest := b]);
      pending := pending[..k] + pending[k + 1..] + Asks(subs, a.layer + 1);
      PendingSums(was, k, subs, a.layer + 1);
      PendingStep(was, k, pending, subs, a.layer + 1);
      AllFollowed(b, a, kept, pending, subs);
      CoveredStep(before, was, kept, pending, a, root, TRIE_HEIGHT);
    }
    NothingPending(kept, root, TRIE_HEIGHT);
    AvailableIsRoots(kept, root, TRIE_HEIGHT);
  }

  lemma AllFollowed(b: seq<Slot>, a: Ask, kept: Nodes, pending: seq<Ask>, subs: seq<Word>)
    requires |b| == BATCH_LEN && subs == FlaggedAs(b, 15, 31, 0)
    requires forall x :: x in Frontier(a.digest, 4) <==> x in FlaggedAs(b, 15, 31, 0) || x in FlaggedAs(b, 15, 31, 1)
    requires forall x :: x in FlaggedAs(b, 15, 31, 1) ==> x.Leaf? && x in kept
    requires forall i :: 0 <= i < |subs| ==> Ask(subs[i], a.layer + 1) in pending
    ensures AsksFor(kept, pending, Frontier(a.digest, 4), a.layer + 1)
  {
    hide Frontier, FlaggedAs;
    var f := Frontier(a.digest, 4);
    forall i | 0 <= i < |f|
      ensures Ask(f[i], a.layer + 1) in pending || (f[i].Leaf? && f[i] in kept)
    {
      assert f[i] in f;
    }
  }

  lemma WalkStart(nodes: Nodes, root: Word)
    requires (root.Leaf? || root.Node?) && Shaped(root, TRIE_HEIGHT) && Available(nodes, root, TRIE_HEIGHT)
    ensures InWalk(nodes, root, Ask(root, 0)) && Covered(map[], [Ask(root, 0)], root, TRIE_HEIGHT)
  {
  }

  /**
   SnapShot of a committed, non-empty trie into another prefix: exactly its batches are
   added there, its root becomes the version of the last commit, and the copy reads alike.
   */
  method SnapShot(smt: SMT, target: Database) returns (copy: SMT)
    requires smt.Valid() && smt.root.Bare? && Reachable(smt.db.nodes, smt.root)
    requires target.Valid() && target != smt.db
    modifies target
    ensures target.Valid()
    ensures target.nodes.Keys == old(target.nodes).Keys + BatchRoots(TreeOf(smt.root), TRIE_HEIGHT)
    ensures target.roots == old(target.roots)[smt.db.commitHeight := smt.root]
    ensures target.commitHeight == smt.db.commitHeight
    ensures fresh(copy) && copy.db == target && copy.root == smt.root && copy.prevRoot == smt.prevRoot && copy.updatedNodes == map[]
    ensures Reachable(copy.View(), copy.root)
    ensures smt.prevRoot == Empty || smt.prevRoot == smt.root ==> copy.Valid()
  {
    hide Available, BatchRoots, Shaped, IsBatch;
    var root := smt.root.word;
    var kept := WalkNodes(smt.db.nodes, root);
    ghost var before := target.nodes;
    target.PutAll(kept);
    AvailableIsRoots(target.nodes, root, TRIE_HEIGHT);
    forall h | h in target.roots
      ensures Reachable(target.nodes, target.roots[h])
    {
      StillReachable(before, target.nodes, target.roots[h]);
    }
    target.roots := target.roots[smt.db.commitHeight := smt.root];
    target.commitHeight := smt.db.commitHeight;
    copy := new SMT(target, smt.root);
    copy.prevRoot := smt.prevRoot;
    StillReachable(target.nodes, copy.View(), copy.root);
    EmptyReachable(target.nodes);
  }

  /** A snapshot, opened at the height that its database has on record, reads as the trie it was taken of. */
  method SnapShotOpens(smt: SMT, target: Database, key: Key) returns (reopened: Option<SMT>, value: Option<Word>)
    requires smt.Valid() && smt.root.Bare? && Reachable(smt.db.nodes, smt.root)
    requires target.Valid() && target != smt.db
    modifies target
    ensures target.Valid()
    ensures reopened.Some? && reopened.value.Valid() && reopened.value.db == target && reopened.value.root == smt.root
    ensures value == Lookup(TreeOf(smt.root), key, TRIE_HEIGHT)
    ensures Canonical(TreeOf(smt.root), []) ==> value == MapGet(MapOf(TreeOf(smt.root)), key)
  {
    hide Available, BatchRoots, Shaped, IsBatch, Lookup, Canonical, MapOf, MapGet;
    var _ := SnapShot(smt, target);
    reopened := SMT.OpenAt(target, target.commitHeight);
    value := reopened.value.Get(key);
  }

  /** A snapshot of a snapshot is a snapshot of the trie: the same batches, the same root, on record for the same height. */
  method SnapShotTwice(smt: SMT, target: Database, third: Database) returns (copy: SMT)
    requires smt.Valid() && smt.root.Bare? && Reachable(smt.db.nodes, smt.root)
    requires smt.prevRoot == Empty || smt.prevRoot == smt.root
    requires target.Valid() && third.Valid() && target != smt.db && third != smt.db && third != target
    modifies target, third
    ensures target.Valid() && third.Valid()
    ensures third.nodes.Keys == old(third.nodes).Keys + BatchRoots(TreeOf(smt.root), TRIE_HEIGHT)
    ensures third.roots == old(third.roots)[smt.db.commitHeight := smt.root]
    ensures third.commitHeight == smt.db.commitHeight
    ensures copy.Valid() && copy.db == third && copy.root == smt.root && copy.prevRoot == smt.prevRoot
  {
    hide Available, BatchRoots, Shaped, IsBatch;
    var first := SnapShot(smt, target);
    assert target.roots[smt.db.commitHeight] == first.root;
    copy := SnapShot(first, third);
  }

  lemma EmptyReachable(nodes: Nodes)
    ensures Reachable(nodes, Empty)
  {
  }
}
