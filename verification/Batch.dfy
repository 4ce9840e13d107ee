/**
 The storage layout: four levels of the trie in one heap-indexed batch of 31 slots.
 */
module Batch {
  import opened Trie
  import opened TreeUpdate

  /**
   The byte strings kept in a batch and passed between its functions: an absent one, a
   32-byte word with its flag byte (0 interior node, 1 shortcut, 2 key or value), a bare
   32-byte root, or the one-byte marker of slot 0.
   */
  datatype Slot = Empty | Entry(word: Word, flag: nat) | Bare(word: Word) | Marker(flag: nat)

  const BATCH_LEN := 31

  function SlotOf(d: Word): Slot {
    match d
    case Leaf(_, _, _) => Entry(d, 1)
    case Node(_, _) => Entry(d, 0)
    case _ => Empty
  }

  /** The slot of a child in heap order, below the slot of its parent. */
  function Child(s: Slot, side: bool): Slot {
    match s
    case Entry(Leaf(k, v, _), 1) => Entry(if side then v else k, 2)
    case Entry(Node(l, r), 0) => SlotOf(if side then r else l)
    case _ => Empty
  }

  /** Index `i` lies on the level that has `n` more levels below it in the batch. */
  predicate OnLevel(i: nat, n: nat) {
    match n
    case 0 => 15 <= i <= 30
    case 1 => 7 <= i <= 14
    case 2 => 3 <= i <= 6
    case 3 => 1 <= i <= 2
    case 4 => i == 0
    case _ => false
  }

  /** `j` is a strict heap descendant of `i`. */
  predicate Below(i: nat, j: nat) {
    || 2 * i + 1 <= j <= 2 * i + 2
    || 4 * i + 3 <= j <= 4 * i + 6
    || 8 * i + 7 <= j <= 8 * i + 14
    || 16 * i + 15 <= j <= 16 * i + 30
  }

  /** The `n` levels below index `i` hold exactly what belongs below slot `s`. */
  predicate Holds(b: seq<Slot>, i: nat, n: nat, s: Slot)
    requires |b| == BATCH_LEN && OnLevel(i, n)
    decreases n
  {
    n > 0 ==>
      && b[2 * i + 1] == Child(s, false) && b[2 * i + 2] == Child(s, true)
      && Holds(b, 2 * i + 1, n - 1, Child(s, false))
      && Holds(b, 2 * i + 2, n - 1, Child(s, true))
  }

  /** `b` is the batch stored under the digest `d`; it determines all 31 slots. */
  predicate IsBatch(b: seq<Slot>, d: Word) {
    && |b| == BATCH_LEN
    && (d.Leaf? || d.Node?)
    && b[0] == Marker(if d.Leaf? then 1 else 0)
    && Holds(b, 0, 4, SlotOf(d))
  }

  lemma BatchIsLong(b: seq<Slot>, d: Word)
    requires IsBatch(b, d)
    ensures |b| == BATCH_LEN && (d.Leaf? || d.Node?)
  {
  }

  lemma BelowSplit(i: nat, n: nat, j: nat)
    requires j < BATCH_LEN && OnLevel(i, n)
    ensures Below(i, j) <==> n > 0 && (j == 2 * i + 1 || j == 2 * i + 2 || Below(2 * i + 1, j) || Below(2 * i + 2, j))
  {
  }

  lemma {:induction false} HoldsFrame(b: seq<Slot>, c: seq<Slot>, i: nat, n: nat, s: Slot)
    requires |b| == BATCH_LEN && |c| == BATCH_LEN && OnLevel(i, n)
    requires forall j :: 0 <= j < BATCH_LEN && Below(i, j) ==> b[j] == c[j]
    requires Holds(b, i, n, s)
    ensures Holds(c, i, n, s)
    decreases n
  {
    hide Child, Below;
    if n > 0 {
      forall j | 0 <= j < BATCH_LEN
        ensures j == 2 * i + 1 || j == 2 * i + 2 || Below(2 * i + 1, j) || Below(2 * i + 2, j) ==> Below(i, j)
      {
        BelowSplit(i, n, j);
      }
      HoldsFrame(b, c, 2 * i + 1, n - 1, Child(s, false));
      HoldsFrame(b, c, 2 * i + 2, n - 1, Child(s, true));
    }
  }

  /** Two batches that hold the same below an index agree on every slot below it. */
  lemma {:induction false} HoldsUnique(b: seq<Slot>, c: seq<Slot>, i: nat, n: nat, s: Slot)
    requires |b| == BATCH_LEN && |c| == BATCH_LEN && OnLevel(i, n)
    requires Holds(b, i, n, s) && Holds(c, i, n, s)
    ensures forall j :: 0 <= j < BATCH_LEN && Below(i, j) ==> b[j] == c[j]
    decreases n
  {
    hide Child, Below;
    if n > 0 {
      HoldsUnique(b, c, 2 * i + 1, n - 1, Child(s, false));
      HoldsUnique(b, c, 2 * i + 2, n - 1, Child(s, true));
    }
    forall j | 0 <= j < BATCH_LEN && Below(i, j)
      ensures b[j] == c[j]
    {
      BelowSplit(i, n, j);
    }
  }

  lemma HoldsIntro(b: seq<Slot>, i: nat, n: nat, s: Slot)
    requires |b| == BATCH_LEN && OnLevel(i, n) && n > 0
    requires b[2 * i + 1] == Child(s, false) && b[2 * i + 2] == Child(s, true)
    requires Holds(b, 2 * i + 1, n - 1, Child(s, false)) && Holds(b, 2 * i + 2, n - 1, Child(s, true))
    ensures Holds(b, i, n, s)
  {
  }

  lemma HoldsElim(b: seq<Slot>, i: nat, n: nat, s: Slot)
    requires |b| == BATCH_LEN && OnLevel(i, n) && n > 0 && Holds(b, i, n, s)
    ensures 2 * i + 2 < BATCH_LEN && b[2 * i + 1] == Child(s, false) && b[2 * i + 2] == Child(s, true)
    ensures Holds(b, 2 * i + 1, n - 1, Child(s, false)) && Holds(b, 2 * i + 2, n - 1, Child(s, true))
    ensures Child(s, false).Empty? && Child(s, true).Empty? ==> Holds(b, i, n, Empty)
  {
  }

  lemma HoldsBottom(b: seq<Slot>, i: nat, s: Slot)
    requires |b| == BATCH_LEN && OnLevel(i, 0)
    ensures Holds(b, i, 0, s)
  {
  }

  /** Nothing belongs below a key or a value, as below an empty slot. */
  lemma HoldsNothing(b: seq<Slot>, i: nat, n: nat, s: Slot, t: Slot)
    requires |b| == BATCH_LEN && OnLevel(i, n) && Holds(b, i, n, s)
    requires s.Empty? || (s.Entry? && s.flag == 2)
    requires t.Empty? || (t.Entry? && t.flag == 2)
    ensures Holds(b, i, n, t)
  {
  }

  lemma EmptyChildren(b: seq<Slot>, i: nat, n: nat, l: Slot, r: Slot)
    requires |b| == BATCH_LEN && OnLevel(i, n) && n > 0 && Holds(b, i, n, Empty)
    requires l.Empty? || (l.Entry? && l.flag == 2)
    requires r.Empty? || (r.Entry? && r.flag == 2)
    ensures Holds(b, 2 * i + 1, n - 1, l) && Holds(b, 2 * i + 2, n - 1, r)
    ensures b[2 * i + 1] == b[2 * i + 2] == Empty
  {
    hide Holds;
    HoldsElim(b, i, n, Empty);
    HoldsNothing(b, 2 * i + 1, n - 1, Empty, l);
    HoldsNothing(b, 2 * i + 2, n - 1, Empty, r);
  }

  /** Writing the two child slots of a node whose children already hold what is below them. */
  lemma HoldsPair(was: seq<Slot>, now: seq<Slot>, i: nat, n: nat, s: Slot)
    requires |was| == BATCH_LEN && |now| == BATCH_LEN && OnLevel(i, n) && n > 0
    requires Holds(was, 2 * i + 1, n - 1, Child(s, false)) && Holds(was, 2 * i + 2, n - 1, Child(s, true))
    requires now[2 * i + 1] == Child(s, false) && now[2 * i + 2] == Child(s, true)
    requires forall j :: 0 <= j < BATCH_LEN && Below(2 * i + 1, j) ==> was[j] == now[j]
    requires forall j :: 0 <= j < BATCH_LEN && Below(2 * i + 2, j) ==> was[j] == now[j]
    ensures Holds(now, i, n, s)
  {
    hide Child, Below, Holds;
    HoldsFrame(was, now, 2 * i + 1, n - 1, Child(s, false));
    HoldsFrame(was, now, 2 * i + 2, n - 1, Child(s, true));
    HoldsIntro(now, i, n, s);
  }

  /** Only slots strictly below index `i` differ. */
  predicate SameOutside(was: seq<Slot>, now: seq<Slot>, i: nat)
    requires |was| == BATCH_LEN && |now| == BATCH_LEN
  {
    forall j :: 0 <= j < BATCH_LEN && !Below(i, j) ==> was[j] == now[j]
  }

  /** A change below one child leaves its own slot, its sibling and what is below that alone. */
  lemma SiblingKept(was: seq<Slot>, now: seq<Slot>, i: nat, n: nat, side: bool, s: Slot)
    requires |was| == BATCH_LEN && |now| == BATCH_LEN && OnLevel(i, n) && n > 0
    requires SameOutside(was, now, if side then 2 * i + 2 else 2 * i + 1)
    ensures now[2 * i + 1] == was[2 * i + 1] && now[2 * i + 2] == was[2 * i + 2]
    ensures SameOutside(was, now, i)
    ensures var other := if side then 2 * i + 1 else 2 * i + 2;
            Holds(was, other, n - 1, s) ==> Holds(now, other, n - 1, s)
  {
    hide Holds;
    var other := if side then 2 * i + 1 else 2 * i + 2;
    forall j | 0 <= j < BATCH_LEN && Below(other, j)
      ensures was[j] == now[j]
    {
    }
    if Holds(was, other, n - 1, s) {
      HoldsFrame(was, now, other, n - 1, s);
    }
    forall j | 0 <= j < BATCH_LEN && !Below(i, j)
      ensures was[j] == now[j]
    {
      BelowSplit(i, n, j);
    }
  }

  lemma ShortcutChildren(b: seq<Slot>, i: nat, n: nat, s: Slot)
    requires |b| == BATCH_LEN && OnLevel(i, n) && n > 0
    requires Holds(b, i, n, s) && s.Entry? && s.word.Leaf? && s.flag == 1
    ensures b[2 * i + 1] == Entry(s.word.key, 2) && b[2 * i + 2] == Entry(s.word.value, 2)
    ensures Holds(b, 2 * i + 1, n - 1, Empty) && Holds(b, 2 * i + 2, n - 1, Empty)
  {
    hide Holds;
    HoldsElim(b, i, n, s);
    HoldsNothing(b, 2 * i + 1, n - 1, Entry(s.word.key, 2), Empty);
    HoldsNothing(b, 2 * i + 2, n - 1, Entry(s.word.value, 2), Empty);
  }

  /** Clearing the key and the value of a shortcut leaves nothing below it. */
  lemma HoldsCleared(was: seq<Slot>, now: seq<Slot>, i: nat, n: nat, s: Slot)
    requires |was| == BATCH_LEN && |now| == BATCH_LEN && OnLevel(i, n) && n > 0
    requires Holds(was, i, n, s) && s.Entry? && s.word.Leaf? && s.flag == 1
    requires now == was[2 * i + 1 := Empty][2 * i + 2 := Empty]
    ensures Holds(now, i, n, Empty)
    ensures SameOutside(was, now, i)
  {
    hide Holds;
    ShortcutChildren(was, i, n, s);
    HoldsPair(was, now, i, n, Empty);
  }

  /** Content addressing: the digest decides the batch. */
  lemma BatchUnique(b: seq<Slot>, c: seq<Slot>, d: Word)
    requires IsBatch(b, d) && IsBatch(c, d)
    ensures b == c
  {
    HoldsUnique(b, c, 0, 4, SlotOf(d));
    assert forall j :: 0 < j < BATCH_LEN ==> Below(0, j);
  }

  /** A shortcut batch uses slots 0, 1 and 2 only. */
  lemma ShortcutBatch(b: seq<Slot>, d: Word)
    requires IsBatch(b, d) && d.Leaf?
    ensures b[1] == Entry(d.key, 2) && b[2] == Entry(d.value, 2)
    ensures forall j :: 3 <= j < BATCH_LEN ==> b[j] == Empty
  {
    var c := NoSlots()[0 := Marker(1)][1 := Entry(d.key, 2)][2 := Entry(d.value, 2)];
    EmptyBelow(c, 1, 3);
    EmptyBelow(c, 2, 3);
    BatchUnique(b, c, d);
  }

  lemma {:induction false} EmptyBelow(b: seq<Slot>, i: nat, n: nat)
    requires |b| == BATCH_LEN && OnLevel(i, n)
    requires forall j :: 0 <= j < BATCH_LEN && Below(i, j) ==> b[j] == Empty
    ensures Holds(b, i, n, Empty)
    ensures forall w, f :: f > 1 ==> Holds(b, i, n, Entry(w, f))
    decreases n
  {
    if n > 0 {
      assert Below(i, 2 * i + 1) && Below(i, 2 * i + 2);
      EmptyBelow(b, 2 * i + 1, n - 1);
      EmptyBelow(b, 2 * i + 2, n - 1);
    }
  }

  // ----- the store: batches under their digests

  type Nodes = map<Word, seq<Slot>>

  predicate Coherent(nodes: Nodes) {
    forall d :: d in nodes ==> IsBatch(nodes[d], d)
  }

  /** Every batch that hangs below a subtree `d` at `height` is in the store. */
  predicate Available(nodes: Nodes, d: Word, height: nat) {
    match d
    case Leaf(_, _, _) => height % 4 == 0 ==> d in nodes
    case Node(l, r) =>
      && height > 0
      && (height % 4 == 0 ==> d in nodes)
      && Available(nodes, l, height - 1) && Available(nodes, r, height - 1)
    case _ => true
  }

  lemma {:induction false} AvailableGrows(nodes: Nodes, more: Nodes, d: Word, height: nat)
    requires nodes.Keys <= more.Keys && Available(nodes, d, height)
    ensures Available(more, d, height)
    decreases d
  {
    if d.Node? {
      AvailableGrows(nodes, more, d.left, height - 1);
      AvailableGrows(nodes, more, d.right, height - 1);
    }
  }

  lemma StillAvailable(nodes: Nodes, more: Nodes, d: Word, height: nat)
    requires nodes.Keys <= more.Keys
    ensures Available(nodes, d, height) ==> Available(more, d, height)
  {
    if Available(nodes, d, height) {
      AvailableGrows(nodes, more, d, height);
    }
  }

  lemma AvailableJoin(nodes: Nodes, l: Word, r: Word, deleted: bool, height: nat)
    requires height > 0 && Available(nodes, l, height - 1) && Available(nodes, r, height - 1)
    ensures var u := if deleted then Join(l, r, height) else Updated(Node(l, r), false);
            (height % 4 == 0 && !u.tree.Default? ==> u.tree in nodes) ==> Available(nodes, u.tree, height)
  {
  }

  /** The digest a root slot stands for. */
  function TreeOf(root: Slot): Word {
    match root
    case Entry(w, _) => w
    case Bare(w) => w
    case _ => Default
  }

  /** Root slots as update, get and merkleProof receive them. */
  predicate IsRoot(root: Slot) {
    match root
    case Empty => true
    case Bare(w) => w.Leaf? || w.Node?
    case Entry(w, _) => (w.Leaf? || w.Node?) && root == SlotOf(w)
    case Marker(_) => false
  }

  /** The levels below a node at `height` in the batch that holds its children. */
  function Levels(height: nat): nat {
    if height % 4 == 0 then 4 else height % 4
  }

  // ----- loadChildren

  datatype Loaded =
    | Missing
    | Loaded(batch: seq<Slot>, index: nat, left: Slot, right: Slot, isShortcut: bool)

  /** loadBatch on the combined view of cache and database. */
  function LoadBatch(nodes: Nodes, root: Slot): (r: seq<Slot>) {
    var d := TreeOf(root);
    if d in nodes then nodes[d] else []
  }

  /** make([][]byte, 31) */
  function NoSlots(): (b: seq<Slot>)
    ensures |b| == BATCH_LEN && forall i :: 0 <= i < BATCH_LEN ==> b[i] == Empty
  {
    seq(BATCH_LEN, _ => Empty)
  }

  /** loadChildren; a batch of another length than 31 cannot be indexed and counts as missing. */
  function LoadChildren(nodes: Nodes, root: Slot, height: nat, index: nat, batch: seq<Slot>): (r: Loaded)
    requires height % 4 != 0 ==> |batch| == BATCH_LEN && OnLevel(index, height % 4)
    ensures r.Loaded? ==> |r.batch| == BATCH_LEN && OnLevel(r.index, Levels(height))
  {
    if height % 4 == 0 then
      var b := if root.Empty? then NoSlots()[0 := Marker(0)] else LoadBatch(nodes, root);
      if |b| != BATCH_LEN then Missing
      else Loaded(b, 0, b[1], b[2], b[0] == Marker(1))
    else
      Loaded(batch, index, batch[2 * index + 1], batch[2 * index + 2],
             batch[index].Entry? && batch[index].flag == 1)
  }

  /** What a caller of loadChildren knows about the batch it passes. */
  predicate Positioned(batch: seq<Slot>, index: nat, height: nat, root: Slot) {
    height % 4 != 0 ==>
      && |batch| == BATCH_LEN && OnLevel(index, height % 4)
      && batch[index] == root && !root.Bare?
      && Holds(batch, index, height % 4, root)
  }

  /** loadChildren finds the children of the node, and knows a shortcut when it sees one. */
  lemma LoadChildrenFinds(nodes: Nodes, root: Slot, height: nat, index: nat, batch: seq<Slot>)
    requires Coherent(nodes) && IsRoot(root) && Positioned(batch, index, height, root)
    ensures var d := TreeOf(root);
            var n := Levels(height);
            var r := LoadChildren(nodes, root, height, index, batch);
            && (height % 4 == 0 && !root.Empty? && d !in nodes <==> r.Missing?)
            && (r.Loaded? ==>
                 && Holds(r.batch, r.index, n, SlotOf(d))
                 && r.left == Child(SlotOf(d), false) && r.right == Child(SlotOf(d), true)
                 && (r.isShortcut <==> d.Leaf?))
  {
    hide Holds, Coherent;
    var d := TreeOf(root);
    if height % 4 == 0 {
      if root.Empty? {
        var b := NoSlots()[0 := Marker(0)];
        EmptyBelow(b, 0, 4);
        HoldsElim(b, 0, 4, Empty);
      } else if d in nodes {
        CoherentAt(nodes, d);
        HoldsElim(nodes[d], 0, 4, SlotOf(d));
      }
    } else {
      HoldsElim(batch, index, height % 4, SlotOf(d));
    }
  }

  lemma CoherentAt(nodes: Nodes, d: Word)
    requires Coherent(nodes) && d in nodes
    ensures IsBatch(nodes[d], d)
  {
  }
}
