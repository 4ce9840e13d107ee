/**
 get: reading a key through the batches of a store.
 */
module Reads {
  import opened Keys
  import opened Trie
  import opened TreeUpdate
  import opened Batch

  datatype Option<T> = None | Some(value: T)

  /**
   The answer of a read; Unavailable when a batch on the way is not in the store, Panicked
   where an index or a slice is out of range.
   */
  datatype Read<T> = Unavailable | Panicked | Found(value: T)

  /** The first 32 bytes of a slot. */
  function WordOf(s: Slot): Word {
    TreeOf(s)
  }

  /** get: a shortcut without its key or its value panics, and so does a key that has run out of bits. */
  function GetNode(nodes: Nodes, root: Slot, key: Key, batch: seq<Slot>, index: nat, height: nat): Read<Option<Word>>
    requires height <= TRIE_HEIGHT
    requires height % 4 != 0 ==> |batch| == BATCH_LEN && OnLevel(index, height % 4)
    decreases height
  {
    if root.Empty? then Found(None)
    else match LoadChildren(nodes, root, height, index, batch)
      case Missing => Unavailable
      case Loaded(b, i, l, r, isShortcut) =>
        if isShortcut then
          if l.Empty? then Panicked
          else if WordOf(l) != Bytes(key) then Found(None)
          else if r.Empty? then Panicked
          else Found(Some(WordOf(r)))
        else if height == 0 then Panicked
        else if BitIsSet(key, TRIE_HEIGHT - height) then GetNode(nodes, r, key, b, 2 * i + 2, height - 1)
        else GetNode(nodes, l, key, b, 2 * i + 1, height - 1)
  }

  /** What a digest tree answers. */
  function Lookup(d: Word, key: Key, height: nat): Option<Word>
    requires height <= TRIE_HEIGHT && Shaped(d, height)
    decreases d
  {
    match d
    case Leaf(k, v, _) => if k == Bytes(key) then Some(v) else None
    case Node(l, r) => Lookup(if BitIsSet(key, TRIE_HEIGHT - height) then r else l, key, height - 1)
    case _ => None
  }

  function MapGet(m: Map, key: Key): Option<Word> {
    if key in m then Some(m[key]) else None
  }

  /** A canonical tree answers as its map does. */
  lemma {:induction false} LookupIsMapGet(d: Word, key: Key, path: seq<bool>)
    requires Canonical(d, path) && HasPrefix(key, path)
    ensures Shaped(d, TRIE_HEIGHT - |path|)
    ensures Lookup(d, key, TRIE_HEIGHT - |path|) == MapGet(MapOf(d), key)
    decreases d
  {
    hide HasPrefix, BitIsSet;
    CanonicalShaped(d, path);
    if d.Node? {
      var side := BitIsSet(key, |path|);
      PrefixStep(key, path);
      CanonicalHalves(d, path);
      LookupIsMapGet(if side then d.right else d.left, key, path + [side]);
    }
  }

  lemma ChildPositioned(b: seq<Slot>, i: nat, height: nat, d: Word, side: bool)
    requires |b| == BATCH_LEN && height > 0 && OnLevel(i, Levels(height)) && d.Node? && Shaped(d, height)
    requires Holds(b, i, Levels(height), SlotOf(d))
    ensures var c := if side then d.right else d.left;
            && IsRoot(SlotOf(c)) && TreeOf(SlotOf(c)) == c
            && Positioned(b, if side then 2 * i + 2 else 2 * i + 1, height - 1, SlotOf(c))
  {
    hide Holds;
    HoldsElim(b, i, Levels(height), SlotOf(d));
  }

  /** Reading through batches answers as the digest tree does, whenever the batches are there. */
  lemma {:induction false} GetNodeFinds(nodes: Nodes, root: Slot, key: Key, batch: seq<Slot>, index: nat, height: nat)
    requires Coherent(nodes) && height <= TRIE_HEIGHT && IsRoot(root) && Shaped(TreeOf(root), height)
    requires Positioned(batch, index, height, root)
    ensures var g := GetNode(nodes, root, key, batch, index, height);
            && (g.Found? ==> g.value == Lookup(TreeOf(root), key, height)) && !g.Panicked?
            && (Available(nodes, TreeOf(root), height) ==> g.Found?)
    decreases height
  {
    hide Holds, BitIsSet, LoadChildren, OnLevel, Coherent;
    var d := TreeOf(root);
    if !root.Empty? {
      LoadChildrenFinds(nodes, root, height, index, batch);
      var loaded := LoadChildren(nodes, root, height, index, batch);
      if loaded.Loaded? && d.Node? {
        var side := BitIsSet(key, TRIE_HEIGHT - height);
        ChildPositioned(loaded.batch, loaded.index, height, d, side);
        var c := SlotOf(if side then d.right else d.left);
        GetNodeFinds(nodes, c, key, loaded.batch, 2 * loaded.index + (if side then 2 else 1), height - 1);
      }
    }
  }
}
