/**
 Fast sync: checking a batch against its digest, reading off what to ask for next, and
 rebuilding a whole trie layer by layer.
 */
module Sync {
  import opened Keys
  import opened Trie
  import opened Batch
  import opened Reads

  // ----- verifyBatch

  /** What verifyBatch returns; Panic where it would index or slice out of range. */
  datatype Verdict = Panic | Verdict(digest: Option<Word>, ok: bool)

  predicate Accepts(v: Verdict) {
    v.Verdict? && v.ok
  }

  predicate Present(b: seq<Slot>, i: nat) {
    i < |b| && !b[i].Empty?
  }

  /** A slot in 1..14 has something below it, as verifyBatch and its companions test it. */
  predicate HasChildren(b: seq<Slot>, i: nat)
    requires |b| == BATCH_LEN
  {
    2 * i + 2 < 32 && (Present(b, 2 * i + 1) || Present(b, 2 * i + 2))
  }

  function HashPair(l: Option<Word>, r: Option<Word>): Option<Word> {
    match (l, r)
    case (None, None) => None
    case (Some(x), None) => Some(Node(x, Default))
    case (None, Some(y)) => Some(Node(Default, y))
    case (Some(x), Some(y)) => Some(Node(x, y))
  }

  function SlotWord(s: Slot): Option<Word> {
    if s.Entry? then Some(s.word) else None
  }

  /** verifyBatch below `idx`, `levels` above the bottom of the batch at `height`. */
  function VerifyBelow(b: seq<Slot>, idx: nat, levels: nat, height: int, root: Word): Verdict
    requires |b| == BATCH_LEN && OnLevel(idx, levels)
    decreases levels
  {
    if levels == 0 then Verdict(None, false)
    else
      var l, r := 2 * idx + 1, 2 * idx + 2;
      var lv := if HasChildren(b, l) then VerifyBelow(b, l, levels - 1, height, root) else Verdict(None, true);
      if lv.Panic? then Panic
      else if !lv.ok then Verdict(None, false)
      else
        var rv := if HasChildren(b, r) then VerifyBelow(b, r, levels - 1, height, root) else Verdict(None, true);
        if rv.Panic? then Panic
        else if !rv.ok then Verdict(None, false)
        else if lv.digest.None? && rv.digest.None?
                && (!b[idx].Entry? || (b[idx].flag == 1 && !(b[l].Entry? && b[r].Entry?))) then Panic
        else
          var res :=
            if lv.digest.None? && rv.digest.None? then
              if b[idx].flag == 1 then Some(Leaf(b[l].word, b[r].word, (height + levels) % 256))
              else HashPair(SlotWord(b[l]), SlotWord(b[r]))
            else HashPair(lv.digest, rv.digest);
          if idx == 0 then Verdict(res, res == Some(root))
          else if !b[idx].Entry? then Panic
          else Verdict(res, res == Some(b[idx].word))
  }

  /** verifyBatchEasy */
  function VerifyBatch(b: seq<Slot>, root: Word, layer: nat): Verdict
    requires |b| == BATCH_LEN
  {
    if b[0] != Marker(0) then
      if exists i :: 3 <= i < BATCH_LEN && !b[i].Empty? then Verdict(None, false)
      else if !b[1].Entry? || !b[2].Entry? then Panic
      else
        var res := Leaf(b[1].word, b[2].word, (TRIE_HEIGHT - 4 * layer) % 256);
        Verdict(Some(res), res == root)
    else VerifyBelow(b, 0, 4, TRIE_HEIGHT - 4 * (layer + 1), root)
  }

  // ----- getInteriorNodesNext and getFinalLeafNodes

  /** getInteriorNodesNext on a regular batch: the digests of the batches below, left to right. */
  function NextRoots(b: seq<Slot>, idx: nat, levels: nat): seq<Word>
    requires |b| == BATCH_LEN && OnLevel(idx, levels)
    decreases levels
  {
    if levels == 0 then []
    else
      var l, r := 2 * idx + 1, 2 * idx + 2;
      if !HasChildren(b, l) && !HasChildren(b, r) then
        if b[idx].Entry? && b[idx].flag == 1 then []
        else Words(b[l]) + Words(b[r])
      else
        (if HasChildren(b, l) then NextRoots(b, l, levels - 1) else [])
        + if HasChildren(b, r) then NextRoots(b, r, levels - 1) else []
  }

  function Words(s: Slot): seq<Word> {
    if s.Entry? then [s.word] else []
  }

  /** getInteriorNodesEasy: a shortcut batch leads nowhere. */
  function InteriorNodes(b: seq<Slot>): seq<Word>
    requires |b| == BATCH_LEN
  {
    if b[0] != Marker(0) then [] else NextRoots(b, 0, 4)
  }

  /** A leaf as a batch delivers it: two words, whatever they stand for. */
  datatype LeafNode = LeafNode(key: Word, value: Word)

  /** getFinalLeafNodes; None where it would index or slice out of range. */
  function FinalLeaves(b: seq<Slot>, idx: nat, levels: nat): Option<seq<LeafNode>>
    requires |b| == BATCH_LEN && OnLevel(idx, levels)
    decreases levels
  {
    if levels == 0 then Some([])
    else
      var l, r := 2 * idx + 1, 2 * idx + 2;
      if b[idx].Empty? then None
      else if b[idx] == Marker(1) || (b[idx].Entry? && b[idx].flag == 1) then
        if b[l].Entry? && b[r].Entry? then Some([LeafNode(b[l].word, b[r].word)]) else None
      else
        var ls := if HasChildren(b, l) then FinalLeaves(b, l, levels - 1) else Some([]);
        var rs := if HasChildren(b, r) then FinalLeaves(b, r, levels - 1) else Some([]);
        if ls.None? || rs.None? then None else Some(ls.value + rs.value)
  }

  function Rendered(kvs: seq<KV>): (nodes: seq<LeafNode>)
    ensures |nodes| == |kvs|
  {
    seq(|kvs|, i requires 0 <= i < |kvs| => LeafNode(Bytes(kvs[i].key), kvs[i].value))
  }

  lemma RenderedConcat(a: seq<KV>, b: seq<KV>)
    ensures Rendered(a + b) == Rendered(a) + Rendered(b)
  {
  }

  // ----- the same on trees

  /** The subtrees `n` levels down, left to right. */
  function Frontier(d: Word, n: nat): seq<Word>
    decreases d, n
  {
    if n == 0 then if d.Default? then [] else [d]
    else if d.Node? then Frontier(d.left, n - 1) + Frontier(d.right, n - 1)
    else []
  }

  /** The shortcuts within the first `n` levels. */
  function LeavesWithin(d: Word, n: nat): seq<KV>
    decreases d, n
  {
    if n == 0 then []
    else match d
      case Leaf(Bytes(k), v, _) => [KV(k, v)]
      case Node(l, r) => LeavesWithin(l, n - 1) + LeavesWithin(r, n - 1)
      case _ => []
  }

  /** All shortcuts of a tree. */
  function AllLeaves(d: Word): seq<KV> {
    match d
    case Leaf(Bytes(k), v, _) => [KV(k, v)]
    case Node(l, r) => AllLeaves(l) + AllLeaves(r)
    case _ => []
  }

  /** What the tests of verifyBatch see of the children of a slot that holds a subtree. */
  lemma ChildSeen(b: seq<Slot>, i: nat, n: nat, d: Word, path: seq<bool>)
    requires |b| == BATCH_LEN && OnLevel(i, n) && Holds(b, i, n, SlotOf(d)) && Canonical(d, path)
    ensures HasChildren(b, i) <==> n > 0 && !d.Default?
    ensures n > 0 && d.Leaf? ==> b[2 * i + 1] == Entry(d.key, 2) && b[2 * i + 2] == Entry(d.value, 2)
    ensures n > 0 && d.Node? ==> b[2 * i + 1] == SlotOf(d.left) && b[2 * i + 2] == SlotOf(d.right)
  {
    hide Holds;
    if n > 0 {
      HoldsElim(b, i, n, SlotOf(d));
    }
  }

  /** Nothing is seen below the key and the value of a shortcut. */
  lemma LeafSeen(b: seq<Slot>, i: nat, n: nat, d: Word)
    requires |b| == BATCH_LEN && OnLevel(i, n) && n > 0 && d.Leaf? && Holds(b, i, n, SlotOf(d))
    ensures !HasChildren(b, 2 * i + 1) && !HasChildren(b, 2 * i + 2)
  {
    hide Holds;
    ShortcutChildren(b, i, n, SlotOf(d));
    if n > 1 {
      HoldsElim(b, 2 * i + 1, n - 1, Empty);
      HoldsElim(b, 2 * i + 2, n - 1, Empty);
    }
  }

  /** verifyBatch rebuilds the digest of every subtree a batch holds. */
  lemma {:induction false} VerifyBelowAccepts(b: seq<Slot>, idx: nat, levels: nat, height: nat, root: Word, d: Word, path: seq<bool>)
    requires |b| == BATCH_LEN && OnLevel(idx, levels) && levels > 0 && Holds(b, idx, levels, SlotOf(d))
    requires Canonical(d, path) && !d.Default? && |path| == TRIE_HEIGHT - (height + levels)
    requires if idx == 0 then d == root && d.Node? else b[idx] == SlotOf(d)
    ensures VerifyBelow(b, idx, levels, height, root) == Verdict(Some(d), true)
    decreases levels
  {
    hide Holds;
    var l, r := 2 * idx + 1, 2 * idx + 2;
    ChildSeen(b, idx, levels, d, path);
    if d.Leaf? {
      LeafSeen(b, idx, levels, d);
    } else {
      HoldsElim(b, idx, levels, SlotOf(d));
      ChildSeen(b, l, levels - 1, d.left, path + [false]);
      ChildSeen(b, r, levels - 1, d.right, path + [true]);
      if levels > 1 {
        if !d.left.Default? {
          VerifyBelowAccepts(b, l, levels - 1, height, root, d.left, path + [false]);
        }
        if !d.right.Default? {
          VerifyBelowAccepts(b, r, levels - 1, height, root, d.right, path + [true]);
        }
      }
    }
  }

  /** Every batch of a trie passes the check at its own layer. */
  lemma BatchVerifies(b: seq<Slot>, d: Word, layer: nat, path: seq<bool>)
    requires IsBatch(b, d) && Canonical(d, path) && |path| == 4 * layer
    ensures VerifyBatch(b, d, layer) == Verdict(Some(d), true)
  {
    hide Holds, VerifyBelow;
    if d.Leaf? {
      ShortcutBatch(b, d);
    } else {
      VerifyBelowAccepts(b, 0, 4, TRIE_HEIGHT - 4 * (layer + 1), d, d, path);
    }
  }

  lemma RenderedFew(d: Word)
    ensures Rendered([]) == []
    ensures d.Leaf? && d.key.Bytes? ==> Rendered([KV(d.key.bytes, d.value)]) == [LeafNode(d.key, d.value)]
  {
  }

  lemma {:induction false} NextRootsFind(b: seq<Slot>, idx: nat, levels: nat, d: Word, path: seq<bool>)
    requires |b| == BATCH_LEN && OnLevel(idx, levels) && levels > 0 && Holds(b, idx, levels, SlotOf(d))
    requires Canonical(d, path) && !d.Default? && (if idx == 0 then b[0] == Marker(0) && d.Node? else b[idx] == SlotOf(d))
    ensures NextRoots(b, idx, levels) == Frontier(d, levels)
    decreases levels
  {
    hide Holds;
    var l, r := 2 * idx + 1, 2 * idx + 2;
    ChildSeen(b, idx, levels, d, path);
    if d.Leaf? {
      LeafSeen(b, idx, levels, d);
    } else {
      HoldsElim(b, idx, levels, SlotOf(d));
      ChildSeen(b, l, levels - 1, d.left, path + [false]);
      ChildSeen(b, r, levels - 1, d.right, path + [true]);
      if levels > 1 {
        if !d.left.Default? { NextRootsFind(b, l, levels - 1, d.left, path + [false]); }
        if !d.right.Default? { NextRootsFind(b, r, levels - 1, d.right, path + [true]); }
      }
    }
  }

  lemma {:induction false} FinalLeavesFind(b: seq<Slot>, idx: nat, levels: nat, d: Word, path: seq<bool>)
    requires |b| == BATCH_LEN && OnLevel(idx, levels) && levels > 0 && Holds(b, idx, levels, SlotOf(d))
    requires Canonical(d, path) && !d.Default? && (if idx == 0 then b[0] == Marker(0) && d.Node? else b[idx] == SlotOf(d))
    ensures FinalLeaves(b, idx, levels) == Some(Rendered(LeavesWithin(d, levels)))
    decreases levels
  {
    hide Holds, Rendered;
    RenderedFew(d);
    var l, r := 2 * idx + 1, 2 * idx + 2;
    ChildSeen(b, idx, levels, d, path);
    if d.Node? {
      HoldsElim(b, idx, levels, SlotOf(d));
      ChildSeen(b, l, levels - 1, d.left, path + [false]);
      ChildSeen(b, r, levels - 1, d.right, path + [true]);
      if levels > 1 {
        if !d.left.Default? { FinalLeavesFind(b, l, levels - 1, d.left, path + [false]); }
        if !d.right.Default? { FinalLeavesFind(b, r, levels - 1, d.right, path + [true]); }
      }
      RenderedConcat(LeavesWithin(d.left, levels - 1), LeavesWithin(d.right, levels - 1));
    }
  }

  /** What a batch asks for next and what it delivers, read off its tree. */
  lemma BatchContents(b: seq<Slot>, d: Word, path: seq<bool>)
    requires IsBatch(b, d) && Canonical(d, path)
    ensures InteriorNodes(b) == Frontier(d, 4)
    ensures FinalLeaves(b, 0, 4) == Some(Rendered(LeavesWithin(d, 4)))
  {
    hide Holds, Rendered;
    RenderedFew(d);
    if d.Leaf? {
      ShortcutBatch(b, d);
    } else {
      NextRootsFind(b, 0, 4, d, path);
      FinalLeavesFind(b, 0, 4, d, path);
    }
  }
}
