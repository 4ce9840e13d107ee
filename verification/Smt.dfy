/**
 The trie object: a root, a write cache of batches and a database, changed in place.
 */
module Smt {
  import opened Keys
  import opened Trie
  import opened TreeUpdate
  import opened Batch
  import opened Reads
  import opened ExactUpdate

  /** Everything one key prefix holds in the database. */
  class Database {
    var nodes: Nodes
    var roots: map<nat, Slot>
    var commitHeight: nat

    /** Every root on record leads to batches that are all present. */
    ghost predicate Valid()
      reads this
    {
      Coherent(nodes) && forall h :: h in roots ==> Reachable(nodes, roots[h])
    }

    constructor ()
      ensures nodes == map[] && roots == map[] && commitHeight == 0
    {
      nodes, roots, commitHeight := map[], map[], 0;
    }

    /** The loop of commit over the cached batches, taken in any order. */
    method PutAll(batches: Nodes)
      requires Coherent(nodes) && Coherent(batches)
      modifies this`nodes
      ensures Coherent(nodes) && nodes == old(nodes) + batches
    {
      hide Coherent;
      var left := batches;
      while left != map[]
        invariant Coherent(left) && Coherent(nodes) && nodes + left == old(nodes) + batches
        decreases left.Keys
      {
        var d :| d in left;
        CoherentMove(nodes, left, d);
        nodes := nodes[d := left[d]];
        left := left - {d};
      }
    }
  }

  /** A root digest, or none, whose whole trie is in the store. */
  ghost predicate Reachable(nodes: Nodes, root: Slot) {
    && (root.Empty? || root.Bare?) && IsRoot(root)
    && Shaped(TreeOf(root), TRIE_HEIGHT)
    && Available(nodes, TreeOf(root), TRIE_HEIGHT)
  }

  lemma StillReachable(nodes: Nodes, more: Nodes, root: Slot)
    requires nodes.Keys <= more.Keys && Reachable(nodes, root)
    ensures Reachable(more, root)
  {
    StillAvailable(nodes, more, TreeOf(root), TRIE_HEIGHT);
  }

  function RootOf(d: Word): Slot {
    if d.Default? then Empty else Bare(d)
  }

  /** A value handed to Update: a 32-byte word, or bytes of another length. */
  datatype Field = Sized(word: Word) | WrongSize

  datatype Reason = LengthMismatch | BadKeyLength | BadValueLength | DuplicateKey | MissingKey | Conflict | NoKeys | NodeUnavailable

  datatype UpdateResult = Rejected(reason: Reason) | Accepted(root: Slot)

  /** Keys in the order Update asks of its callers; equal keys are left for it to refuse. */
  ghost predicate InOrder(keys: seq<seq<bv8>>) {
    forall i, j :: 0 <= i < j < |keys| && |keys[i]| == |keys[j]| == HASH_LEN ==> !Less(keys[j], keys[i])
  }

  ghost predicate WellSized(keys: seq<seq<bv8>>, values: seq<Field>) {
    && |keys| == |values|
    && (forall i :: 0 <= i < |keys| ==> |keys[i]| == HASH_LEN)
    && (forall i :: 0 <= i < |values| ==> values[i].Sized?)
  }

  function Zip(keys: seq<seq<bv8>>, values: seq<Field>): (kvs: seq<KV>)
    requires WellSized(keys, values)
    ensures |kvs| == |keys|
    ensures forall i :: 0 <= i < |keys| ==> kvs[i] == KV(keys[i], values[i].word)
  {
    seq(|keys|, i requires 0 <= i < |keys| => KV(keys[i], values[i].word))
  }

  predicate Distinct(keys: seq<seq<bv8>>) {
    forall i, j :: 0 <= i < j < |keys| ==> keys[i] != keys[j]
  }

  /** A deletion needs the key, an insertion must not contradict the value already there. */
  predicate Permitted(d: Word, kv: KV)
    requires Shaped(d, TRIE_HEIGHT)
  {
    var v := Lookup(d, kv.key, TRIE_HEIGHT);
    if kv.value == Default then v.Some? else v.None? || v.value == kv.value
  }

  /** A pair that does not contradict a map: it deletes a key that is there, or sets one that is not there or has that value. */
  predicate Agrees(m: Map, kv: KV) {
    if kv.value == Default then kv.key in m else kv.key in m ==> m[kv.key] == kv.value
  }

  lemma PermittedOnMap(d: Word, kv: KV)
    requires Canonical(d, []) && Shaped(d, TRIE_HEIGHT)
    ensures Permitted(d, kv) <==> Agrees(MapOf(d), kv)
  {
    hide Lookup, Shaped, MapOf;
    LookupIsMapGet(d, kv.key, []);
  }

  /** Such batches never change the value of a key, and delete exactly the keys they name for it. */
  lemma NothingOverwritten(m: Map, kvs: seq<KV>)
    requires Sorted(kvs) && forall i :: 0 <= i < |kvs| ==> Agrees(m, kvs[i])
    ensures forall k :: k in m && k in Apply(m, Asked(kvs)) ==> Apply(m, Asked(kvs))[k] == m[k]
    ensures forall k :: k in m && k !in Apply(m, Asked(kvs)) <==> KV(k, Default) in kvs
    ensures forall k :: k !in m && k in Apply(m, Asked(kvs)) <==> k !in m && exists i :: 0 <= i < |kvs| && kvs[i].key == k
  {
    hide Less, Sorted, Asked;
    AskedAt(kvs);
  }

  /** Of permitted batches it is known exactly which ones reach the tree of the updated map. */
  lemma PermittedExactly(d: Word, kvs: seq<KV>)
    requires Canonical(d, []) && kvs != [] && Sorted(kvs) && Shaped(d, TRIE_HEIGHT)
    requires forall i :: 0 <= i < |kvs| ==> Permitted(d, kvs[i])
    ensures var t, m := UpdateTree(d, kvs, TRIE_HEIGHT).tree, Apply(MapOf(d), Asked(kvs));
            && (t == Canon(m, []) <==> Rescues(MapOf(d), kvs, 0, |kvs|))
            && (t == Canon(m, []) ==> Canonical(t, []) && MapOf(t) == m && (t.Default? <==> m == map[]))
  {
    hide Less, Sorted, Asked, UpdateTree, Canon, Rescues, Apply, Lookup, Shaped;
    forall i | 0 <= i < |kvs| && kvs[i].value == Default
      ensures kvs[i].key in MapOf(d)
    {
      LookupIsMapGet(d, kvs[i].key, []);
    }
    UpdateIff(d, kvs);
    AskedUnder(kvs, []);
    ApplyUnder(d, kvs, []);
    CanonIsCanonical(Apply(MapOf(d), Asked(kvs)), []);
  }

  /** The first pair whose key or value has a wrong length. */
  ghost predicate FirstBadSize(keys: seq<seq<bv8>>, values: seq<Field>, i: int) {
    && |keys| == |values| && 0 <= i < |keys| && !(|keys[i]| == HASH_LEN && values[i].Sized?)
    && forall j :: 0 <= j < i ==> |keys[j]| == HASH_LEN && values[j].Sized?
  }

  lemma FirstBadSizeOnce(keys: seq<seq<bv8>>, values: seq<Field>, i: int)
    requires FirstBadSize(keys, values, i)
    ensures forall k :: FirstBadSize(keys, values, k) ==> k == i
    ensures !WellSized(keys, values)
  {
  }

  /** The first pair that the trie does not permit. */
  ghost predicate FirstRefused(d: Word, keys: seq<seq<bv8>>, values: seq<Field>, i: int)
    requires WellSized(keys, values) && Shaped(d, TRIE_HEIGHT)
  {
    && 0 <= i < |keys| && !Permitted(d, KV(keys[i], values[i].word))
    && forall j :: 0 <= j < i ==> Permitted(d, KV(keys[j], values[j].word))
  }

  lemma FirstRefusedOnce(d: Word, keys: seq<seq<bv8>>, values: seq<Field>, i: int)
    requires WellSized(keys, values) && Shaped(d, TRIE_HEIGHT) && FirstRefused(d, keys, values, i)
    ensures forall k :: FirstRefused(d, keys, values, k) ==> k == i
  {
    hide Permitted, Shaped;
  }

  /** Each reason for a refusal is given exactly when its check is the first to fail. */
  ghost predicate Explained(d: Word, keys: seq<seq<bv8>>, values: seq<Field>, problem: Option<Reason>)
    requires Shaped(d, TRIE_HEIGHT)
  {
    && (problem == Some(LengthMismatch) <==> |keys| != |values|)
    && (problem == Some(BadKeyLength) <==> exists i :: FirstBadSize(keys, values, i) && |keys[i]| != HASH_LEN)
    && (problem == Some(BadValueLength) <==> exists i :: FirstBadSize(keys, values, i) && |keys[i]| == HASH_LEN)
    && (problem == Some(DuplicateKey) <==> WellSized(keys, values) && !Distinct(keys))
    && (problem == Some(MissingKey) <==>
          && WellSized(keys, values) && Distinct(keys)
          && exists i :: FirstRefused(d, keys, values, i) && values[i].word == Default)
    && (problem == Some(Conflict) <==>
          && WellSized(keys, values) && Distinct(keys)
          && exists i :: FirstRefused(d, keys, values, i) && values[i].word != Default)
    && problem != Some(NoKeys) && problem != Some(NodeUnavailable)
  }

  lemma LengthsExplained(d: Word, keys: seq<seq<bv8>>, values: seq<Field>)
    requires Shaped(d, TRIE_HEIGHT) && |keys| != |values|
    ensures Explained(d, keys, values, Some(LengthMismatch)) && !WellSized(keys, values)
  {
  }

  lemma SizeExplained(d: Word, keys: seq<seq<bv8>>, values: seq<Field>, i: int)
    requires Shaped(d, TRIE_HEIGHT) && FirstBadSize(keys, values, i)
    ensures Explained(d, keys, values, Some(if |keys[i]| != HASH_LEN then BadKeyLength else BadValueLength))
    ensures !WellSized(keys, values)
  {
    FirstBadSizeOnce(keys, values, i);
  }

  lemma ValuesExplained(d: Word, keys: seq<seq<bv8>>, values: seq<Field>, problem: Option<Reason>)
    requires Shaped(d, TRIE_HEIGHT) && WellSized(keys, values)
    requires if !Distinct(keys) then problem == Some(DuplicateKey)
             else
               && (problem.None? || problem == Some(MissingKey) || problem == Some(Conflict))
               && (problem == Some(MissingKey) <==> exists i :: FirstRefused(d, keys, values, i) && values[i].word == Default)
               && (problem == Some(Conflict) <==> exists i :: FirstRefused(d, keys, values, i) && values[i].word != Default)
    ensures Explained(d, keys, values, problem)
  {
    hide FirstRefused, Distinct, Shaped;
  }

  /** The first pair that contradicts the map. */
  ghost predicate FirstAgainst(m: Map, keys: seq<seq<bv8>>, values: seq<Field>, i: int)
    requires WellSized(keys, values)
  {
    && 0 <= i < |keys| && !Agrees(m, KV(keys[i], values[i].word))
    && forall j :: 0 <= j < i ==> Agrees(m, KV(keys[j], values[j].word))
  }

  /** The same by the map alone: the first pair that deletes an absent key, or sets a present one to another value. */
  ghost predicate OnMap(m: Map, keys: seq<seq<bv8>>, values: seq<Field>, problem: Option<Reason>)
    requires WellSized(keys, values)
  {
    && (problem.None? <==> forall i :: 0 <= i < |keys| ==> Agrees(m, KV(keys[i], values[i].word)))
    && (problem == Some(MissingKey) <==> exists i :: FirstAgainst(m, keys, values, i) && values[i].word == Default)
    && (problem == Some(Conflict) <==> exists i :: FirstAgainst(m, keys, values, i) && values[i].word != Default)
  }

  lemma SomeContradicts(m: Map, keys: seq<seq<bv8>>, values: seq<Field>, problem: Option<Reason>)
    requires WellSized(keys, values) && OnMap(m, keys, values, problem) && problem.Some?
    ensures exists i :: 0 <= i < |keys| && !Agrees(m, Zip(keys, values)[i])
  {
    hide Agrees;
    var i :| 0 <= i < |keys| && !Agrees(m, KV(keys[i], values[i].word));
    assert Zip(keys, values)[i] == KV(keys[i], values[i].word);
  }

  lemma SameOnMap(d: Word, keys: seq<seq<bv8>>, values: seq<Field>, problem: Option<Reason>)
    requires WellSized(keys, values) && Canonical(d, []) && Shaped(d, TRIE_HEIGHT)
    requires problem.None? <==> forall i :: 0 <= i < |keys| ==> Permitted(d, KV(keys[i], values[i].word))
    requires problem == Some(MissingKey) <==> exists i :: FirstRefused(d, keys, values, i) && values[i].word == Default
    requires problem == Some(Conflict) <==> exists i :: FirstRefused(d, keys, values, i) && values[i].word != Default
    ensures OnMap(MapOf(d), keys, values, problem)
  {
    hide Permitted, Agrees, Shaped, MapOf, Canonical;
    forall i | 0 <= i < |keys|
      ensures Permitted(d, KV(keys[i], values[i].word)) <==> Agrees(MapOf(d), KV(keys[i], values[i].word))
    {
      PermittedOnMap(d, KV(keys[i], values[i].word));
    }
    assert forall i :: FirstRefused(d, keys, values, i) <==> FirstAgainst(MapOf(d), keys, values, i);
  }

  lemma ZipSorted(keys: seq<seq<bv8>>, values: seq<Field>)
    requires WellSized(keys, values) && InOrder(keys) && Distinct(keys)
    ensures Sorted(Zip(keys, values))
  {
    hide Less;
    var kvs := Zip(keys, values);
    forall i, j | 0 <= i < j < |kvs|
      ensures Less(kvs[i].key, kvs[j].key)
    {
      LessTotal(keys[i], keys[j]);
    }
  }

  /** The message a call of update sends on its channel. */
  datatype Outcome = Failed | Done(node: Slot, deleted: bool)

  ghost predicate IsResult(res: Outcome, u: Updated) {
    res == Done(SlotOf(u.tree), u.deleted)
  }

  /** A slot a parent keeps for a child. */
  ghost predicate IsChild(s: Slot) {
    s == SlotOf(TreeOf(s))
  }

  /** The effect of a part of a batch, possibly none, on a child of a node at `height`. */
  ghost function OnSide(child: Slot, part: seq<KV>, height: nat): Updated
    requires 0 < height <= TRIE_HEIGHT && Shaped(TreeOf(child), height - 1)
  {
    if part == [] then Updated(TreeOf(child), false) else UpdateTree(TreeOf(child), part, height - 1)
  }

  /** The batch deletes the one key of the subtree and asks for nothing else. */
  ghost predicate OnlyDeletes(d: Word, kvs: seq<KV>) {
    d.Leaf? && d.key.Bytes? && kvs == [KV(d.key.bytes, Default)]
  }

  lemma OnlyDeletesMerges(d: Word, kvs: seq<KV>)
    requires OnlyDeletes(d, kvs)
    ensures WithShortcut(kvs, KV(d.key.bytes, d.value)) == []
  {
    LessTotal(d.key.bytes, d.key.bytes);
  }

  lemma UpdateAtBottom(d: Word, kvs: seq<KV>)
    requires kvs != [] && Shaped(d, 0)
    ensures UpdateTree(d, kvs, 0) == PutOne(kvs[0], 0)
  {
  }

  /** update, case by case */
  lemma UpdateCases(d: Word, kvs: seq<KV>, height: nat)
    requires kvs != [] && 0 < height <= TRIE_HEIGHT && Shaped(d, height)
    ensures Shaped(Default, height - 1)
    ensures d.Node? ==> TreeOf(SlotOf(d.left)) == d.left && TreeOf(SlotOf(d.right)) == d.right
    ensures d.Default? ==> UpdateTree(d, kvs, height) == UpdateEmpty(kvs, height)
    ensures d.Leaf? ==> d.key.Bytes? && UpdateTree(d, kvs, height) == UpdateShortcut(d, kvs, height)
    ensures d.Node? ==>
              && Shaped(d.left, height - 1) && Shaped(d.right, height - 1)
              && UpdateTree(d, kvs, height)
                 == if d.left.Default? && d.right.Default? && |kvs| == 1 then PutOne(kvs[0], height)
                    else UpdateChildren(d.left, d.right, kvs, height)
  {
  }

  ghost function UpdateEmpty(all: seq<KV>, height: nat): Updated
    requires all != [] && 0 < height <= TRIE_HEIGHT
  {
    if |all| == 1 then PutOne(all[0], height) else UpdateChildren(Default, Default, all, height)
  }

  ghost function UpdateShortcut(d: Word, kvs: seq<KV>, height: nat): Updated
    requires d.Leaf? && d.key.Bytes? && 0 < height <= TRIE_HEIGHT
  {
    var all := WithShortcut(kvs, KV(d.key.bytes, d.value));
    if all == [] then Updated(Default, true) else UpdateEmpty(all, height)
  }

  lemma AvailableCases(nodes: Nodes, d: Word, height: nat)
    ensures d.Node? && Available(nodes, d, height) ==>
              height > 0 && Available(nodes, d.left, height - 1) && Available(nodes, d.right, height - 1)
    ensures d.Leaf? ==> (Available(nodes, d, height) <==> (height % 4 == 0 ==> d in nodes))
    ensures Available(nodes, Default, height)
  {
  }

  lemma SlotOfShaped(d: Word, height: nat)
    requires Shaped(d, height)
    ensures SlotOf(d).Empty? <==> d.Default?
    ensures !d.Default? ==> SlotOf(d).Entry? && SlotOf(d).word == d
  {
  }

  lemma CoherentMove(nodes: Nodes, left: Nodes, d: Word)
    requires Coherent(nodes) && Coherent(left) && d in left
    ensures Coherent(nodes[d := left[d]]) && Coherent(left - {d})
    ensures nodes[d := left[d]] + (left - {d}) == nodes + left
  {
    hide IsBatch;
  }

  lemma RootOfShaped(d: Word)
    requires Shaped(d, TRIE_HEIGHT)
    ensures IsRoot(RootOf(d)) && TreeOf(RootOf(d)) == d
    ensures RootOf(d) == if SlotOf(d).Empty? then Empty else Bare(SlotOf(d).word)
  {
    SlotOfShaped(d, TRIE_HEIGHT);
  }

  lemma SidesJoin(left: Slot, right: Slot, all: seq<KV>, height: nat, lres: Outcome, rres: Outcome)
    requires all != [] && 0 < height <= TRIE_HEIGHT
    requires Shaped(TreeOf(left), height - 1) && Shaped(TreeOf(right), height - 1)
    requires IsResult(lres, OnSide(left, all[..Split(all, TRIE_HEIGHT - height)], height))
    requires IsResult(rres, OnSide(right, all[Split(all, TRIE_HEIGHT - height)..], height))
    ensures var l, r, deleted := TreeOf(lres.node), TreeOf(rres.node), lres.deleted || rres.deleted;
            && IsChild(lres.node) && IsChild(rres.node)
            && l == OnSide(left, all[..Split(all, TRIE_HEIGHT - height)], height).tree
            && r == OnSide(right, all[Split(all, TRIE_HEIGHT - height)..], height).tree
            && (lres.node.Empty? && rres.node.Empty? ==> deleted)
            && UpdateChildren(TreeOf(left), TreeOf(right), all, height)
               == if deleted then Join(l, r, height) else Updated(Node(l, r), false)
  {
  }

  /** The key under which a finished node is cached: its digest, at the root of a batch, when it has changed. */
  ghost function Cached(d: Word, oldRoot: Slot, height: nat): set<Word> {
    if height % 4 == 0 && !d.Default? && SlotOf(d) != oldRoot then {d} else {}
  }

  ghost predicate Grown(before: Nodes, after: Nodes, keys: set<Word>) {
    after.Keys == before.Keys + keys
  }

  lemma GrownTwice(a: Nodes, b: Nodes, c: Nodes, x: set<Word>, y: set<Word>)
    requires Grown(a, b, x) && Grown(b, c, y)
    ensures Grown(a, c, x + y) && Grown(a, c, y + x)
  {
    assert x + y == y + x;
    assert a.Keys + x + y == a.Keys + (x + y);
  }

  lemma NotGrown(nodes: Nodes, root: Slot, height: nat)
    ensures Grown(nodes, nodes, {}) && Grown(nodes, nodes, Cached(Default, root, height))
  {
  }

  /** The keys that an update of a subtree writes to the cache. */
  ghost function Written(root: Slot, kvs: seq<KV>, height: nat): set<Word>
    requires kvs != [] && height <= TRIE_HEIGHT && Shaped(TreeOf(root), height)
    decreases height, 1
  {
    var d := TreeOf(root);
    if height == 0 then Cached(PutOne(kvs[0], 0).tree, root, 0)
    else
      var all := if d.Leaf? then WithShortcut(kvs, KV(d.key.bytes, d.value)) else kvs;
      var l, r := if d.Node? then d.left else Default, if d.Node? then d.right else Default;
      if all == [] then {}
      else if l.Default? && r.Default? && |all| == 1 then Cached(PutOne(all[0], height).tree, root, height)
      else WrittenBelow(SlotOf(l), SlotOf(r), root, all, height)
  }

  ghost function WrittenBelow(left: Slot, right: Slot, oldRoot: Slot, all: seq<KV>, height: nat): set<Word>
    requires all != [] && 0 < height <= TRIE_HEIGHT
    requires Shaped(TreeOf(left), height - 1) && Shaped(TreeOf(right), height - 1)
    decreases height, 0
  {
    var s := Split(all, TRIE_HEIGHT - height);
    (if s == 0 then {} else Written(left, all[..s], height - 1))
    + (if s == |all| then {} else Written(right, all[s..], height - 1))
    + Cached(UpdateChildren(TreeOf(left), TreeOf(right), all, height).tree, oldRoot, height)
  }

  ghost function WrittenOnSide(child: Slot, part: seq<KV>, height: nat): set<Word>
    requires 0 < height <= TRIE_HEIGHT && Shaped(TreeOf(child), height - 1)
  {
    if part == [] then {} else Written(child, part, height - 1)
  }

  lemma SidesWritten(left: Slot, right: Slot, oldRoot: Slot, all: seq<KV>, height: nat)
    requires all != [] && 0 < height <= TRIE_HEIGHT
    requires Shaped(TreeOf(left), height - 1) && Shaped(TreeOf(right), height - 1)
    ensures var s := Split(all, TRIE_HEIGHT - height);
            WrittenBelow(left, right, oldRoot, all, height)
            == WrittenOnSide(left, all[..s], height) + WrittenOnSide(right, all[s..], height)
               + Cached(UpdateChildren(TreeOf(left), TreeOf(right), all, height).tree, oldRoot, height)
  {
    hide Cached, UpdateChildren, Shaped;
  }

  lemma WrittenAtBottom(root: Slot, kvs: seq<KV>)
    requires kvs != [] && Shaped(TreeOf(root), 0)
    ensures Written(root, kvs, 0) == Cached(PutOne(kvs[0], 0).tree, root, 0)
  {
  }

  /** What update writes, case by case */
  lemma WrittenCases(root: Slot, kvs: seq<KV>, height: nat)
    requires kvs != [] && 0 < height <= TRIE_HEIGHT && Shaped(TreeOf(root), height)
    ensures Shaped(Default, height - 1)
    ensures var d := TreeOf(root);
            && (d.Default? ==> Written(root, kvs, height) == WrittenEmpty(root, kvs, height))
            && (d.Leaf? ==>
                 var all := WithShortcut(kvs, KV(d.key.bytes, d.value));
                 Written(root, kvs, height) == if all == [] then {} else WrittenEmpty(root, all, height))
            && (d.Node? ==>
                 && TreeOf(SlotOf(d.left)) == d.left && TreeOf(SlotOf(d.right)) == d.right
                 && Shaped(d.left, height - 1) && Shaped(d.right, height - 1)
                 && Written(root, kvs, height)
                    == if d.left.Default? && d.right.Default? && |kvs| == 1
                       then Cached(PutOne(kvs[0], height).tree, root, height)
                       else WrittenBelow(SlotOf(d.left), SlotOf(d.right), root, kvs, height))
  {
    hide Cached, UpdateTree, UpdateChildren, WithShortcut;
  }

  ghost function WrittenEmpty(root: Slot, all: seq<KV>, height: nat): set<Word>
    requires all != [] && 0 < height <= TRIE_HEIGHT
  {
    if |all| == 1 then Cached(PutOne(all[0], height).tree, root, height) else WrittenBelow(Empty, Empty, root, all, height)
  }

  /** An update that leaves nothing of a subtree caches nothing on the way. */
  lemma {:induction false} EmptiedWritesNothing(root: Slot, kvs: seq<KV>, height: nat)
    requires kvs != [] && height <= TRIE_HEIGHT && Shaped(TreeOf(root), height)
    requires UpdateTree(TreeOf(root), kvs, height).tree.Default?
    ensures Written(root, kvs, height) == {}
    decreases height, 2
  {
    hide Written, WrittenBelow, UpdateTree, UpdateChildren, WithShortcut, Shaped;
    var d := TreeOf(root);
    if height == 0 {
      UpdateAtBottom(d, kvs);
      WrittenAtBottom(root, kvs);
    } else {
      UpdateCases(d, kvs, height);
      WrittenCases(root, kvs, height);
      if d.Node? {
        if !(d.left.Default? && d.right.Default? && |kvs| == 1) {
          EmptiedBelow(SlotOf(d.left), SlotOf(d.right), root, kvs, height);
        }
      } else {
        var all := if d.Leaf? then WithShortcut(kvs, KV(d.key.bytes, d.value)) else kvs;
        NotATree(d, height);
        if |all| > 1 {
          EmptiedBelow(Empty, Empty, root, all, height);
        }
      }
    }
  }

  lemma NotATree(d: Word, height: nat)
    requires Shaped(d, height)
    ensures d.Default? || d.Leaf? || d.Node?
  {
  }

  lemma {:induction false} EmptiedBelow(left: Slot, right: Slot, oldRoot: Slot, all: seq<KV>, height: nat)
    requires all != [] && 0 < height <= TRIE_HEIGHT
    requires Shaped(TreeOf(left), height - 1) && Shaped(TreeOf(right), height - 1)
    requires UpdateChildren(TreeOf(left), TreeOf(right), all, height).tree.Default?
    ensures WrittenBelow(left, right, oldRoot, all, height) == {}
    decreases height, 1
  {
    hide Written, WrittenBelow, UpdateTree, Shaped;
    var s := Split(all, TRIE_HEIGHT - height);
    SidesWritten(left, right, oldRoot, all, height);
    if s > 0 {
      EmptiedWritesNothing(left, all[..s], height - 1);
    }
    if s < |all| {
      EmptiedWritesNothing(right, all[s..], height - 1);
    }
  }

  /** At the top of the trie: nothing is cached if and only if nothing is left. */
  lemma WritesNothingIff(root: Slot, kvs: seq<KV>)
    requires kvs != [] && Shaped(TreeOf(root), TRIE_HEIGHT) && (root.Bare? || root.Empty?)
    ensures Written(root, kvs, TRIE_HEIGHT) == {} <==> UpdateTree(TreeOf(root), kvs, TRIE_HEIGHT).tree.Default?
  {
    hide Written, UpdateTree, Shaped;
    var u := UpdateTree(TreeOf(root), kvs, TRIE_HEIGHT);
    if u.tree.Default? {
      EmptiedWritesNothing(root, kvs, TRIE_HEIGHT);
    } else {
      ResultWritten(root, kvs, TRIE_HEIGHT);
      SlotOfShaped(u.tree, TRIE_HEIGHT);
      assert u.tree in Cached(u.tree, root, TRIE_HEIGHT);
    }
  }

  lemma ResultWritten(root: Slot, kvs: seq<KV>, height: nat)
    requires kvs != [] && 0 < height <= TRIE_HEIGHT && Shaped(TreeOf(root), height)
    ensures Cached(UpdateTree(TreeOf(root), kvs, height).tree, root, height) <= Written(root, kvs, height)
  {
    hide Written, WrittenBelow, UpdateTree, UpdateChildren, WithShortcut, Shaped, Cached;
    var d := TreeOf(root);
    UpdateCases(d, kvs, height);
    WrittenCases(root, kvs, height);
    NotATree(d, height);
    CachedNothing(root, height);
    if d.Node? {
      SidesWritten(SlotOf(d.left), SlotOf(d.right), root, kvs, height);
    } else {
      var all := if d.Leaf? then WithShortcut(kvs, KV(d.key.bytes, d.value)) else kvs;
      if all != [] {
        SidesWritten(Empty, Empty, root, all, height);
      }
    }
  }

  lemma CachedNothing(root: Slot, height: nat)
    ensures Cached(Default, root, height) == {}
  {
  }

  /** A batch of insertions into the empty trie leaves something. */
  lemma InsertsStay(kvs: seq<KV>)
    requires kvs != [] && Sorted(kvs) && forall i :: 0 <= i < |kvs| ==> Permitted(Default, kvs[i])
    ensures !UpdateTree(Default, kvs, TRIE_HEIGHT).tree.Default?
  {
    hide Asked, UpdateTree, Less, Canonical;
    assert kvs[0].value != Default;
    assert AllUnder(kvs, []);
    EmptyMeaning(kvs, []);
    AskedHere(kvs, 0);
    assert kvs[0].key in Apply(map[], Asked(kvs));
    hide Apply;
  }

  /** A batch is determined by its digest, so a cache is determined by its keys. */
  lemma CacheUnique(a: Nodes, b: Nodes)
    requires Coherent(a) && Coherent(b) && a.Keys == b.Keys
    ensures a == b
  {
    hide IsBatch;
    forall d | d in a.Keys
      ensures d in b && a[d] == b[d]
    {
      CoherentAt(a, d);
      CoherentAt(b, d);
      BatchUnique(a[d], b[d], d);
    }
  }

  class SMT {
    const db: Database
    var root: Slot
    var prevRoot: Slot
    var updatedNodes: Nodes

    ghost function View(): Nodes
      reads this, db
    {
      db.nodes + updatedNodes
    }

    ghost predicate Stores()
      reads this, db
    {
      Coherent(db.nodes) && Coherent(updatedNodes)
    }

    /** NewSMT */
    constructor (db: Database, root: Slot)
      ensures this.db == db && this.root == root && prevRoot == Empty && updatedNodes == map[]
    {
      this.db, this.root, prevRoot, updatedNodes := db, root, Empty, map[];
    }

    /** storeNode */
    method StoreNode(batch: array<Slot>, h: Slot, oldRoot: Slot)
      requires Stores() && batch.Length == BATCH_LEN && h.Entry? && IsBatch(batch[..], h.word)
      modifies this`updatedNodes
      ensures Stores()
      ensures updatedNodes == if h != oldRoot then old(updatedNodes)[h.word := batch[..]] else old(updatedNodes)
    {
      if h != oldRoot {
        updatedNodes := updatedNodes[h.word := batch[..]];
      }
    }

    /** The writes with which leafHash, interiorHash and moveUpShortcut complete a node. */
    method WriteChildren(left: Slot, right: Slot, marker: nat, batch: array<Slot>, i: nat, height: nat, ghost h: Slot)
      requires batch.Length == BATCH_LEN && OnLevel(i, Levels(height))
      requires left == Child(h, false) && right == Child(h, true)
      requires Holds(batch[..], 2 * i + 1, Levels(height) - 1, left)
      requires Holds(batch[..], 2 * i + 2, Levels(height) - 1, right)
      modifies batch
      ensures Holds(batch[..], i, Levels(height), h)
      ensures if height % 4 == 0 then batch[0] == Marker(marker) else SameOutside(old(batch[..]), batch[..], i)
    {
      hide Holds, Child;
      ghost var was := batch[..];
      batch[2 * i + 2] := right;
      batch[2 * i + 1] := left;
      if height % 4 == 0 {
        batch[0] := Marker(marker);
      }
      forall j | 0 <= j < BATCH_LEN && (Below(2 * i + 1, j) || Below(2 * i + 2, j))
        ensures was[j] == batch[j]
      {
      }
      HoldsPair(was, batch[..], i, Levels(height), h);
    }

    /** The end of leafHash and of moveUpShortcut: the key and the value in place, the batch stored at its root. */
    method PutShortcut(k: Slot, v: Slot, h: Slot, oldRoot: Slot, batch: array<Slot>, i: nat, height: nat)
      requires Stores() && batch.Length == BATCH_LEN && OnLevel(i, Levels(height))
      requires h.Entry? && h.word.Leaf? && h == SlotOf(h.word) && k == Child(h, false) && v == Child(h, true)
      requires Holds(batch[..], 2 * i + 1, Levels(height) - 1, k)
      requires Holds(batch[..], 2 * i + 2, Levels(height) - 1, v)
      modifies this`updatedNodes, batch
      ensures Stores() && old(updatedNodes).Keys <= updatedNodes.Keys
      ensures Holds(batch[..], i, Levels(height), h)
      ensures height % 4 == 0 && h != oldRoot ==> h.word in updatedNodes
      ensures Grown(old(updatedNodes), updatedNodes, Cached(h.word, oldRoot, height))
      ensures height % 4 != 0 ==> SameOutside(old(batch[..]), batch[..], i)
    {
      hide Holds, Child;
      WriteChildren(k, v, 1, batch, i, height, h);
      if height % 4 == 0 {
        StoreNode(batch, h, oldRoot);
      }
    }

    /** leafHash, on an empty subtree */
    method LeafHash(kv: KV, oldRoot: Slot, batch: array<Slot>, i: nat, height: nat) returns (h: Slot)
      requires Stores() && batch.Length == BATCH_LEN && OnLevel(i, Levels(height))
      requires Holds(batch[..], i, Levels(height), Empty)
      modifies this`updatedNodes, batch
      ensures Stores() && old(updatedNodes).Keys <= updatedNodes.Keys
      ensures h == SlotOf(ShortcutOf(kv, height))
      ensures Holds(batch[..], i, Levels(height), h)
      ensures height % 4 == 0 && h != oldRoot ==> h.word in updatedNodes
      ensures Grown(old(updatedNodes), updatedNodes, Cached(h.word, oldRoot, height))
      ensures height % 4 != 0 ==> SameOutside(old(batch[..]), batch[..], i)
    {
      hide Holds;
      h := Entry(ShortcutOf(kv, height), 1);
      var k, v := Entry(Bytes(kv.key), 2), Entry(kv.value, 2);
      EmptyChildren(batch[..], i, Levels(height), k, v);
      PutShortcut(k, v, h, oldRoot, batch, i, height);
    }

    /** interiorHash */
    method InteriorHash(left: Slot, right: Slot, oldRoot: Slot, batch: array<Slot>, i: nat, height: nat)
      returns (h: Slot)
      requires Stores() && batch.Length == BATCH_LEN && OnLevel(i, Levels(height))
      requires IsChild(left) && IsChild(right) && !(left.Empty? && right.Empty?)
      requires Holds(batch[..], 2 * i + 1, Levels(height) - 1, left)
      requires Holds(batch[..], 2 * i + 2, Levels(height) - 1, right)
      modifies this`updatedNodes, batch
      ensures Stores() && old(updatedNodes).Keys <= updatedNodes.Keys
      ensures h == SlotOf(Node(TreeOf(left), TreeOf(right)))
      ensures Holds(batch[..], i, Levels(height), h)
      ensures height % 4 == 0 && h != oldRoot ==> h.word in updatedNodes
      ensures Grown(old(updatedNodes), updatedNodes, Cached(h.word, oldRoot, height))
      ensures height % 4 != 0 ==> SameOutside(old(batch[..]), batch[..], i)
    {
      hide Holds;
      if left.Empty? {
        h := Entry(Node(Default, right.word), 0);
      } else if right.Empty? {
        h := Entry(Node(left.word, Default), 0);
      } else {
        h := Entry(Node(left.word, right.word), 0);
      }
      WriteChildren(left, right, 0, batch, i, height, h);
      if height % 4 == 0 {
        StoreNode(batch, h, oldRoot);
      }
    }

    /** moveUpShortcut, for the child on `side` beside an empty sibling */
    method MoveUpShortcut(shortcut: Slot, side: bool, oldRoot: Slot, batch: array<Slot>, i: nat, height: nat)
      returns (res: Outcome)
      requires Stores() && batch.Length == BATCH_LEN && height > 0 && OnLevel(i, Levels(height))
      requires IsChild(shortcut) && TreeOf(shortcut).Leaf?
      requires Holds(batch[..], 2 * i + 1, Levels(height) - 1, if side then Empty else shortcut)
      requires Holds(batch[..], 2 * i + 2, Levels(height) - 1, if side then shortcut else Empty)
      modifies this`updatedNodes, batch
      ensures Stores() && old(updatedNodes).Keys <= updatedNodes.Keys
      ensures var s := TreeOf(shortcut);
              var moved := Leaf(s.key, s.value, height % 256);
              && (res.Done? ==>
                   && res == Done(SlotOf(moved), true)
                   && Holds(batch[..], i, Levels(height), res.node)
                   && Grown(old(updatedNodes), updatedNodes, Cached(moved, oldRoot, height)))
              && (Available(old(View()), s, height - 1) ==> res.Done?)
      ensures height % 4 != 0 ==> SameOutside(old(batch[..]), batch[..], i)
    {
      hide Holds, Below, Available, Grown, Cached;
      ghost var s := shortcut.word;
      AvailableCases(View(), s, height - 1);
      var j := if side then 2 * i + 2 else 2 * i + 1;
      var k, v;
      if (height - 1) % 4 == 0 {
        var b := LoadBatch(db.nodes + updatedNodes, shortcut);
        if |b| != BATCH_LEN {
          return Failed;
        }
        ShortcutBatch(b, s);
        k, v := b[1], b[2];
        HoldsBottom(batch[..], j, Empty);
      } else {
        ShortcutChildren(batch[..], j, Levels(height) - 1, shortcut);
        k, v := batch[2 * j + 1], batch[2 * j + 2];
        ghost var was := batch[..];
        batch[2 * j + 1] := Empty;
        batch[2 * j + 2] := Empty;
        HoldsCleared(was, batch[..], j, Levels(height) - 1, shortcut);
        SiblingKept(was, batch[..], i, Levels(height), side, Empty);
      }
      var h := Entry(Leaf(k.word, v.word, height % 256), 1);
      HoldsNothing(batch[..], 2 * i + 1, Levels(height) - 1, Empty, k);
      HoldsNothing(batch[..], 2 * i + 2, Levels(height) - 1, Empty, v);
      PutShortcut(k, v, h, oldRoot, batch, i, height);
      res := Done(h, true);
    }

    /** maybeMoveUpShortcut when something was deleted, interiorHash when nothing moves */
    method FinishNode(left: Slot, right: Slot, deleted: bool, oldRoot: Slot, batch: array<Slot>, i: nat, height: nat)
      returns (res: Outcome)
      requires Stores() && batch.Length == BATCH_LEN && height > 0 && OnLevel(i, Levels(height))
      requires IsChild(left) && IsChild(right) && (left.Empty? && right.Empty? ==> deleted)
      requires Holds(batch[..], 2 * i + 1, Levels(height) - 1, left)
      requires Holds(batch[..], 2 * i + 2, Levels(height) - 1, right)
      modifies this`updatedNodes, batch
      ensures Stores() && old(updatedNodes).Keys <= updatedNodes.Keys
      ensures var l, r := TreeOf(left), TreeOf(right);
              var u := if deleted then Join(l, r, height) else Updated(Node(l, r), false);
              && (res.Done? ==>
                   && IsResult(res, u)
                   && (height % 4 != 0 ==> Holds(batch[..], i, Levels(height), res.node))
                   && (height % 4 == 0 && !res.node.Empty? && res.node != oldRoot ==> u.tree in updatedNodes)
                   && Grown(old(updatedNodes), updatedNodes, Cached(u.tree, oldRoot, height)))
              && (Available(old(View()), l, height - 1) && Available(old(View()), r, height - 1) ==> res.Done?)
      ensures height % 4 != 0 ==> SameOutside(old(batch[..]), batch[..], i)
    {
      hide Holds;
      if deleted {
        if left.Empty? && right.Empty? {
          if i != 0 {
            WriteChildren(Empty, Empty, 0, batch, i, height, Empty);
          }
          return Done(Empty, true);
        } else if left.Empty? {
          if right.flag == 1 {
            res := MoveUpShortcut(right, true, oldRoot, batch, i, height);
            return;
          }
        } else if right.Empty? {
          if left.flag == 1 {
            res := MoveUpShortcut(left, false, oldRoot, batch, i, height);
            return;
          }
        }
      }
      var h := InteriorHash(left, right, oldRoot, batch, i, height);
      res := Done(h, false);
    }

    /** The part of a batch that falls on one side, and its effect on the shared slots. */
    method UpdateSide(child: Slot, part: seq<KV>, side: bool, batch: array<Slot>, i: nat, height: nat)
      returns (res: Outcome)
      requires Stores() && batch.Length == BATCH_LEN && 0 < height <= TRIE_HEIGHT && OnLevel(i, Levels(height))
      requires IsChild(child) && Shaped(TreeOf(child), height - 1) && (Sorted(part) || child.Empty?)
      requires var c := if side then 2 * i + 2 else 2 * i + 1;
               batch[c] == child && Holds(batch[..], c, Levels(height) - 1, child)
      modifies this`updatedNodes, batch
      ensures Stores() && old(updatedNodes).Keys <= updatedNodes.Keys
      ensures var c := if side then 2 * i + 2 else 2 * i + 1;
              var d := TreeOf(child);
              var u := OnSide(child, part, height);
              && SameOutside(old(batch[..]), batch[..], c)
              && (res.Done? ==>
                   && IsResult(res, u) && Holds(batch[..], c, Levels(height) - 1, res.node)
                   && Grown(old(updatedNodes), updatedNodes, WrittenOnSide(child, part, height)))
              && (Available(old(View()), d, height - 1) ==> res.Done? && Available(View(), u.tree, height - 1))
      decreases height, 0
    {
      hide Holds, Below, UpdateTree, Written;
      if part == [] {
        return Done(child, false);
      }
      res := UpdateNode(child, part, batch, if side then 2 * i + 2 else 2 * i + 1, height - 1);
    }

    /** Both sides of a node, in either order: the two runs do not see each other. */
    method UpdateBoth(left: Slot, right: Slot, lpart: seq<KV>, rpart: seq<KV>, batch: array<Slot>, i: nat, height: nat)
      returns (lres: Outcome, rres: Outcome)
      requires Stores() && batch.Length == BATCH_LEN && 0 < height <= TRIE_HEIGHT && OnLevel(i, Levels(height))
      requires IsChild(left) && IsChild(right)
      requires Sorted(lpart) || left.Empty?
      requires Sorted(rpart) || right.Empty?
      requires Shaped(TreeOf(left), height - 1) && Shaped(TreeOf(right), height - 1)
      requires batch[2 * i + 1] == left && batch[2 * i + 2] == right
      requires Holds(batch[..], 2 * i + 1, Levels(height) - 1, left)
      requires Holds(batch[..], 2 * i + 2, Levels(height) - 1, right)
      modifies this`updatedNodes, batch
      ensures Stores() && old(updatedNodes).Keys <= updatedNodes.Keys
      ensures SameOutside(old(batch[..]), batch[..], i)
      ensures lres.Done? ==>
                && IsResult(lres, OnSide(left, lpart, height))
                && Holds(batch[..], 2 * i + 1, Levels(height) - 1, lres.node)
      ensures rres.Done? ==>
                && IsResult(rres, OnSide(right, rpart, height))
                && Holds(batch[..], 2 * i + 2, Levels(height) - 1, rres.node)
      ensures lres.Done? && rres.Done? ==>
                Grown(old(updatedNodes), updatedNodes, WrittenOnSide(left, lpart, height) + WrittenOnSide(right, rpart, height))
      ensures Available(old(View()), TreeOf(left), height - 1) ==>
                lres.Done? && Available(View(), OnSide(left, lpart, height).tree, height - 1)
      ensures Available(old(View()), TreeOf(right), height - 1) ==>
                rres.Done? && Available(View(), OnSide(right, rpart, height).tree, height - 1)
      decreases height, 1
    {
      hide Holds, Below, UpdateTree, Written, WrittenOnSide, Grown, Available;
      ghost var was, view0, cache0 := batch[..], View(), updatedNodes;
      if * {
        lres := UpdateSide(left, lpart, false, batch, i, height);
        ghost var mid, view1, cache1 := batch[..], View(), updatedNodes;
        SiblingKept(was, mid, i, Levels(height), false, right);
        StillAvailable(view0, view1, TreeOf(right), height - 1);
        rres := UpdateSide(right, rpart, true, batch, i, height);
        SiblingKept(mid, batch[..], i, Levels(height), true, if lres.Done? then lres.node else Empty);
        StillAvailable(view1, View(), OnSide(left, lpart, height).tree, height - 1);
        if lres.Done? && rres.Done? {
          GrownTwice(cache0, cache1, updatedNodes, WrittenOnSide(left, lpart, height), WrittenOnSide(right, rpart, height));
        }
      } else {
        rres := UpdateSide(right, rpart, true, batch, i, height);
        ghost var mid, view1, cache1 := batch[..], View(), updatedNodes;
        SiblingKept(was, mid, i, Levels(height), true, left);
        StillAvailable(view0, view1, TreeOf(left), height - 1);
        lres := UpdateSide(left, lpart, false, batch, i, height);
        SiblingKept(mid, batch[..], i, Levels(height), false, if rres.Done? then rres.node else Empty);
        StillAvailable(view1, View(), OnSide(right, rpart, height).tree, height - 1);
        if lres.Done? && rres.Done? {
          GrownTwice(cache0, cache1, updatedNodes, WrittenOnSide(right, rpart, height), WrittenOnSide(left, lpart, height));
        }
      }
    }

    /** updateLeft, updateRight and updateParallel */
    method UpdateBranches(left: Slot, right: Slot, oldRoot: Slot, all: seq<KV>, batch: array<Slot>, i: nat, height: nat)
      returns (res: Outcome)
      requires Stores() && batch.Length == BATCH_LEN && 0 < height <= TRIE_HEIGHT && OnLevel(i, Levels(height))
      requires all != [] && IsChild(left) && IsChild(right)
      requires Sorted(all) || (left.Empty? && right.Empty?)
      requires Shaped(TreeOf(left), height - 1) && Shaped(TreeOf(right), height - 1)
      requires batch[2 * i + 1] == left && batch[2 * i + 2] == right
      requires Holds(batch[..], 2 * i + 1, Levels(height) - 1, left)
      requires Holds(batch[..], 2 * i + 2, Levels(height) - 1, right)
      requires height % 4 == 0 && oldRoot.Entry? ==> oldRoot.word in View()
      modifies this`updatedNodes, batch
      ensures Stores() && old(updatedNodes).Keys <= updatedNodes.Keys
      ensures var u := UpdateChildren(TreeOf(left), TreeOf(right), all, height);
              && (res.Done? ==>
                   && IsResult(res, u)
                   && Grown(old(updatedNodes), updatedNodes, WrittenBelow(left, right, oldRoot, all, height))
                   && (height % 4 != 0 ==> Holds(batch[..], i, Levels(height), res.node)))
              && (Available(old(View()), TreeOf(left), height - 1) && Available(old(View()), TreeOf(right), height - 1)
                  ==> res.Done? && Available(View(), u.tree, height))
      ensures height % 4 != 0 ==> SameOutside(old(batch[..]), batch[..], i)
      decreases height, 2
    {
      hide Holds, Below, UpdateTree, UpdateChildren, Available, OnLevel, Shaped, SlotOf, Coherent, Sorted, Join, Written, WrittenBelow, WrittenOnSide, Cached, Grown, Split, OnSide;
      ghost var cache0 := updatedNodes;
      var s := Split(all, TRIE_HEIGHT - height);
      if Sorted(all) {
        SortedParts(all, s);
      }
      var lres, rres := UpdateBoth(left, right, all[..s], all[s..], batch, i, height);
      if lres.Failed? || rres.Failed? {
        return Failed;
      }
      SidesJoin(left, right, all, height, lres, rres);
      SidesWritten(left, right, oldRoot, all, height);
      ghost var l, r, view, cache1 := TreeOf(lres.node), TreeOf(rres.node), View(), updatedNodes;
      var deleted := lres.deleted || rres.deleted;
      res := FinishNode(lres.node, rres.node, deleted, oldRoot, batch, i, height);
      SlotOfShaped(UpdateChildren(TreeOf(left), TreeOf(right), all, height).tree, height);
      StillAvailable(view, View(), l, height - 1);
      StillAvailable(view, View(), r, height - 1);
      if res.Done? {
        GrownTwice(cache0, cache1, updatedNodes,
                   WrittenOnSide(left, all[..s], height) + WrittenOnSide(right, all[s..], height),
                   Cached(UpdateChildren(TreeOf(left), TreeOf(right), all, height).tree, oldRoot, height));
      }
      if Available(view, l, height - 1) && Available(view, r, height - 1) {
        AvailableJoin(View(), l, r, deleted, height);
      }
    }

    /** update, once the children are loaded */
    method UpdateLoaded(root: Slot, kvs: seq<KV>, isShortcut: bool, batch: array<Slot>, i: nat, height: nat)
      returns (res: Outcome)
      requires Stores() && 0 < height <= TRIE_HEIGHT && IsRoot(root) && Shaped(TreeOf(root), height)
      requires kvs != [] && (Sorted(kvs) || root.Empty?)
      requires batch.Length == BATCH_LEN && OnLevel(i, Levels(height))
      requires Holds(batch[..], i, Levels(height), SlotOf(TreeOf(root)))
      requires isShortcut <==> TreeOf(root).Leaf?
      requires height % 4 == 0 && root.Entry? ==> root.word in View()
      modifies this`updatedNodes, batch
      ensures Stores() && old(updatedNodes).Keys <= updatedNodes.Keys
      ensures var u := UpdateTree(TreeOf(root), kvs, height);
              && (res.Done? ==>
                   && IsResult(res, u)
                   && Grown(old(updatedNodes), updatedNodes, Written(root, kvs, height))
                   && (height % 4 != 0 ==> Holds(batch[..], i, Levels(height), res.node)))
              && (Available(old(View()), TreeOf(root), height) ==> res.Done? && Available(View(), u.tree, height))
      ensures height % 4 != 0 ==> SameOutside(old(batch[..]), batch[..], i)
      ensures OnlyDeletes(TreeOf(root), kvs) ==> updatedNodes == old(updatedNodes)
      decreases height, 3
    {
      hide Holds, Below, OnLevel, WithShortcut, UpdateTree, UpdateChildren, Available, Shaped, Written, WrittenBelow, Grown, Cached, Sorted, Coherent;
      ghost var was, d := batch[..], TreeOf(root);
      UpdateCases(d, kvs, height);
      WrittenCases(root, kvs, height);
      AvailableCases(View(), d, height);
      AvailableCases(View(), Default, height - 1);
      HoldsElim(was, i, Levels(height), SlotOf(TreeOf(root)));
      var left, right, all := batch[2 * i + 1], batch[2 * i + 2], kvs;
      if isShortcut {
        all := MaybeAddShortcutToKV(kvs, KV(left.word.bytes, right.word));
        if OnlyDeletes(TreeOf(root), kvs) {
          OnlyDeletesMerges(TreeOf(root), kvs);
        }
        left, right := Empty, Empty;
        batch[2 * i + 1] := Empty;
        batch[2 * i + 2] := Empty;
        HoldsCleared(was, batch[..], i, Levels(height), SlotOf(TreeOf(root)));
        HoldsElim(batch[..], i, Levels(height), Empty);
        if all == [] {
          NotGrown(updatedNodes, root, height);
          return Done(Empty, true);
        }
      }
      if left.Empty? && right.Empty? && |all| == 1 {
        if all[0].value == Default {
          NotGrown(updatedNodes, root, height);
          return Done(Empty, true);
        }
        var h := LeafHash(all[0], root, batch, i, height);
        AvailableCases(View(), h.word, height);
        return Done(h, false);
      }
      res := UpdateBranches(left, right, root, all, batch, i, height);
    }

    /** update */
    method UpdateNode(root: Slot, kvs: seq<KV>, batch: array?<Slot>, index: nat, height: nat)
      returns (res: Outcome)
      requires Stores() && height <= TRIE_HEIGHT && IsRoot(root) && Shaped(TreeOf(root), height)
      requires Sorted(kvs) || root.Empty?
      requires height % 4 != 0 ==> batch != null
      requires batch != null ==>
                 && batch.Length == BATCH_LEN && OnLevel(index, height % 4)
                 && Positioned(batch[..], index, height, root)
      modifies this`updatedNodes, if batch == null then {} else {batch}
      ensures Stores() && old(updatedNodes).Keys <= updatedNodes.Keys
      ensures kvs == [] ==> res.Failed? && updatedNodes == old(updatedNodes)
      ensures height > 0 && OnlyDeletes(TreeOf(root), kvs) ==> updatedNodes == old(updatedNodes)
      ensures kvs != [] ==>
                var u := UpdateTree(TreeOf(root), kvs, height);
                && (res.Done? ==>
                     && IsResult(res, u)
                     && Grown(old(updatedNodes), updatedNodes, Written(root, kvs, height))
                     && (batch != null ==> Holds(batch[..], index, height % 4, res.node)))
                && (Available(old(View()), TreeOf(root), height) ==> res.Done? && Available(View(), u.tree, height))
      ensures batch != null ==> SameOutside(old(batch[..]), batch[..], index)
      decreases height, 4
    {
      hide Holds, Below, UpdateTree, Written;
      if kvs == [] {
        return Failed;
      }
      if height == 0 {
        res := UpdateBottom(root, kvs[0]);
        UpdateAtBottom(TreeOf(root), kvs);
        WrittenAtBottom(root, kvs);
        if batch != null && res.Done? {
          HoldsBottom(batch[..], index, res.node);
        }
      } else if height % 4 == 0 {
        var content := if root.Empty? then NoSlots()[0 := Marker(0)] else LoadBatch(db.nodes + updatedNodes, root);
        LoadChildrenFinds(View(), root, height, 0, []);
        if |content| != BATCH_LEN {
          return Failed;
        }
        var loaded := new Slot[BATCH_LEN](j requires 0 <= j < BATCH_LEN => content[j]);
        assert loaded[..] == content;
        res := UpdateLoaded(root, kvs, loaded[0] == Marker(1), loaded, 0, height);
        if batch != null && res.Done? {
          HoldsBottom(batch[..], index, res.node);
        }
      } else {
        LoadChildrenFinds(View(), root, height, index, batch[..]);
        res := UpdateLoaded(root, kvs, batch[index].Entry? && batch[index].flag == 1, batch, index, height);
      }
    }

    /** update at height 0 */
    method UpdateBottom(root: Slot, kv: KV) returns (res: Outcome)
      requires Stores() && IsRoot(root) && Shaped(TreeOf(root), 0)
      modifies this`updatedNodes
      ensures Stores() && old(updatedNodes).Keys <= updatedNodes.Keys
      ensures IsResult(res, PutOne(kv, 0))
      ensures Grown(old(updatedNodes), updatedNodes, Cached(PutOne(kv, 0).tree, root, 0))
      ensures Available(old(View()), TreeOf(root), 0) ==> Available(View(), PutOne(kv, 0).tree, 0)
    {
      hide Holds, Below;
      if kv.value == Default {
        return Done(Empty, true);
      }
      var batch := new Slot[BATCH_LEN](_ => Empty);
      EmptyBelow(batch[..], 0, 4);
      var h := LeafHash(kv, root, batch, 0, 0);
      res := Done(h, false);
    }

    // ----- the public operations

    ghost predicate Valid()
      reads this, db
    {
      Stores() && db.Valid() && Reachable(View(), root) && Reachable(db.nodes, prevRoot)
    }

    /** Get */
    method Get(key: Key) returns (value: Option<Word>)
      requires Valid()
      ensures value == Lookup(TreeOf(root), key, TRIE_HEIGHT)
      ensures Canonical(TreeOf(root), []) ==> value == MapGet(MapOf(TreeOf(root)), key)
    {
      hide GetNode, Lookup, Available, Canonical, MapOf, MapGet, Shaped, IsBatch;
      var nodes := db.nodes + updatedNodes;
      GetNodeFinds(nodes, root, key, [], 0, TRIE_HEIGHT);
      var g := GetNode(nodes, root, key, [], 0, TRIE_HEIGHT);
      value := g.value;
      if Canonical(TreeOf(root), []) {
        LookupIsMapGet(TreeOf(root), key, []);
      }
    }

    /** The checks with which Update begins */
    method CheckBatch(keys: seq<seq<bv8>>, values: seq<Field>) returns (problem: Option<Reason>)
      requires Valid()
      ensures problem.None? <==>
                && WellSized(keys, values) && Distinct(keys)
                && forall i :: 0 <= i < |keys| ==> Permitted(TreeOf(root), KV(keys[i], values[i].word))
      ensures Explained(TreeOf(root), keys, values, problem)
      ensures Canonical(TreeOf(root), []) && WellSized(keys, values) && Distinct(keys) ==>
                OnMap(MapOf(TreeOf(root)), keys, values, problem)
    {
      hide Lookup, Available, Coherent, Shaped, Canonical, MapOf, Distinct, TreeOf, FirstRefused, Permitted, OnMap, Explained;
      if |keys| != |values| {
        LengthsExplained(TreeOf(root), keys, values);
        return Some(LengthMismatch);
      }
      var keySet: set<seq<bv8>> := {};
      for i := 0 to |keys|
        invariant forall j :: 0 <= j < i ==> |keys[j]| == HASH_LEN && values[j].Sized?
        invariant keySet == set j | 0 <= j < i :: keys[j]
      {
        keySet := keySet + {keys[i]};
        if |keys[i]| != HASH_LEN || !values[i].Sized? {
          SizeExplained(TreeOf(root), keys, values, i);
        }
        if |keys[i]| != HASH_LEN {
          return Some(BadKeyLength);
        }
        if !values[i].Sized? {
          return Some(BadValueLength);
        }
      }
      KeySetSize(keys, keySet);
      if !Distinct(keys) {
        ValuesExplained(TreeOf(root), keys, values, Some(DuplicateKey));
      }
      if |keySet| != |keys| {
        return Some(DuplicateKey);
      }
      problem := CheckValues(keys, values);
      ValuesExplained(TreeOf(root), keys, values, problem);
    }

    /** The last of these checks, against the values in the trie */
    method CheckValues(keys: seq<seq<bv8>>, values: seq<Field>) returns (problem: Option<Reason>)
      requires Valid() && WellSized(keys, values)
      ensures problem.None? || problem == Some(MissingKey) || problem == Some(Conflict)
      ensures problem.None? <==> forall i :: 0 <= i < |keys| ==> Permitted(TreeOf(root), KV(keys[i], values[i].word))
      ensures problem == Some(MissingKey) <==> exists i :: FirstRefused(TreeOf(root), keys, values, i) && values[i].word == Default
      ensures problem == Some(Conflict) <==> exists i :: FirstRefused(TreeOf(root), keys, values, i) && values[i].word != Default
      ensures Canonical(TreeOf(root), []) ==> OnMap(MapOf(TreeOf(root)), keys, values, problem)
    {
      hide Lookup, Available, Coherent, Shaped, Canonical, MapOf, TreeOf, OnMap;
      problem := None;
      for i := 0 to |keys|
        invariant problem.None?
        invariant forall j :: 0 <= j < i ==> Permitted(TreeOf(root), KV(keys[j], values[j].word))
      {
        var v := Get(keys[i]);
        if !Permitted(TreeOf(root), KV(keys[i], values[i].word)) {
          FirstRefusedOnce(TreeOf(root), keys, values, i);
        }
        if values[i].word == Default {
          if v.None? {
            problem := Some(MissingKey);
            break;
          }
        } else if v.Some? && v.value != values[i].word {
          problem := Some(Conflict);
          break;
        }
      }
      if Canonical(TreeOf(root), []) {
        hide Permitted, FirstRefused;
        SameOnMap(TreeOf(root), keys, values, problem);
      }
    }

    /** Update */
    method Update(keys: seq<seq<bv8>>, values: seq<Field>) returns (res: UpdateResult)
      requires Valid() && InOrder(keys)
      modifies this`root, this`updatedNodes
      ensures Valid() && prevRoot == old(prevRoot)
      ensures res.Rejected? ==> root == old(root) && updatedNodes == old(updatedNodes)
      ensures if keys == [] && values == [] then res == Rejected(NoKeys)
              else Explained(TreeOf(old(root)), keys, values, if res.Rejected? then Some(res.reason) else None)
      ensures res.Accepted? <==>
                && WellSized(keys, values) && Distinct(keys) && keys != []
                && forall i :: 0 <= i < |keys| ==> Permitted(TreeOf(old(root)), KV(keys[i], values[i].word))
      ensures res.Accepted? ==>
                && res.root == root
                && Sorted(Zip(keys, values))
                && root == RootOf(UpdateTree(TreeOf(old(root)), Zip(keys, values), TRIE_HEIGHT).tree)
                && Grown(old(updatedNodes), updatedNodes, Written(old(root), Zip(keys, values), TRIE_HEIGHT))
      ensures res.Accepted? && Canonical(TreeOf(old(root)), []) ==>
                var kvs := Zip(keys, values);
                var m := Apply(MapOf(TreeOf(old(root))), Asked(kvs));
                && (root == RootOf(Canon(m, [])) <==> Rescues(MapOf(TreeOf(old(root))), kvs, 0, |kvs|))
                && (root == RootOf(Canon(m, [])) ==>
                    Canonical(TreeOf(root), []) && MapOf(TreeOf(root)) == m && (root.Empty? <==> m == map[]))
      ensures Canonical(TreeOf(old(root)), []) ==>
                var m := MapOf(TreeOf(old(root)));
                && (WellSized(keys, values) && Distinct(keys) && keys != [] ==>
                     var kvs := Zip(keys, values);
                     (res.Rejected? <==>
                      exists i :: 0 <= i < |kvs|
                                  && (if kvs[i].value == Default then kvs[i].key !in m
                                      else kvs[i].key in m && m[kvs[i].key] != kvs[i].value)))
                && (res.Accepted? ==>
                     var now := Apply(m, Asked(Zip(keys, values)));
                     forall k :: k in m && k in now ==> now[k] == m[k])
      ensures res.Accepted? && OnlyDeletes(TreeOf(old(root)), Zip(keys, values)) ==> updatedNodes == old(updatedNodes)
    {
      hide Less, Lookup, Available, Coherent, Shaped, Canonical, MapOf, UpdateTree, Rescues, Asked, Apply, Canon, Permitted, Written, Grown, Explained;
      var problem := CheckBatch(keys, values);
      if problem.Some? {
        if WellSized(keys, values) && Distinct(keys) && Canonical(TreeOf(root), []) {
          SomeContradicts(MapOf(TreeOf(root)), keys, values, problem);
        }
        return Rejected(problem.value);
      }
      var kvs := Zip(keys, values);
      ZipSorted(keys, values);
      ghost var before := View();
      var out := UpdateNode(root, kvs, null, 0, TRIE_HEIGHT);
      StillReachable(before, View(), root);
      if out.Failed? {
        return Rejected(if keys == [] then NoKeys else NodeUnavailable);
      }
      if Canonical(TreeOf(root), []) {
        PermittedExactly(TreeOf(root), kvs);
        NothingOverwritten(MapOf(TreeOf(root)), kvs);
      }
      RootOfShaped(UpdateTree(TreeOf(root), kvs, TRIE_HEIGHT).tree);
      root := if out.node.Empty? then Empty else Bare(out.node.word);
      res := Accepted(root);
    }

    /** Commit */
    method Commit(height: nat) returns (r: Slot)
      requires Valid()
      modifies this`updatedNodes, this`prevRoot, db
      ensures Valid() && r == root == prevRoot && updatedNodes == map[]
      ensures View() == old(View()) == db.nodes
      ensures db.roots == old(db.roots)[height := root] && db.commitHeight == height
    {
      hide Available, Shaped, IsBatch;
      ghost var view, before := View(), db.nodes;
      db.PutAll(updatedNodes);
      forall h | h in db.roots
        ensures Reachable(db.nodes, db.roots[h])
      {
        StillReachable(before, db.nodes, db.roots[h]);
      }
      db.commitHeight := height;
      db.roots := db.roots[height := root];
      updatedNodes, prevRoot := map[], root;
      assert View() == db.nodes == view;
      r := root;
    }

    /** Discard goes back to the last committed root exactly if a node was stored or nothing changed. */
    method Discard()
      requires Valid()
      modifies this`root, this`updatedNodes
      ensures Valid() && updatedNodes == map[]
      ensures root == if old(updatedNodes) == map[] then old(root) else prevRoot
      ensures root == prevRoot <==> old(updatedNodes) != map[] || old(root) == prevRoot
    {
      hide Available, Shaped, IsBatch;
      if updatedNodes != map[] {
        root := prevRoot;
        updatedNodes := map[];
        StillReachable(db.nodes, View(), prevRoot);
      }
    }

    /** NewSMTForHeight */
    static method OpenAt(db: Database, height: nat) returns (r: Option<SMT>)
      requires db.Valid()
      ensures r.None? <==> height !in db.roots
      ensures r.Some? ==>
                && fresh(r.value) && r.value.db == db && r.value.Valid()
                && r.value.root == db.roots[height] && r.value.updatedNodes == map[] && r.value.prevRoot == Empty
    {
      if height !in db.roots {
        return None;
      }
      var smt := new SMT(db, db.roots[height]);
      StillReachable(db.nodes, smt.View(), smt.root);
      r := Some(smt);
    }
  }

  lemma {:induction false} KeySetSize(keys: seq<seq<bv8>>, keySet: set<seq<bv8>>)
    requires keySet == set j | 0 <= j < |keys| :: keys[j]
    ensures |keySet| <= |keys|
    ensures |keySet| == |keys| <==> Distinct(keys)
  {
    hide Distinct;
    if keys != [] {
      var n := |keys| - 1;
      var rest := set j | 0 <= j < n :: keys[..n][j];
      KeySetSize(keys[..n], rest);
      DistinctLast(keys);
      assert keySet == rest + {keys[n]};
      assert keys[n] in keys[..n] <==> keys[n] in rest;
    } else {
      assert Distinct(keys) by { DistinctNothing(); }
    }
  }

  lemma DistinctNothing()
    ensures Distinct([])
  {
  }

  lemma DistinctLast(keys: seq<seq<bv8>>)
    requires keys != []
    ensures Distinct(keys) <==> Distinct(keys[..|keys| - 1]) && keys[|keys| - 1] !in keys[..|keys| - 1]
  {
    var n := |keys| - 1;
    if Distinct(keys) {
      assert forall i :: 0 <= i < n ==> keys[..n][i] == keys[i];
    }
  }

  /**
   Why the condition on Discard matters: deleting the last key stores nothing, so discarding
   it does not bring the committed root back.
   */
  method DiscardAfterEmptying(smt: SMT, k: Key) returns (res: UpdateResult)
    requires smt.Valid() && smt.updatedNodes == map[] && smt.root == smt.prevRoot
    requires TreeOf(smt.root).Leaf? && TreeOf(smt.root).key == Bytes(k)
    modifies smt
    ensures res.Accepted? && smt.root == Empty && smt.prevRoot == old(smt.prevRoot) != Empty
  {
    hide Less, Canonical, MapOf, Rescues, Asked, Apply, Canon, Available, Coherent, Explained;
    var keys, values := [k], [Sized(Default)];
    assert Zip(keys, values) == [KV(k, Default)];
    res := smt.Update(keys, values);
    OnlyDeletesMerges(TreeOf(old(smt.root)), [KV(k, Default)]);
    smt.Discard();
  }

  // ----- versions

  datatype Op = DoUpdate(keys: seq<seq<bv8>>, values: seq<Field>) | DoCommit(height: nat) | DoDiscard

  /**
   Any run of one trie object on a database leaves every other object on it readable at its
   own root, and every version on record that the run does not commit anew.
   */
  method RunBeside(reader: SMT, writer: SMT, ops: seq<Op>)
    requires reader != writer && reader.db == writer.db && reader.Valid() && writer.Valid()
    requires forall i :: 0 <= i < |ops| && ops[i].DoUpdate? ==> InOrder(ops[i].keys)
    modifies writer, writer.db
    ensures reader.Valid() && writer.Valid()
    ensures forall h :: h in old(writer.db.roots) && DoCommit(h) !in ops ==>
              h in writer.db.roots && writer.db.roots[h] == old(writer.db.roots[h])
  {
    hide Less, Available, Coherent, Shaped, Canonical, MapOf, UpdateTree, Rescues, Asked, Apply, Canon, Written, Grown, Explained, Permitted, Sorted, Distinct;
    ghost var db := writer.db;
    for i := 0 to |ops|
      invariant reader.Valid() && writer.Valid()
      invariant forall h :: h in old(db.roots) && DoCommit(h) !in ops ==>
                  h in db.roots && db.roots[h] == old(db.roots[h])
    {
      ghost var nodes := db.nodes;
      match ops[i]
      case DoUpdate(keys, values) =>
        var _ := writer.Update(keys, values);
      case DoCommit(height) =>
        var _ := writer.Commit(height);
        StillReachable(nodes + reader.updatedNodes, reader.View(), reader.root);
        StillReachable(nodes, db.nodes, reader.prevRoot);
      case DoDiscard =>
        writer.Discard();
    }
  }

  /** An accepted batch after which the trie is not empty. */
  predicate LeftKeys(r: UpdateResult) {
    r.Accepted? && !r.root.Empty?
  }

  predicate AnyLeftKeys(results: seq<UpdateResult>) {
    exists i :: 0 <= i < |results| && LeftKeys(results[i])
  }

  predicate AnyAccepted(results: seq<UpdateResult>) {
    exists i :: 0 <= i < |results| && results[i].Accepted?
  }

  lemma AnyNext(results: seq<UpdateResult>, r: UpdateResult)
    ensures AnyLeftKeys(results + [r]) <==> AnyLeftKeys(results) || LeftKeys(r)
    ensures AnyAccepted(results + [r]) <==> AnyAccepted(results) || r.Accepted?
    ensures !AnyLeftKeys([]) && !AnyAccepted([])
  {
    var all := results + [r];
    assert all[|results|] == r;
    assert forall i :: 0 <= i < |results| ==> all[i] == results[i];
  }

  /** What an accepted batch does to the cache, by the root it returns. */
  lemma CacheStaysClean(root: Slot, kvs: seq<KV>, before: Nodes, after: Nodes)
    requires kvs != [] && Shaped(TreeOf(root), TRIE_HEIGHT) && (root.Bare? || root.Empty?)
    requires Grown(before, after, Written(root, kvs, TRIE_HEIGHT))
    ensures after == map[] <==> before == map[] && RootOf(UpdateTree(TreeOf(root), kvs, TRIE_HEIGHT).tree).Empty?
  {
    hide Written, UpdateTree, Shaped;
    WritesNothingIff(root, kvs);
    assert after == map[] <==> after.Keys == {};
    assert before == map[] <==> before.Keys == {};
  }

  /** A batch as a caller of Update passes it. */
  datatype Batched = Batched(keys: seq<seq<bv8>>, values: seq<Field>)

  /** One accepted batch of a run: whether it stores something shows in the root it returns. */
  method UpdateAndTell(smt: SMT, batch: Batched) returns (r: UpdateResult)
    requires smt.Valid() && InOrder(batch.keys)
    modifies smt`root, smt`updatedNodes
    ensures smt.Valid() && smt.prevRoot == old(smt.prevRoot)
    ensures r.Rejected? ==> smt.root == old(smt.root) && smt.updatedNodes == old(smt.updatedNodes)
    ensures r.Accepted? ==> r.root == smt.root
    ensures r.Accepted? ==> (smt.updatedNodes == map[] <==> old(smt.updatedNodes) == map[] && !LeftKeys(r))
    ensures r.Accepted? && old(smt.root) == Empty ==> LeftKeys(r)
  {
    hide Less, Sorted, Lookup, Available, Coherent, Shaped, Canonical, MapOf, UpdateTree, Rescues, Asked, Apply, Canon, Written, Grown, Distinct, Explained;
    ghost var root, before := smt.root, smt.updatedNodes;
    r := smt.Update(batch.keys, batch.values);
    if r.Accepted? {
      ghost var kvs := Zip(batch.keys, batch.values);
      CacheStaysClean(root, kvs, before, smt.updatedNodes);
      if root == Empty {
        InsertsStay(kvs);
      }
    }
  }

  /**
   Any run of updates on a clean trie object, then Discard, by what its caller saw: the
   committed root is back if some accepted batch left keys; if accepted batches only emptied
   the trie, it stays empty.
   */
  method DiscardRun(smt: SMT, run: seq<Batched>) returns (results: seq<UpdateResult>)
    requires smt.Valid() && smt.updatedNodes == map[]
    requires forall i :: 0 <= i < |run| ==> InOrder(run[i].keys)
    modifies smt
    ensures smt.Valid() && smt.prevRoot == old(smt.prevRoot) && smt.updatedNodes == map[] && |results| == |run|
    ensures smt.root == if AnyLeftKeys(results) then smt.prevRoot else if AnyAccepted(results) then Empty else old(smt.root)
    ensures old(smt.root) == smt.prevRoot ==>
              (smt.root == smt.prevRoot <==> AnyLeftKeys(results) || !AnyAccepted(results))
  {
    hide *;
    results := [];
    AnyNext([], Rejected(NoKeys));
    for n := 0 to |run|
      invariant smt.Valid() && smt.prevRoot == old(smt.prevRoot) && |results| == n
      invariant smt.updatedNodes == map[] <==> !AnyLeftKeys(results)
      invariant !AnyAccepted(results) ==> smt.root == old(smt.root)
      invariant AnyAccepted(results) && !AnyLeftKeys(results) ==> smt.root == Empty && old(smt.root) != Empty
    {
      var r := UpdateAndTell(smt, run[n]);
      AnyNext(results, r);
      LeftKeysIs(r);
      results := results + [r];
    }
    smt.Discard();
  }

  lemma LeftKeysIs(r: UpdateResult)
    ensures LeftKeys(r) <==> r.Accepted? && r.root != Empty
  {
  }
}
