/**
 Fast sync as a protocol: ask for a root, store what verifies, ask for what it leads to.
 */
module FastSync {
  import opened Keys
  import opened Trie
  import opened TreeUpdate
  import opened Batch
  import opened Reads
  import opened Smt
  import opened Sync
  import opened BatchChecks
  import opened Mending

  datatype Reply = Refused | Crashed | Stored(subRoots: seq<Word>, layer: nat, leaves: seq<LeafNode>)

  /** StoreSnapShotNode, on the parsed batch: the leaves are collected only after the batch is stored. */
  method StoreSnapShotNode(db: Database, batch: seq<Slot>, root: Word, layer: nat) returns (reply: Reply)
    requires |batch| == BATCH_LEN
    modifies db`nodes
    ensures var v, leaves := VerifyBatch(batch, root, layer), FinalLeaves(batch, 0, 4);
            && (v.Panic? ==> reply == Crashed)
            && (v.Verdict? && !v.ok ==> reply == Refused)
            && (Accepts(v) ==>
                 reply == if leaves.None? then Crashed else Stored(InteriorNodes(batch), layer + 1, leaves.value))
            && db.nodes == if Accepts(v) then old(db.nodes)[root := batch] else old(db.nodes)
    ensures WellFlagged(batch) && reply != Refused ==> IsBatch(batch, root)
  {
    hide WellFlagged, InnerFits, VerifyBatch, FinalLeaves, InteriorNodes;
    if WellFlagged(batch) {
      WellFlaggedInner(batch);
      FittingNeverPanics(batch, root, layer);
    }
    var verdict := VerifyBatch(batch, root, layer);
    if verdict.Panic? {
      return Crashed;
    }
    if !verdict.ok {
      return Refused;
    }
    if WellFlagged(batch) {
      CheckSound(batch, root, layer);
    }
    db.nodes := db.nodes[root := batch];
    var subRoots := InteriorNodes(batch);
    var leaves := FinalLeaves(batch, 0, 4);
    if leaves.None? {
      return Crashed;
    }
    reply := Stored(subRoots, layer + 1, leaves.value);
  }

  // ----- the leaves of a tree list its map

  lemma {:induction false} LeavesListMap(d: Word, path: seq<bool>)
    requires Canonical(d, path)
    ensures Sorted(AllLeaves(d)) && AllUnder(AllLeaves(d), path)
    ensures Asked(AllLeaves(d)) == MapOf(d)
    decreases d
  {
    hide Less, BitIsSet;
    if d.Leaf? {
      AskedOne(KV(d.key.bytes, d.value));
    } else if d.Node? {
      var a, b := AllLeaves(d.left), AllLeaves(d.right);
      LeavesListMap(d.left, path + [false]);
      LeavesListMap(d.right, path + [true]);
      forall i | 0 <= i < |a|
        ensures HasPrefix(a[i].key, path) && !BitIsSet(a[i].key, |path|)
      {
        PrefixDrop(a[i].key, path, false);
      }
      forall j | 0 <= j < |b|
        ensures HasPrefix(b[j].key, path) && BitIsSet(b[j].key, |path|)
      {
        PrefixDrop(b[j].key, path, true);
      }
      forall i, j | 0 <= i < |a| && 0 <= j < |b|
        ensures Less(a[i].key, b[j].key)
      {
        PrefixAgree(a[i].key, b[j].key, path);
        BitOrder(a[i].key, b[j].key, |path|);
      }
      SortedConcat(a, b);
      AskedConcat(a, b);
    }
  }

  // ----- what is still to come

  datatype Ask = Ask(digest: Word, layer: nat)

  /** A request for a subtree of the trie, at its own layer. */
  ghost predicate WellPlaced(a: Ask) {
    && 4 * a.layer <= TRIE_HEIGHT && !a.digest.Default?
    && exists path :: |path| == 4 * a.layer && Canonical(a.digest, path)
  }

  /** Every batch below a subtree is in the store, or below something still asked for. */
  predicate Covered(nodes: Nodes, pending: seq<Ask>, d: Word, height: nat) {
    || d.Default?
    || (height % 4 == 0 && height <= TRIE_HEIGHT && Ask(d, (TRIE_HEIGHT - height) / 4) in pending)
    || (&& (height % 4 == 0 ==> d in nodes)
        && (d.Node? ==>
             height > 0 && Covered(nodes, pending, d.left, height - 1) && Covered(nodes, pending, d.right, height - 1)))
  }

  lemma {:induction false} NothingPending(nodes: Nodes, d: Word, height: nat)
    requires Covered(nodes, [], d, height)
    ensures Available(nodes, d, height)
    decreases d
  {
    if d.Node? {
      NothingPending(nodes, d.left, height - 1);
      NothingPending(nodes, d.right, height - 1);
    }
  }

  /** Every one of these subtrees is asked for, or is a shortcut already stored. */
  predicate AsksFor(nodes: Nodes, pending: seq<Ask>, words: seq<Word>, layer: nat) {
    forall i :: 0 <= i < |words| ==> Ask(words[i], layer) in pending || (words[i].Leaf? && words[i] in nodes)
  }

  lemma AsksForParts(nodes: Nodes, pending: seq<Ask>, a: seq<Word>, b: seq<Word>, layer: nat)
    requires AsksFor(nodes, pending, a + b, layer)
    ensures AsksFor(nodes, pending, a, layer) && AsksFor(nodes, pending, b, layer)
  {
    forall i | 0 <= i < |a|
      ensures Ask(a[i], layer) in pending || (a[i].Leaf? && a[i] in nodes)
    {
      assert (a + b)[i] == a[i];
    }
    forall i | 0 <= i < |b|
      ensures Ask(b[i], layer) in pending || (b[i].Leaf? && b[i] in nodes)
    {
      assert (a + b)[|a| + i] == b[i];
    }
  }

  lemma {:induction false} FrontierCovered(nodes: Nodes, pending: seq<Ask>, d: Word, n: nat, height: nat)
    requires n < 4 && n <= height <= TRIE_HEIGHT && height % 4 == n
    requires AsksFor(nodes, pending, Frontier(d, n), (TRIE_HEIGHT - (height - n)) / 4)
    ensures Covered(nodes, pending, d, height)
    decreases n
  {
    if n == 0 {
      if !d.Default? {
        assert Frontier(d, 0)[0] == d;
      }
    } else if d.Node? {
      AsksForParts(nodes, pending, Frontier(d.left, n - 1), Frontier(d.right, n - 1), (TRIE_HEIGHT - (height - n)) / 4);
      FrontierCovered(nodes, pending, d.left, n - 1, height - 1);
      FrontierCovered(nodes, pending, d.right, n - 1, height - 1);
    }
  }

  /** Answering one request and asking for what it leads to keeps everything covered. */
  lemma {:induction false} CoveredStep(nodes: Nodes, pending: seq<Ask>, more: Nodes, next: seq<Ask>, got: Ask, d: Word, height: nat)
    requires Covered(nodes, pending, d, height)
    requires nodes.Keys <= more.Keys && got.digest in more && 4 * got.layer <= TRIE_HEIGHT
    requires got.digest.Node? ==> 4 * got.layer < TRIE_HEIGHT
    requires forall a :: a in pending ==> a == got || a in next
    requires AsksFor(more, next, Frontier(got.digest, 4), got.layer + 1)
    ensures Covered(more, next, d, height)
    decreases d
  {
    hide Frontier;
    if d.Default? {
    } else if height % 4 == 0 && height <= TRIE_HEIGHT && Ask(d, (TRIE_HEIGHT - height) / 4) in pending {
      if Ask(d, (TRIE_HEIGHT - height) / 4) !in next && d.Node? {
        FrontierOfNode(d, 4);
        AsksForParts(more, next, Frontier(d.left, 3), Frontier(d.right, 3), got.layer + 1);
        FrontierCovered(more, next, d.left, 3, height - 1);
        FrontierCovered(more, next, d.right, 3, height - 1);
      }
    } else if d.Node? {
      CoveredStep(nodes, pending, more, next, got, d.left, height - 1);
      CoveredStep(nodes, pending, more, next, got, d.right, height - 1);
    }
  }

  lemma FrontierOfNode(d: Word, n: nat)
    requires d.Node? && n > 0
    ensures Frontier(d, n) == Frontier(d.left, n - 1) + Frontier(d.right, n - 1)
  {
  }

  // ----- counting leaves and work

  function Bag(kvs: seq<KV>): multiset<KV> {
    multiset(kvs)
  }

  function Outstanding(words: seq<Word>): multiset<KV> {
    if words == [] then multiset{} else Bag(AllLeaves(words[0])) + Outstanding(words[1..])
  }

  function Size(d: Word): nat {
    match d
    case Node(l, r) => 1 + Size(l) + Size(r)
    case Leaf(_, _, _) => 1
    case _ => 0
  }

  function Work(words: seq<Word>): nat {
    if words == [] then 0 else Size(words[0]) + Work(words[1..])
  }

  lemma {:induction false} OutstandingConcat(a: seq<Word>, b: seq<Word>)
    ensures Outstanding(a + b) == Outstanding(a) + Outstanding(b)
  {
    hide AllLeaves, Bag;
    if a == [] {
      assert a + b == b;
    } else {
      OutstandingConcat(a[1..], b);
      assert (a + b)[1..] == a[1..] + b;
      Associative(Bag(AllLeaves(a[0])), Outstanding(a[1..]), Outstanding(b));
    }
  }

  lemma Associative(a: multiset<KV>, b: multiset<KV>, c: multiset<KV>)
    ensures a + (b + c) == (a + b) + c
  {
  }

  lemma {:induction false} WorkConcat(a: seq<Word>, b: seq<Word>)
    ensures Work(a + b) == Work(a) + Work(b)
  {
    hide Size;
    if a == [] {
      assert a + b == b;
    } else {
      WorkConcat(a[1..], b);
      assert (a + b)[1..] == a[1..] + b;
    }
  }

  lemma SumsConcat(a: seq<Word>, b: seq<Word>)
    ensures Outstanding(a + b) == Outstanding(a) + Outstanding(b)
    ensures Work(a + b) == Work(a) + Work(b)
  {
    OutstandingConcat(a, b);
    WorkConcat(a, b);
  }

  /** A batch delivers its own shortcuts; its sub-roots account for all others. */
  lemma {:induction false} FrontierLeaves(d: Word, n: nat)
    ensures Bag(AllLeaves(d)) == Bag(LeavesWithin(d, n)) + Outstanding(Frontier(d, n))
    decreases n
  {
    hide Outstanding, Bag;
    OutstandingOne(d);
    if n > 0 && d.Node? {
      FrontierLeavesNode(d, n);
    }
  }

  lemma {:induction false} FrontierLeavesNode(d: Word, n: nat)
    requires n > 0 && d.Node?
    ensures Bag(AllLeaves(d)) == Bag(LeavesWithin(d, n)) + Outstanding(Frontier(d, n))
    decreases n, 0
  {
    hide Outstanding, Bag;
    FrontierLeaves(d.left, n - 1);
    FrontierLeaves(d.right, n - 1);
    OutstandingConcat(Frontier(d.left, n - 1), Frontier(d.right, n - 1));
    LeafAlgebra(AllLeaves(d.left), AllLeaves(d.right), LeavesWithin(d.left, n - 1), LeavesWithin(d.right, n - 1),
                Outstanding(Frontier(d.left, n - 1)), Outstanding(Frontier(d.right, n - 1)));
  }

  lemma LeafAlgebra(a: seq<KV>, b: seq<KV>, c: seq<KV>, e: seq<KV>, x: multiset<KV>, y: multiset<KV>)
    requires Bag(a) == Bag(c) + x && Bag(b) == Bag(e) + y
    ensures Bag(a + b) == Bag(c + e) + (x + y)
  {
  }

  lemma OutstandingOne(d: Word)
    ensures Bag([]) == multiset{} && Outstanding([]) == multiset{} && Outstanding([d]) == Bag(AllLeaves(d))
  {
    assert [d][1..] == [];
  }

  lemma {:induction false} FrontierWork(d: Word, n: nat)
    ensures Work(Frontier(d, n)) <= Size(d)
    ensures n > 0 && (d.Leaf? || d.Node?) ==> Work(Frontier(d, n)) < Size(d)
    decreases n
  {
    if n == 0 {
      assert [d][1..] == [];
    } else if d.Node? {
      FrontierWork(d.left, n - 1);
      FrontierWork(d.right, n - 1);
      WorkConcat(Frontier(d.left, n - 1), Frontier(d.right, n - 1));
    }
  }

  lemma {:induction false} FrontierPlaced(d: Word, n: nat, path: seq<bool>, height: nat)
    requires Canonical(d, path) && |path| + height == TRIE_HEIGHT && n <= height && (height - n) % 4 == 0
    ensures forall x :: x in Frontier(d, n) ==> WellPlaced(Ask(x, (TRIE_HEIGHT - (height - n)) / 4))
    decreases n
  {
    if n > 0 && d.Node? {
      FrontierPlaced(d.left, n - 1, path + [false], height - 1);
      FrontierPlaced(d.right, n - 1, path + [true], height - 1);
    }
  }

  function Digests(asks: seq<Ask>): seq<Word> {
    seq(|asks|, i requires 0 <= i < |asks| => asks[i].digest)
  }

  function Asks(words: seq<Word>, layer: nat): (asks: seq<Ask>)
    ensures Digests(asks) == words && |asks| == |words|
    ensures forall i :: 0 <= i < |words| ==> asks[i] == Ask(words[i], layer)
    ensures forall a :: a in asks ==> a.digest in words && a.layer == layer
  {
    seq(|words|, i requires 0 <= i < |words| => Ask(words[i], layer))
  }

  lemma PendingSums(pending: seq<Ask>, k: nat, subRoots: seq<Word>, layer: nat)
    requires k < |pending|
    ensures var rest, d := pending[..k] + pending[k + 1..], pending[k].digest;
            && Outstanding(Digests(pending)) == Bag(AllLeaves(d)) + Outstanding(Digests(rest))
            && Work(Digests(pending)) == Size(d) + Work(Digests(rest))
            && Outstanding(Digests(rest + Asks(subRoots, layer))) == Outstanding(Digests(rest)) + Outstanding(subRoots)
            && Work(Digests(rest + Asks(subRoots, layer))) == Work(Digests(rest)) + Work(subRoots)
  {
    hide AllLeaves, Size;
    var a, b, d := Digests(pending[..k]), Digests(pending[k + 1..]), pending[k].digest;
    var rest := pending[..k] + pending[k + 1..];
    assert Digests(pending) == a + ([d] + b);
    assert Digests(rest) == a + b;
    assert Digests(rest + Asks(subRoots, layer)) == Digests(rest) + subRoots;
    SumsConcat(a, [d] + b);
    SumsConcat(a, b);
    SumsConcat(Digests(rest), subRoots);
    assert ([d] + b)[1..] == b;
  }

  // ----- the protocol

  /** One request: up to the lowest flags, the trie's batch passes with fitting flags and no other one does. */
  lemma StepKeeps(a: Ask, b: seq<Slot>)
    requires WellPlaced(a) && |b| == BATCH_LEN
    ensures IsBatch(Mended(b), a.digest) <==> FlagsFit(b) && Accepts(VerifyBatch(b, a.digest, a.layer))
    ensures IsBatch(b, a.digest) <==> WellFlagged(b) && Accepts(VerifyBatch(b, a.digest, a.layer))
    ensures IsBatch(b, a.digest) ==> IsBatch(Mended(b), a.digest)
    ensures IsBatch(Mended(b), a.digest) ==>
              && InteriorNodes(b) == Frontier(a.digest, 4)
              && FinalLeaves(b, 0, 4) == Some(Rendered(LeavesWithin(a.digest, 4)))
    ensures FlagsFit(b) ==> !VerifyBatch(b, a.digest, a.layer).Panic?
    ensures a.digest.Node? ==> 4 * a.layer < TRIE_HEIGHT
    ensures forall x :: x in Frontier(a.digest, 4) ==> WellPlaced(Ask(x, a.layer + 1))
  {
    hide Holds, VerifyBatch, WellFlagged, InnerFits, InteriorNodes, FinalLeaves, LeavesWithin, Frontier, Rendered, Mended, IsBatch;
    var path :| |path| == 4 * a.layer && Canonical(a.digest, path);
    CheckIff(b, a.digest, a.layer, path);
    MendIff(b, a.digest, a.layer, path);
    if IsBatch(b, a.digest) {
      BatchIsMended(b, a.digest);
    }
    if IsBatch(Mended(b), a.digest) {
      MendedContents(b);
      BatchContents(Mended(b), a.digest, path);
    }
    if FlagsFit(b) {
      FittingNeverPanics(b, a.digest, a.layer);
    }
    if a.digest.Node? {
      FrontierPlaced(a.digest, 4, path, TRIE_HEIGHT - 4 * a.layer);
    } else {
      assert Frontier(a.digest, 4) == [] by { ShortcutFrontier(a.digest); }
    }
  }

  lemma ShortcutFrontier(d: Word)
    requires !d.Node?
    ensures Frontier(d, 4) == []
  {
  }

  /**
   What a sync keeps: the batches in the target, the open requests and the lost ones cover
   the trie, and the delivered pairs and those of these requests are the pairs of its map,
   each once.
   */
  ghost predicate Balanced(root: Word, nodes: Nodes, pending: seq<Ask>, lost: seq<Ask>, pairs: seq<KV>) {
    && Sound(nodes) && (forall a :: a in pending + lost ==> WellPlaced(a))
    && Covered(nodes, pending + lost, root, TRIE_HEIGHT)
    && Bag(AllLeaves(root)) == Bag(pairs) + (Outstanding(Digests(pending)) + Outstanding(Digests(lost)))
  }

  /** The open requests after one was answered and what it leads to is asked for. */
  function Asking(was: seq<Ask>, k: nat): seq<Ask>
    requires k < |was|
  {
    was[..k] + was[k + 1..] + Asks(Frontier(was[k].digest, 4), was[k].layer + 1)
  }

  /** One stored batch of the trie, with what it leads to asked for next. */
  lemma RoundKeeps(root: Word, nodes: Nodes, was: seq<Ask>, lost: seq<Ask>, pairs: seq<KV>, k: nat, b: seq<Slot>)
    requires Balanced(root, nodes, was, lost, pairs) && k < |was| && |b| == BATCH_LEN && IsBatch(Mended(b), was[k].digest)
    ensures Balanced(root, nodes[was[k].digest := b], Asking(was, k), lost, pairs + LeavesWithin(was[k].digest, 4))
    ensures Work(Digests(Asking(was, k))) < Work(Digests(was))
  {
    hide Available, Canonical, Covered, AllLeaves, LeavesWithin, Frontier, Size, IsBatch, VerifyBatch, WellFlagged, InnerFits,
         InteriorNodes, FinalLeaves, Outstanding, Work, Digests, WellPlaced, Bag, Sound, Rendered, Mended;
    var a, subs, now := was[k], Frontier(was[k].digest, 4), Asking(was, k);
    assert a in was + lost;
    StepKeeps(a, b);
    PlacedLayer(a);
    PlacedDigest(a);
    FrontierLeaves(a.digest, 4);
    FrontierWork(a.digest, 4);
    PendingSums(was, k, subs, a.layer + 1);
    PendingStep(was, k, now, subs, a.layer + 1);
    CoveredStep(nodes, was + lost, nodes[a.digest := b], now + lost, a, root, TRIE_HEIGHT);
    SoundPut(nodes, a.digest, b);
    BagStep(AllLeaves(root), pairs, LeavesWithin(a.digest, 4), Bag(AllLeaves(a.digest)),
            Outstanding(Digests(was[..k] + was[k + 1..])), Outstanding(subs), Outstanding(Digests(lost)));
  }

  lemma BagStep(all: seq<KV>, pairs: seq<KV>, more: seq<KV>, one: multiset<KV>, rest: multiset<KV>, subs: multiset<KV>,
                lost: multiset<KV>)
    requires Bag(all) == Bag(pairs) + ((one + rest) + lost) && one == Bag(more) + subs
    ensures Bag(all) == Bag(pairs + more) + ((rest + subs) + lost)
  {
  }

  /** One refused answer: the request is gone, and what it stood for with it. */
  lemma RefusalKeeps(root: Word, nodes: Nodes, was: seq<Ask>, lost: seq<Ask>, pairs: seq<KV>, k: nat)
    requires Balanced(root, nodes, was, lost, pairs) && k < |was|
    ensures Balanced(root, nodes, was[..k] + was[k + 1..], lost + [was[k]], pairs)
    ensures Work(Digests(was[..k] + was[k + 1..])) < Work(Digests(was))
  {
    hide Available, Canonical, Covered, AllLeaves, Size, Outstanding, Work, WellPlaced, Bag, Sound;
    var a, rest := was[k], was[..k] + was[k + 1..];
    assert a in was + lost;
    PlacedDigest(a);
    PendingSums(was, k, [], 0);
    LostSums(lost, a);
    SameMembers(was, k, lost);
    CoveredSame(nodes, was + lost, rest + (lost + [a]), root, TRIE_HEIGHT);
    LossStep(AllLeaves(root), pairs, Bag(AllLeaves(a.digest)), Outstanding(Digests(rest)), Outstanding(Digests(lost)));
  }

  lemma LostSums(lost: seq<Ask>, a: Ask)
    ensures Outstanding(Digests(lost + [a])) == Outstanding(Digests(lost)) + Bag(AllLeaves(a.digest))
  {
    hide AllLeaves, Bag, Outstanding;
    assert Digests(lost + [a]) == Digests(lost) + [a.digest];
    OutstandingConcat(Digests(lost), [a.digest]);
    OutstandingOne(a.digest);
  }

  lemma SameMembers(was: seq<Ask>, k: nat, lost: seq<Ask>)
    requires k < |was|
    ensures forall a :: a in was + lost <==> a in was[..k] + was[k + 1..] + (lost + [was[k]])
  {
    assert was == was[..k] + [was[k]] + was[k + 1..];
  }

  lemma {:induction false} CoveredSame(nodes: Nodes, was: seq<Ask>, now: seq<Ask>, d: Word, height: nat)
    requires Covered(nodes, was, d, height) && forall a :: a in was ==> a in now
    ensures Covered(nodes, now, d, height)
    decreases d
  {
    if d.Node? && height > 0 {
      if Covered(nodes, was, d.left, height - 1) { CoveredSame(nodes, was, now, d.left, height - 1); }
      if Covered(nodes, was, d.right, height - 1) { CoveredSame(nodes, was, now, d.right, height - 1); }
    }
  }

  lemma LossStep(all: seq<KV>, pairs: seq<KV>, one: multiset<KV>, rest: multiset<KV>, lost: multiset<KV>)
    requires Bag(all) == Bag(pairs) + ((one + rest) + lost)
    ensures Bag(all) == Bag(pairs) + (rest + (lost + one))
  {
    hide Bag;
  }

  /** At the end of a sync that has lost nothing everything is there. */
  lemma Complete(root: Word, nodes: Nodes, pairs: seq<KV>)
    requires Balanced(root, nodes, [], [], pairs)
    ensures Available(nodes, root, TRIE_HEIGHT) && multiset(pairs) == multiset(AllLeaves(root))
  {
    hide Available, Covered, AllLeaves, Sound;
    var none: seq<Ask> := [];
    assert none + none == none;
    NothingPending(nodes, root, TRIE_HEIGHT);
    SumsEmpty();
  }

  lemma SumsEmpty()
    ensures Outstanding(Digests([])) == multiset{}
  {
  }

  lemma PlacedLayer(a: Ask)
    requires WellPlaced(a)
    ensures 4 * a.layer <= TRIE_HEIGHT
  {
  }

  lemma PlacedDigest(a: Ask)
    requires WellPlaced(a)
    ensures a.digest.Leaf? || a.digest.Node?
    ensures Size(a.digest) > 0
  {
  }

  lemma SyncStart(nodes: Nodes, root: Word)
    requires Canonical(root, []) && !root.Default? && Sound(nodes)
    ensures Balanced(root, nodes, [Ask(root, 0)], [], [])
    ensures Work(Digests([Ask(root, 0)])) == Size(root)
  {
    hide Sound;
    assert Digests([Ask(root, 0)]) == [root] && [root][1..] == [];
    assert [Ask(root, 0)] + [] == [Ask(root, 0)];
    var path: seq<bool> := [];
    assert |path| == 4 * Ask(root, 0).layer && Canonical(root, path);
    OutstandingOne(root);
    SumsEmpty();
    assert Bag([]) + (Bag(AllLeaves(root)) + multiset{}) == Bag(AllLeaves(root));
  }

  // ----- every batch of a trie has one place

  /** How often the batch of `w` occurs in a subtree. */
  function Count(w: Word, d: Word, height: nat): nat
    decreases d
  {
    (if height % 4 == 0 && d == w then 1 else 0)
    + if d.Node? && height > 0 then Count(w, d.left, height - 1) + Count(w, d.right, height - 1) else 0
  }

  function CountAll(w: Word, asks: seq<Ask>): nat {
    if asks == [] then 0
    else (if 4 * asks[0].layer <= TRIE_HEIGHT then Count(w, asks[0].digest, TRIE_HEIGHT - 4 * asks[0].layer) else 0)
         + CountAll(w, asks[1..])
  }

  lemma {:induction false} CountConcat(w: Word, a: seq<Ask>, b: seq<Ask>)
    ensures CountAll(w, a + b) == CountAll(w, a) + CountAll(w, b)
  {
    hide Count;
    if a == [] {
      assert a + b == b;
    } else {
      CountConcat(w, a[1..], b);
      assert (a + b)[1..] == a[1..] + b;
    }
  }

  /** What occurs in a subtree denotes a part of its map, and is not larger. */
  lemma {:induction false} CountedIsPart(w: Word, d: Word, height: nat)
    requires Count(w, d, height) > 0
    ensures MapOf(w).Keys <= MapOf(d).Keys && Size(w) <= Size(d)
    decreases d
  {
    if !(height % 4 == 0 && d == w) {
      if Count(w, d.left, height - 1) > 0 {
        CountedIsPart(w, d.left, height - 1);
      } else {
        CountedIsPart(w, d.right, height - 1);
      }
    }
  }

  lemma {:induction false} CountedHasKey(w: Word, d: Word, path: seq<bool>) returns (k: Key)
    requires Canonical(d, path) && !w.Default? && Count(w, d, TRIE_HEIGHT - |path|) > 0
    ensures k in MapOf(w)
    decreases d
  {
    if d == w {
      var a, _ := NodeHasTwo(d, path);
      k := a;
    } else if Count(w, d.left, TRIE_HEIGHT - |path| - 1) > 0 {
      k := CountedHasKey(w, d.left, path + [false]);
    } else {
      k := CountedHasKey(w, d.right, path + [true]);
    }
  }

  /** In a canonical tree no two places have the same digest. */
  lemma {:induction false} CountOnce(w: Word, d: Word, path: seq<bool>)
    requires Canonical(d, path) && !w.Default?
    ensures Count(w, d, TRIE_HEIGHT - |path|) <= 1
    decreases d
  {
    if d.Node? {
      var h := TRIE_HEIGHT - |path|;
      CountOnce(w, d.left, path + [false]);
      CountOnce(w, d.right, path + [true]);
      var l, r := Count(w, d.left, h - 1), Count(w, d.right, h - 1);
      if l > 0 { CountedIsPart(w, d.left, h - 1); }
      if r > 0 { CountedIsPart(w, d.right, h - 1); }
      if l > 0 && r > 0 {
        var k := CountedHasKey(w, d.left, path + [false]);
        CanonicalHalves(d, path);
      }
    }
  }

  lemma AsksConcat(w: Word, a: seq<Word>, b: seq<Word>, layer: nat)
    ensures CountAll(w, Asks(a + b, layer)) == CountAll(w, Asks(a, layer)) + CountAll(w, Asks(b, layer))
  {
    hide Count, CountAll, Digests;
    assert Asks(a + b, layer) == Asks(a, layer) + Asks(b, layer);
    CountConcat(w, Asks(a, layer), Asks(b, layer));
  }

  lemma CountOfNode(w: Word, d: Word, height: nat)
    requires d.Node? && height > 0
    ensures Count(w, d, height)
            == (if height % 4 == 0 && d == w then 1 else 0) + Count(w, d.left, height - 1) + Count(w, d.right, height - 1)
  {
  }

  lemma CountOfOne(w: Word, d: Word, layer: nat)
    requires 4 * layer <= TRIE_HEIGHT
    ensures CountAll(w, Asks([d], layer)) == Count(w, d, TRIE_HEIGHT - 4 * layer)
    ensures CountAll(w, Asks([], layer)) == 0
  {
    hide Count;
    assert Asks([d], layer) == [Ask(d, layer)] && [Ask(d, layer)][1..] == [];
  }

  lemma {:induction false} CountFrontier(w: Word, d: Word, n: nat, height: nat)
    requires n < 4 && n <= height <= TRIE_HEIGHT && height % 4 == n && !w.Default?
    ensures Count(w, d, height) == CountAll(w, Asks(Frontier(d, n), (TRIE_HEIGHT - (height - n)) / 4))
    decreases n
  {
    hide Asks, CountAll, Digests;
    var layer := (TRIE_HEIGHT - (height - n)) / 4;
    if n > 0 && d.Node? {
      hide Count, Frontier;
      CountFrontier(w, d.left, n - 1, height - 1);
      CountFrontier(w, d.right, n - 1, height - 1);
      CountOfNode(w, d, height);
      FrontierOfNode(d, n);
      AsksConcat(w, Frontier(d.left, n - 1), Frontier(d.right, n - 1), layer);
    } else {
      CountOfOne(w, d, layer);
    }
  }

  /** The batches of a subtree: its own, and those of what it leads to. */
  lemma CountStep(w: Word, a: Ask)
    requires 4 * a.layer <= TRIE_HEIGHT && !w.Default? && (a.digest.Node? ==> 4 * a.layer < TRIE_HEIGHT)
    ensures Count(w, a.digest, TRIE_HEIGHT - 4 * a.layer)
            == (if a.digest == w then 1 else 0) + CountAll(w, Asks(Frontier(a.digest, 4), a.layer + 1))
  {
    hide Asks, CountAll, Digests, Frontier;
    var d, h := a.digest, TRIE_HEIGHT - 4 * a.layer;
    if d.Node? {
      CountFrontier(w, d.left, 3, h - 1);
      CountFrontier(w, d.right, 3, h - 1);
      CountOfNode(w, d, h);
      FrontierOfNode(d, 4);
      AsksConcat(w, Frontier(d.left, 3), Frontier(d.right, 3), a.layer + 1);
    } else {
      ShortcutFrontier(d);
      CountNothing(w, a.layer + 1);
    }
  }

  lemma CountNothing(w: Word, layer: nat)
    ensures CountAll(w, Asks([], layer)) == 0
  {
  }

  /** How often a batch was stored. */
  function Times(w: Word, kept: seq<Word>): nat {
    if kept == [] then 0 else Times(w, kept[..|kept| - 1]) + if kept[|kept| - 1] == w then 1 else 0
  }

  /** Every batch of the trie was stored, or belongs to an open or a lost request. */
  ghost predicate Accounted(root: Word, kept: seq<Word>, pending: seq<Ask>, lost: seq<Ask>) {
    forall w: Word :: !w.Default? ==>
      Times(w, kept) + CountAll(w, pending) + CountAll(w, lost) == Count(w, root, TRIE_HEIGHT)
  }

  lemma CountWithout(w: Word, was: seq<Ask>, k: nat)
    requires k < |was|
    ensures CountAll(w, was) == CountAll(w, was[..k] + was[k + 1..]) + CountAll(w, [was[k]])
  {
    hide CountAll;
    assert was == was[..k] + ([was[k]] + was[k + 1..]);
    CountConcat(w, was[..k], [was[k]] + was[k + 1..]);
    CountConcat(w, [was[k]], was[k + 1..]);
    CountConcat(w, was[..k], was[k + 1..]);
  }

  lemma RoundAccounted(root: Word, kept: seq<Word>, was: seq<Ask>, lost: seq<Ask>, k: nat)
    requires Accounted(root, kept, was, lost) && k < |was| && WellPlaced(was[k])
    requires was[k].digest.Node? ==> 4 * was[k].layer < TRIE_HEIGHT
    ensures Accounted(root, kept + [was[k].digest], Asking(was, k), lost)
  {
    hide Frontier, Count, CountAll, Times;
    var a := was[k];
    var rest, subs := was[..k] + was[k + 1..], Asks(Frontier(a.digest, 4), a.layer + 1);
    forall w: Word | !w.Default?
      ensures Times(w, kept + [a.digest]) + CountAll(w, Asking(was, k)) + CountAll(w, lost) == Count(w, root, TRIE_HEIGHT)
    {
      CountWithout(w, was, k);
      CountOneAsk(w, a);
      CountStep(w, a);
      CountConcat(w, rest, subs);
      TimesNext(w, kept, a.digest);
    }
  }

  lemma CountOneAsk(w: Word, a: Ask)
    requires 4 * a.layer <= TRIE_HEIGHT
    ensures CountAll(w, [a]) == Count(w, a.digest, TRIE_HEIGHT - 4 * a.layer)
    ensures CountAll(w, []) == 0
  {
    hide Count;
    assert [a][1..] == [];
  }

  lemma TimesNext(w: Word, kept: seq<Word>, d: Word)
    ensures Times(w, kept + [d]) == Times(w, kept) + if d == w then 1 else 0
  {
    assert (kept + [d])[..|kept|] == kept;
  }

  lemma RefusalAccounted(root: Word, kept: seq<Word>, was: seq<Ask>, lost: seq<Ask>, k: nat)
    requires Accounted(root, kept, was, lost) && k < |was|
    ensures Accounted(root, kept, was[..k] + was[k + 1..], lost + [was[k]])
  {
    hide Count, CountAll, Times;
    forall w: Word | !w.Default?
      ensures Times(w, kept) + CountAll(w, was[..k] + was[k + 1..]) + CountAll(w, lost + [was[k]]) == Count(w, root, TRIE_HEIGHT)
    {
      CountWithout(w, was, k);
      CountConcat(w, lost, [was[k]]);
    }
  }

  lemma {:induction false} AvailableHas(nodes: Nodes, w: Word, d: Word, height: nat)
    requires Available(nodes, d, height) && Count(w, d, height) > 0 && !w.Default?
    ensures w in nodes || w.Bytes?
    decreases d
  {
    if !(height % 4 == 0 && d == w) {
      if Count(w, d.left, height - 1) > 0 {
        AvailableHas(nodes, w, d.left, height - 1);
      } else {
        AvailableHas(nodes, w, d.right, height - 1);
      }
    }
  }

  lemma {:induction false} KeptIsCounted(w: Word, kept: seq<Word>)
    ensures w in kept <==> Times(w, kept) > 0
  {
    if kept != [] {
      var n := |kept| - 1;
      KeptIsCounted(w, kept[..n]);
      assert kept == kept[..n] + [kept[n]];
    }
  }

  /** A lost request leaves its batch missing, if the target did not have it before. */
  lemma LostIsMissing(root: Word, before: Nodes, nodes: Nodes, kept: seq<Word>, pending: seq<Ask>, lost: seq<Ask>)
    requires Accounted(root, kept, pending, lost) && lost != [] && WellPlaced(lost[0]) && Canonical(root, [])
    requires forall d :: d in nodes ==> d in before || d in kept
    requires forall d :: d in before ==> Count(d, root, TRIE_HEIGHT) == 0
    ensures !Available(nodes, root, TRIE_HEIGHT)
  {
    var a := lost[0];
    var w := a.digest;
    PlacedDigest(a);
    PlacedLayer(a);
    assert Count(w, w, TRIE_HEIGHT - 4 * a.layer) > 0;
    assert lost == [a] + lost[1..];
    CountConcat(w, [a], lost[1..]);
    CountOneAsk(w, a);
    CountOnce(w, root, []);
    KeptIsCounted(w, kept);
    if Available(nodes, root, TRIE_HEIGHT) {
      AvailableHas(nodes, w, root, TRIE_HEIGHT);
    }
  }

  // ----- the protocol

  /** An answer of the peer: a batch, for one of the open requests. */
  datatype Answer = Answer(which: nat, batch: seq<Slot>)

  /**
   The sync as syncStateNodes drives it, against a peer that may answer anything: a request
   is closed before its answer is looked at, and a refused answer is not asked for again.
   Unless a batch with unfit flags gets past the check, which `fooled` tells, nothing panics,
   the sync ends after at most as many answers as the trie has nodes, and then the whole trie
   is there if and only if no answer was refused.
   */
  method SyncTrie(root: Word, target: Database, answers: seq<Answer>)
    returns (pending: seq<Ask>, leaves: seq<LeafNode>, panicked: bool, stored: nat, refused: nat,
             ghost pairs: seq<KV>, ghost lost: seq<Ask>, ghost fooled: bool, ghost mislabelled: bool)
    requires Canonical(root, []) && !root.Default? && Coherent(target.nodes)
    requires forall i :: 0 <= i < |answers| ==> |answers[i].batch| == BATCH_LEN
    modifies target`nodes
    ensures fooled ==> exists i :: 0 <= i < |answers| && !FlagsFit(answers[i].batch)
    ensures mislabelled ==> exists i :: 0 <= i < |answers| && !WellFlagged(answers[i].batch)
    ensures !panicked ==> pending == [] || stored + refused == |answers|
    ensures !fooled ==>
              && !panicked && stored + refused <= Size(root) && |lost| == refused
              && Balanced(root, target.nodes, pending, lost, pairs) && leaves == Rendered(pairs)
              && old(target.nodes).Keys <= target.nodes.Keys
              && (forall a :: a in pending ==> 4 * a.layer <= TRIE_HEIGHT)
              && (!mislabelled ==> Coherent(target.nodes))
    ensures !fooled && stored + refused == Size(root) ==> pending == []
    ensures !fooled && pending == [] && refused == 0 ==>
              && Available(target.nodes, root, TRIE_HEIGHT)
              && multiset(pairs) == multiset(AllLeaves(root))
              && Sorted(AllLeaves(root)) && Asked(AllLeaves(root)) == MapOf(root)
              && forall key :: GetNode(target.nodes, Bare(root), key, [], 0, TRIE_HEIGHT) == Found(MapGet(MapOf(root), key))
    ensures !fooled && pending == [] && (forall d :: d in old(target.nodes) ==> Count(d, root, TRIE_HEIGHT) == 0) ==>
              (Available(target.nodes, root, TRIE_HEIGHT) <==> refused == 0)
  {
    hide *;
    pending, leaves, panicked, stored, refused := [Ask(root, 0)], [], false, 0, 0;
    pairs, lost, fooled, mislabelled := [], [], false, false;
    ghost var kept: seq<Word> := [];
    CoherentIsSound(target.nodes);
    SyncStart(target.nodes, root);
    AccountedAtFirst(root);
    RenderedFew(root);
    while stored + refused < |answers| && pending != [] && !panicked
      invariant !panicked ==> stored + refused <= |answers|
      invariant fooled ==> exists i :: 0 <= i < |answers| && !FlagsFit(answers[i].batch)
      invariant mislabelled ==> exists i :: 0 <= i < |answers| && !WellFlagged(answers[i].batch)
      invariant !fooled ==>
                  && !panicked && Balanced(root, target.nodes, pending, lost, pairs) && leaves == Rendered(pairs)
                  && target.nodes.Keys == old(target.nodes).Keys + Members(kept) && |lost| == refused
                  && Work(Digests(pending)) + stored + refused <= Size(root)
                  && Accounted(root, kept, pending, lost)
                  && (!mislabelled ==> Coherent(target.nodes))
      decreases |answers| - stored - refused, if panicked then 0 else 1
    {
      var answer := answers[stored + refused];
      var k := answer.which % |pending|;
      var a := pending[k];
      ghost var before := target.nodes;
      if !fooled {
        SyncRound(root, before, pending, lost, pairs, kept, k, answer.batch);
      }
      var reply := StoreSnapShotNode(target, answer.batch, a.digest, a.layer);
      AcceptsIs(VerifyBatch(answer.batch, a.digest, a.layer));
      if reply.Refused? {
        pending := pending[..k] + pending[k + 1..];
        lost := lost + [a];
        refused := refused + 1;
      } else {
        if !FlagsFit(answer.batch) {
          fooled := true;
        }
        if !WellFlagged(answer.batch) {
          mislabelled := true;
        }
        if !fooled {
          pairs := pairs + LeavesWithin(a.digest, 4);
          if !mislabelled {
            CoherentPut(before, a.digest, answer.batch);
          }
          MembersNext(kept, a.digest);
          kept := kept + [a.digest];
        }
        if reply.Crashed? {
          panicked := true;
        } else {
          pending := pending[..k] + pending[k + 1..] + Asks(reply.subRoots, reply.layer);
          leaves := leaves + reply.leaves;
          stored := stored + 1;
        }
      }
    }
    if !fooled {
      SyncEnd(root, old(target.nodes), target.nodes, pending, lost, pairs, kept);
    }
  }

  function Members(kept: seq<Word>): set<Word> {
    set d | d in kept
  }

  lemma MembersNext(kept: seq<Word>, d: Word)
    ensures Members(kept + [d]) == Members(kept) + {d}
    ensures Members([]) == {}
  {
  }

  lemma AcceptsIs(v: Verdict)
    ensures Accepts(v) <==> v.Verdict? && v.ok
  {
  }

  lemma CoherentPut(nodes: Nodes, d: Word, b: seq<Slot>)
    requires Coherent(nodes) && IsBatch(b, d)
    ensures Coherent(nodes[d := b])
  {
    hide IsBatch;
  }

  lemma AccountedAtFirst(root: Word)
    ensures Accounted(root, [], [Ask(root, 0)], [])
    ensures Members([]) == {}
  {
    hide Count;
    forall w: Word | !w.Default?
      ensures Times(w, []) + CountAll(w, [Ask(root, 0)]) + CountAll(w, []) == Count(w, root, TRIE_HEIGHT)
    {
      CountOneAsk(w, Ask(root, 0));
    }
  }

  /** One answer, whatever it is. */
  lemma SyncRound(root: Word, nodes: Nodes, was: seq<Ask>, lost: seq<Ask>, pairs: seq<KV>, kept: seq<Word>, k: nat, b: seq<Slot>)
    requires Balanced(root, nodes, was, lost, pairs) && Accounted(root, kept, was, lost) && k < |was| && |b| == BATCH_LEN
    ensures var a, rest := was[k], was[..k] + was[k + 1..];
            && Balanced(root, nodes, rest, lost + [a], pairs) && Accounted(root, kept, rest, lost + [a])
            && Work(Digests(rest)) < Work(Digests(was))
            && (FlagsFit(b) ==> !VerifyBatch(b, a.digest, a.layer).Panic?)
            && (FlagsFit(b) && Accepts(VerifyBatch(b, a.digest, a.layer)) ==>
                 && InteriorNodes(b) == Frontier(a.digest, 4)
                 && FinalLeaves(b, 0, 4) == Some(Rendered(LeavesWithin(a.digest, 4)))
                 && Rendered(pairs + LeavesWithin(a.digest, 4)) == Rendered(pairs) + Rendered(LeavesWithin(a.digest, 4))
                 && Asking(was, k) == rest + Asks(Frontier(a.digest, 4), a.layer + 1)
                 && Balanced(root, nodes[a.digest := b], Asking(was, k), lost, pairs + LeavesWithin(a.digest, 4))
                 && Accounted(root, kept + [a.digest], Asking(was, k), lost)
                 && Work(Digests(Asking(was, k))) < Work(Digests(was)))
  {
    hide IsBatch, VerifyBatch, FlagsFit, WellFlagged, InteriorNodes, FinalLeaves, Rendered, Frontier, LeavesWithin, Work, Digests,
         Sound, WellPlaced, Covered, Bag, Outstanding, AllLeaves, Mended, Accounted, Asks;
    var a := was[k];
    assert a in was + lost && WellPlaced(a);
    StepKeeps(a, b);
    RefusalKeeps(root, nodes, was, lost, pairs, k);
    RefusalAccounted(root, kept, was, lost, k);
    if FlagsFit(b) && Accepts(VerifyBatch(b, a.digest, a.layer)) {
      RoundKeeps(root, nodes, was, lost, pairs, k, b);
      RoundAccounted(root, kept, was, lost, k);
      RenderedConcat(pairs, LeavesWithin(a.digest, 4));
    }
  }

  lemma SyncEnd(root: Word, before: Nodes, nodes: Nodes, pending: seq<Ask>, lost: seq<Ask>, pairs: seq<KV>, kept: seq<Word>)
    requires Canonical(root, []) && !root.Default? && Balanced(root, nodes, pending, lost, pairs)
    requires Accounted(root, kept, pending, lost) && nodes.Keys == before.Keys + Members(kept)
    ensures before.Keys <= nodes.Keys && forall a :: a in pending ==> 4 * a.layer <= TRIE_HEIGHT
    ensures pending != [] ==> Work(Digests(pending)) > 0
    ensures pending == [] && lost == [] ==>
              && Available(nodes, root, TRIE_HEIGHT)
              && multiset(pairs) == multiset(AllLeaves(root))
              && Sorted(AllLeaves(root)) && Asked(AllLeaves(root)) == MapOf(root)
              && forall key :: GetNode(nodes, Bare(root), key, [], 0, TRIE_HEIGHT) == Found(MapGet(MapOf(root), key))
    ensures pending == [] && lost != [] && (forall d :: d in before ==> Count(d, root, TRIE_HEIGHT) == 0) ==>
              !Available(nodes, root, TRIE_HEIGHT)
  {
    hide Available, Canonical, AllLeaves, Asked, MapOf, Sorted, Work, Digests, Count, GetNode, Accounted, Sound, Covered, Bag,
         Outstanding, WellPlaced, MapGet;
    PendingPlaced(root, nodes, pending, lost, pairs);
    LeavesListMap(root, []);
    if pending == [] && lost == [] {
      Complete(root, nodes, pairs);
      forall key
        ensures GetNode(nodes, Bare(root), key, [], 0, TRIE_HEIGHT) == Found(MapGet(MapOf(root), key))
      {
        SoundReads(nodes, root, key);
      }
    }
    if pending == [] && lost != [] && forall d :: d in before ==> Count(d, root, TRIE_HEIGHT) == 0 {
      assert lost[0] in pending + lost;
      LostIsMissing(root, before, nodes, kept, pending, lost);
    }
  }

  lemma PendingPlaced(root: Word, nodes: Nodes, pending: seq<Ask>, lost: seq<Ask>, pairs: seq<KV>)
    requires Balanced(root, nodes, pending, lost, pairs)
    ensures forall a :: a in pending ==> WellPlaced(a) && 4 * a.layer <= TRIE_HEIGHT && (a.digest.Leaf? || a.digest.Node?)
    ensures pending != [] ==> Work(Digests(pending)) > 0
  {
    hide Sound, Covered, Bag, Outstanding, AllLeaves, WellPlaced;
    forall a | a in pending
      ensures WellPlaced(a) && 4 * a.layer <= TRIE_HEIGHT && (a.digest.Leaf? || a.digest.Node?)
    {
      assert a in pending + lost;
      PlacedLayer(a);
      PlacedDigest(a);
    }
    if pending != [] {
      assert pending[0] in pending;
      PlacedDigest(pending[0]);
    }
  }

  /** One refused answer can cost the whole trie: a shortcut of nothing, sent for the root. */
  lemma RefusedOnce(root: Word)
    requires Canonical(root, []) && !root.Default?
    ensures var b := NoSlots()[0 := Marker(1)][1 := Entry(Default, 2)][2 := Entry(Default, 2)];
            var v := VerifyBatch(b, root, 0);
            FlagsFit(b) && v.Verdict? && !v.ok && !Available(map[], root, TRIE_HEIGHT)
  {
    CanonicalRoot(root);
  }

  /** From a source that has the trie, whatever the order of the requests, the sync ends, within layers 0 to 64. */
  method SyncFrom(source: Nodes, root: Word, target: Database) returns (leaves: seq<LeafNode>, asked: seq<Ask>, ghost pairs: seq<KV>)
    requires Coherent(source) && Canonical(root, []) && !root.Default? && Available(source, root, TRIE_HEIGHT)
    requires Coherent(target.nodes)
    modifies target`nodes
    ensures Coherent(target.nodes) && old(target.nodes).Keys <= target.nodes.Keys
    ensures Available(target.nodes, root, TRIE_HEIGHT)
    ensures forall i :: 0 <= i < |asked| ==> 4 * asked[i].layer <= TRIE_HEIGHT
    ensures leaves == Rendered(pairs) && multiset(pairs) == multiset(AllLeaves(root))
    ensures Sorted(AllLeaves(root)) && Asked(AllLeaves(root)) == MapOf(root)
  {
    hide *;
    leaves, asked, pairs := [], [], [];
    var pending := [Ask(root, 0)];
    ghost var kept: seq<Word> := [];
    CoherentIsSound(target.nodes);
    SyncStart(target.nodes, root);
    AccountedAtFirst(root);
    LeavesListMap(root, []);
    RenderedFew(root);
    HeldAtFirst(source, root);
    while pending != []
      invariant Balanced(root, target.nodes, pending, [], pairs) && leaves == Rendered(pairs)
      invariant Accounted(root, kept, pending, [])
      invariant Coherent(target.nodes) && old(target.nodes).Keys <= target.nodes.Keys
      invariant forall a :: a in pending ==> Held(source, a)
      invariant forall i :: 0 <= i < |asked| ==> 4 * asked[i].layer <= TRIE_HEIGHT
      decreases Work(Digests(pending))
    {
      var k :| 0 <= k < |pending|;
      var a := pending[k];
      assert a in pending;
      PendingPlaced(root, target.nodes, pending, [], pairs);
      HeldNext(source, a);
      BatchIsLong(source[a.digest], a.digest);
      StepKeeps(a, source[a.digest]);
      SyncRound(root, target.nodes, pending, [], pairs, kept, k, source[a.digest]);
      CoherentPut(target.nodes, a.digest, source[a.digest]);
      AcceptsIs(VerifyBatch(source[a.digest], a.digest, a.layer));
      HeldStep(source, pending, k);
      var reply := StoreSnapShotNode(target, source[a.digest], a.digest, a.layer);
      pending := pending[..k] + pending[k + 1..] + Asks(reply.subRoots, reply.layer);
      pairs := pairs + LeavesWithin(a.digest, 4);
      leaves := leaves + reply.leaves;
      asked := asked + [a];
      kept := kept + [a.digest];
    }
    Complete(root, target.nodes, pairs);
  }

  /** The source can answer this request and all it leads to. */
  ghost predicate Held(source: Nodes, a: Ask) {
    && 4 * a.layer <= TRIE_HEIGHT && !a.digest.Default?
    && Available(source, a.digest, TRIE_HEIGHT - 4 * a.layer)
  }

  lemma HeldAtFirst(source: Nodes, root: Word)
    requires Canonical(root, []) && !root.Default? && Available(source, root, TRIE_HEIGHT)
    ensures Held(source, Ask(root, 0))
  {
  }

  lemma HeldNext(source: Nodes, a: Ask)
    requires Coherent(source) && Held(source, a) && (a.digest.Leaf? || a.digest.Node?)
    ensures a.digest in source && IsBatch(source[a.digest], a.digest)
    ensures forall x :: x in Frontier(a.digest, 4) ==> Held(source, Ask(x, a.layer + 1))
  {
    hide IsBatch;
    if a.digest.Node? {
      FrontierHeld(source, a.digest, 4, TRIE_HEIGHT - 4 * a.layer);
    }
  }

  lemma {:induction false} FrontierHeld(source: Nodes, d: Word, n: nat, height: nat)
    requires height <= TRIE_HEIGHT && n <= 4 && (height - n) % 4 == 0 && Available(source, d, height)
    ensures forall x :: x in Frontier(d, n) ==> Held(source, Ask(x, (TRIE_HEIGHT - (height - n)) / 4))
    decreases n
  {
    if n > 0 && d.Node? {
      FrontierHeld(source, d.left, n - 1, height - 1);
      FrontierHeld(source, d.right, n - 1, height - 1);
    }
  }

  lemma HeldStep(source: Nodes, was: seq<Ask>, k: nat)
    requires k < |was| && (forall x :: x in was ==> Held(source, x))
    requires forall x :: x in Frontier(was[k].digest, 4) ==> Held(source, Ask(x, was[k].layer + 1))
    ensures forall x :: x in Asking(was, k) ==> Held(source, x)
  {
    hide Held, Frontier;
  }

  lemma PendingStep(was: seq<Ask>, k: nat, now: seq<Ask>, subRoots: seq<Word>, layer: nat)
    requires k < |was| && now == was[..k] + was[k + 1..] + Asks(subRoots, layer)
    ensures forall a :: a in was ==> a == was[k] || a in now
    ensures forall a :: a in now ==> a in was || (a.digest in subRoots && a.layer == layer)
    ensures forall i :: 0 <= i < |subRoots| ==> Ask(subRoots[i], layer) in now
  {
    hide Asks;
    forall i | 0 <= i < |subRoots|
      ensures Ask(subRoots[i], layer) in now
    {
      assert now[|was| - 1 + i] == Ask(subRoots[i], layer);
    }
    forall a | a in was && a != was[k]
      ensures a in now
    {
      var i :| 0 <= i < |was| && was[i] == a;
      assert was == was[..k] + [was[k]] + was[k + 1..];
    }
  }

  lemma CanonicalRoot(root: Word)
    requires Canonical(root, []) && !root.Default?
    ensures root.Leaf? || root.Node?
  {
  }

  /** FinalizeSnapShotRoot: the synced root becomes a version of the target, and Get agrees with the source. */
  method FinalizeSnapShotRoot(db: Database, root: Word, height: nat)
    requires db.Valid() && Canonical(root, []) && !root.Default? && Available(db.nodes, root, TRIE_HEIGHT)
    modifies db`roots, db`commitHeight
    ensures db.Valid() && db.roots == old(db.roots)[height := Bare(root)] && db.commitHeight == height
  {
    hide Available, Coherent, Canonical;
    CanonicalShaped(root, []);
    CanonicalRoot(root);
    db.commitHeight := height;
    db.roots := db.roots[height := Bare(root)];
  }
}
