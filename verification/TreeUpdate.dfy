/**
 One batch update as a function on digest trees, and its meaning as an update of the map.
 */
module TreeUpdate {
  import opened Keys
  import opened Trie

  // ----- sorted batches and what they ask for

  predicate Sorted(kvs: seq<KV>) {
    forall i, j :: 0 <= i < j < |kvs| ==> Less(kvs[i].key, kvs[j].key)
  }

  /** The assignments of a batch; the value Default asks for a deletion. */
  function Asked(kvs: seq<KV>): Map {
    if kvs == [] then map[]
    else Asked(kvs[..|kvs| - 1])[kvs[|kvs| - 1].key := kvs[|kvs| - 1].value]
  }

  function Apply(m: Map, asked: Map): Map {
    map k | k in m.Keys + asked.Keys && (k in asked ==> asked[k] != Default)
      :: if k in asked then asked[k] else m[k]
  }

  lemma {:induction false} AskedAt(kvs: seq<KV>)
    requires Sorted(kvs)
    ensures forall i :: 0 <= i < |kvs| ==> kvs[i].key in Asked(kvs) && Asked(kvs)[kvs[i].key] == kvs[i].value
    ensures forall k :: k in Asked(kvs) ==> exists i :: 0 <= i < |kvs| && kvs[i].key == k
  {
    hide Less;
    if kvs != [] {
      var n := |kvs| - 1;
      AskedAt(kvs[..n]);
      forall i | 0 <= i < n
        ensures kvs[i].key != kvs[n].key && kvs[..n][i] == kvs[i]
      {
        LessTotal(kvs[i].key, kvs[n].key);
      }
      forall k | k in Asked(kvs)
        ensures exists i :: 0 <= i < |kvs| && kvs[i].key == k
      {
        if k != kvs[n].key {
          var i :| 0 <= i < n && kvs[..n][i].key == k;
          assert kvs[i].key == k;
        }
      }
    }
  }

  /** Two sorted batches with the same entries ask for the same, whatever their order was. */
  lemma AskedIs(kvs: seq<KV>, m: Map)
    requires Sorted(kvs)
    requires forall i :: 0 <= i < |kvs| ==> kvs[i].key in m && m[kvs[i].key] == kvs[i].value
    requires forall k :: k in m ==> exists i :: 0 <= i < |kvs| && kvs[i].key == k
    ensures Asked(kvs) == m
  {
    AskedAt(kvs);
  }

  // ----- splitKeys

  /** The number of leading keys whose bit `depth` is clear. */
  function Split(kvs: seq<KV>, depth: nat): (s: nat)
    requires depth < TRIE_HEIGHT
    ensures s <= |kvs|
    ensures forall i :: 0 <= i < s ==> !BitIsSet(kvs[i].key, depth)
    ensures s < |kvs| ==> BitIsSet(kvs[s].key, depth)
  {
    if kvs == [] || BitIsSet(kvs[0].key, depth) then 0 else 1 + Split(kvs[1..], depth)
  }

  predicate AllUnder(kvs: seq<KV>, path: seq<bool>) {
    forall i :: 0 <= i < |kvs| ==> HasPrefix(kvs[i].key, path)
  }

  lemma SplitBits(kvs: seq<KV>, path: seq<bool>)
    requires Sorted(kvs) && |path| < TRIE_HEIGHT && AllUnder(kvs, path)
    ensures forall i :: Split(kvs, |path|) <= i < |kvs| ==> BitIsSet(kvs[i].key, |path|)
  {
    hide Less;
    var s := Split(kvs, |path|);
    forall i | s < i < |kvs|
      ensures BitIsSet(kvs[i].key, |path|)
    {
      if !BitIsSet(kvs[i].key, |path|) {
        PrefixAgree(kvs[i].key, kvs[s].key, path);
        BitOrder(kvs[i].key, kvs[s].key, |path|);
        LessTotal(kvs[s].key, kvs[i].key);
        assert false;
      }
    }
  }

  lemma SortedParts(kvs: seq<KV>, s: nat)
    requires Sorted(kvs) && s <= |kvs|
    ensures Sorted(kvs[..s]) && Sorted(kvs[s..])
  {
    hide Less;
  }

  /** On sorted keys below one path, splitKeys separates exactly by the next bit. */
  lemma SplitExact(kvs: seq<KV>, path: seq<bool>)
    requires Sorted(kvs) && |path| < TRIE_HEIGHT && AllUnder(kvs, path)
    ensures var s := Split(kvs, |path|);
            && AllUnder(kvs[..s], path + [false]) && AllUnder(kvs[s..], path + [true])
            && Sorted(kvs[..s]) && Sorted(kvs[s..])
            && Asked(kvs[..s]) == Half(Asked(kvs), |path|, false)
            && Asked(kvs[s..]) == Half(Asked(kvs), |path|, true)
  {
    hide Less, BitIsSet, Asked, Half, HasPrefix, Sorted;
    var s := Split(kvs, |path|);
    SplitBits(kvs, path);
    forall i | 0 <= i < |kvs|
      ensures HasPrefix(kvs[i].key, path + [i >= s])
    {
      PrefixStep(kvs[i].key, path);
    }
    SortedParts(kvs, s);
    HalfAsked(kvs, kvs[..s], 0, |path|, false);
    HalfAsked(kvs, kvs[s..], s, |path|, true);
  }

  lemma HalfAsked(kvs: seq<KV>, part: seq<KV>, from: nat, depth: nat, side: bool)
    requires Sorted(kvs) && from + |part| <= |kvs| && part == kvs[from..from + |part|] && depth < TRIE_HEIGHT
    requires forall i :: 0 <= i < |kvs| ==> (BitIsSet(kvs[i].key, depth) == side <==> from <= i < from + |part|)
    ensures Asked(part) == Half(Asked(kvs), depth, side)
  {
    AskedAt(kvs);
    forall k | k in Half(Asked(kvs), depth, side)
      ensures exists i :: 0 <= i < |part| && part[i].key == k
    {
      var i :| 0 <= i < |kvs| && kvs[i].key == k;
      assert part[i - from].key == k;
    }
    AskedIs(part, Half(Asked(kvs), depth, side));
  }

  // ----- maybeAddShortcutToKV

  /** The number of leading keys below `k`. */
  function Rank(kvs: seq<KV>, k: Key): (p: nat)
    ensures p <= |kvs|
    ensures forall i :: 0 <= i < p ==> Less(kvs[i].key, k)
    ensures p < |kvs| ==> !Less(kvs[p].key, k)
  {
    if kvs == [] || !Less(kvs[0].key, k) then 0 else 1 + Rank(kvs[1..], k)
  }

  /**
   What maybeAddShortcutToKV returns on a sorted batch.  A deleted shortcut with both a
   smaller and a larger key beside it is dropped and then re-inserted by the later key.
   */
  function WithShortcut(kvs: seq<KV>, s: KV): seq<KV> {
    var p := Rank(kvs, s.key);
    if p < |kvs| && kvs[p].key == s.key then
      if kvs[p].value != Default then kvs
      else if 0 < p < |kvs| - 1 then
        kvs[..p] + kvs[p + 1..] + (kvs[..p + 1] + [s] + kvs[p + 1..])
      else kvs[..p] + kvs[p + 1..]
    else kvs[..p] + [s] + kvs[p..]
  }

  /** The case in which the code's merge goes wrong; a caller can read it off its batch. */
  predicate Reinserts(kvs: seq<KV>, k: Key) {
    var p := Rank(kvs, k);
    0 < p < |kvs| - 1 && kvs[p] == KV(k, Default)
  }

  /** What the merge has to denote: the batch wins over the shortcut, a deletion removes it. */
  function MergedMap(kvs: seq<KV>, s: KV): Map {
    var asked := Asked(kvs);
    if s.key !in asked then asked[s.key := s.value]
    else if asked[s.key] == Default then asked - {s.key}
    else asked
  }

  lemma RankSplits(kvs: seq<KV>, k: Key)
    requires Sorted(kvs)
    ensures var p := Rank(kvs, k);
            && (k in Asked(kvs) <==> p < |kvs| && kvs[p].key == k)
            && (forall i :: p < i < |kvs| ==> Less(k, kvs[i].key))
            && (p < |kvs| && kvs[p].key != k ==> Less(k, kvs[p].key))
  {
    var p := Rank(kvs, k);
    AskedAt(kvs);
    if p < |kvs| {
      LessTotal(kvs[p].key, k);
      forall i | p < i < |kvs|
        ensures Less(k, kvs[i].key)
      {
        if kvs[p].key != k { LessTrans(k, kvs[p].key, kvs[i].key); }
      }
    }
    forall i | 0 <= i < |kvs| && i != p
      ensures kvs[i].key != k
    {
      LessTotal(kvs[i].key, k);
    }
  }

  predicate AllBelow(a: seq<KV>, b: seq<KV>) {
    forall i, j :: 0 <= i < |a| && 0 <= j < |b| ==> Less(a[i].key, b[j].key)
  }

  lemma SortedConcat(a: seq<KV>, b: seq<KV>)
    requires Sorted(a) && Sorted(b) && AllBelow(a, b)
    ensures Sorted(a + b)
  {
    hide Less;
    var c := a + b;
    forall i, j | 0 <= i < j < |c|
      ensures Less(c[i].key, c[j].key)
    {
      if i < |a| && |a| <= j {
        assert Less(a[i].key, b[j - |a|].key);
      } else if |a| <= i {
        assert Less(b[i - |a|].key, b[j - |a|].key);
      }
    }
  }

  lemma {:induction false} AskedConcat(a: seq<KV>, b: seq<KV>)
    ensures Asked(a + b) == Asked(a) + Asked(b)
  {
    if b == [] {
      assert a + b == a;
    } else {
      var n := |b| - 1;
      AskedConcat(a, b[..n]);
      assert (a + b)[..|a + b| - 1] == a + b[..n];
    }
  }

  lemma SortedCut(kvs: seq<KV>, p: nat, q: nat)
    requires Sorted(kvs) && p <= q <= |kvs|
    ensures Sorted(kvs[..p]) && Sorted(kvs[q..]) && AllBelow(kvs[..p], kvs[q..])
  {
    hide Less;
    var a, b := kvs[..p], kvs[q..];
    forall i, j | 0 <= i < |a| && 0 <= j < |b|
      ensures Less(a[i].key, b[j].key)
    {
      assert a[i] == kvs[i] && b[j] == kvs[q + j];
    }
  }

  lemma AskedOne(kv: KV)
    ensures Asked([kv]) == map[kv.key := kv.value]
  {
    assert [kv][..0] == [];
  }

  lemma AskedSplit(kvs: seq<KV>, p: nat, q: nat)
    requires p <= q <= |kvs| && q <= p + 1
    ensures Asked(kvs) == Asked(kvs[..p]) + (if p < q then map[kvs[p].key := kvs[p].value] else map[]) + Asked(kvs[q..])
  {
    hide Asked;
    assert kvs == kvs[..p] + kvs[p..];
    AskedConcat(kvs[..p], kvs[p..]);
    if p < q {
      assert kvs[p..] == [kvs[p]] + kvs[q..];
      AskedConcat([kvs[p]], kvs[q..]);
      AskedOne(kvs[p]);
      PlusAssociates(Asked(kvs[..p]), map[kvs[p].key := kvs[p].value], Asked(kvs[q..]));
    } else {
      PlusNothing(Asked(kvs[..p]));
    }
  }

  lemma PlusAssociates(a: Map, b: Map, c: Map)
    ensures a + (b + c) == a + b + c
  {
  }

  lemma PlusNothing(a: Map)
    ensures a + map[] == a
  {
  }

  lemma AskedHere(kvs: seq<KV>, p: nat)
    requires Sorted(kvs)
    ensures p < |kvs| ==> kvs[p].key in Asked(kvs) && Asked(kvs)[kvs[p].key] == kvs[p].value
  {
    hide Asked, Sorted;
    AskedAt(kvs);
  }

  /** A sorted batch, cut at the rank of a key: what is below it, itself if present, what is above. */
  lemma RankCut(kvs: seq<KV>, k: Key)
    requires Sorted(kvs)
    ensures var p := Rank(kvs, k);
            var q := if k in Asked(kvs) then p + 1 else p;
            && q <= |kvs|
            && (k in Asked(kvs) ==> kvs[p] == KV(k, Asked(kvs)[k]))
            && k !in Asked(kvs[q..])
            && Asked(kvs[..p]) + Asked(kvs[q..]) == Asked(kvs) - {k}
  {
    hide Less, Sorted, Asked, Rank;
    var p := Rank(kvs, k);
    RankSplits(kvs, k);
    AskedHere(kvs, p);
    var q := if k in Asked(kvs) then p + 1 else p;
    SortedCut(kvs, p, q);
    AskedSplit(kvs, p, q);
    var a, b := kvs[..p], kvs[q..];
    assert forall i :: 0 <= i < |a| ==> a[i] == kvs[i];
    AskedAbsent(a, k);
    assert forall i :: 0 <= i < |b| ==> b[i] == kvs[q + i];
    AskedAbsent(b, k);
  }

  lemma AskedAbsent(kvs: seq<KV>, k: Key)
    requires Sorted(kvs) && forall i :: 0 <= i < |kvs| ==> Less(kvs[i].key, k) || Less(k, kvs[i].key)
    ensures k !in Asked(kvs)
  {
    hide Less;
    AskedAt(kvs);
    LessTotal(k, k);
  }

  lemma MergeAbsent(kvs: seq<KV>, s: KV)
    requires Sorted(kvs) && s.key !in Asked(kvs)
    ensures Sorted(WithShortcut(kvs, s)) && Asked(WithShortcut(kvs, s)) == MergedMap(kvs, s)
  {
    hide Less, Asked;
    var p := Rank(kvs, s.key);
    RankSplits(kvs, s.key);
    RankCut(kvs, s.key);
    SortedCut(kvs, p, p);
    SortedConcat(kvs[..p], [s]);
    SortedConcat(kvs[..p] + [s], kvs[p..]);
    AskedConcat(kvs[..p], [s]);
    AskedConcat(kvs[..p] + [s], kvs[p..]);
    AskedOne(s);
    assert Asked(kvs) - {s.key} == Asked(kvs);
  }

  lemma MergeDeleted(kvs: seq<KV>, s: KV)
    requires Sorted(kvs) && s.key in Asked(kvs) && Asked(kvs)[s.key] == Default && !Reinserts(kvs, s.key)
    ensures Sorted(WithShortcut(kvs, s)) && Asked(WithShortcut(kvs, s)) == MergedMap(kvs, s)
  {
    hide Less;
    var p := Rank(kvs, s.key);
    RankCut(kvs, s.key);
    SortedCut(kvs, p, p + 1);
    SortedConcat(kvs[..p], kvs[p + 1..]);
    AskedConcat(kvs[..p], kvs[p + 1..]);
  }

  /**
   The merge is a sorted, duplicate-free list of the right map if and only if the deleted
   shortcut does not have both a smaller and a larger key beside it.
   */
  lemma WithShortcutMerges(kvs: seq<KV>, s: KV)
    requires Sorted(kvs)
    ensures var merged := WithShortcut(kvs, s);
            Sorted(merged) && Asked(merged) == MergedMap(kvs, s) <==> !Reinserts(kvs, s.key)
  {
    hide Less;
    RankSplits(kvs, s.key);
    AskedAt(kvs);
    var merged := WithShortcut(kvs, s);
    if Reinserts(kvs, s.key) {
      // the first key of the batch is listed twice
      var i := |kvs| - 1;
      assert merged[0] == kvs[0] && merged[i] == kvs[0];
      LessTotal(merged[0].key, merged[i].key);
    } else if s.key !in Asked(kvs) {
      MergeAbsent(kvs, s);
    } else if Asked(kvs)[s.key] == Default {
      MergeDeleted(kvs, s);
    }
  }

  /** The loop of maybeAddShortcutToKV computes exactly this list. */
  method MaybeAddShortcutToKV(kvs: seq<KV>, s: KV) returns (merged: seq<KV>)
    requires Sorted(kvs) && kvs != []
    ensures merged == WithShortcut(kvs, s)
  {
    hide Less, Rank, Asked, Sorted;
    ghost var p := Rank(kvs, s.key);
    RankSplits(kvs, s.key);
    LessTotal(s.key, kvs[0].key);
    LessTotal(s.key, kvs[|kvs| - 1].key);
    merged := [];
    if Less(s.key, kvs[0].key) {
      merged := [s] + kvs;
    } else if Less(kvs[|kvs| - 1].key, s.key) {
      merged := kvs + [s];
    } else {
      var higher := false;
      var i := 0;
      while i < |kvs|
        invariant 0 <= i <= |kvs|
        invariant higher <==> 0 < p && 0 < i
        invariant kvs[p].key != s.key ==> i <= p
        invariant i <= p ==> merged == []
        invariant i > p ==> kvs[p].value == Default && (0 < p ==> i == p + 1)
        invariant i > p ==> merged == kvs[..p] + kvs[p + 1..]
      {
        var key := kvs[i].key;
        LessTotal(s.key, key);
        if s.key == key {
          if kvs[i].value != Default {
            return kvs;
          }
          merged := merged + kvs[..i] + kvs[i + 1..];
        }
        if !higher && Less(key, s.key) {
          higher := true;
        } else if higher && Less(s.key, key) {
          merged := merged + (kvs[..i] + [s] + kvs[i..]);
          break;
        }
        i := i + 1;
      }
    }
  }

  // ----- update

  /** A subtree after an update, and whether a shortcut beside it may have to move up. */
  datatype Updated = Updated(tree: Word, deleted: bool)

  /** maybeMoveUpShortcut followed, when nothing moves, by interiorHash. */
  function Join(l: Word, r: Word, height: nat): Updated {
    if l.Default? && r.Default? then Updated(Default, true)
    else if l.Default? && r.Leaf? then Updated(Leaf(r.key, r.value, height % 256), true)
    else if r.Default? && l.Leaf? then Updated(Leaf(l.key, l.value, height % 256), true)
    else Updated(Node(l, r), false)
  }

  /** Digest trees that a store can hold: shortcuts carry real keys and their own height. */
  predicate Shaped(d: Word, height: nat) {
    match d
    case Default => true
    case Leaf(k, _, b) => k.Bytes? && b == height % 256
    case Node(l, r) => height > 0 && Shaped(l, height - 1) && Shaped(r, height - 1)
    case Bytes(_) => false
  }

  /** One key for an empty subtree. */
  function PutOne(kv: KV, height: nat): Updated {
    if kv.value == Default then Updated(Default, true) else Updated(ShortcutOf(kv, height), false)
  }

  /** update, on the digest tree `d` of a subtree at `height`. */
  function UpdateTree(d: Word, kvs: seq<KV>, height: nat): (u: Updated)
    requires kvs != [] && height <= TRIE_HEIGHT && Shaped(d, height)
    ensures !u.deleted ==> !u.tree.Default?
    ensures Shaped(u.tree, height)
    decreases height, 1
  {
    if height == 0 then PutOne(kvs[0], 0)
    else
      var all := if d.Leaf? then WithShortcut(kvs, KV(d.key.bytes, d.value)) else kvs;
      var l, r := if d.Node? then d.left else Default, if d.Node? then d.right else Default;
      if all == [] then Updated(Default, true)
      else if l.Default? && r.Default? && |all| == 1 then PutOne(all[0], height)
      else UpdateChildren(l, r, all, height)
  }

  /** updateLeft, updateRight or updateParallel, whichever sides the keys fall on. */
  function UpdateChildren(l: Word, r: Word, all: seq<KV>, height: nat): (u: Updated)
    requires all != [] && 0 < height <= TRIE_HEIGHT && Shaped(l, height - 1) && Shaped(r, height - 1)
    ensures !u.deleted ==> u.tree.Node?
    ensures Shaped(u.tree, height)
    decreases height, 0
  {
    var s := Split(all, TRIE_HEIGHT - height);
    var lu := if s == 0 then Updated(l, false) else UpdateTree(l, all[..s], height - 1);
    var ru := if s == |all| then Updated(r, false) else UpdateTree(r, all[s..], height - 1);
    if lu.deleted || ru.deleted then Join(lu.tree, ru.tree, height)
    else Updated(Node(lu.tree, ru.tree), false)
  }

  // ----- what an update means

  /** No other key of the map shares the first `depth` bits of `k`. */
  predicate Isolated(m: Map, k: Key, depth: nat)
    requires depth <= TRIE_HEIGHT
  {
    k in m && forall x :: x in m && x != k ==> !Agree(x, k, depth)
  }

  /**
   No deletion of the batch has both its neighbours in the batch inside the subtree that
   holds the deleted key alone.  This is what keeps every merge along the way right.
   */
  predicate Mergeable(m: Map, kvs: seq<KV>, depth: nat) {
    forall j, d :: 0 < j < |kvs| - 1 && depth <= d <= TRIE_HEIGHT && kvs[j].value == Default
      && Isolated(m, kvs[j].key, d)
      ==> !(Agree(kvs[j - 1].key, kvs[j].key, d) && Agree(kvs[j + 1].key, kvs[j].key, d))
  }

  lemma {:induction false} CanonicalShaped(d: Word, path: seq<bool>)
    requires Canonical(d, path)
    ensures Shaped(d, TRIE_HEIGHT - |path|)
    decreases d
  {
    if d.Node? {
      CanonicalShaped(d.left, path + [false]);
      CanonicalShaped(d.right, path + [true]);
    }
  }

  lemma JoinCanonical(l: Word, r: Word, path: seq<bool>)
    requires |path| < TRIE_HEIGHT && Canonical(l, path + [false]) && Canonical(r, path + [true])
    ensures var j := Join(l, r, TRIE_HEIGHT - |path|);
            Canonical(j.tree, path) && MapOf(j.tree) == MapOf(l) + MapOf(r)
  {
    if l.Default? && r.Leaf? {
      PrefixDrop(r.key.bytes, path, true);
    } else if r.Default? && l.Leaf? {
      PrefixDrop(l.key.bytes, path, false);
    }
  }

  lemma ApplyHalf(m: Map, asked: Map, depth: nat, side: bool)
    requires depth < TRIE_HEIGHT
    ensures Half(Apply(m, asked), depth, side) == Apply(Half(m, depth, side), Half(asked, depth, side))
  {
    hide BitIsSet;
  }

  lemma MergeableHalf(m: Map, kvs: seq<KV>, from: nat, to: nat, path: seq<bool>, side: bool)
    requires |path| < TRIE_HEIGHT && Mergeable(m, kvs, |path|) && from <= to <= |kvs|
    ensures Mergeable(Half(m, |path|, side), kvs[from..to], |path| + 1)
  {
    hide BitIsSet;
    var part, h := kvs[from..to], Half(m, |path|, side);
    forall j, d | 0 < j < |part| - 1 && |path| + 1 <= d <= TRIE_HEIGHT && part[j].value == Default
                  && Isolated(h, part[j].key, d)
      ensures !(Agree(part[j - 1].key, part[j].key, d) && Agree(part[j + 1].key, part[j].key, d))
    {
      var k := kvs[from + j].key;
      forall x | x in m && x != k
        ensures !Agree(x, k, d)
      {
        if x !in h {
          assert BitIsSet(x, |path|) != BitIsSet(k, |path|);
        }
      }
      assert Isolated(m, kvs[from + j].key, d);
    }
  }

  lemma NoTwoAtBottom(kvs: seq<KV>, path: seq<bool>)
    requires Sorted(kvs) && AllUnder(kvs, path) && |path| == TRIE_HEIGHT
    ensures |kvs| <= 1
  {
    if |kvs| > 1 {
      PrefixAgree(kvs[0].key, kvs[1].key, path);
      LessTotal(kvs[0].key, kvs[1].key);
    }
  }

  /** At a shortcut below `path`, a mergeable batch never triggers the re-insertion. */
  lemma MergeableHere(s: KV, kvs: seq<KV>, path: seq<bool>)
    requires Sorted(kvs) && AllUnder(kvs, path) && |path| <= TRIE_HEIGHT && HasPrefix(s.key, path)
    requires Mergeable(map[s.key := s.value], kvs, |path|)
    ensures !Reinserts(kvs, s.key)
  {
    if Reinserts(kvs, s.key) {
      var p := Rank(kvs, s.key);
      assert Isolated(map[s.key := s.value], kvs[p].key, |path|);
      PrefixAgree(kvs[p - 1].key, s.key, path);
      PrefixAgree(kvs[p + 1].key, s.key, path);
    }
  }

  lemma AskedUnder(kvs: seq<KV>, path: seq<bool>)
    requires Sorted(kvs)
    ensures AllUnder(kvs, path) <==> forall k :: k in Asked(kvs) ==> HasPrefix(k, path)
  {
    hide Less;
    AskedAt(kvs);
  }

  /**
   The refinement: on the tree of a map, one sorted batch yields the tree of the updated map.
   */
  lemma {:induction false} UpdateMeaning(d: Word, kvs: seq<KV>, path: seq<bool>)
    requires |path| <= TRIE_HEIGHT
    requires kvs != [] && Sorted(kvs) && AllUnder(kvs, path) && Canonical(d, path)
    requires Mergeable(MapOf(d), kvs, |path|)
    ensures Shaped(d, TRIE_HEIGHT - |path|)
    ensures Canonical(UpdateTree(d, kvs, TRIE_HEIGHT - |path|).tree, path)
    ensures MapOf(UpdateTree(d, kvs, TRIE_HEIGHT - |path|).tree) == Apply(MapOf(d), Asked(kvs))
    ensures !UpdateTree(d, kvs, TRIE_HEIGHT - |path|).deleted && (d.Node? || (d.Default? && |kvs| > 1)) ==>
              UpdateTree(d, kvs, TRIE_HEIGHT - |path|).tree.Node?
    decreases TRIE_HEIGHT - |path|, 4
  {
    hide Less, Asked, Mergeable, WithShortcut, Apply, UpdateTree, UpdateChildren, Shaped, HasPrefix;
    CanonicalShaped(d, path);
    if |path| == TRIE_HEIGHT {
      LastMeaning(d, kvs, path);
    } else if d.Node? {
      NodeMeaning(d, kvs, path);
    } else if d.Default? {
      EmptyMeaning(kvs, path);
    } else {
      MergeableHere(KV(d.key.bytes, d.value), kvs, path);
      ShortcutMeaning(d, kvs, path);
    }
  }

  lemma LastMeaning(d: Word, kvs: seq<KV>, path: seq<bool>)
    requires kvs != [] && Sorted(kvs) && AllUnder(kvs, path) && Canonical(d, path) && |path| == TRIE_HEIGHT
    ensures !d.Node? && Shaped(d, 0)
    ensures var u := UpdateTree(d, kvs, 0);
            Canonical(u.tree, path) && MapOf(u.tree) == Apply(MapOf(d), Asked(kvs)) && |kvs| == 1
  {
    hide Less, Asked, Apply, HasPrefix;
    NoTwoAtBottom(kvs, path);
    assert kvs == [kvs[0]];
    BottomMeaning(d, kvs[0], path);
  }

  lemma {:induction false} NodeMeaning(d: Word, kvs: seq<KV>, path: seq<bool>)
    requires kvs != [] && Sorted(kvs) && AllUnder(kvs, path) && Canonical(d, path) && d.Node? && |path| < TRIE_HEIGHT
    requires Mergeable(MapOf(d), kvs, |path|)
    ensures Shaped(d, TRIE_HEIGHT - |path|)
    ensures var u := UpdateTree(d, kvs, TRIE_HEIGHT - |path|);
            Canonical(u.tree, path) && MapOf(u.tree) == Apply(MapOf(d), Asked(kvs)) && (!u.deleted ==> u.tree.Node?)
    decreases TRIE_HEIGHT - |path|, 3
  {
    hide Less, Asked, Apply, HasPrefix, Mergeable, UpdateChildren, WithShortcut;
    CanonicalShaped(d, path);
    UpdateChildrenMeaning(d.left, d.right, kvs, path);
  }

  lemma {:induction false} ShortcutMeaning(d: Word, kvs: seq<KV>, path: seq<bool>)
    requires kvs != [] && Sorted(kvs) && AllUnder(kvs, path) && Canonical(d, path) && d.Leaf? && |path| < TRIE_HEIGHT
    requires !Reinserts(kvs, d.key.bytes)
    ensures Shaped(d, TRIE_HEIGHT - |path|)
    ensures var u := UpdateTree(d, kvs, TRIE_HEIGHT - |path|);
            Canonical(u.tree, path) && MapOf(u.tree) == Apply(MapOf(d), Asked(kvs))
    decreases TRIE_HEIGHT - |path|, 3
  {
    hide Less, Asked, WithShortcut, Reinserts;
    var s := KV(d.key.bytes, d.value);
    var all := WithShortcut(kvs, s);
    WithShortcutMerges(kvs, s);
    AskedUnder(kvs, path);
    AskedUnder(all, path);
    assert Apply(map[], Asked(all)) == Apply(MapOf(d), Asked(kvs));
    AskedEmpty();
    if all != [] {
      EmptyMeaning(all, path);
    }
  }

  lemma BottomMeaning(d: Word, kv: KV, path: seq<bool>)
    requires |path| == TRIE_HEIGHT && Canonical(d, path) && HasPrefix(kv.key, path)
    ensures var u := PutOne(kv, 0);
            Canonical(u.tree, path) && MapOf(u.tree) == Apply(MapOf(d), Asked([kv]))
  {
    AskedOne(kv);
    if d.Leaf? {
      PrefixAgree(d.key.bytes, kv.key, path);
    }
  }

  lemma {:induction false} EmptyMeaning(kvs: seq<KV>, path: seq<bool>)
    requires kvs != [] && Sorted(kvs) && AllUnder(kvs, path) && |path| < TRIE_HEIGHT
    ensures var u := UpdateTree(Default, kvs, TRIE_HEIGHT - |path|);
            && Canonical(u.tree, path)
            && MapOf(u.tree) == Apply(map[], Asked(kvs))
            && (!u.deleted && |kvs| > 1 ==> u.tree.Node?)
    decreases TRIE_HEIGHT - |path|, 2
  {
    if |kvs| == 1 {
      AskedOne(kvs[0]);
      assert kvs == [kvs[0]];
    } else {
      UpdateChildrenMeaning(Default, Default, kvs, path);
    }
  }

  lemma {:induction false} UpdateChildrenMeaning(l: Word, r: Word, all: seq<KV>, path: seq<bool>)
    requires all != [] && Sorted(all) && AllUnder(all, path) && |path| < TRIE_HEIGHT
    requires Canonical(l, path + [false]) && Canonical(r, path + [true])
    requires (l.Default? && r.Default? && |all| > 1) || Canonical(Node(l, r), path)
    requires Mergeable(MapOf(l) + MapOf(r), all, |path|)
    ensures Shaped(l, TRIE_HEIGHT - |path| - 1) && Shaped(r, TRIE_HEIGHT - |path| - 1)
    ensures var u := UpdateChildren(l, r, all, TRIE_HEIGHT - |path|);
            && Canonical(u.tree, path)
            && MapOf(u.tree) == Apply(MapOf(l) + MapOf(r), Asked(all))
    decreases TRIE_HEIGHT - |path|, 1
  {
    hide Less, Asked;
    var s := Split(all, |path|);
    var m := MapOf(l) + MapOf(r);
    CanonicalShaped(l, path + [false]);
    CanonicalShaped(r, path + [true]);
    SplitExact(all, path);
    ChildMaps(l, r, path);
    assert all[0..s] == all[..s] && all[s..|all|] == all[s..];
    var lu := ChildMeaning(l, all, 0, s, path, false, m);
    var ru := ChildMeaning(r, all, s, |all|, path, true, m);
    HalvesJoin(Apply(m, Asked(all)), |path|);
    JoinCanonical(lu.tree, ru.tree, path);
  }

  lemma ChildMaps(l: Word, r: Word, path: seq<bool>)
    requires |path| < TRIE_HEIGHT && Canonical(l, path + [false]) && Canonical(r, path + [true])
    ensures Half(MapOf(l) + MapOf(r), |path|, false) == MapOf(l)
    ensures Half(MapOf(l) + MapOf(r), |path|, true) == MapOf(r)
  {
    hide BitIsSet, Canonical;
    CanonicalUnder(l, path + [false]);
    CanonicalUnder(r, path + [true]);
    forall k | k in MapOf(l) ensures !BitIsSet(k, |path|) { PrefixDrop(k, path, false); }
    forall k | k in MapOf(r) ensures BitIsSet(k, |path|) { PrefixDrop(k, path, true); }
  }

  /** One child of an interior node, with the part of the batch that falls on its side. */
  lemma {:induction false} ChildMeaning(c: Word, all: seq<KV>, from: nat, to: nat, path: seq<bool>, side: bool, m: Map)
    returns (u: Updated)
    requires |path| < TRIE_HEIGHT && from <= to <= |all|
    requires Canonical(c, path + [side]) && MapOf(c) == Half(m, |path|, side)
    requires Sorted(all[from..to]) && AllUnder(all[from..to], path + [side])
    requires Asked(all[from..to]) == Half(Asked(all), |path|, side)
    requires Mergeable(m, all, |path|)
    ensures Shaped(c, TRIE_HEIGHT - |path| - 1)
    ensures u == if from == to then Updated(c, false) else UpdateTree(c, all[from..to], TRIE_HEIGHT - |path| - 1)
    ensures Canonical(u.tree, path + [side])
    ensures MapOf(u.tree) == Half(Apply(m, Asked(all)), |path|, side)
    ensures !u.deleted && from < to ==> !u.tree.Default?
    ensures !u.deleted && from < to && (c.Node? || (c.Default? && to - from > 1)) ==> u.tree.Node?
    decreases TRIE_HEIGHT - |path|, 0
  {
    hide Less, Asked, BitIsSet, UpdateTree, Canonical, Mergeable;
    var part := all[from..to];
    CanonicalShaped(c, path + [side]);
    ApplyHalf(m, Asked(all), |path|, side);
    if from == to {
      u := Updated(c, false);
      AskedEmpty();
      assert part == [];
      assert Apply(MapOf(c), map[]) == MapOf(c);
    } else {
      MergeableHalf(m, all, from, to, path, side);
      UpdateMeaning(c, part, path + [side]);
      u := UpdateTree(c, part, TRIE_HEIGHT - |path| - 1);
    }
  }

  lemma AskedEmpty()
    ensures Asked([]) == map[]
  {
  }
}
