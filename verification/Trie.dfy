/**
 The trie as a tree of digests, free of its storage layout.

 A 32-byte word is modelled as a free term, the collision-free reading of the hash: the
 1-byte, 65-byte and 64-byte preimages can never be confused, and equal digests have
 equal preimages.  A root digest therefore is the tree it commits to.
 */
module Trie {
  import opened Keys

  datatype Word =
    | Default                                    // Hasher({0}), the source's DefaultLeaf
    | Leaf(key: Word, value: Word, height: nat)  // Hasher(key, value, {byte(height)})
    | Node(left: Word, right: Word)              // Hasher(left, right)
    | Bytes(bytes: Key)                          // any other 32 bytes

  datatype KV = KV(key: Key, value: Word)

  type Map = map<Key, Word>

  /** The digest of a shortcut; `byte(height)` wraps, so heights 0 and 256 share a byte. */
  function ShortcutOf(kv: KV, height: nat): Word {
    Leaf(Bytes(kv.key), kv.value, height % 256)
  }

  // ----- what a tree denotes

  predicate HasPrefix(k: Key, path: seq<bool>) {
    |path| <= TRIE_HEIGHT && forall i :: 0 <= i < |path| ==> BitIsSet(k, i) == path[i]
  }

  /**
   The canonical trees below `path`: a subtree without keys is Default, a subtree with one
   key is a shortcut carrying its own height, every other subtree is an interior node.
   */
  predicate Canonical(d: Word, path: seq<bool>) {
    && |path| <= TRIE_HEIGHT
    && match d
       case Default => true
       case Leaf(k, v, b) =>
         && k.Bytes? && HasPrefix(k.bytes, path) && v != Default
         && b == (TRIE_HEIGHT - |path|) % 256
       case Node(l, r) =>
         && |path| < TRIE_HEIGHT
         && Canonical(l, path + [false]) && Canonical(r, path + [true])
         && (l.Default? ==> r.Node?) && (r.Default? ==> l.Node?)
       case Bytes(_) => false
  }

  function MapOf(d: Word): Map {
    match d
    case Leaf(k, v, _) => if k.Bytes? then map[k.bytes := v] else map[]
    case Node(l, r) => MapOf(l) + MapOf(r)
    case _ => map[]
  }

  function Half(m: Map, depth: nat, side: bool): Map
    requires depth < TRIE_HEIGHT
  {
    map k | k in m && BitIsSet(k, depth) == side :: m[k]
  }

  predicate Under(m: Map, path: seq<bool>) {
    && |path| <= TRIE_HEIGHT
    && forall k :: k in m ==> HasPrefix(k, path) && m[k] != Default
  }

  lemma PrefixStep(k: Key, path: seq<bool>)
    requires |path| < TRIE_HEIGHT && HasPrefix(k, path)
    ensures HasPrefix(k, path + [BitIsSet(k, |path|)])
    ensures !HasPrefix(k, path + [!BitIsSet(k, |path|)])
  {
    var q := path + [!BitIsSet(k, |path|)];
    assert q[|path|] != BitIsSet(k, |path|);
  }

  lemma PrefixDrop(k: Key, path: seq<bool>, side: bool)
    requires HasPrefix(k, path + [side])
    ensures HasPrefix(k, path) && BitIsSet(k, |path|) == side
  {
    var q := path + [side];
    assert BitIsSet(k, |path|) == q[|path|];
    forall i | 0 <= i < |path|
      ensures BitIsSet(k, i) == path[i]
    {
      assert q[i] == path[i];
    }
  }

  lemma PrefixAgree(a: Key, b: Key, path: seq<bool>)
    requires HasPrefix(a, path) && HasPrefix(b, path)
    ensures Agree(a, b, |path|)
    ensures |path| == TRIE_HEIGHT ==> a == b
  {
    if |path| == TRIE_HEIGHT {
      AgreeAll(a, b);
    }
  }

  lemma {:induction false} CanonicalUnder(d: Word, path: seq<bool>)
    requires Canonical(d, path)
    ensures Under(MapOf(d), path)
    decreases d
  {
    if d.Node? {
      CanonicalUnder(d.left, path + [false]);
      CanonicalUnder(d.right, path + [true]);
      forall k | k in MapOf(d)
        ensures HasPrefix(k, path) && MapOf(d)[k] != Default
      {
        PrefixDrop(k, path, k in MapOf(d.right));
      }
    }
  }

  lemma {:induction false} CanonicalHalves(d: Word, path: seq<bool>)
    requires Canonical(d, path) && d.Node?
    ensures MapOf(d.left) == Half(MapOf(d), |path|, false)
    ensures MapOf(d.right) == Half(MapOf(d), |path|, true)
  {
    CanonicalUnder(d.left, path + [false]);
    CanonicalUnder(d.right, path + [true]);
    forall k | k in MapOf(d)
      ensures k in MapOf(d.left) <==> !BitIsSet(k, |path|)
      ensures k in MapOf(d.right) <==> BitIsSet(k, |path|)
    {
      if k in MapOf(d.left) { PrefixDrop(k, path, false); }
      if k in MapOf(d.right) { PrefixDrop(k, path, true); }
    }
  }

  /** An interior node of a canonical tree holds at least two keys, a default none. */
  lemma {:induction false} NodeHasTwo(d: Word, path: seq<bool>) returns (a: Key, b: Key)
    requires Canonical(d, path) && !d.Default?
    ensures a in MapOf(d) && b in MapOf(d)
    ensures d.Node? ==> a != b
    decreases d
  {
    if d.Leaf? {
      a, b := d.key.bytes, d.key.bytes;
    } else if d.left.Default? {
      a, b := NodeHasTwo(d.right, path + [true]);
    } else if d.right.Default? {
      a, b := NodeHasTwo(d.left, path + [false]);
      CanonicalHalves(d, path);
    } else {
      var l, _ := NodeHasTwo(d.left, path + [false]);
      var r, _ := NodeHasTwo(d.right, path + [true]);
      CanonicalHalves(d, path);
      a, b := l, r;
    }
  }

  /** History independence: a canonical tree is determined by the map it denotes. */
  lemma {:induction false} CanonicalUnique(d: Word, e: Word, path: seq<bool>)
    requires Canonical(d, path) && Canonical(e, path) && MapOf(d) == MapOf(e)
    ensures d == e
    decreases d
  {
    if !d.Default? {
      var a, b := NodeHasTwo(d, path);
    }
    if !e.Default? {
      var a, b := NodeHasTwo(e, path);
    }
    if d.Node? && e.Node? {
      CanonicalHalves(d, path);
      CanonicalHalves(e, path);
      CanonicalUnique(d.left, e.left, path + [false]);
      CanonicalUnique(d.right, e.right, path + [true]);
    } else if d.Leaf? && e.Leaf? {
      assert d.key.bytes in MapOf(e);
    }
  }

  // ----- the reference: the tree of a map

  /** The tree of a map, defined from the map alone. */
  ghost function Canon(m: Map, path: seq<bool>): Word
    requires |path| <= TRIE_HEIGHT
    decreases TRIE_HEIGHT - |path|
  {
    if m == map[] then Default
    else
      var k :| k in m;
      if m.Keys == {k} then ShortcutOf(KV(k, m[k]), TRIE_HEIGHT - |path|)
      else if |path| == TRIE_HEIGHT then Default
      else Node(Canon(Half(m, |path|, false), path + [false]),
                Canon(Half(m, |path|, true), path + [true]))
  }

  lemma UnderHalf(m: Map, path: seq<bool>, side: bool)
    requires Under(m, path) && |path| < TRIE_HEIGHT
    ensures Under(Half(m, |path|, side), path + [side])
  {
    forall k | k in Half(m, |path|, side)
      ensures HasPrefix(k, path + [side])
    {
      PrefixStep(k, path);
    }
  }

  lemma HalvesJoin(m: Map, depth: nat)
    requires depth < TRIE_HEIGHT
    ensures Half(m, depth, false) + Half(m, depth, true) == m
  {
  }

  lemma {:induction false} CanonIsCanonical(m: Map, path: seq<bool>)
    requires Under(m, path)
    ensures Canonical(Canon(m, path), path)
    ensures MapOf(Canon(m, path)) == m
    ensures Canon(m, path).Node? <==> exists a, b :: a in m && b in m && a != b
    ensures Canon(m, path).Default? <==> m == map[]
    decreases TRIE_HEIGHT - |path|
  {
    if m != map[] {
      var k :| k in m;
      if m.Keys == {k} {
        assert m == map[k := m[k]];
      } else {
        var j :| j in m && j != k;
        if |path| == TRIE_HEIGHT {
          PrefixAgree(j, k, path);
        } else {
          var l, r := Half(m, |path|, false), Half(m, |path|, true);
          UnderHalf(m, path, false);
          UnderHalf(m, path, true);
          CanonIsCanonical(l, path + [false]);
          CanonIsCanonical(r, path + [true]);
          HalvesJoin(m, |path|);
          assert l == map[] ==> k in r && j in r;
          assert r == map[] ==> k in l && j in l;
          assert forall x :: x in m ==> m.Keys != {x};
        }
      }
    }
  }

  /** Every canonical tree is the reference tree of its map. */
  lemma CanonOfMap(d: Word, path: seq<bool>)
    requires Canonical(d, path)
    ensures d == Canon(MapOf(d), path)
    ensures d.Default? <==> MapOf(d) == map[]
  {
    CanonicalUnder(d, path);
    CanonIsCanonical(MapOf(d), path);
    CanonicalUnique(d, Canon(MapOf(d), path), path);
  }
}
