/**
 Merkle proofs of inclusion and of absence, plain and compressed.
 */
module MerkleProofs {
  import opened Keys
  import opened Trie
  import opened TreeUpdate
  import opened Batch
  import opened Reads

  /** The audit path from the bottom up, and the leaf it ends in. */
  datatype Proof = Proof(path: seq<Word>, included: bool, proofKey: Option<Word>, proofValue: Option<Word>)

  function Extend(p: Proof, sibling: Word): Proof {
    p.(path := p.path + [sibling])
  }

  // ----- making a proof

  /** merkleProof: a leaf without its key or its value panics. */
  function MerkleProof(nodes: Nodes, root: Slot, key: Key, batch: seq<Slot>, height: nat, index: nat): Read<Proof>
    requires height <= TRIE_HEIGHT
    requires height % 4 != 0 ==> |batch| == BATCH_LEN && OnLevel(index, height % 4)
    decreases height
  {
    if root.Empty? then Found(Proof([], false, None, None))
    else match LoadChildren(nodes, root, height, index, batch)
      case Missing => Unavailable
      case Loaded(b, i, l, r, isShortcut) =>
        if isShortcut || height == 0 then
          if l.Empty? || r.Empty? then Panicked
          else if WordOf(l) == Bytes(key) then Found(Proof([], true, None, Some(WordOf(r))))
          else Found(Proof([], false, Some(WordOf(l)), Some(WordOf(r))))
        else if BitIsSet(key, TRIE_HEIGHT - height) then
          match MerkleProof(nodes, r, key, b, height - 1, 2 * i + 2)
          case Unavailable => Unavailable
          case Panicked => Panicked
          case Found(p) => Found(Extend(p, WordOf(l)))
        else
          match MerkleProof(nodes, l, key, b, height - 1, 2 * i + 1)
          case Unavailable => Unavailable
          case Panicked => Panicked
          case Found(p) => Found(Extend(p, WordOf(r)))
  }

  /** The proof read off a digest tree. */
  function ProofIn(d: Word, key: Key, height: nat): (p: Proof)
    requires height <= TRIE_HEIGHT && Shaped(d, height)
    ensures |p.path| <= height
    decreases d
  {
    match d
    case Leaf(k, v, _) =>
      if k == Bytes(key) then Proof([], true, None, Some(v)) else Proof([], false, Some(k), Some(v))
    case Node(l, r) =>
      if BitIsSet(key, TRIE_HEIGHT - height) then Extend(ProofIn(r, key, height - 1), l)
      else Extend(ProofIn(l, key, height - 1), r)
    case _ => Proof([], false, None, None)
  }

  /** merkleProof reads the same proof through the batches as the tree shows. */
  lemma {:induction false} MerkleProofFinds(nodes: Nodes, root: Slot, key: Key, batch: seq<Slot>, height: nat, index: nat)
    requires Coherent(nodes) && height <= TRIE_HEIGHT && IsRoot(root) && Shaped(TreeOf(root), height)
    requires Positioned(batch, index, height, root) && Available(nodes, TreeOf(root), height)
    ensures MerkleProof(nodes, root, key, batch, height, index) == Found(ProofIn(TreeOf(root), key, height))
    decreases height
  {
    hide Holds, BitIsSet, LoadChildren, OnLevel, Coherent;
    var d := TreeOf(root);
    if !root.Empty? {
      LoadChildrenFinds(nodes, root, height, index, batch);
      var loaded := LoadChildren(nodes, root, height, index, batch);
      if d.Node? {
        var side := BitIsSet(key, TRIE_HEIGHT - height);
        ChildPositioned(loaded.batch, loaded.index, height, d, side);
        ChildPositioned(loaded.batch, loaded.index, height, d, !side);
        var c := SlotOf(if side then d.right else d.left);
        MerkleProofFinds(nodes, c, key, loaded.batch, height - 1, 2 * loaded.index + (if side then 2 else 1));
      }
    }
  }

  // ----- checking a proof

  /** verifyInclusion: the digest reached by hashing the path onto `leaf`. */
  function Climb(ap: seq<Word>, i: nat, key: Key, leaf: Word): Word
    requires i <= |ap| <= TRIE_HEIGHT
    decreases |ap| - i
  {
    if i == |ap| then leaf
    else if BitIsSet(key, i) then Node(ap[|ap| - i - 1], Climb(ap, i + 1, key, leaf))
    else Node(Climb(ap, i + 1, key, leaf), ap[|ap| - i - 1])
  }

  /** VerifyInclusion; paths longer than a key has bits cannot be indexed. */
  predicate VerifyInclusion(root: Slot, ap: seq<Word>, key: Key, value: Word)
    requires |ap| <= TRIE_HEIGHT
  {
    root == Bare(Climb(ap, 0, key, ShortcutOf(KV(key, value), TRIE_HEIGHT - |ap|)))
  }

  /** What VerifyNonInclusion accepts: an empty subtree, or another leaf, on the path of the key. */
  predicate ProvesAbsence(root: Slot, ap: seq<Word>, key: Key, value: Word, proofKey: Option<Key>)
    requires |ap| <= TRIE_HEIGHT
  {
    match proofKey
    case None => root == Bare(Climb(ap, 0, key, Default))
    case Some(k) => VerifyInclusion(root, ap, k, value) && Agree(key, k, |ap|)
  }

  /** VerifyNonInclusion */
  method VerifyNonInclusion(root: Slot, ap: seq<Word>, key: Key, value: Word, proofKey: Option<Key>) returns (ok: bool)
    requires |ap| <= TRIE_HEIGHT
    ensures ok <==> ProvesAbsence(root, ap, key, value, proofKey)
  {
    if proofKey.None? {
      return root == Bare(Climb(ap, 0, key, Default));
    }
    if !VerifyInclusion(root, ap, proofKey.value, value) {
      return false;
    }
    for b := 0 to |ap|
      invariant Agree(key, proofKey.value, b)
    {
      if BitIsSet(key, b) != BitIsSet(proofKey.value, b) {
        return false;
      }
    }
    ok := true;
  }

  // ----- soundness

  /** Below the end of a path, the tree and the leaf answer alike. */
  lemma {:induction false} ClimbAnswers(d: Word, ap: seq<Word>, key: Key, leaf: Word, path: seq<bool>, x: Key)
    requires |path| <= |ap| <= TRIE_HEIGHT && d == Climb(ap, |path|, key, leaf)
    requires Canonical(d, path) && HasPrefix(key, path) && Agree(x, key, |ap|)
    ensures MapGet(MapOf(d), x) == MapGet(MapOf(leaf), x)
    decreases |ap| - |path|
  {
    hide BitIsSet;
    if |path| < |ap| {
      var side := BitIsSet(key, |path|);
      PrefixStep(key, path);
      CanonicalHalves(d, path);
      assert BitIsSet(x, |path|) == side;
      ClimbAnswers(if side then d.right else d.left, ap, key, leaf, path + [side], x);
    }
  }

  /** An accepted proof of inclusion is right. */
  lemma InclusionSound(root: Slot, ap: seq<Word>, key: Key, value: Word)
    requires |ap| <= TRIE_HEIGHT && Canonical(TreeOf(root), []) && VerifyInclusion(root, ap, key, value)
    ensures MapGet(MapOf(TreeOf(root)), key) == Some(value)
  {
    ClimbAnswers(TreeOf(root), ap, key, ShortcutOf(KV(key, value), TRIE_HEIGHT - |ap|), [], key);
  }

  /** An accepted proof of absence is right exactly if it does not name the key itself. */
  lemma AbsenceSound(root: Slot, ap: seq<Word>, key: Key, value: Word, proofKey: Option<Key>)
    requires |ap| <= TRIE_HEIGHT && Canonical(TreeOf(root), []) && ProvesAbsence(root, ap, key, value, proofKey)
    ensures key !in MapOf(TreeOf(root)) <==> proofKey != Some(key)
  {
    if proofKey.None? {
      ClimbAnswers(TreeOf(root), ap, key, Default, [], key);
    } else {
      ClimbAnswers(TreeOf(root), ap, proofKey.value, ShortcutOf(KV(proofKey.value, value), TRIE_HEIGHT - |ap|), [], key);
    }
  }

  // ----- completeness

  /** The leaf a proof ends in, hashed at the height where its path starts. */
  function LeafOfProof(p: Proof, key: Key, height: nat): Word {
    if p.included && p.proofValue.Some? then Leaf(Bytes(key), p.proofValue.value, height % 256)
    else if p.proofKey.Some? && p.proofValue.Some? then Leaf(p.proofKey.value, p.proofValue.value, height % 256)
    else Default
  }

  lemma {:induction false} ProofClimbs(d: Word, key: Key, path: seq<bool>, ap: seq<Word>)
    requires Canonical(d, path) && HasPrefix(key, path) && Shaped(d, TRIE_HEIGHT - |path|)
    requires var p := ProofIn(d, key, TRIE_HEIGHT - |path|); |ap| == |p.path| + |path| && p.path <= ap
    ensures var p := ProofIn(d, key, TRIE_HEIGHT - |path|);
            && Climb(ap, |path|, key, LeafOfProof(p, key, TRIE_HEIGHT - |ap|)) == d
            && (p.included <==> key in MapOf(d))
            && (p.included ==> p.proofValue == Some(MapOf(d)[key]))
            && (p.proofKey.Some? ==>
                 && !p.included && p.proofValue.Some? && p.proofKey.value.Bytes?
                 && p.proofKey.value != Bytes(key) && Agree(key, p.proofKey.value.bytes, |ap|))
    decreases d
  {
    hide BitIsSet;
    if d.Node? {
      var side := BitIsSet(key, |path|);
      PrefixStep(key, path);
      CanonicalHalves(d, path);
      var c := if side then d.right else d.left;
      CanonicalShaped(c, path + [side]);
      ProofClimbs(c, key, path + [side], ap);
    } else if d.Leaf? {
      PrefixAgree(key, d.key.bytes, path);
    }
  }

  /** On a non-empty trie every key has a proof, of inclusion or of absence, and the checks accept it. */
  lemma ProofComplete(d: Word, key: Key)
    requires Canonical(d, []) && !d.Default?
    ensures Shaped(d, TRIE_HEIGHT)
    ensures var p, m := ProofIn(d, key, TRIE_HEIGHT), MapOf(d);
            && (key in m ==>
                 && p.included && p.proofValue == Some(m[key])
                 && VerifyInclusion(Bare(d), p.path, key, m[key]))
            && (key !in m ==>
                 && !p.included && ProofKey(p) != Some(key)
                 && ProvesAbsence(Bare(d), p.path, key, ProofValue(p), ProofKey(p)))
  {
    CanonicalShaped(d, []);
    ProofClimbs(d, key, [], ProofIn(d, key, TRIE_HEIGHT).path);
    var p := ProofIn(d, key, TRIE_HEIGHT);
    if p.proofKey.Some? {
      ClimbSame(p.path, 0, key, p.proofKey.value.bytes, LeafOfProof(p, key, TRIE_HEIGHT - |p.path|));
    }
  }

  function ProofKey(p: Proof): Option<Key> {
    if p.proofKey.Some? && p.proofKey.value.Bytes? then Some(p.proofKey.value.bytes) else None
  }

  function ProofValue(p: Proof): Word {
    if p.proofValue.Some? then p.proofValue.value else Default
  }

  lemma {:induction false} ClimbSame(ap: seq<Word>, i: nat, a: Key, b: Key, leaf: Word)
    requires i <= |ap| <= TRIE_HEIGHT && Agree(a, b, |ap|)
    ensures Climb(ap, i, a, leaf) == Climb(ap, i, b, leaf)
    decreases |ap| - i
  {
    if i < |ap| {
      ClimbSame(ap, i + 1, a, b, leaf);
    }
  }

  /** Some proof of inclusion is accepted if and only if the key has that value. */
  lemma InclusionIff(d: Word, key: Key, value: Word)
    requires Canonical(d, []) && !d.Default?
    ensures (exists ap :: |ap| <= TRIE_HEIGHT && VerifyInclusion(Bare(d), ap, key, value))
            <==> MapGet(MapOf(d), key) == Some(value)
  {
    ProofComplete(d, key);
    forall ap | |ap| <= TRIE_HEIGHT && VerifyInclusion(Bare(d), ap, key, value)
      ensures MapGet(MapOf(d), key) == Some(value)
    {
      InclusionSound(Bare(d), ap, key, value);
    }
  }

  /** Some proof of absence that does not name the key is accepted if and only if the key is absent. */
  lemma AbsenceIff(d: Word, key: Key)
    requires Canonical(d, []) && !d.Default?
    ensures (exists ap, v, k :: |ap| <= TRIE_HEIGHT && k != Some(key) && ProvesAbsence(Bare(d), ap, key, v, k))
            <==> key !in MapOf(d)
  {
    ProofComplete(d, key);
    forall ap, v, k | |ap| <= TRIE_HEIGHT && k != Some(key) && ProvesAbsence(Bare(d), ap, key, v, k)
      ensures key !in MapOf(d)
    {
      AbsenceSound(Bare(d), ap, key, v, k);
    }
    if key !in MapOf(d) {
      var p := ProofIn(d, key, TRIE_HEIGHT);
      assert ProvesAbsence(Bare(d), p.path, key, ProofValue(p), ProofKey(p));
    }
  }

  /** The empty trie has no accepted proof of absence at all. */
  lemma EmptyHasNoProof(ap: seq<Word>, key: Key, value: Word, proofKey: Option<Key>)
    requires |ap| <= TRIE_HEIGHT
    ensures !ProvesAbsence(Empty, ap, key, value, proofKey)
  {
  }

  /** The proof that a present key is there, handed over as a proof of absence that names the key itself: accepted. */
  lemma PresentKeyProvedAbsent(d: Word, key: Key)
    requires Canonical(d, []) && key in MapOf(d)
    ensures Shaped(d, TRIE_HEIGHT)
    ensures ProvesAbsence(Bare(d), ProofIn(d, key, TRIE_HEIGHT).path, key, MapOf(d)[key], Some(key))
  {
    ProofComplete(d, key);
  }

  // ----- compressed proofs

  function NonDefault(ap: seq<Word>): (mp: seq<Word>)
    ensures |mp| <= |ap|
  {
    if ap == [] then []
    else
      var n := |ap| - 1;
      NonDefault(ap[..n]) + if ap[n] == Default then [] else [ap[n]]
  }

  /** The compression loop of merkleProofCompressed */
  method Compress(ap: seq<Word>) returns (bitmap: seq<bv8>, mp: seq<Word>, height: nat)
    ensures height == |ap| && |bitmap| == |ap| / 8 + 1
    ensures forall i :: 0 <= i < |ap| ==> (BitIsSet(bitmap, i) <==> ap[i] != Default)
    ensures mp == NonDefault(ap)
  {
    hide BitIsSet, BitSet;
    height, mp := |ap|, [];
    bitmap := ZeroBytes(|ap| / 8 + 1);
    for i := 0 to |ap|
      invariant |bitmap| == |ap| / 8 + 1
      invariant forall j :: 0 <= j < 8 * |bitmap| ==> (BitIsSet(bitmap, j) <==> j < i && ap[j] != Default)
      invariant mp == NonDefault(ap[..i])
    {
      assert ap[..i + 1][..i] == ap[..i];
      if ap[i] != Default {
        forall j | 0 <= j < 8 * |bitmap|
          ensures BitIsSet(BitSet(bitmap, i), j) <==> j == i || BitIsSet(bitmap, j)
        {
          BitSetSets(bitmap, i, j);
        }
        bitmap := BitSet(bitmap, i);
        mp := mp + [ap[i]];
      }
    }
    assert ap[..|ap|] == ap;
  }

  function ZeroBytes(n: nat): (b: seq<bv8>)
    ensures |b| == n && forall i :: 0 <= i < 8 * n ==> !BitIsSet(b, i)
  {
    seq(n, _ => 0)
  }

  /** verifyInclusionC; None where the source would index out of range. */
  function ClimbC(bitmap: seq<bv8>, key: Key, leaf: Word, mp: seq<Word>, length: nat, i: nat, used: nat): Option<Word>
    requires i <= length <= TRIE_HEIGHT
    decreases length - i
  {
    if i == length then Some(leaf)
    else if length - i - 1 >= 8 * |bitmap| then None
    else
      var present := BitIsSet(bitmap, length - i - 1);
      if present && used >= |mp| then None
      else
        var sibling := if present then mp[|mp| - used - 1] else Default;
        match ClimbC(bitmap, key, leaf, mp, length, i + 1, if present then used + 1 else used)
        case None => None
        case Some(below) => Some(if BitIsSet(key, i) then Node(sibling, below) else Node(below, sibling))
  }

  lemma {:induction false} NonDefaultPrefix(ap: seq<Word>, n: nat)
    requires n <= |ap|
    ensures NonDefault(ap[..n]) <= NonDefault(ap)
    decreases |ap| - n
  {
    if n < |ap| {
      NonDefaultPrefix(ap, n + 1);
      assert ap[..n + 1][..n] == ap[..n];
    } else {
      assert ap[..n] == ap;
    }
  }

  /** The entry at `n` is the last one packed so far, unless it is a default. */
  lemma NonDefaultLast(ap: seq<Word>, n: nat)
    requires 0 < n <= |ap|
    ensures var mp, used := NonDefault(ap), |NonDefault(ap[..n])|;
            && |NonDefault(ap[..n - 1])| == (if ap[n - 1] == Default then used else used - 1)
            && used <= |mp|
            && (ap[n - 1] != Default ==> 0 < used && mp[used - 1] == ap[n - 1])
  {
    NonDefaultPrefix(ap, n);
    assert ap[..n][..n - 1] == ap[..n - 1];
  }

  /** Compressed verification computes the digest of plain verification. */
  lemma {:induction false} CompressedClimbs(ap: seq<Word>, bitmap: seq<bv8>, key: Key, leaf: Word, i: nat)
    requires i <= |ap| <= TRIE_HEIGHT && |bitmap| == |ap| / 8 + 1
    requires forall j :: 0 <= j < |ap| ==> (BitIsSet(bitmap, j) <==> ap[j] != Default)
    ensures var mp := NonDefault(ap);
            var used := |mp| - |NonDefault(ap[..|ap| - i])|;
            used >= 0 && ClimbC(bitmap, key, leaf, mp, |ap|, i, used) == Some(Climb(ap, i, key, leaf))
    decreases |ap| - i
  {
    hide BitIsSet, NonDefault;
    var n := |ap| - i;
    NonDefaultPrefix(ap, n);
    if i < |ap| {
      NonDefaultLast(ap, n);
      CompressedClimbs(ap, bitmap, key, leaf, i + 1);
    }
  }

  /** VerifyInclusionC */
  predicate VerifyInclusionC(root: Slot, bitmap: seq<bv8>, key: Key, value: Word, mp: seq<Word>, length: nat)
    requires length <= TRIE_HEIGHT
  {
    var c := ClimbC(bitmap, key, ShortcutOf(KV(key, value), TRIE_HEIGHT - length), mp, length, 0, 0);
    c.Some? && root == Bare(c.value)
  }

  /** VerifyNonInclusionC */
  predicate ProvesAbsenceC(root: Slot, mp: seq<Word>, length: nat, bitmap: seq<bv8>, key: Key, value: Word, proofKey: Option<Key>)
    requires length <= TRIE_HEIGHT
  {
    match proofKey
    case None =>
      var c := ClimbC(bitmap, key, Default, mp, length, 0, 0);
      c.Some? && root == Bare(c.value)
    case Some(k) => VerifyInclusionC(root, bitmap, k, value, mp, length) && Agree(key, k, length)
  }

  /** On a compressed path the compressed checks decide as the plain ones do on the path itself. */
  lemma CompressedRefines(root: Slot, ap: seq<Word>, bitmap: seq<bv8>, key: Key, value: Word, proofKey: Option<Key>)
    requires |ap| <= TRIE_HEIGHT && |bitmap| == |ap| / 8 + 1
    requires forall j :: 0 <= j < |ap| ==> (BitIsSet(bitmap, j) <==> ap[j] != Default)
    ensures VerifyInclusionC(root, bitmap, key, value, NonDefault(ap), |ap|) == VerifyInclusion(root, ap, key, value)
    ensures ProvesAbsenceC(root, NonDefault(ap), |ap|, bitmap, key, value, proofKey)
            == ProvesAbsence(root, ap, key, value, proofKey)
  {
    hide BitIsSet, Climb, ClimbC, NonDefault;
    assert ap[..|ap|] == ap;
    CompressedClimbs(ap, bitmap, key, ShortcutOf(KV(key, value), TRIE_HEIGHT - |ap|), 0);
    CompressedClimbs(ap, bitmap, key, Default, 0);
    if proofKey.Some? {
      CompressedClimbs(ap, bitmap, proofKey.value, ShortcutOf(KV(proofKey.value, value), TRIE_HEIGHT - |ap|), 0);
    }
  }

  // ----- any compressed proof

  /** Whatever the bitmap and the packed entries are, a climb that ends climbs some plain path. */
  lemma {:induction false} Expands(bitmap: seq<bv8>, key: Key, leaf: Word, mp: seq<Word>, length: nat, i: nat, used: nat, rest: seq<Word>)
    returns (ap: seq<Word>)
    requires i <= length <= TRIE_HEIGHT && |rest| == i && ClimbC(bitmap, key, leaf, mp, length, i, used).Some?
    ensures |ap| == length - i && ClimbC(bitmap, key, leaf, mp, length, i, used).value == Climb(ap + rest, i, key, leaf)
    decreases length - i
  {
    hide BitIsSet;
    if i == length {
      ap := [];
    } else {
      var present := BitIsSet(bitmap, length - i - 1);
      var sibling := if present then mp[|mp| - used - 1] else Default;
      var below := Expands(bitmap, key, leaf, mp, length, i + 1, if present then used + 1 else used, [sibling] + rest);
      ap := below + [sibling];
      assert below + ([sibling] + rest) == ap + rest;
    }
  }

  /** A compressed inclusion proof that is accepted is true of the map, however it was made. */
  lemma InclusionSoundC(root: Slot, bitmap: seq<bv8>, key: Key, value: Word, mp: seq<Word>, length: nat)
    requires length <= TRIE_HEIGHT && Canonical(TreeOf(root), []) && VerifyInclusionC(root, bitmap, key, value, mp, length)
    ensures MapGet(MapOf(TreeOf(root)), key) == Some(value)
  {
    hide Climb, ClimbC, Canonical, MapOf;
    var ap := Expands(bitmap, key, ShortcutOf(KV(key, value), TRIE_HEIGHT - length), mp, length, 0, 0, []);
    assert ap + [] == ap;
    InclusionSound(root, ap, key, value);
  }

  /** And one of absence is right exactly if it does not name the key itself. */
  lemma AbsenceSoundC(root: Slot, mp: seq<Word>, length: nat, bitmap: seq<bv8>, key: Key, value: Word, proofKey: Option<Key>)
    requires length <= TRIE_HEIGHT && Canonical(TreeOf(root), [])
    requires ProvesAbsenceC(root, mp, length, bitmap, key, value, proofKey)
    ensures key !in MapOf(TreeOf(root)) <==> proofKey != Some(key)
  {
    hide Climb, ClimbC, Canonical, MapOf, Agree;
    var k := if proofKey.None? then key else proofKey.value;
    var leaf := if proofKey.None? then Default else ShortcutOf(KV(k, value), TRIE_HEIGHT - length);
    var ap := Expands(bitmap, k, leaf, mp, length, 0, 0, []);
    assert ap + [] == ap;
    AbsenceSound(root, ap, key, value, proofKey);
  }
}
