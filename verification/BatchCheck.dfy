/**
 The check of fast sync on any batch a peer may send: what it tests and when it panics, the
 batches that pass although they are not those of the trie, and the condition that rules
 these out.
 */
module BatchChecks {
  import opened Keys
  import opened Trie
  import opened Batch
  import opened Reads
  import opened Sync

  // ----- what verifyBatch decides, on any batch

  /** One node of a batch against its children; Bad where an index is out of range. */
  datatype Test = Bad | Wrong | Right

  /** The levels below index `i` in its batch. */
  function LevelOf(i: nat): nat {
    if i == 0 then 4 else if i <= 2 then 3 else if i <= 6 then 2 else 1
  }

  function NodeTest(b: seq<Slot>, i: nat, height: int, root: Word): Test
    requires |b| == BATCH_LEN && i < 15
  {
    var l, r := 2 * i + 1, 2 * i + 2;
    var lc, rc := HasChildren(b, l), HasChildren(b, r);
    if !b[i].Entry? && (i > 0 || (!lc && !rc)) then Bad
    else if !lc && !rc && b[i].flag == 1 && !(b[l].Entry? && b[r].Entry?) then Bad
    else
      var res :=
        if lc || rc then HashPair(if lc then SlotWord(b[l]) else None, if rc then SlotWord(b[r]) else None)
        else if b[i].flag == 1 then Some(Leaf(b[l].word, b[r].word, (height + LevelOf(i)) % 256))
        else HashPair(SlotWord(b[l]), SlotWord(b[r]));
      if res == Some(if i == 0 then root else b[i].word) then Right else Wrong
  }

  /** The nodes that verifyBatch looks at, in the order in which it tests them. */
  function Visits(b: seq<Slot>, i: nat, levels: nat): (vs: seq<nat>)
    requires |b| == BATCH_LEN && OnLevel(i, levels)
    ensures forall k :: 0 <= k < |vs| ==> vs[k] < 15
    decreases levels
  {
    if levels == 0 then []
    else
      var l, r := 2 * i + 1, 2 * i + 2;
      (if HasChildren(b, l) then Visits(b, l, levels - 1) else [])
      + (if HasChildren(b, r) then Visits(b, r, levels - 1) else [])
      + [i]
  }

  /** The first test that does not succeed. */
  function FirstFailure(b: seq<Slot>, vs: seq<nat>, height: int, root: Word): Test
    requires |b| == BATCH_LEN && forall k :: 0 <= k < |vs| ==> vs[k] < 15
  {
    if vs == [] then Right
    else
      var t := NodeTest(b, vs[0], height, root);
      if t.Right? then FirstFailure(b, vs[1..], height, root) else t
  }

  lemma {:induction false} FailureConcat(b: seq<Slot>, vs: seq<nat>, ws: seq<nat>, height: int, root: Word)
    requires |b| == BATCH_LEN && (forall k :: 0 <= k < |vs| ==> vs[k] < 15) && forall k :: 0 <= k < |ws| ==> ws[k] < 15
    ensures var t := FirstFailure(b, vs, height, root);
            FirstFailure(b, vs + ws, height, root) == if t.Right? then FirstFailure(b, ws, height, root) else t
  {
    hide NodeTest;
    if vs == [] {
      assert vs + ws == ws;
    } else {
      FailureConcat(b, vs[1..], ws, height, root);
      assert (vs + ws)[1..] == vs[1..] + ws;
    }
  }

  /** Where the first failure is: everything before it succeeds, and it alone decides. */
  lemma {:induction false} FailureAt(b: seq<Slot>, vs: seq<nat>, height: int, root: Word) returns (k: nat)
    requires |b| == BATCH_LEN && forall j :: 0 <= j < |vs| ==> vs[j] < 15
    ensures k <= |vs| && forall j :: 0 <= j < k ==> NodeTest(b, vs[j], height, root).Right?
    ensures FirstFailure(b, vs, height, root) == if k < |vs| then NodeTest(b, vs[k], height, root) else Right
    ensures k < |vs| ==> !NodeTest(b, vs[k], height, root).Right?
  {
    hide NodeTest;
    if vs == [] || !NodeTest(b, vs[0], height, root).Right? {
      k := 0;
    } else {
      var i := FailureAt(b, vs[1..], height, root);
      forall j | 0 <= j < i + 1
        ensures NodeTest(b, vs[j], height, root).Right?
      {
        assert j > 0 ==> vs[1..][j - 1] == vs[j];
      }
      k := i + 1;
    }
  }

  /** What verifyBatch knows of a child once it has been there. */
  function Side(b: seq<Slot>, c: nat, levels: nat, height: int, root: Word): Verdict
    requires |b| == BATCH_LEN && OnLevel(c, levels)
  {
    if HasChildren(b, c) then VerifyBelow(b, c, levels, height, root) else Verdict(None, true)
  }

  /** A child that passes is known by the digest in its slot. */
  predicate Known(b: seq<Slot>, c: nat, v: Verdict)
    requires |b| == BATCH_LEN && c < BATCH_LEN
  {
    Accepts(v) ==> v.digest == if HasChildren(b, c) then SlotWord(b[c]) else None
  }

  lemma NodeStep(b: seq<Slot>, idx: nat, levels: nat, height: int, root: Word)
    requires |b| == BATCH_LEN && OnLevel(idx, levels) && levels > 0
    requires Known(b, 2 * idx + 1, Side(b, 2 * idx + 1, levels - 1, height, root))
    requires Known(b, 2 * idx + 2, Side(b, 2 * idx + 2, levels - 1, height, root))
    requires HasChildren(b, 2 * idx + 1) && Accepts(Side(b, 2 * idx + 1, levels - 1, height, root)) ==> b[2 * idx + 1].Entry?
    requires HasChildren(b, 2 * idx + 2) && Accepts(Side(b, 2 * idx + 2, levels - 1, height, root)) ==> b[2 * idx + 2].Entry?
    ensures var v, t := VerifyBelow(b, idx, levels, height, root), NodeTest(b, idx, height, root);
            var lv := Side(b, 2 * idx + 1, levels - 1, height, root);
            var rv := Side(b, 2 * idx + 2, levels - 1, height, root);
            if !Accepts(lv) then v == (if lv.Panic? then Panic else Verdict(None, false))
            else if !Accepts(rv) then v == (if rv.Panic? then Panic else Verdict(None, false))
            else
              && (v.Panic? <==> t.Bad?) && (Accepts(v) <==> t.Right?)
              && (Accepts(v) ==> v.digest == Some(if idx == 0 || !b[idx].Entry? then root else b[idx].word))
              && (Accepts(v) && idx > 0 ==> b[idx].Entry?)
  {
  }

  /** The recursion of verifyBatch amounts to the flat list of tests. */
  lemma {:induction false} VerifyBelowTests(b: seq<Slot>, idx: nat, levels: nat, height: int, root: Word)
    requires |b| == BATCH_LEN && OnLevel(idx, levels) && levels > 0
    ensures var v, t := VerifyBelow(b, idx, levels, height, root), FirstFailure(b, Visits(b, idx, levels), height, root);
            && (v.Panic? <==> t.Bad?) && (Accepts(v) <==> t.Right?)
            && (Accepts(v) ==> v.digest == Some(if idx == 0 || !b[idx].Entry? then root else b[idx].word))
            && (Accepts(v) && idx > 0 ==> b[idx].Entry?)
    decreases levels
  {
    hide FirstFailure, Visits, NodeTest, VerifyBelow;
    var l, r := 2 * idx + 1, 2 * idx + 2;
    var vl := if HasChildren(b, l) then Visits(b, l, levels - 1) else [];
    var vr := if HasChildren(b, r) then Visits(b, r, levels - 1) else [];
    if HasChildren(b, l) { VerifyBelowTests(b, l, levels - 1, height, root); }
    if HasChildren(b, r) { VerifyBelowTests(b, r, levels - 1, height, root); }
    NodeStep(b, idx, levels, height, root);
    FailureConcat(b, vl, vr, height, root);
    FailureConcat(b, vl + vr, [idx], height, root);
    FailureOne(b, idx, height, root);
    VisitsOf(b, idx, levels);
  }

  lemma FailureOne(b: seq<Slot>, i: nat, height: int, root: Word)
    requires |b| == BATCH_LEN && i < 15
    ensures FirstFailure(b, [i], height, root) == NodeTest(b, i, height, root)
    ensures FirstFailure(b, [], height, root) == Right
  {
    hide NodeTest;
    assert [i][1..] == [];
  }

  lemma VisitsOf(b: seq<Slot>, i: nat, levels: nat)
    requires |b| == BATCH_LEN && OnLevel(i, levels)
    ensures levels == 0 ==> Visits(b, i, levels) == []
    ensures levels > 0 ==>
              var l, r := 2 * i + 1, 2 * i + 2;
              Visits(b, i, levels)
              == (if HasChildren(b, l) then Visits(b, l, levels - 1) else [])
                 + (if HasChildren(b, r) then Visits(b, r, levels - 1) else []) + [i]
  {
  }

  /** What verifyBatchEasy decides: the first failing test alone tells a refusal from a panic. */
  lemma VerifyBatchTests(b: seq<Slot>, root: Word, layer: nat) returns (k: nat)
    requires |b| == BATCH_LEN && b[0] == Marker(0)
    ensures var v, vs, height := VerifyBatch(b, root, layer), Visits(b, 0, 4), TRIE_HEIGHT - 4 * (layer + 1);
            && k <= |vs| && (forall j :: 0 <= j < k ==> NodeTest(b, vs[j], height, root).Right?)
            && (Accepts(v) <==> k == |vs|)
            && (k < |vs| ==> !NodeTest(b, vs[k], height, root).Right?)
            && (v.Panic? <==> k < |vs| && NodeTest(b, vs[k], height, root).Bad?)
  {
    hide NodeTest, Visits, FirstFailure, VerifyBelow;
    VerifyBelowTests(b, 0, 4, TRIE_HEIGHT - 4 * (layer + 1), root);
    k := FailureAt(b, Visits(b, 0, 4), TRIE_HEIGHT - 4 * (layer + 1), root);
  }

  /** A batch marked as a shortcut panics exactly if its key or its value is missing and nothing else is there. */
  lemma ShortcutTests(b: seq<Slot>, root: Word, layer: nat)
    requires |b| == BATCH_LEN && b[0] != Marker(0)
    ensures VerifyBatch(b, root, layer).Panic?
            <==> !(b[1].Entry? && b[2].Entry?) && forall i :: 3 <= i < BATCH_LEN ==> b[i].Empty?
  {
  }

  /** Nothing but the marker of a regular batch: four zero bytes, as they are parsed. */
  lemma NothingPanics(root: Word, layer: nat)
    ensures VerifyBatch(NoSlots()[0 := Marker(0)], root, layer).Panic?
  {
  }

  // ----- the flags that the check does not look at

  /** A slot in 1 to 14 fits its two children, by the flags alone. */
  predicate SlotFits(s: Slot, l: Slot, r: Slot) {
    match s
    case Empty => l.Empty? && r.Empty?
    case Entry(_, f) =>
      if f == 0 then !(l.Empty? && r.Empty?) && IsNodeSlot(l) && IsNodeSlot(r)
      else if f == 1 then l.Entry? && l.flag == 2 && r.Entry? && r.flag == 2
      else f == 2 && l.Empty? && r.Empty?
    case _ => false
  }

  /** Empty, or the digest of a node with a flag that says interior or shortcut. */
  predicate IsNodeSlot(s: Slot) {
    s.Empty? || (s.Entry? && s.flag <= 1)
  }

  /** Slots 0 to 14 agree with what is there and what is not. */
  predicate InnerFits(b: seq<Slot>)
    requires |b| == BATCH_LEN
  {
    if b[0] == Marker(1) then b[1].Entry? && b[1].flag == 2 && b[2].Entry? && b[2].flag == 2
    else
      && b[0] == Marker(0) && !(b[1].Empty? && b[2].Empty?) && IsNodeSlot(b[1]) && IsNodeSlot(b[2])
      && forall i :: 1 <= i < 15 ==> SlotFits(b[i], b[2 * i + 1], b[2 * i + 2])
  }

  /** A slot of the lowest level: its flag tells what kind of digest it holds. */
  predicate BottomFits(s: Slot) {
    s.Empty? || (s.Entry? && s.flag == 2) || (s.Entry? && s == SlotOf(s.word))
  }

  /** The flags of a batch are those that a trie writes. */
  predicate WellFlagged(b: seq<Slot>)
    requires |b| == BATCH_LEN
  {
    InnerFits(b) && (b[0] == Marker(0) ==> forall i :: 15 <= i < BATCH_LEN ==> BottomFits(b[i]))
  }

  /** What a receiver can tell of a slot of the lowest level: it has a flag of the trie, and no digest of nothing. */
  predicate BottomTested(s: Slot) {
    s.Empty? || (s.Entry? && s.flag == 2) || (s.Entry? && s.flag <= 1 && s.word != Default)
  }

  /** The flags of a batch are as far as a receiver can tell those that a trie writes. */
  predicate FlagsFit(b: seq<Slot>)
    requires |b| == BATCH_LEN
  {
    InnerFits(b) && (b[0] == Marker(0) ==> forall i :: 15 <= i < BATCH_LEN ==> BottomTested(b[i]))
  }

  lemma WellFlaggedInner(b: seq<Slot>)
    requires |b| == BATCH_LEN && WellFlagged(b)
    ensures InnerFits(b)
  {
  }

  lemma WellFlaggedFits(b: seq<Slot>)
    requires |b| == BATCH_LEN && WellFlagged(b)
    ensures FlagsFit(b)
  {
    hide InnerFits;
    forall i | 15 <= i < BATCH_LEN && b[0] == Marker(0)
      ensures BottomTested(b[i])
    {
      assert BottomFits(b[i]);
    }
  }

  lemma FitsAt(b: seq<Slot>, i: nat)
    requires |b| == BATCH_LEN && b[0] == Marker(0) && WellFlagged(b) && 1 <= i < BATCH_LEN
    ensures i < 15 ==> SlotFits(b[i], b[2 * i + 1], b[2 * i + 2])
    ensures i >= 15 ==> BottomFits(b[i])
    ensures !(b[1].Empty? && b[2].Empty?) && IsNodeSlot(b[1]) && IsNodeSlot(b[2])
  {
  }

  lemma InnerAt(b: seq<Slot>, i: nat)
    requires |b| == BATCH_LEN && b[0] == Marker(0) && InnerFits(b) && 1 <= i < 15
    ensures SlotFits(b[i], b[2 * i + 1], b[2 * i + 2])
    ensures !(b[1].Empty? && b[2].Empty?) && IsNodeSlot(b[1]) && IsNodeSlot(b[2])
  {
  }

  lemma {:induction false} NothingBelow(b: seq<Slot>, i: nat, n: nat)
    requires |b| == BATCH_LEN && b[0] == Marker(0) && WellFlagged(b)
    requires OnLevel(i, n) && i > 0 && (b[i].Empty? || (b[i].Entry? && b[i].flag == 2))
    ensures Holds(b, i, n, b[i])
    decreases n
  {
    hide Holds, WellFlagged;
    if n > 0 {
      FitsAt(b, i);
      NothingBelow(b, 2 * i + 1, n - 1);
      NothingBelow(b, 2 * i + 2, n - 1);
      HoldsIntro(b, i, n, b[i]);
    } else {
      HoldsBottom(b, i, b[i]);
    }
  }

  /** The test of one node with fitting flags: its digest is that of the tree its children stand for. */
  lemma RightNode(b: seq<Slot>, i: nat, height: int, root: Word)
    requires |b| == BATCH_LEN && b[0] == Marker(0) && WellFlagged(b)
    requires i < 15 && NodeTest(b, i, height, root).Right? && (i > 0 ==> b[i].Entry? && b[i].flag <= 1)
    requires forall c :: 2 * i + 1 <= c <= 2 * i + 2 && b[c].Entry? && b[c].flag <= 1 ==> b[c] == SlotOf(b[c].word)
    ensures var d := if i == 0 then root else b[i].word;
            && (d.Leaf? || d.Node?) && (i == 0 ==> d.Node?) && (i > 0 ==> b[i] == SlotOf(d))
            && b[2 * i + 1] == Child(SlotOf(d), false) && b[2 * i + 2] == Child(SlotOf(d), true)
  {
    hide WellFlagged;
    var l, r := 2 * i + 1, 2 * i + 2;
    FitsAt(b, if i > 0 then i else 1);
    FitsAt(b, l);
    FitsAt(b, r);
  }

  /** One slot: with fitting flags, a digest that passes is the tree that the slots below hold. */
  lemma {:induction false} VerifyBelowSound(b: seq<Slot>, idx: nat, levels: nat, height: int, root: Word)
    requires |b| == BATCH_LEN && OnLevel(idx, levels) && levels > 0 && b[0] == Marker(0) && WellFlagged(b)
    requires idx > 0 ==> b[idx].Entry? && b[idx].flag <= 1
    requires Accepts(VerifyBelow(b, idx, levels, height, root))
    ensures var d := if idx == 0 then root else b[idx].word;
            && Holds(b, idx, levels, SlotOf(d)) && (d.Leaf? || d.Node?)
            && (idx == 0 ==> d.Node?) && (idx > 0 ==> b[idx] == SlotOf(d))
    decreases levels, 0
  {
    hide Holds, WellFlagged, VerifyBelow, NodeTest, SlotOf, Child, FirstFailure;
    var l, r, d := 2 * idx + 1, 2 * idx + 2, if idx == 0 then root else b[idx].word;
    SidesPass(b, idx, levels, height, root);
    SideSound(b, l, levels - 1, height, root);
    SideSound(b, r, levels - 1, height, root);
    RightNode(b, idx, height, root);
    HoldsIntro(b, idx, levels, SlotOf(d));
  }

  /** A node passes only if its children do. */
  lemma SidesPass(b: seq<Slot>, idx: nat, levels: nat, height: int, root: Word)
    requires |b| == BATCH_LEN && OnLevel(idx, levels) && levels > 0
    requires Accepts(VerifyBelow(b, idx, levels, height, root))
    ensures Accepts(Side(b, 2 * idx + 1, levels - 1, height, root)) && Accepts(Side(b, 2 * idx + 2, levels - 1, height, root))
    ensures NodeTest(b, idx, height, root).Right?
  {
    hide NodeTest, VerifyBelow, FirstFailure, Visits;
    var l, r := 2 * idx + 1, 2 * idx + 2;
    if HasChildren(b, l) { VerifyBelowTests(b, l, levels - 1, height, root); }
    if HasChildren(b, r) { VerifyBelowTests(b, r, levels - 1, height, root); }
    NodeStep(b, idx, levels, height, root);
  }

  lemma {:induction false} SideSound(b: seq<Slot>, c: nat, levels: nat, height: int, root: Word)
    requires |b| == BATCH_LEN && OnLevel(c, levels) && c > 0 && b[0] == Marker(0) && WellFlagged(b)
    requires Accepts(Side(b, c, levels, height, root))
    ensures Holds(b, c, levels, b[c])
    ensures b[c].Entry? && b[c].flag <= 1 ==> b[c] == SlotOf(b[c].word)
    decreases levels, 1
  {
    hide Holds, WellFlagged, VerifyBelow;
    FitsAt(b, c);
    if b[c].Entry? && b[c].flag <= 1 {
      if levels > 0 {
        VerifyBelowSound(b, c, levels, height, root);
      } else {
        HoldsBottom(b, c, b[c]);
      }
    } else {
      NothingBelow(b, c, levels);
    }
  }

  lemma ShortcutSound(b: seq<Slot>, root: Word, layer: nat)
    requires |b| == BATCH_LEN && b[0] == Marker(1) && WellFlagged(b) && Accepts(VerifyBatch(b, root, layer))
    ensures IsBatch(b, root)
  {
    hide Holds;
    EmptyBelow(b, 1, 3);
    EmptyBelow(b, 2, 3);
    HoldsNothing(b, 1, 3, Empty, b[1]);
    HoldsNothing(b, 2, 3, Empty, b[2]);
    HoldsIntro(b, 0, 4, SlotOf(root));
  }

  lemma {:induction false} HeldFits(b: seq<Slot>, i: nat, n: nat, d: Word, path: seq<bool>, j: nat)
    requires |b| == BATCH_LEN && OnLevel(i, n) && Holds(b, i, n, SlotOf(d)) && Canonical(d, path)
    requires j < BATCH_LEN && Below(i, j)
    ensures j < 15 ==> SlotFits(b[j], b[2 * j + 1], b[2 * j + 2])
    ensures j >= 15 ==> BottomFits(b[j])
    decreases n, 0
  {
    hide Holds, Below;
    BelowSplit(i, n, j);
    if d.Node? {
      HoldsElim(b, i, n, SlotOf(d));
      ChildFits(b, 2 * i + 1, n - 1, d.left, path + [false], j);
      ChildFits(b, 2 * i + 2, n - 1, d.right, path + [true], j);
    } else {
      NothingFits(b, i, n, SlotOf(d), j);
    }
  }

  lemma {:induction false} ChildFits(b: seq<Slot>, i: nat, n: nat, d: Word, path: seq<bool>, j: nat)
    requires |b| == BATCH_LEN && OnLevel(i, n) && Holds(b, i, n, SlotOf(d)) && Canonical(d, path) && b[i] == SlotOf(d)
    requires j < BATCH_LEN
    ensures j == i || Below(i, j) ==> (j < 15 ==> SlotFits(b[j], b[2 * j + 1], b[2 * j + 2])) && (j >= 15 ==> BottomFits(b[j]))
    decreases n, 1
  {
    hide Holds, Below;
    if j == i {
      if n > 0 {
        HoldsElim(b, i, n, SlotOf(d));
      }
    } else if Below(i, j) {
      HeldFits(b, i, n, d, path, j);
    }
  }

  /** Below a slot that is not an interior node there are at most the key and the value of a shortcut. */
  lemma {:induction false} NothingFits(b: seq<Slot>, i: nat, n: nat, s: Slot, j: nat)
    requires |b| == BATCH_LEN && OnLevel(i, n) && Holds(b, i, n, s) && !(s.Entry? && s.word.Node? && s.flag == 0)
    requires j < BATCH_LEN && Below(i, j)
    ensures j < 15 ==> SlotFits(b[j], b[2 * j + 1], b[2 * j + 2])
    ensures j >= 15 ==> BottomFits(b[j])
    decreases n
  {
    hide Holds, Below;
    BelowSplit(i, n, j);
    HoldsElim(b, i, n, s);
    var l, r := 2 * i + 1, 2 * i + 2;
    if j == l || j == r {
      if n > 1 {
        HoldsElim(b, j, n - 1, b[j]);
      }
    } else if Below(l, j) {
      NothingFits(b, l, n - 1, b[l], j);
    } else {
      NothingFits(b, r, n - 1, b[r], j);
    }
  }

  lemma BatchIsWellFlagged(b: seq<Slot>, d: Word, path: seq<bool>)
    requires IsBatch(b, d) && Canonical(d, path)
    ensures WellFlagged(b)
  {
    hide Holds, Below;
    HoldsElim(b, 0, 4, SlotOf(d));
    if d.Node? {
      forall j | 1 <= j < BATCH_LEN
        ensures j < 15 ==> SlotFits(b[j], b[2 * j + 1], b[2 * j + 2])
        ensures j >= 15 ==> BottomFits(b[j])
      {
        assert Below(0, j) by { AllBelowRoot(j); }
        HeldFits(b, 0, 4, d, path, j);
      }
    }
  }

  lemma AllBelowRoot(j: nat)
    requires 0 < j < BATCH_LEN
    ensures Below(0, j)
  {
  }

  /** On a digest of the trie, the batches that are its own are exactly those with fitting flags that pass. */
  lemma CheckIff(b: seq<Slot>, d: Word, layer: nat, path: seq<bool>)
    requires |b| == BATCH_LEN && Canonical(d, path) && |path| == 4 * layer
    ensures IsBatch(b, d) <==> WellFlagged(b) && Accepts(VerifyBatch(b, d, layer))
  {
    hide Holds, VerifyBatch, WellFlagged;
    if IsBatch(b, d) {
      BatchVerifies(b, d, layer, path);
      BatchIsWellFlagged(b, d, path);
    } else if WellFlagged(b) && Accepts(VerifyBatch(b, d, layer)) {
      CheckSound(b, d, layer);
    }
  }

  /** Soundness, for any digest at all. */
  lemma CheckSound(b: seq<Slot>, root: Word, layer: nat)
    requires |b| == BATCH_LEN && WellFlagged(b) && Accepts(VerifyBatch(b, root, layer))
    ensures IsBatch(b, root)
  {
    hide Holds, VerifyBelow;
    if b[0] == Marker(1) {
      ShortcutSound(b, root, layer);
    } else {
      VerifyBelowSound(b, 0, 4, TRIE_HEIGHT - 4 * (layer + 1), root);
    }
  }

  /** Fitting flags also keep every index in range. */
  lemma FittingNeverPanics(b: seq<Slot>, root: Word, layer: nat)
    requires |b| == BATCH_LEN && InnerFits(b)
    ensures !VerifyBatch(b, root, layer).Panic?
  {
    hide InnerFits, VerifyBatch, NodeTest, Visits;
    if b[0] == Marker(0) {
      var k := VerifyBatchTests(b, root, layer);
      var vs := Visits(b, 0, 4);
      if k < |vs| {
        VisitsHaveChildren(b, 0, 4, k);
        FlaggedNotBad(b, vs[k], TRIE_HEIGHT - 4 * (layer + 1), root);
      }
    } else {
      assert b[0] == Marker(1) && b[1].Entry? && b[2].Entry? by { ShortcutFlagged(b); }
      ShortcutTests(b, root, layer);
    }
  }

  lemma ShortcutFlagged(b: seq<Slot>)
    requires |b| == BATCH_LEN && InnerFits(b) && b[0] != Marker(0)
    ensures b[0] == Marker(1) && b[1].Entry? && b[2].Entry?
  {
  }

  lemma {:induction false} VisitsHaveChildren(b: seq<Slot>, i: nat, levels: nat, k: nat)
    requires |b| == BATCH_LEN && OnLevel(i, levels) && k < |Visits(b, i, levels)|
    ensures var v := Visits(b, i, levels)[k]; v < 15 && (v == i || HasChildren(b, v))
    decreases levels
  {
    hide HasChildren, Visits;
    VisitsOf(b, i, levels);
    if levels > 0 {
      var l, r := 2 * i + 1, 2 * i + 2;
      var vl := if HasChildren(b, l) then Visits(b, l, levels - 1) else [];
      var vr := if HasChildren(b, r) then Visits(b, r, levels - 1) else [];
      if k < |vl| {
        VisitsHaveChildren(b, l, levels - 1, k);
      } else if k < |vl| + |vr| {
        VisitsHaveChildren(b, r, levels - 1, k - |vl|);
      }
    }
  }

  lemma FlaggedNotBad(b: seq<Slot>, i: nat, height: int, root: Word)
    requires |b| == BATCH_LEN && b[0] == Marker(0) && InnerFits(b) && i < 15 && (i == 0 || HasChildren(b, i))
    ensures !NodeTest(b, i, height, root).Bad?
  {
    hide InnerFits;
    InnerAt(b, if i == 0 then 1 else i);
    InnerAt(b, 2);
  }

  // ----- batches that pass and are not those of the trie

  predicate SameVisits(b: seq<Slot>, c: seq<Slot>)
    requires |b| == BATCH_LEN && |c| == BATCH_LEN
  {
    forall i :: 1 <= i < BATCH_LEN ==> HasChildren(b, i) == HasChildren(c, i)
  }

  predicate SameTests(b: seq<Slot>, c: seq<Slot>, height: int, root: Word)
    requires |b| == BATCH_LEN && |c| == BATCH_LEN
  {
    forall i :: 0 <= i < 15 && (i == 0 || HasChildren(b, i)) ==> NodeTest(b, i, height, root) == NodeTest(c, i, height, root)
  }

  lemma {:induction false} VisitsAgree(b: seq<Slot>, c: seq<Slot>, i: nat, levels: nat)
    requires |b| == BATCH_LEN && |c| == BATCH_LEN && SameVisits(b, c) && OnLevel(i, levels)
    ensures Visits(b, i, levels) == Visits(c, i, levels)
    decreases levels
  {
    hide HasChildren, Visits;
    VisitsOf(b, i, levels);
    VisitsOf(c, i, levels);
    if levels > 0 {
      VisitsAgree(b, c, 2 * i + 1, levels - 1);
      VisitsAgree(b, c, 2 * i + 2, levels - 1);
    }
  }

  /** Two batches that agree in everything the tests look at are both accepted, or none is. */
  lemma SameVerdict(b: seq<Slot>, c: seq<Slot>, root: Word, layer: nat)
    requires |b| == BATCH_LEN && |c| == BATCH_LEN && b[0] == c[0] == Marker(0)
    requires SameVisits(b, c) && SameTests(b, c, TRIE_HEIGHT - 4 * (layer + 1), root)
    ensures Accepts(VerifyBatch(b, root, layer)) ==> Accepts(VerifyBatch(c, root, layer))
  {
    hide NodeTest, Visits, VerifyBatch, HasChildren;
    VisitsAgree(b, c, 0, 4);
    var i := VerifyBatchTests(b, root, layer);
    var k := VerifyBatchTests(c, root, layer);
    if k < |Visits(c, 0, 4)| {
      VisitsHaveChildren(b, 0, 4, k);
    }
  }

  /** One flag byte changed from interior to shortcut: the check does not see it. */
  lemma FlagNotSeen(b: seq<Slot>, d: Word, layer: nat, path: seq<bool>)
    requires IsBatch(b, d) && Canonical(d, path) && |path| == 4 * layer && d.Node? && d.left.Node?
    ensures var c := b[1 := Entry(d.left, 1)];
            Accepts(VerifyBatch(c, d, layer)) && !IsBatch(c, d) && !WellFlagged(c)
  {
    hide Holds, VerifyBatch, WellFlagged, NodeTest, HasChildren, SameVisits, SameTests;
    var c := b[1 := Entry(d.left, 1)];
    HoldsElim(b, 0, 4, SlotOf(d));
    HoldsElim(b, 1, 3, SlotOf(d.left));
    ChildSeen(b, 3, 2, d.left.left, path + [false] + [false]);
    ChildSeen(b, 4, 2, d.left.right, path + [false] + [true]);
    BatchVerifies(b, d, layer, path);
    FlagUntested(b, Entry(d.left, 1), TRIE_HEIGHT - 4 * (layer + 1), d);
    SameVerdict(b, c, d, layer);
    if IsBatch(c, d) {
      BatchUnique(b, c, d);
    }
    CheckIff(c, d, layer, path);
  }

  lemma FlagUntested(b: seq<Slot>, s: Slot, height: int, root: Word)
    requires |b| == BATCH_LEN && b[1].Entry? && s.Entry? && s.word == b[1].word && (HasChildren(b, 3) || HasChildren(b, 4))
    ensures SameVisits(b, b[1 := s]) && SameTests(b, b[1 := s], height, root)
  {
  }

  /** A digest beside a sibling that has children, with nothing below it: the check does not see it either. */
  lemma SlotNotSeen(b: seq<Slot>, d: Word, layer: nat, path: seq<bool>, w: Word, f: nat)
    requires IsBatch(b, d) && Canonical(d, path) && |path| == 4 * layer && d.Node? && d.right.Default?
    ensures var c := b[2 := Entry(w, f)];
            Accepts(VerifyBatch(c, d, layer)) && !IsBatch(c, d) && !WellFlagged(c)
  {
    hide Holds, VerifyBatch, WellFlagged, NodeTest, HasChildren, SameVisits, SameTests;
    var c := b[2 := Entry(w, f)];
    HoldsElim(b, 0, 4, SlotOf(d));
    ChildSeen(b, 1, 3, d.left, path + [false]);
    ChildSeen(b, 2, 3, Default, path + [true]);
    BatchVerifies(b, d, layer, path);
    SlotUntested(b, Entry(w, f), TRIE_HEIGHT - 4 * (layer + 1), d);
    SameVerdict(b, c, d, layer);
    if IsBatch(c, d) {
      BatchUnique(b, c, d);
    }
    CheckIff(c, d, layer, path);
  }

  lemma SlotUntested(b: seq<Slot>, s: Slot, height: int, root: Word)
    requires |b| == BATCH_LEN && HasChildren(b, 1) && !HasChildren(b, 2)
    ensures SameVisits(b, b[2 := s]) && SameTests(b, b[2 := s], height, root)
  {
  }

  /**
   What such a flag does to a reader: where the changed node has a left child, the keys on
   that side, present ones among them, are answered as absent.
   */
  lemma FlagHidesKeys(b: seq<Slot>, d: Word, key: Key)
    requires IsBatch(b, d) && Canonical(d, []) && d.Node? && d.left.Node? && !BitIsSet(key, 0)
    requires !d.left.left.Default?
    ensures GetNode(map[d := b[1 := Entry(d.left, 1)]], Bare(d), key, [], 0, TRIE_HEIGHT) == Found(None)
    ensures exists k :: k in MapOf(d) && !BitIsSet(k, 0)
  {
    hide Holds, BitIsSet, MapOf, Canonical;
    HoldsElim(b, 0, 4, SlotOf(d));
    HoldsElim(b, 1, 3, SlotOf(d.left));
    KeyOnTheLeft(d);
  }

  /** Where it has none, every read on that side panics. */
  lemma FlagPanicsReader(b: seq<Slot>, d: Word, key: Key)
    requires IsBatch(b, d) && Canonical(d, []) && d.Node? && d.left.Node? && !BitIsSet(key, 0)
    requires d.left.left.Default?
    ensures GetNode(map[d := b[1 := Entry(d.left, 1)]], Bare(d), key, [], 0, TRIE_HEIGHT) == Panicked
    ensures exists k :: k in MapOf(d) && !BitIsSet(k, 0)
  {
    hide Holds, BitIsSet, MapOf, Canonical;
    HoldsElim(b, 0, 4, SlotOf(d));
    HoldsElim(b, 1, 3, SlotOf(d.left));
    KeyOnTheLeft(d);
  }

  lemma KeyOnTheLeft(d: Word)
    requires Canonical(d, []) && d.Node? && d.left.Node?
    ensures exists k :: k in MapOf(d) && !BitIsSet(k, 0)
    ensures !d.left.left.Bytes?
  {
    hide BitIsSet;
    var k, _ := NodeHasTwo(d.left, [] + [false]);
    CanonicalHalves(d, []);
    assert Canonical(d.left.left, [] + [false] + [false]);
  }

  // ----- getFinalLeafNodes on any batch

  /** The nodes that getFinalLeafNodes looks at: it does not go below a shortcut. */
  function Reached(b: seq<Slot>, i: nat, levels: nat): set<nat>
    requires |b| == BATCH_LEN && OnLevel(i, levels)
    decreases levels
  {
    if levels == 0 then {}
    else if IsShortcut(b[i]) then {i}
    else
      var l, r := 2 * i + 1, 2 * i + 2;
      {i} + (if HasChildren(b, l) then Reached(b, l, levels - 1) else {})
      + if HasChildren(b, r) then Reached(b, r, levels - 1) else {}
  }

  predicate IsShortcut(s: Slot) {
    s == Marker(1) || (s.Entry? && s.flag == 1)
  }

  /** No slot to look at, or a shortcut without its key or its value. */
  predicate Broken(b: seq<Slot>, i: nat)
    requires |b| == BATCH_LEN
  {
    && i < 15
    && (b[i].Empty? || (IsShortcut(b[i]) && !(b[2 * i + 1].Entry? && b[2 * i + 2].Entry?)))
  }

  lemma ReachedSplit(b: seq<Slot>, i: nat, levels: nat)
    requires |b| == BATCH_LEN && OnLevel(i, levels) && levels > 0 && !IsShortcut(b[i]) && !Broken(b, i)
    ensures var l, r := 2 * i + 1, 2 * i + 2;
            (exists j :: j in Reached(b, i, levels) && Broken(b, j))
            <==> || (HasChildren(b, l) && exists j :: j in Reached(b, l, levels - 1) && Broken(b, j))
                 || (HasChildren(b, r) && exists j :: j in Reached(b, r, levels - 1) && Broken(b, j))
  {
    hide HasChildren, Broken;
  }

  /** Collecting the leaves panics exactly if it comes across a broken node. */
  lemma {:induction false} LeavesPanicIff(b: seq<Slot>, i: nat, levels: nat)
    requires |b| == BATCH_LEN && OnLevel(i, levels)
    ensures FinalLeaves(b, i, levels).None? <==> exists j :: j in Reached(b, i, levels) && Broken(b, j)
    decreases levels
  {
    hide HasChildren;
    if levels > 0 {
      var l, r := 2 * i + 1, 2 * i + 2;
      LeavesPanicIff(b, l, levels - 1);
      LeavesPanicIff(b, r, levels - 1);
      assert i in Reached(b, i, levels);
      if !Broken(b, i) && !IsShortcut(b[i]) {
        ReachedSplit(b, i, levels);
      }
    }
  }

  /** The flag of FlagNotSeen, on a node without a left child: the batch is accepted, and then the leaves panic. */
  lemma FlagPanics(b: seq<Slot>, d: Word, layer: nat, path: seq<bool>)
    requires IsBatch(b, d) && Canonical(d, path) && |path| == 4 * layer && d.Node? && d.left.Node? && d.left.left.Default?
    ensures var c := b[1 := Entry(d.left, 1)];
            Accepts(VerifyBatch(c, d, layer)) && FinalLeaves(c, 0, 4).None?
  {
    hide Holds, VerifyBatch, WellFlagged;
    FlagNotSeen(b, d, layer, path);
    HoldsElim(b, 0, 4, SlotOf(d));
    HoldsElim(b, 1, 3, SlotOf(d.left));
    ChildSeen(b, 1, 3, d.left, path + [false]);
  }
}
