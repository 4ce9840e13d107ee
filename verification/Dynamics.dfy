/**
 Epoch-versioned parameters: a doubly linked list of epoch nodes kept in a key/value store.
 */
module Dynamics {
  import opened RawStorages

  datatype Node = Node(thisEpoch: nat, prevEpoch: nat, nextEpoch: nat, params: Params) {

    predicate IsValid() {
      && thisEpoch != 0 && prevEpoch != 0 && nextEpoch != 0
      && prevEpoch <= thisEpoch <= nextEpoch
    }

    predicate IsPreValid() {
      thisEpoch != 0 && prevEpoch == 0 && nextEpoch == 0
    }

    predicate IsHead() {
      IsValid() && thisEpoch == nextEpoch
    }

    predicate IsTail() {
      IsValid() && thisEpoch == prevEpoch
    }
  }

  type Table = map<nat, Node>

  datatype Error = ErrZeroEpoch | ErrKeyNotPresent | ErrInvalid | ErrInvalidNode | ErrInvalidUpdateValue

  datatype Result<+T> = Ok(value: T) | Err(error: Error) {
    predicate IsFailure() { Err? }
    function PropagateFailure<U>(): Result<U>
      requires Err?
    {
      Err(error)
    }
    function Extract(): T
      requires Ok?
    {
      value
    }
  }

  /** GetNode */
  function GetNode(nodes: Table, epoch: nat): Result<Node> {
    if epoch == 0 then Err(ErrZeroEpoch)
    else if epoch !in nodes then Err(ErrKeyNotPresent)
    else if !nodes[epoch].IsValid() then Err(ErrInvalidNode)
    else Ok(nodes[epoch])
  }

  predicate IsDerived(p: Params) {
    p == Derive(p)
  }

  /** Nodes are stored under their own epoch, with derived values that fit the base values. */
  predicate Keyed(nodes: Table) {
    forall e :: e in nodes ==> nodes[e].thisEpoch == e && IsDerived(nodes[e].params)
  }

  // ----- chains

  predicate Increasing(es: seq<nat>) {
    && es != [] && es[0] > 0
    && forall i, j :: 0 <= i < j < |es| ==> es[i] < es[j]
  }

  predicate BackAt(nodes: Table, es: seq<nat>, i: nat)
    requires i < |es|
  {
    && es[i] in nodes && nodes[es[i]].IsValid()
    && nodes[es[i]].prevEpoch == es[if i == 0 then 0 else i - 1]
    && (nodes[es[i]].IsHead() <==> i == |es| - 1)
  }

  /** The backward links: what the loops that look for an epoch follow. */
  ghost predicate BackLinked(nodes: Table, es: seq<nat>) {
    && Increasing(es) && Keyed(nodes)
    && (forall i :: 0 <= i < |es| ==> es[i] in nodes)
    && forall i :: 0 <= i < |es| ==> BackAt(nodes, es, i)
  }

  predicate NextAt(nodes: Table, es: seq<nat>, i: nat)
    requires i < |es|
  {
    es[i] in nodes && nodes[es[i]].nextEpoch == es[if i == |es| - 1 then i else i + 1]
  }

  /** A well-formed chain: both walks visit exactly these epochs. */
  ghost predicate Linked(nodes: Table, es: seq<nat>) {
    && BackLinked(nodes, es)
    && (forall i :: 0 <= i < |es| ==> NextAt(nodes, es, i))
    && forall e :: e in nodes ==> e in es
  }

  /** One node of a chain, as a backward walk finds it. */
  lemma BackFacts(nodes: Table, es: seq<nat>, i: nat)
    requires BackLinked(nodes, es) && i < |es|
    ensures var n := nodes[es[i]];
            && n.IsValid() && n.thisEpoch == es[i] && es[i] > 0 && es[i] in es
            && (n.IsTail() <==> i == 0) && (n.IsHead() <==> i == |es| - 1)
            && (i > 0 ==> n.prevEpoch == es[i - 1] < es[i] && es[i - 1] in nodes && nodes[es[i - 1]].IsValid())
    ensures es[0] <= es[i]
  {
    assert BackAt(nodes, es, i);
    assert i > 0 ==> BackAt(nodes, es, i - 1);
  }

  lemma NotEmpty(es: seq<nat>)
    requires Increasing(es)
    ensures es != []
  {
  }

  lemma Ordered(es: seq<nat>, i: nat, j: nat)
    requires Increasing(es) && i < j < |es|
    ensures es[i] < es[j]
  {
  }

  /** The position of the last epoch that is not beyond `e`. */
  function Rank(es: seq<nat>, e: nat): (r: nat)
    requires Increasing(es) && es[0] <= e
    ensures r < |es| && es[r] <= e && (r + 1 < |es| ==> e < es[r + 1])
  {
    if es[|es| - 1] <= e then |es| - 1 else Rank(es[..|es| - 1], e)
  }

  lemma RankUnique(es: seq<nat>, e: nat, r: nat)
    requires Increasing(es) && r < |es| && es[r] <= e && (r + 1 < |es| ==> e < es[r + 1])
    ensures es[0] <= e && Rank(es, e) == r
  {
    assert forall i, j :: 0 <= i <= j < |es| ==> es[i] <= es[j];
  }

  lemma Between(es: seq<nat>, u: nat, r: nat)
    requires Increasing(es) && r + 1 < |es| && es[r] < u < es[r + 1]
    ensures u !in es && es[0] < u && u <= es[|es| - 1]
  {
    assert forall i, j :: 0 <= i <= j < |es| ==> es[i] <= es[j];
  }

  lemma BeyondHead(es: seq<nat>, u: nat)
    requires Increasing(es) && es[|es| - 1] < u
    ensures u !in es && es[0] < u
  {
    assert forall i, j :: 0 <= i <= j < |es| ==> es[i] <= es[j];
  }

  /** The epochs with one more, in its place. */
  function Inserted(es: seq<nat>, u: nat): seq<nat>
    requires Increasing(es) && es[0] < u
  {
    var r := Rank(es, u);
    es[..r + 1] + [u] + es[r + 1..]
  }

  lemma InsertedIncreasing(es: seq<nat>, u: nat)
    requires Increasing(es) && es[0] < u && u !in es
    ensures Increasing(Inserted(es, u))
    ensures forall e :: e in Inserted(es, u) <==> e in es || e == u
  {
    hide Rank, Increasing;
    var r := Rank(es, u);
    assert es[r] in es;
    IncreasingSlices(es, r + 1);
    IncreasingConcat(es[..r + 1], [u]);
    IncreasingConcat(es[..r + 1] + [u], es[r + 1..]);
    InsertedMembers(es, u);
  }

  lemma IncreasingSlices(es: seq<nat>, k: nat)
    requires Increasing(es) && 0 < k <= |es|
    ensures Increasing(es[..k]) && (k < |es| ==> Increasing(es[k..]))
  {
  }

  lemma IncreasingConcat(xs: seq<nat>, ys: seq<nat>)
    requires Increasing(xs) && (|ys| <= 1 || Increasing(ys)) && (ys != [] ==> xs[|xs| - 1] < ys[0])
    ensures Increasing(xs + ys)
  {
    assert forall i :: 0 <= i < |xs| ==> xs[i] <= xs[|xs| - 1];
    assert forall j :: 0 <= j < |ys| ==> ys[0] <= ys[j];
  }

  lemma InsertedMembers(es: seq<nat>, u: nat)
    requires Increasing(es) && es[0] < u
    ensures forall e :: e in Inserted(es, u) <==> e in es || e == u
  {
    hide Rank, Increasing;
    var r := Rank(es, u);
    assert es == es[..r + 1] + es[r + 1..];
  }

  /** The table after a node has been linked in between two others, or behind the head. */
  function LinkIn(nodes: Table, es: seq<nat>, u: nat, p: Params): Table
    requires Increasing(es) && es[0] < u && forall i :: 0 <= i < |es| ==> es[i] in nodes
  {
    var r := Rank(es, u);
    var prev := nodes[es[r]].(nextEpoch := u);
    if r == |es| - 1 then nodes[es[r] := prev][u := Node(u, es[r], u, p)]
    else
      var next := nodes[es[r + 1]].(prevEpoch := u);
      nodes[es[r] := prev][es[r + 1] := next][u := Node(u, es[r], es[r + 1], p)]
  }

  lemma LinkInHead(nodes: Table, es: seq<nat>, u: nat, p: Params)
    requires BackLinked(nodes, es) && es[|es| - 1] < u
    ensures u !in es && es[0] < u
    ensures var head := nodes[es[|es| - 1]];
            LinkIn(nodes, es, u, p)
            == nodes[es[|es| - 1] := head.(nextEpoch := u)][u := Node(u, es[|es| - 1], u, p)]
  {
    hide BackAt, Keyed;
    RankUnique(es, u, |es| - 1);
    BeyondHead(es, u);
  }

  lemma LinkInBetween(nodes: Table, es: seq<nat>, u: nat, p: Params, r: nat)
    requires BackLinked(nodes, es) && r + 1 < |es| && es[r] < u < es[r + 1]
    ensures u !in es && es[0] < u <= es[|es| - 1]
    ensures var prev, next := nodes[es[r]], nodes[es[r + 1]];
            LinkIn(nodes, es, u, p)
            == nodes[es[r] := prev.(nextEpoch := u)][es[r + 1] := next.(prevEpoch := u)][u := Node(u, es[r], es[r + 1], p)]
  {
    hide BackAt, Increasing, Keyed, Rank;
    RankUnique(es, u, r);
    Between(es, u, r);
  }

  /** Linking a new epoch into a well-formed chain gives a well-formed chain with exactly that epoch added. */
  lemma LinkInLinks(nodes: Table, es: seq<nat>, u: nat, p: Params)
    requires Linked(nodes, es) && es[0] < u && u !in es && IsDerived(p)
    ensures Linked(LinkIn(nodes, es, u, p), Inserted(es, u))
    ensures var now := LinkIn(nodes, es, u, p);
            && now.Keys == nodes.Keys + {u} && now[u].params == p
            && forall e :: e in nodes ==> now[e].params == nodes[e].params
  {
    hide IsDerived, Rank, BackAt, NextAt, Inserted, Increasing;
    InsertedIncreasing(es, u);
    var fs, now := Inserted(es, u), LinkIn(nodes, es, u, p);
    forall i | 0 <= i < |fs|
      ensures BackAt(now, fs, i) && NextAt(now, fs, i) && fs[i] in now
    {
      assert fs[i] in fs;
      LinkInAt(nodes, es, u, p, i);
      LinkInNextAt(nodes, es, u, p, i);
    }
  }

  lemma InsertedAt(es: seq<nat>, u: nat, i: nat)
    requires Increasing(es) && es[0] < u && i < |Inserted(es, u)|
    ensures var r := Rank(es, u);
            && |Inserted(es, u)| == |es| + 1
            && Inserted(es, u)[i] == if i <= r then es[i] else if i == r + 1 then u else es[i - 1]
  {
    hide Rank;
  }

  lemma LinkInAt(nodes: Table, es: seq<nat>, u: nat, p: Params, i: nat)
    requires BackLinked(nodes, es) && es[0] < u && u !in es && i < |Inserted(es, u)|
    ensures BackAt(LinkIn(nodes, es, u, p), Inserted(es, u), i)
  {
    hide IsDerived, Rank, Inserted, Increasing, Keyed;
    var r, n := Rank(es, u), |es|;
    InsertedAt(es, u, i);
    if i > 0 { InsertedAt(es, u, i - 1); }
    if i + 1 < n + 1 { InsertedAt(es, u, i + 1); }
    var k := if i <= r then i else i - 1;
    assert BackAt(nodes, es, k) && es[k] in es && es[r] in es;
    if k < r { Ordered(es, k, r); }
    if r < k { Ordered(es, r, k); }
    if r + 1 < n {
      assert es[r + 1] in es;
      Ordered(es, r, r + 1);
      if k < r + 1 { Ordered(es, k, r + 1); }
      if r + 1 < k { Ordered(es, r + 1, k); }
    }
    assert nodes[es[k]].thisEpoch == es[k] by { KeyedAt(nodes, es[k]); }
  }

  /** The forward links alone, along any walk. */
  lemma LinkInNextAt(nodes: Table, ps: seq<nat>, u: nat, p: Params, i: nat)
    requires Increasing(ps) && ps[0] < u && u !in ps && i < |Inserted(ps, u)|
    requires (forall j :: 0 <= j < |ps| ==> ps[j] in nodes) && forall j :: 0 <= j < |ps| ==> NextAt(nodes, ps, j)
    ensures NextAt(LinkIn(nodes, ps, u, p), Inserted(ps, u), i)
  {
    hide Rank, Inserted, Increasing;
    var r, n := Rank(ps, u), |ps|;
    InsertedAt(ps, u, i);
    if i + 1 < n + 1 { InsertedAt(ps, u, i + 1); }
    var k := if i <= r then i else i - 1;
    assert NextAt(nodes, ps, k) && ps[k] in ps && ps[r] in ps;
    if k < r { Ordered(ps, k, r); }
    if r < k { Ordered(ps, r, k); }
    if r + 1 < n {
      assert ps[r + 1] in ps;
      Ordered(ps, r, r + 1);
    }
  }

  lemma KeyedAt(nodes: Table, e: nat)
    requires Keyed(nodes) && e in nodes
    ensures nodes[e].thisEpoch == e && IsDerived(nodes[e].params)
  {
  }

  // ----- the history an answer has to reflect

  datatype Update = Update(change: Change, epoch: nat)

  /** The standard parameters with every update of epoch at most `e` applied in arrival order. */
  function Replay(us: seq<Update>, e: nat): Params {
    if us == [] then Standard()
    else
      var u := us[|us| - 1];
      var p := Replay(us[..|us| - 1], e);
      if u.epoch <= e then Updated(p, u.change) else p
  }

  /** Between two epochs without an update the answer does not change. */
  lemma {:induction false} ReplaySame(us: seq<Update>, e: nat, f: nat)
    requires e <= f && forall i :: 0 <= i < |us| ==> us[i].epoch <= e || f < us[i].epoch
    ensures Replay(us, e) == Replay(us, f)
  {
    if us != [] {
      ReplaySame(us[..|us| - 1], e, f);
    }
  }

  lemma ReplayNothing(e: nat)
    ensures Replay([], e) == Standard()
  {
  }

  lemma ReplayNext(us: seq<Update>, u: Update, e: nat)
    ensures Replay(us + [u], e) == if u.epoch <= e then Updated(Replay(us, e), u.change) else Replay(us, e)
  {
    assert (us + [u])[..|us|] == us;
  }

  // ----- the same, parameter by parameter

  predicate SameType(c: Change, d: Change) {
    match c
    case MaxBytes(_) => d.MaxBytes?
    case ProposalStepTimeout(_) => d.ProposalStepTimeout?
    case PreVoteStepTimeout(_) => d.PreVoteStepTimeout?
    case PreCommitStepTimeout(_) => d.PreCommitStepTimeout?
    case MsgTimeout(_) => d.MsgTimeout?
    case MinTxFee(_) => d.MinTxFee?
    case ValueStoreFee(_) => d.ValueStoreFee?
    case AtomicSwapFee(_) => d.AtomicSwapFee?
    case DataStoreEpochFee(_) => d.DataStoreEpochFee?
    case TxValidVersion(_) => d.TxValidVersion?
    case ValueStoreValidVersion(_) => d.ValueStoreValidVersion?
    case DataStoreValidVersion(_) => d.DataStoreValidVersion?
    case AtomicSwapValidStopEpoch(_) => d.AtomicSwapValidStopEpoch?
    case Unusable => d.Unusable?
  }

  /** The last change of the type of `d` among the updates of epoch at most `e`, or `d` if there is none. */
  function Latest(us: seq<Update>, e: nat, d: Change): Change {
    if us == [] then d
    else
      var u := us[|us| - 1];
      if u.epoch <= e && SameType(u.change, d) then u.change else Latest(us[..|us| - 1], e, d)
  }

  lemma {:induction false} LatestIs(us: seq<Update>, e: nat, d: Change, i: nat)
    ensures i < |us| && us[i].epoch <= e && SameType(us[i].change, d)
            && (forall j :: i < j < |us| && us[j].epoch <= e ==> !SameType(us[j].change, d)) ==>
              Latest(us, e, d) == us[i].change
    ensures (forall j :: 0 <= j < |us| && us[j].epoch <= e ==> !SameType(us[j].change, d)) ==> Latest(us, e, d) == d
  {
    hide SameType;
    if us != [] {
      LatestIs(us[..|us| - 1], e, d, i);
    }
  }

  /** Each base value is that of the latest update of its own type, and the derived values follow from the base values. */
  predicate ReadsAs(p: Params, us: seq<Update>, e: nat) {
    && Latest(us, e, MaxBytes(3000000)) == MaxBytes(p.maxBytes)
    && Latest(us, e, ProposalStepTimeout(4000000000)) == ProposalStepTimeout(p.proposalStepTimeout)
    && Latest(us, e, PreVoteStepTimeout(3000000000)) == PreVoteStepTimeout(p.preVoteStepTimeout)
    && Latest(us, e, PreCommitStepTimeout(3000000000)) == PreCommitStepTimeout(p.preCommitStepTimeout)
    && Latest(us, e, MsgTimeout(4000000000)) == MsgTimeout(p.msgTimeout)
    && Latest(us, e, MinTxFee(0)) == MinTxFee(p.minTxFee)
    && Latest(us, e, ValueStoreFee(0)) == ValueStoreFee(p.valueStoreFee)
    && Latest(us, e, AtomicSwapFee(0)) == AtomicSwapFee(p.atomicSwapFee)
    && Latest(us, e, DataStoreEpochFee(0)) == DataStoreEpochFee(p.dataStoreEpochFee)
    && Latest(us, e, TxValidVersion(0)) == TxValidVersion(p.txValidVersion)
    && Latest(us, e, ValueStoreValidVersion(0)) == ValueStoreValidVersion(p.valueStoreValidVersion)
    && Latest(us, e, DataStoreValidVersion(0)) == DataStoreValidVersion(p.dataStoreValidVersion)
    && Latest(us, e, AtomicSwapValidStopEpoch(0)) == AtomicSwapValidStopEpoch(p.atomicSwapValidStopEpoch)
    && p.maxProposalSize == p.maxBytes
    && p.srvrMsgTimeout == (3 * p.msgTimeout) / 4
    && p.downloadTimeout == p.proposalStepTimeout + p.preVoteStepTimeout + p.preCommitStepTimeout
    && p.deadBlockRoundNextRoundTimeout == (5 * p.downloadTimeout) / 2
  }

  /** The base value that updates of the type of `d` set, as such an update. */
  function Base(p: Params, d: Change): Change {
    match d
    case MaxBytes(_) => MaxBytes(p.maxBytes)
    case ProposalStepTimeout(_) => ProposalStepTimeout(p.proposalStepTimeout)
    case PreVoteStepTimeout(_) => PreVoteStepTimeout(p.preVoteStepTimeout)
    case PreCommitStepTimeout(_) => PreCommitStepTimeout(p.preCommitStepTimeout)
    case MsgTimeout(_) => MsgTimeout(p.msgTimeout)
    case MinTxFee(_) => MinTxFee(p.minTxFee)
    case ValueStoreFee(_) => ValueStoreFee(p.valueStoreFee)
    case AtomicSwapFee(_) => AtomicSwapFee(p.atomicSwapFee)
    case DataStoreEpochFee(_) => DataStoreEpochFee(p.dataStoreEpochFee)
    case TxValidVersion(_) => TxValidVersion(p.txValidVersion)
    case ValueStoreValidVersion(_) => ValueStoreValidVersion(p.valueStoreValidVersion)
    case DataStoreValidVersion(_) => DataStoreValidVersion(p.dataStoreValidVersion)
    case AtomicSwapValidStopEpoch(_) => AtomicSwapValidStopEpoch(p.atomicSwapValidStopEpoch)
    case Unusable => Unusable
  }

  lemma UpdatedBase(p: Params, c: Change, d: Change)
    requires d != Unusable
    ensures Base(Updated(p, c), d) == if SameType(c, d) then c else Base(p, d)
  {
  }

  lemma {:induction false} ReplayBase(us: seq<Update>, e: nat, d: Change)
    requires d != Unusable && d == Base(Standard(), d)
    ensures Base(Replay(us, e), d) == Latest(us, e, d)
  {
    hide Base, SameType, Updated, Standard;
    if us != [] {
      ReplayBase(us[..|us| - 1], e, d);
      UpdatedBase(Replay(us[..|us| - 1], e), us[|us| - 1].change, d);
    }
  }

  lemma {:induction false} ReplayDerived(us: seq<Update>, e: nat)
    ensures Replay(us, e) == Derive(Replay(us, e))
  {
    hide SetBase;
    if us != [] {
      ReplayDerived(us[..|us| - 1], e);
    }
  }

  /** What an answer says of each of the 17 parameters, for every history and every epoch. */
  lemma ReplayReads(us: seq<Update>, e: nat)
    ensures ReadsAs(Replay(us, e), us, e)
  {
    hide Replay, Latest, SameType;
    ReplayDerived(us, e);
    ReplayBase(us, e, MaxBytes(3000000));
    ReplayBase(us, e, ProposalStepTimeout(4000000000));
    ReplayBase(us, e, PreVoteStepTimeout(3000000000));
    ReplayBase(us, e, PreCommitStepTimeout(3000000000));
    ReplayBase(us, e, MsgTimeout(4000000000));
    ReplayBase(us, e, MinTxFee(0));
    ReplayBase(us, e, ValueStoreFee(0));
    ReplayBase(us, e, AtomicSwapFee(0));
    ReplayBase(us, e, DataStoreEpochFee(0));
    ReplayBase(us, e, TxValidVersion(0));
    ReplayBase(us, e, ValueStoreValidVersion(0));
    ReplayBase(us, e, DataStoreValidVersion(0));
    ReplayBase(us, e, AtomicSwapValidStopEpoch(0));
  }

  // ----- what one update does to the table

  /** The forward links from a node on, the node itself given as a copy. */
  ghost predicate Forward(nodes: Table, es: seq<nat>, k: nat, first: Node) {
    && Increasing(es) && Keyed(nodes) && k < |es|
    && first.IsValid() && first.thisEpoch == es[k] && first.nextEpoch == es[if k == |es| - 1 then k else k + 1]
    && (forall j :: k < j < |es| ==> es[j] in nodes)
    && forall j :: k < j < |es| ==> NextAt(nodes, es, j) && nodes[es[j]].IsValid()
  }

  function Changed(n: Node, c: Change): Node {
    n.(params := Updated(n.params, c))
  }

  /** The copy `first` and every node behind it written back with the change applied. */
  ghost function Pushed(nodes: Table, es: seq<nat>, k: nat, first: Node, c: Change): Table
    requires k < |es| && forall j :: k < j < |es| ==> es[j] in nodes
    decreases |es| - k
  {
    var now := nodes[first.thisEpoch := Changed(first, c)];
    if k == |es| - 1 then now else Pushed(now, es, k + 1, now[es[k + 1]], c)
  }

  lemma {:induction false} PushedAt(nodes: Table, es: seq<nat>, k: nat, first: Node, c: Change, e: nat)
    requires Forward(nodes, es, k, first)
    ensures var now := Pushed(nodes, es, k, first, c);
            && now.Keys == nodes.Keys + {es[k]}
            && now[es[k]] == Changed(first, c)
            && (e in nodes && (e < es[k] || e !in es) ==> now[e] == nodes[e])
            && (e in es && e > es[k] ==> e in nodes && now[e] == Changed(nodes[e], c))
    decreases |es| - k
  {
    hide Changed, Increasing, NextAt, Keyed;
    After(es, k, e);
    if k < |es| - 1 {
      ForwardStep(nodes, es, k, first, c);
      var now := nodes[es[k] := Changed(first, c)];
      PushedAt(now, es, k + 1, now[es[k + 1]], c, e);
      PushedAt(now, es, k + 1, now[es[k + 1]], c, es[k]);
    }
  }

  lemma After(es: seq<nat>, k: nat, e: nat)
    requires Increasing(es) && k < |es|
    ensures e in es && e > es[k] ==> k < |es| - 1 && e >= es[k + 1]
    ensures k < |es| - 1 ==> es[k] < es[k + 1]
  {
    assert forall i, j :: 0 <= i <= j < |es| ==> es[i] <= es[j];
  }

  lemma ForwardStep(nodes: Table, es: seq<nat>, k: nat, first: Node, c: Change)
    requires Forward(nodes, es, k, first) && k < |es| - 1
    ensures var now := nodes[es[k] := Changed(first, c)];
            && es[k] < es[k + 1] && now[es[k + 1]] == nodes[es[k + 1]]
            && Forward(now, es, k + 1, now[es[k + 1]])
  {
    hide Updated, Increasing;
    UpdatedDerived(first.params, c);
    Ordered(es, k, k + 1);
    var now := nodes[es[k] := Changed(first, c)];
    assert NextAt(nodes, es, k + 1);
    forall j | k < j < |es|
      ensures es[j] in now && now[es[j]] == nodes[es[j]] && NextAt(now, es, j)
    {
      Ordered(es, k, j);
      assert NextAt(nodes, es, j);
    }
  }

  lemma FewerBehind(before: Table, now: Table, e: nat, f: nat)
    requires now.Keys == before.Keys + {e} && e < f && f in now
    ensures (set x | x in now && x > f) < (set x | x in before && x > e)
  {
    var left, behind := set x | x in now && x > f, set x | x in before && x > e;
    assert f in behind && f !in left;
    assert forall x :: x in left ==> x in now.Keys && x in behind;
  }

  /** One round of the forward loop. */
  lemma PushStep(nodes: Table, es: seq<nat>, k: nat, first: Node, c: Change)
    requires Forward(nodes, es, k, first)
    ensures var now := nodes[first.thisEpoch := Changed(first, c)];
            && first.IsValid() && k < |es| && (first.IsHead() <==> k == |es| - 1)
            && (first.IsHead() ==> Pushed(nodes, es, k, first, c) == now)
            && (!first.IsHead() ==>
                 && GetNode(now, first.nextEpoch) == Ok(now[es[k + 1]])
                 && Forward(now, es, k + 1, now[es[k + 1]])
                 && Pushed(nodes, es, k, first, c) == Pushed(now, es, k + 1, now[es[k + 1]], c))
  {
    hide Updated, Increasing, Changed, Keyed;
    if k < |es| - 1 {
      ForwardStep(nodes, es, k, first, c);
    }
  }

  lemma UpdatedDerived(p: Params, c: Change)
    ensures IsDerived(Updated(p, c))
  {
  }

  lemma LinkInKeyed(nodes: Table, es: seq<nat>, u: nat, p: Params)
    requires BackLinked(nodes, es) && es[0] < u && IsDerived(p)
    ensures Keyed(LinkIn(nodes, es, u, p))
  {
    hide IsDerived, Rank, Increasing;
  }

  lemma SameLinks(nodes: Table, now: Table, es: seq<nat>, i: nat, c: Change)
    requires i < |es| && es[i] in nodes && es[i] in now
    requires now[es[i]] == nodes[es[i]] || now[es[i]] == Changed(nodes[es[i]], c)
    ensures BackAt(now, es, i) <==> BackAt(nodes, es, i)
    ensures NextAt(now, es, i) <==> NextAt(nodes, es, i)
    ensures Changed(nodes[es[i]], c).params == Updated(nodes[es[i]].params, c)
  {
    hide Updated;
  }

  lemma PlaceOf(es: seq<nat>, k: nat)
    requires Increasing(es) && k < |es|
    ensures es[0] <= es[k] && Rank(es, es[k]) == k
  {
    RankUnique(es, es[k], k);
  }

  lemma {:induction false} PushedKeyed(nodes: Table, es: seq<nat>, k: nat, first: Node, c: Change)
    requires Forward(nodes, es, k, first)
    ensures Keyed(Pushed(nodes, es, k, first, c))
    decreases |es| - k
  {
    hide Updated, Increasing, IsDerived;
    UpdatedDerived(first.params, c);
    if k < |es| - 1 {
      ForwardStep(nodes, es, k, first, c);
      var now := nodes[es[k] := Changed(first, c)];
      PushedKeyed(now, es, k + 1, now[es[k + 1]], c);
    }
  }
}
