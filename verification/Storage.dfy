/**
 The storage object: the table of epoch nodes, changed in place, and the parameters loaded
 from it.
 */
module Storages {
  import opened RawStorages
  import opened Dynamics
  import opened Walks
  import opened Runs

  /** CreateLinkedList: one node that is head and tail. */
  function FirstTable(p: Params): Table {
    map[1 := Node(1, 1, 1, p)]
  }

  lemma FirstTracks(p: Params)
    requires p == Standard()
    ensures Tracks(FirstTable(p), FirstTrace())
  {
    ReplayNothing(1);
    assert IsDerived(p);
    hide Standard, Replay;
    assert BackAt(FirstTable(p), [1], 0) && PathAt(FirstTable(p), [1], [1], 0);
  }

  class Storage {
    var nodes: Table
    var epochLastUpdated: nat  // 0 while there is no linked list
    var rawStorage: Params
    ghost var history: seq<Update>  // the updates that were accepted

    ghost predicate Valid()
      reads this
    {
      if epochLastUpdated == 0 then nodes == map[] && history == []
      else
        var t := TraceOf(history);
        Tracks(nodes, t) && epochLastUpdated == t.es[|t.es| - 1]
    }

    constructor ()
      ensures Valid() && history == [] && epochLastUpdated == 0
    {
      nodes, epochLastUpdated, rawStorage, history := map[], 0, Standard(), [];
    }

    /** SetNode */
    method SetNode(node: Node) returns (res: Result<()>)
      requires Keyed(nodes) && IsDerived(node.params)
      modifies this`nodes
      ensures Keyed(nodes)
      ensures res.Ok? <==> node.IsValid()
      ensures nodes == if res.Ok? then old(nodes)[node.thisEpoch := node] else old(nodes)
    {
      if !node.IsValid() {
        return Err(ErrInvalidNode);
      }
      nodes := nodes[node.thisEpoch := node];
      res := Ok(());
    }

    /** loadRawStorage: the walk always ends, and the backward links alone decide the answer */
    method LoadRawStorage(epoch: nat, ghost es: seq<nat>) returns (res: Result<Params>)
      requires Keyed(nodes)
      ensures epoch == 0 ==> res == Err(ErrZeroEpoch)
      ensures epoch != 0 && epochLastUpdated == 0 ==> res == Err(ErrKeyNotPresent)
      ensures epoch != 0 && BackLinked(nodes, es) && epochLastUpdated == es[|es| - 1] ==>
                res == if es[0] <= epoch then Ok(nodes[es[Rank(es, epoch)]].params) else Err(ErrInvalid)
    {
      if epoch == 0 {
        return Err(ErrZeroEpoch);
      }
      if epochLastUpdated == 0 {
        return Err(ErrKeyNotPresent);
      }
      ghost var linked := BackLinked(nodes, es) && epochLastUpdated == es[|es| - 1];
      ghost var i := |es| - 1;
      if linked {
        assert BackAt(nodes, es, i);
      }
      var current :- GetNode(nodes, epochLastUpdated);
      while true
        invariant current.IsValid()
        invariant linked ==> 0 <= i < |es| && current == nodes[es[i]] && (i + 1 < |es| ==> epoch < es[i + 1])
        decreases current.thisEpoch
      {
        if linked {
          if epoch >= es[i] {
            RankUnique(es, epoch, i);
          }
          assert BackAt(nodes, es, i) && (i > 0 ==> BackAt(nodes, es, i - 1) && es[i - 1] < es[i]);
        }
        if epoch >= current.thisEpoch {
          return Ok(current.params);
        }
        if current.IsTail() {
          return Err(ErrInvalid);
        }
        current :- GetNode(nodes, current.prevEpoch);
        i := i - 1;
      }
    }

    /** LoadStorage: the standard parameters before the first update, the updates as they are seen afterwards */
    method LoadStorage(epoch: nat) returns (res: Result<()>)
      requires Valid()
      modifies this`rawStorage
      ensures Valid()
      ensures epoch == 0 ==> res == Err(ErrZeroEpoch) && rawStorage == old(rawStorage)
      ensures epoch >= 1 ==> res.Ok? && rawStorage == Replay(TraceOf(history).seen, epoch)
      ensures epoch >= 1 ==> ReadsAs(rawStorage, TraceOf(history).seen, epoch)
    {
      hide ReadsAs, Replay, Rank, Standard, Owned, Visible, BackAt, PathAt, TraceOf;
      ghost var t := TraceOf(history);
      var rs := LoadRawStorage(epoch, t.es);
      if rs.Err? {
        if rs.error != ErrKeyNotPresent {
          return Err(rs.error);
        }
        rs := Ok(Standard());
      }
      if epochLastUpdated != 0 {
        TracksAnswer(nodes, t, epoch);
      } else {
        NothingSeen(epoch);
      }
      ReplayReads(t.seen, epoch);
      rawStorage := rs.value;
      res := Ok(());
    }

    /** addNode with addNodeHead and addNodeSplit */
    method AddNode(node: Node, ghost es: seq<nat>) returns (res: Result<()>)
      requires Keyed(nodes) && IsDerived(node.params)
      modifies this`nodes, this`epochLastUpdated
      ensures Keyed(nodes)
      ensures res.Err? ==> nodes == old(nodes) && epochLastUpdated == old(epochLastUpdated)
      ensures BackLinked(old(nodes), es) && old(epochLastUpdated) == es[|es| - 1] ==>
                var u := node.thisEpoch;
                && (res.Ok? <==> node.IsPreValid() && es[0] < u && u !in es)
                && (res.Ok? ==>
                     && nodes == LinkIn(old(nodes), es, u, node.params)
                     && epochLastUpdated == if u > es[|es| - 1] then u else es[|es| - 1])
    {
      if !node.IsPreValid() {
        return Err(ErrInvalid);
      }
      if epochLastUpdated == 0 {
        return Err(ErrKeyNotPresent);
      }
      hide IsDerived, Rank, BackAt, LinkIn;
      var u := node.thisEpoch;
      ghost var linked := BackLinked(nodes, es) && epochLastUpdated == es[|es| - 1];
      if linked {
        BackFacts(nodes, es, |es| - 1);
      }
      var current :- GetNode(nodes, epochLastUpdated);
      if u > current.thisEpoch {
        if linked {
          LinkInHead(nodes, es, u, node.params);
        }
        res := AddNodeHead(node, current);
        return;
      }
      if u == current.thisEpoch || current.IsTail() {
        return Err(ErrInvalid);
      }
      KeyedAt(nodes, current.thisEpoch);
      res := AddNodeBefore(node, current, es);
    }

    /** The backward loop of addNode */
    method AddNodeBefore(node: Node, head: Node, ghost es: seq<nat>) returns (res: Result<()>)
      requires Keyed(nodes) && IsDerived(node.params) && IsDerived(head.params)
      requires node.IsPreValid() && head.IsValid() && !head.IsTail() && node.thisEpoch < head.thisEpoch
      modifies this`nodes
      ensures Keyed(nodes)
      ensures res.Err? ==> nodes == old(nodes)
      ensures BackLinked(old(nodes), es) && head == old(nodes)[es[|es| - 1]] ==>
                var u := node.thisEpoch;
                && (res.Ok? <==> es[0] < u && u !in es)
                && (res.Ok? ==> u < es[|es| - 1] && nodes == LinkIn(old(nodes), es, u, node.params))
    {
      hide IsDerived, Rank, BackAt, LinkIn;
      var u, current := node.thisEpoch, head;
      ghost var linked := BackLinked(nodes, es) && head == nodes[es[|es| - 1]];
      hide Increasing;
      ghost var i := |es| - 1;
      if linked {
        BackFacts(nodes, es, i);
      }
      while true
        invariant nodes == old(nodes)
        invariant current.IsValid() && !current.IsTail() && u < current.thisEpoch && IsDerived(current.params)
        invariant linked ==> 0 < i < |es| && current == nodes[es[i]] && u < es[i] <= es[|es| - 1]
        decreases current.thisEpoch
      {
        if linked {
          BackFacts(nodes, es, i);
          BackFacts(nodes, es, i - 1);
          if es[i - 1] < u {
            LinkInBetween(nodes, es, u, node.params, i - 1);
          }
        }
        var prevNode :- GetNode(nodes, current.prevEpoch);
        if prevNode.thisEpoch < u {
          res := AddNodeSplit(node, prevNode, current);
          return;
        }
        if u == prevNode.thisEpoch || prevNode.IsTail() {
          return Err(ErrInvalid);
        }
        current := prevNode;
        i := i - 1;
      }
    }

    /** addNodeHead, with its call of SetEpochs */
    method AddNodeHead(node: Node, head: Node) returns (res: Result<()>)
      requires Keyed(nodes) && IsDerived(node.params) && IsDerived(head.params)
      requires node.IsPreValid() && head.IsValid() && head.thisEpoch < node.thisEpoch
      modifies this`nodes, this`epochLastUpdated
      ensures Keyed(nodes)
      ensures res == if head.IsHead() then Ok(()) else Err(ErrInvalid)
      ensures res.Err? ==> nodes == old(nodes) && epochLastUpdated == old(epochLastUpdated)
      ensures res.Ok? ==>
                && nodes == old(nodes)[head.thisEpoch := head.(nextEpoch := node.thisEpoch)]
                                      [node.thisEpoch := Node(node.thisEpoch, head.thisEpoch, node.thisEpoch, node.params)]
                && epochLastUpdated == node.thisEpoch
    {
      if !head.IsHead() {
        return Err(ErrInvalid);
      }
      var _ := SetNode(head.(nextEpoch := node.thisEpoch));
      var _ := SetNode(node.(prevEpoch := head.thisEpoch, nextEpoch := node.thisEpoch));
      epochLastUpdated := node.thisEpoch;
      res := Ok(());
    }

    /** addNodeSplit, with its call of SetEpochs */
    method AddNodeSplit(node: Node, prevNode: Node, nextNode: Node) returns (res: Result<()>)
      requires Keyed(nodes) && IsDerived(node.params) && IsDerived(prevNode.params) && IsDerived(nextNode.params)
      requires node.IsPreValid() && prevNode.IsValid() && nextNode.IsValid()
      requires prevNode.thisEpoch < node.thisEpoch < nextNode.thisEpoch
      modifies this`nodes
      ensures Keyed(nodes) && res == Ok(())
      ensures nodes == old(nodes)[prevNode.thisEpoch := prevNode.(nextEpoch := node.thisEpoch)]
                                 [nextNode.thisEpoch := nextNode.(prevEpoch := node.thisEpoch)]
                                 [node.thisEpoch := Node(node.thisEpoch, prevNode.thisEpoch, nextNode.thisEpoch, node.params)]
    {
      var _ := SetNode(prevNode.(nextEpoch := node.thisEpoch));
      var _ := SetNode(nextNode.(prevEpoch := node.thisEpoch));
      var _ := SetNode(node.(prevEpoch := prevNode.thisEpoch, nextEpoch := nextNode.thisEpoch));
      res := Ok(());
    }

    /** The forward loop of updateStorageValue */
    method PushForward(first: Node, c: Change, ghost es: seq<nat>, ghost k: nat) returns (res: Result<()>)
      requires Keyed(nodes) && IsDerived(first.params)
      modifies this`nodes
      ensures Keyed(nodes)
      ensures Forward(old(nodes), es, k, first) && c != Unusable ==>
                res.Ok? && nodes == Pushed(old(nodes), es, k, first, c)
    {
      hide Updated, Derive, Increasing, NextAt, Pushed;
      ghost var linked := Forward(nodes, es, k, first) && c != Unusable;
      ghost var j: nat := k;
      var iter := first;
      while true
        invariant Keyed(nodes) && IsDerived(iter.params)
        invariant linked ==> Forward(nodes, es, j, iter)
                             && Pushed(nodes, es, j, iter, c) == Pushed(old(nodes), es, k, first, c)
        decreases set e | e in nodes && e > iter.thisEpoch
      {
        var rs := new RawStorage(iter.params);
        var ok := rs.UpdateValue(c);
        if !ok {
          return Err(ErrInvalidUpdateValue);
        }
        if linked {
          PushStep(nodes, es, j, iter, c);
        }
        UpdatedDerived(iter.params, c);
        ghost var before := nodes;
        var _ :- SetNode(iter.(params := rs.p));
        if iter.IsHead() {
          return Ok(());
        }
        var next :- GetNode(nodes, iter.nextEpoch);
        FewerBehind(before, nodes, iter.thisEpoch, next.thisEpoch);
        iter := next;
        j := j + 1;
      }
    }

    /** The backward loop of updateStorageValue: the last node that is not beyond the epoch */
    method FindNode(epoch: nat, ghost es: seq<nat>) returns (res: Result<Node>, ghost at: nat)
      requires Keyed(nodes)
      ensures res.Ok? ==> res.value.IsValid() && res.value.thisEpoch in nodes && res.value == nodes[res.value.thisEpoch]
      ensures BackLinked(nodes, es) && epochLastUpdated == es[|es| - 1] && es[0] <= epoch ==>
                at == Rank(es, epoch) && res == Ok(nodes[es[at]])
    {
      hide BackAt, Rank, IsDerived;
      at := 0;
      if epochLastUpdated == 0 {
        return Err(ErrKeyNotPresent), at;
      }
      ghost var linked := BackLinked(nodes, es) && epochLastUpdated == es[|es| - 1] && es[0] <= epoch;
      ghost var i := |es| - 1;
      if linked {
        BackFacts(nodes, es, i);
      }
      var iter :- GetNode(nodes, epochLastUpdated);
      while epoch < iter.thisEpoch
        invariant iter.IsValid() && iter.thisEpoch in nodes && iter == nodes[iter.thisEpoch]
        invariant linked ==> 0 <= i < |es| && iter == nodes[es[i]] && (i + 1 < |es| ==> epoch < es[i + 1])
        decreases iter.thisEpoch
      {
        if linked {
          BackFacts(nodes, es, i);
        }
        if iter.IsTail() {
          return Err(ErrInvalidUpdateValue), at;
        }
        iter :- GetNode(nodes, iter.prevEpoch);
        i := i - 1;
      }
      if linked {
        BackFacts(nodes, es, i);
        RankUnique(es, epoch, i);
        at := i;
      }
      res := Ok(iter);
    }

    /** updateStorageValue */
    method UpdateStorageValue(u: Update, ghost es: seq<nat>, ghost ps: seq<nat>) returns (res: Result<()>)
      requires Keyed(nodes)
      modifies this`nodes, this`epochLastUpdated
      ensures Keyed(nodes)
      ensures TwoWalks(old(nodes), es, ps) && old(epochLastUpdated) == es[|es| - 1] && es[0] <= u.epoch && u.change != Unusable ==>
                && res.Ok? && nodes == ValueUpdated(old(nodes), es, ps, u)
                && epochLastUpdated == if u.epoch > es[|es| - 1] then u.epoch else es[|es| - 1]
    {
      hide Updated, Derive, BackAt, PathAt, Rank, Pushed, LinkIn, Keyed, Place, NextAt;
      ghost var linked := TwoWalks(nodes, es, ps) && epochLastUpdated == es[|es| - 1] && es[0] <= u.epoch && u.change != Unusable;
      var found, at := FindNode(u.epoch, es);
      var iter :- found;
      KeyedAt(nodes, iter.thisEpoch);
      if linked {
        BackFacts(nodes, es, at);
        BackFacts(nodes, es, |es| - 1);
        assert es[at] in ps;
      }
      if u.epoch == iter.thisEpoch {
        ghost var p: nat := if linked then Place(ps, es[at]) else 0;
        if linked {
          ForwardOn(nodes, es, ps, p);
        }
        res := PushForward(iter, u.change, ps, p);
        return;
      }
      res := AddUpdate(u, iter, es, ps, at);
    }

    /** updateStorageValue for an epoch without a node; the copy of the next node is taken first */
    method AddUpdate(u: Update, iter: Node, ghost es: seq<nat>, ghost ps: seq<nat>, ghost at: nat) returns (res: Result<()>)
      requires Keyed(nodes) && IsDerived(iter.params)
      modifies this`nodes, this`epochLastUpdated
      ensures Keyed(nodes)
      ensures TwoWalks(old(nodes), es, ps) && old(epochLastUpdated) == es[|es| - 1] && u.change != Unusable
              && es[0] <= u.epoch && at == Rank(es, u.epoch) && iter == old(nodes)[es[at]] && iter.thisEpoch < u.epoch ==>
                && res.Ok? && nodes == ValueUpdated(old(nodes), es, ps, u)
                && epochLastUpdated == if u.epoch > es[|es| - 1] then u.epoch else es[|es| - 1]
    {
      hide Updated, Derive, BackAt, PathAt, Rank, Pushed, LinkIn, Keyed, Place, NextAt, ValueUpdated;
      ghost var linked := TwoWalks(nodes, es, ps) && epochLastUpdated == es[|es| - 1] && es[0] <= u.epoch
                          && at == Rank(es, u.epoch) && iter == nodes[es[at]] && iter.thisEpoch < u.epoch;
      if linked {
        BackFacts(nodes, es, at);
      }
      var first := iter;
      if !iter.IsHead() {
        if linked {
          Gap(nodes, es, ps, at);
          PathFacts(nodes, es, ps, Place(ps, es[at]) + 1);
          PathValid(nodes, es, ps, Place(ps, es[at]) + 1);
        }
        first :- GetNode(nodes, iter.nextEpoch);
        KeyedAt(nodes, iter.nextEpoch);
      }
      var rs := new RawStorage(iter.params);
      var ok := rs.UpdateValue(u.change);
      if !ok {
        return Err(ErrInvalidUpdateValue);
      }
      UpdatedDerived(iter.params, u.change);
      res := InsertUpdate(u, iter, first, rs.p, es, ps, at);
    }

    /** The rest of updateStorageValue for an epoch without a node */
    method InsertUpdate(u: Update, iter: Node, first: Node, p: Params, ghost es: seq<nat>, ghost ps: seq<nat>, ghost at: nat)
      returns (res: Result<()>)
      requires Keyed(nodes) && IsDerived(p) && IsDerived(first.params)
      modifies this`nodes, this`epochLastUpdated
      ensures Keyed(nodes)
      ensures TwoWalks(old(nodes), es, ps) && old(epochLastUpdated) == es[|es| - 1] && u.change != Unusable
              && es[0] <= u.epoch && at == Rank(es, u.epoch) && iter == old(nodes)[es[at]] && iter.thisEpoch < u.epoch
              && p == Updated(iter.params, u.change)
              && (at + 1 < |es| ==> iter.nextEpoch in old(nodes) && first == old(nodes)[iter.nextEpoch]) ==>
                && res.Ok? && nodes == ValueUpdated(old(nodes), es, ps, u)
                && epochLastUpdated == if u.epoch > es[|es| - 1] then u.epoch else es[|es| - 1]
    {
      hide Updated, BackAt, PathAt, NextAt, Rank, Pushed, LinkIn, IsDerived, Place, Keyed;
      ghost var linked := TwoWalks(nodes, es, ps) && epochLastUpdated == es[|es| - 1] && es[0] <= u.epoch && at == Rank(es, u.epoch)
                          && iter == nodes[es[at]] && iter.thisEpoch < u.epoch;
      ghost var k: nat := 0;
      if linked {
        BackFacts(nodes, es, at);
        if at + 1 < |es| {
          Between(es, u.epoch, at);
          Gap(nodes, es, ps, at);
          ForwardBehind(nodes, es, ps, u.epoch, p, at);
          k := Place(ps, es[at]) + 1;
        } else {
          BeyondHead(es, u.epoch);
        }
      }
      var added := AddNode(Node(u.epoch, 0, 0, p), es);
      if added.Err? {
        return added;
      }
      if iter.IsHead() {
        return Ok(());
      }
      res := PushForward(first, u.change, ps, k);
    }

    /** The first part of UpdateStorage: the list starts at epoch 1 with the standard parameters */
    method StartList()
      requires Valid()
      modifies this`nodes, this`epochLastUpdated
      ensures Valid() && epochLastUpdated != 0
    {
      hide Replay, Standard, FirstTable, Tracks;
      if epochLastUpdated == 0 {
        var rs := Standard();
        FirstTracks(rs);
        nodes, epochLastUpdated := FirstTable(rs), 1;
      }
    }

    /** UpdateStorage with checkUpdate: every usable update is accepted, in every state that a run can reach */
    method UpdateStorage(u: Update) returns (res: Result<()>)
      requires Valid()
      modifies this`nodes, this`epochLastUpdated, this`history
      ensures Valid()
      ensures res.Ok? <==> u.epoch >= 1 && u.change != Unusable
      ensures res.Err? ==> res.error == ErrInvalidUpdateValue && nodes == old(nodes) && epochLastUpdated == old(epochLastUpdated)
      ensures history == if Usable(u) then old(history) + [u] else old(history)
    {
      hide Replay, Tracks, TwoWalks, ValueUpdated, Standard, Next;
      if u.epoch == 0 || u.change == Unusable {
        return Err(ErrInvalidUpdateValue);
      }
      StartList();
      ghost var t := TraceOf(history);
      UpdateTracks(nodes, t, u);
      WalksOf(nodes, t);
      WalksKeyed(nodes, t.es, t.ps);
      TraceNext(history, u);
      NextHead(t, u);
      res := UpdateStorageValue(u, t.es, t.ps);
      history := history + [u];
    }
  }

  /**
   A storage that has seen any run answers with the accepted updates as they are seen; after
   an orderly run these are the accepted updates, each from its own epoch on.
   */
  method AnswerAfter(us: seq<Update>, epoch: nat) returns (answer: Params)
    requires epoch >= 1
    ensures answer == Replay(TraceOf(Accepted(us)).seen, epoch)
    ensures ReadsAs(answer, TraceOf(Accepted(us)).seen, epoch)
    ensures Orderly(Accepted(us)) ==> answer == Replay(Accepted(us), epoch) && ReadsAs(answer, Accepted(us), epoch)
    ensures Orderly(Accepted(us)) && (forall i :: 0 <= i < |us| ==> us[i].epoch >= 1) ==> ReadsAs(answer, us, epoch)
  {
    hide Replay, TraceOf, Tracks, Orderly, ReadsAs;
    var s := new Storage();
    for i := 0 to |us|
      invariant s.Valid() && s.history == Accepted(us[..i]) && fresh(s)
    {
      assert us[..i + 1][..i] == us[..i];
      var _ := s.UpdateStorage(us[i]);
    }
    assert us[..|us|] == us;
    var _ := s.LoadStorage(epoch);
    answer := s.rawStorage;
    if Orderly(Accepted(us)) {
      OrderlyIsClean(Accepted(us));
      if forall i :: 0 <= i < |us| ==> us[i].epoch >= 1 {
        AcceptedReads(answer, us, epoch);
      }
    }
  }
}
