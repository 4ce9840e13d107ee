/**
 What the epoch nodes hold after any run of updates: each update is seen from its own epoch on,
 or, when it fell between two visited nodes, from the later of these on.
 */
module Runs {
  import opened RawStorages
  import opened Dynamics
  import opened Walks

  /**
   The epochs that the walk back and the walk forward visit, the updates in arrival order with
   the epochs from which they are seen, and the update that each node on the walk forward
   alone came from.
   */
  datatype Trace = Trace(es: seq<nat>, ps: seq<nat>, own: map<nat, nat>, seen: seq<Update>)

  predicate WellShaped(t: Trace) {
    && Increasing(t.es) && Increasing(t.ps) && Within(t.es, t.ps) && t.es[0] == 1
    && (forall h :: h in t.ps && h !in t.es ==> h in t.own && t.own[h] < |t.seen|)
  }

  /** The list before any update: one node at epoch 1. */
  function FirstTrace(): Trace {
    Trace([1], [1], map[], [])
  }

  lemma RoomBehind(es: seq<nat>, ps: seq<nat>, r: nat)
    requires Increasing(es) && Increasing(ps) && Within(es, ps) && r + 1 < |es|
    ensures es[r] in ps && Place(ps, es[r]) + 1 < |ps|
  {
    hide Place;
    Ordered(es, r, r + 1);
    assert es[r] in ps && es[r + 1] in ps;
    InOrder(ps, Place(ps, es[r]), Place(ps, es[r + 1]));
  }

  /** An update seen as if it had come at another epoch. */
  function Moved(us: seq<Update>, k: nat, e: nat): seq<Update>
    requires k < |us|
  {
    us[k := Update(us[k].change, e)]
  }

  /**
   What one update does.  In an empty gap its node is hidden, and it is seen from the next
   visited epoch on; a second update in the same gap is visited again, and brings the first
   one to light if it names the same epoch.
   */
  function Next(t: Trace, u: Update): Trace
    requires WellShaped(t) && u.epoch >= 1
  {
    var e, r := u.epoch, Rank(t.es, u.epoch);
    if t.es[r] == e then t.(seen := t.seen + [u])
    else if r == |t.es| - 1 then t.(es := t.es + [e], ps := t.ps + [e], seen := t.seen + [u])
    else
      RoomBehind(t.es, t.ps, r);
      var p, n := Place(t.ps, t.es[r]), t.es[r + 1];
      var h := t.ps[p + 1];
      if h == n then
        Trace(t.es, Inserted(t.ps, e), t.own[e := |t.seen|], t.seen + [Update(u.change, n)])
      else if h == e && e in t.own && t.own[e] < |t.seen| then
        Trace(Inserted(t.es, e), t.ps, t.own - {e}, Moved(t.seen, t.own[e], e) + [u])
      else
        Trace(Inserted(t.es, e), t.ps[p + 1 := e], t.own - {h}, t.seen + [u])
  }

  // ----- what a table holds

  /** A hidden node has the value of its own epoch, its own update included. */
  ghost predicate Owned(nodes: Table, es: seq<nat>, own: map<nat, nat>, seen: seq<Update>, h: nat) {
    && h in nodes && h in own && own[h] < |seen|
    && h < seen[own[h]].epoch && (forall i :: 0 <= i < |es| ==> es[i] < h || seen[own[h]].epoch <= es[i])
    && nodes[h].params == Replay(Moved(seen, own[h], h), h)
  }

  ghost predicate Visible(nodes: Table, es: seq<nat>, seen: seq<Update>) {
    && (forall i :: 0 <= i < |es| ==> es[i] in nodes)
    && forall i :: 0 <= i < |es| ==> nodes[es[i]].params == Replay(seen, es[i])
  }

  ghost predicate Tracks(nodes: Table, t: Trace) {
    && TwoWalks(nodes, t.es, t.ps) && t.es[0] == 1
    && (forall i :: 0 <= i < |t.seen| ==> t.seen[i].epoch in t.es)
    && Visible(nodes, t.es, t.seen)
    && forall h :: h in t.ps && h !in t.es ==> Owned(nodes, t.es, t.own, t.seen, h)
  }

  lemma TracksShape(nodes: Table, t: Trace)
    requires Tracks(nodes, t)
    ensures WellShaped(t)
  {
    hide BackAt, PathAt, Keyed, Replay;
    forall h | h in t.ps && h !in t.es
      ensures h in t.own && t.own[h] < |t.seen|
    {
      assert Owned(nodes, t.es, t.own, t.seen, h);
    }
  }

  /** The walk back answers with the updates as they are seen, at every epoch. */
  lemma TracksAnswer(nodes: Table, t: Trace, e: nat)
    requires Tracks(nodes, t) && e >= 1
    ensures nodes[t.es[Rank(t.es, e)]].params == Replay(t.seen, e)
  {
    hide BackAt, PathAt, Keyed, Owned, Replay;
    SeenSame(t, e);
  }

  lemma SeenSame(t: Trace, e: nat)
    requires Increasing(t.es) && t.es[0] <= e && forall i :: 0 <= i < |t.seen| ==> t.seen[i].epoch in t.es
    ensures Replay(t.seen, t.es[Rank(t.es, e)]) == Replay(t.seen, e)
  {
    hide Replay;
    var r := Rank(t.es, e);
    forall i | 0 <= i < |t.seen|
      ensures t.seen[i].epoch <= t.es[r] || e < t.seen[i].epoch
    {
      var j :| 0 <= j < |t.es| && t.es[j] == t.seen[i].epoch;
    }
    ReplaySame(t.seen, t.es[r], e);
  }

  /** Moving an update does not show where it was, and is, on the same side. */
  lemma {:induction false} ReplayMoved(us: seq<Update>, k: nat, e: nat, x: nat)
    requires k < |us| && (us[k].epoch <= x <==> e <= x)
    ensures Replay(Moved(us, k, e), x) == Replay(us, x)
  {
    var n := |us| - 1;
    if k < n {
      ReplayMoved(us[..n], k, e, x);
      assert Moved(us, k, e)[..n] == Moved(us[..n], k, e);
    } else {
      assert Moved(us, k, e)[..n] == us[..n];
    }
  }

  lemma MovedNext(us: seq<Update>, k: nat, e: nat, u: Update)
    requires k < |us|
    ensures Moved(us + [u], k, e) == Moved(us, k, e) + [u]
    ensures (us + [u])[k] == us[k]
  {
  }

  /** What a step does to a value: the change is applied from `w.epoch` on. */
  predicate Steps(nodes: Table, now: Table, w: Update, x: nat) {
    && x in nodes && x in now
    && now[x].params == if w.epoch <= x then Updated(nodes[x].params, w.change) else nodes[x].params
  }

  lemma VisibleSteps(nodes: Table, now: Table, es: seq<nat>, seen: seq<Update>, w: Update)
    requires Visible(nodes, es, seen) && forall i :: 0 <= i < |es| ==> Steps(nodes, now, w, es[i])
    ensures Visible(now, es, seen + [w])
  {
    hide Replay, Updated;
    forall i | 0 <= i < |es|
      ensures es[i] in now && now[es[i]].params == Replay(seen + [w], es[i])
    {
      assert Steps(nodes, now, w, es[i]);
      ReplayNext(seen, w, es[i]);
    }
  }

  lemma NewVisible(nodes: Table, es: seq<nat>, fs: seq<nat>, seen: seq<Update>, e: nat)
    requires Visible(nodes, es, seen) && (forall x :: x in fs ==> x in es || x == e)
    requires e in nodes && nodes[e].params == Replay(seen, e)
    ensures Visible(nodes, fs, seen)
  {
    hide Replay;
    forall i | 0 <= i < |fs|
      ensures fs[i] in nodes && nodes[fs[i]].params == Replay(seen, fs[i])
    {
      assert fs[i] in fs;
      if fs[i] != e {
        var j :| 0 <= j < |es| && es[j] == fs[i];
      }
    }
  }

  lemma OwnedSteps(nodes: Table, now: Table, es: seq<nat>, own: map<nat, nat>, seen: seq<Update>, w: Update, h: nat)
    requires Owned(nodes, es, own, seen, h) && Steps(nodes, now, w, h)
    ensures Owned(now, es, own, seen + [w], h)
  {
    hide Replay, Updated;
    MovedNext(seen, own[h], h, w);
    ReplayNext(Moved(seen, own[h], h), w, h);
  }

  /** One more visited epoch does not come between a hidden node and the epoch its update is seen from. */
  lemma OwnedAmong(nodes: Table, es: seq<nat>, fs: seq<nat>, own: map<nat, nat>, seen: seq<Update>, e: nat, h: nat)
    requires Owned(nodes, es, own, seen, h)
    requires forall x :: x in fs ==> x in es || x == e
    requires e < h || seen[own[h]].epoch <= e
    ensures Owned(nodes, fs, own, seen, h)
  {
    hide Replay;
    forall i | 0 <= i < |fs|
      ensures fs[i] < h || seen[own[h]].epoch <= fs[i]
    {
      assert fs[i] in fs;
      if fs[i] != e {
        var j :| 0 <= j < |es| && es[j] == fs[i];
      }
    }
  }

  lemma OwnedSame(nodes: Table, es: seq<nat>, own: map<nat, nat>, other: map<nat, nat>, seen: seq<Update>, h: nat)
    requires Owned(nodes, es, own, seen, h) && (h in own ==> h in other && other[h] == own[h])
    ensures Owned(nodes, es, other, seen, h)
  {
    hide Replay;
  }

  /** The value a new node starts with: that of the last visited epoch before it, with the change. */
  lemma NewValue(nodes: Table, t: Trace, u: Update, r: nat)
    requires Tracks(nodes, t) && r < |t.es| && t.es[r] <= u.epoch && (r + 1 < |t.es| ==> u.epoch < t.es[r + 1])
    ensures Updated(nodes[t.es[r]].params, u.change) == Replay(t.seen + [u], u.epoch)
  {
    hide BackAt, PathAt, Keyed, Replay, Updated, Owned;
    RankUnique(t.es, u.epoch, r);
    TracksAnswer(nodes, t, u.epoch);
    ReplayNext(t.seen, u, u.epoch);
  }

  lemma SeenIn(seen: seq<Update>, w: Update, es: seq<nat>, fs: seq<nat>)
    requires (forall i :: 0 <= i < |seen| ==> seen[i].epoch in es) && (forall x :: x in es ==> x in fs) && w.epoch in fs
    ensures forall i :: 0 <= i < |seen + [w]| ==> (seen + [w])[i].epoch in fs
  {
  }

  lemma HiddenFacts(nodes: Table, t: Trace, h: nat)
    requires Tracks(nodes, t) && h in t.ps && h !in t.es
    ensures h in t.own && t.own[h] < |t.seen| && h < t.seen[t.own[h]].epoch
    ensures t.seen[t.own[h]].epoch in t.es && t.seen[t.own[h]].epoch <= t.es[|t.es| - 1]
    ensures forall u :: (t.seen + [u])[t.own[h]] == t.seen[t.own[h]]
    ensures forall i :: 0 <= i < |t.es| ==> t.es[i] < h || t.seen[t.own[h]].epoch <= t.es[i]
  {
    hide BackAt, PathAt, Keyed, Replay, Visible, Increasing;
    assert Owned(nodes, t.es, t.own, t.seen, h);
    AtMost(t.es, t.seen[t.own[h]].epoch);
  }

  lemma AtMost(es: seq<nat>, x: nat)
    requires Increasing(es) && x in es
    ensures es != [] && x <= es[|es| - 1]
  {
  }

  // ----- each kind of update

  lemma OnNodeTracks(nodes: Table, t: Trace, u: Update)
    requires Tracks(nodes, t) && u.epoch in t.es
    ensures t.es[0] <= u.epoch && Tracks(ValueUpdated(nodes, t.es, t.ps, u), t.(seen := t.seen + [u]))
  {
    hide BackAt, PathAt, Keyed, Replay, Updated, ValueUpdated, Owned, Visible, Increasing;
    OnNodeWalks(nodes, t.es, t.ps, u);
    var now := ValueUpdated(nodes, t.es, t.ps, u);
    forall x | x in t.ps
      ensures Steps(nodes, now, u, x)
    {
      var j :| 0 <= j < |t.ps| && t.ps[j] == x;
      OnNodeAt(nodes, t.es, t.ps, u, x);
    }
    VisibleSteps(nodes, now, t.es, t.seen, u);
    forall h | h in t.ps && h !in t.es
      ensures Owned(now, t.es, t.own, t.seen + [u], h)
    {
      OwnedSteps(nodes, now, t.es, t.own, t.seen, u, h);
    }
  }

  lemma NewHeadTracks(nodes: Table, t: Trace, u: Update)
    requires Tracks(nodes, t) && t.es[|t.es| - 1] < u.epoch
    ensures t.es[0] <= u.epoch
    ensures Tracks(ValueUpdated(nodes, t.es, t.ps, u),
                   t.(es := t.es + [u.epoch], ps := t.ps + [u.epoch], seen := t.seen + [u]))
  {
    hide BackAt, PathAt, Keyed, Replay, Updated, ValueUpdated, Owned, Visible, Increasing;
    assert t.es != [] by { NotEmpty(t.es); }
    var e := u.epoch;
    NewHeadWalks(nodes, t.es, t.ps, u);
    NewHeadAt(nodes, t.es, t.ps, u, 0);
    NewValue(nodes, t, u, |t.es| - 1);
    var now, fs := ValueUpdated(nodes, t.es, t.ps, u), t.es + [e];
    forall x | x in t.ps
      ensures Steps(nodes, now, u, x)
    {
      NewHeadSteps(nodes, t.es, t.ps, u, x);
    }
    VisibleSteps(nodes, now, t.es, t.seen, u);
    NewVisible(now, t.es, fs, t.seen + [u], e);
    forall h | h in t.ps + [e] && h !in fs
      ensures Owned(now, fs, t.own, t.seen + [u], h)
    {
      HiddenFacts(nodes, t, h);
      OwnedSteps(nodes, now, t.es, t.own, t.seen, u, h);
      OwnedAmong(now, t.es, fs, t.own, t.seen + [u], e, h);
    }
    SeenIn(t.seen, u, t.es, fs);
  }

  lemma NewHeadSteps(nodes: Table, es: seq<nat>, ps: seq<nat>, u: Update, x: nat)
    requires TwoWalks(nodes, es, ps) && es[|es| - 1] < u.epoch && x in ps
    ensures es[0] <= u.epoch && Steps(nodes, ValueUpdated(nodes, es, ps, u), u, x)
  {
    hide BackAt, PathAt, Keyed, Updated, ValueUpdated, Increasing;
    NewHeadAt(nodes, es, ps, u, x);
    var j :| 0 <= j < |ps| && ps[j] == x;
    AtMost(ps, x);
  }

  /** In a gap, everything on the walk forward but the new node changes from the next visited epoch on. */
  lemma GapSteps(nodes: Table, es: seq<nat>, ps: seq<nat>, u: Update, r: nat, from: nat, x: nat)
    requires InGap(nodes, es, ps, u.epoch, r) && es[r] < from <= es[r + 1]
    requires (x in ps && x != u.epoch && x != Beside(es, ps, r)) || x == es[r + 1]
    ensures es[0] <= u.epoch && Steps(nodes, ValueUpdated(nodes, es, ps, u), Update(u.change, from), x)
    ensures x <= es[r] || es[r + 1] <= x
  {
    hide BackAt, PathAt, Keyed, Updated, ValueUpdated, Increasing, Place;
    Gap(nodes, es, ps, r);
    BetweenAt(nodes, es, ps, u, r, x);
    assert es[r + 1] in ps;
    BehindIs(ps, Place(ps, es[r]), es[r + 1], Beside(es, ps, r), x);
    var j :| 0 <= j < |ps| && ps[j] == x;
  }

  /** Which visited epochs lie before and behind a gap. */
  lemma AroundGap(es: seq<nat>, e: nat, r: nat, i: nat)
    requires Increasing(es) && r + 1 < |es| && es[r] < e < es[r + 1] && i < |es|
    ensures es[i] <= es[r] || es[r + 1] <= es[i]
  {
    InOrder(es, i, r);
    InOrder(es, r + 1, i);
    InOrder(es, r, i);
    InOrder(es, i, r + 1);
  }

  lemma HiddenTracks(nodes: Table, t: Trace, u: Update, r: nat)
    requires Tracks(nodes, t) && InGap(nodes, t.es, t.ps, u.epoch, r) && Beside(t.es, t.ps, r) == t.es[r + 1]
    ensures t.es[0] <= u.epoch && t.ps[0] < u.epoch
    ensures Tracks(ValueUpdated(nodes, t.es, t.ps, u),
                   Trace(t.es, Inserted(t.ps, u.epoch), t.own[u.epoch := |t.seen|], t.seen + [Update(u.change, t.es[r + 1])]))
  {
    hide BackAt, PathAt, Keyed, Replay, Updated, ValueUpdated, Owned, Visible, Increasing, Inserted, Place, Steps, Beside;
    var e, n := u.epoch, t.es[r + 1];
    var w, own := Update(u.change, n), t.own[e := |t.seen|];
    HiddenWalks(nodes, t.es, t.ps, u, r);
    GapOf(nodes, t.es, t.ps, e, r);
    var now, qs := ValueUpdated(nodes, t.es, t.ps, u), Inserted(t.ps, e);
    forall x | x in t.ps
      ensures Steps(nodes, now, w, x)
    {
      GapSteps(nodes, t.es, t.ps, u, r, n, x);
    }
    VisibleSteps(nodes, now, t.es, t.seen, w);
    forall h | h in qs && h !in t.es
      ensures Owned(now, t.es, own, t.seen + [w], h)
    {
      if h == e {
        HiddenOwned(nodes, t, u, r);
      } else {
        OwnedSteps(nodes, now, t.es, t.own, t.seen, w, h);
        OwnedSame(now, t.es, t.own, own, t.seen + [w], h);
      }
    }
    SeenIn(t.seen, w, t.es, t.es);
  }

  lemma HiddenOwned(nodes: Table, t: Trace, u: Update, r: nat)
    requires Tracks(nodes, t) && InGap(nodes, t.es, t.ps, u.epoch, r) && Beside(t.es, t.ps, r) == t.es[r + 1]
    ensures t.es[0] <= u.epoch
    ensures Owned(ValueUpdated(nodes, t.es, t.ps, u), t.es, t.own[u.epoch := |t.seen|],
                  t.seen + [Update(u.change, t.es[r + 1])], u.epoch)
  {
    hide BackAt, PathAt, Keyed, Replay, Updated, ValueUpdated, Increasing, Place, Visible;
    var e, w := u.epoch, Update(u.change, t.es[r + 1]);
    BetweenAt(nodes, t.es, t.ps, u, r, e);
    NewValue(nodes, t, u, r);
    assert Moved(t.seen + [w], |t.seen|, e) == t.seen + [u];
    forall i | 0 <= i < |t.es|
      ensures t.es[i] < e || t.es[r + 1] <= t.es[i]
    {
      AroundGap(t.es, e, r, i);
    }
  }

  lemma ReplacedTracks(nodes: Table, t: Trace, u: Update, r: nat)
    requires Tracks(nodes, t) && InGap(nodes, t.es, t.ps, u.epoch, r)
    requires Beside(t.es, t.ps, r) != t.es[r + 1] && Beside(t.es, t.ps, r) != u.epoch
    ensures t.es[0] < u.epoch
    ensures Tracks(ValueUpdated(nodes, t.es, t.ps, u),
                   Trace(Inserted(t.es, u.epoch), t.ps[Place(t.ps, t.es[r]) + 1 := u.epoch],
                         t.own - {Beside(t.es, t.ps, r)}, t.seen + [u]))
  {
    hide BackAt, PathAt, Keyed, Replay, Updated, ValueUpdated, Owned, Visible, Increasing, Inserted, Place, Steps, Beside;
    var e, h0 := u.epoch, Beside(t.es, t.ps, r);
    ReplacedWalks(nodes, t.es, t.ps, u, r);
    var now, fs, qs := ValueUpdated(nodes, t.es, t.ps, u), Inserted(t.es, e), t.ps[Place(t.ps, t.es[r]) + 1 := e];
    ShownVisible(nodes, t, u, r);
    forall h | h in qs && h !in fs
      ensures Owned(now, fs, t.own - {h0}, t.seen + [u], h)
    {
      ReplacedMembers(t.es, t.ps, r, e, h);
      ShownOwned(nodes, t, u, r, h);
      OwnedSame(now, fs, t.own, t.own - {h0}, t.seen + [u], h);
    }
    SeenIn(t.seen, u, t.es, fs);
    InsertedEndsAt(nodes, t, u, r);
  }

  lemma InsertedEndsAt(nodes: Table, t: Trace, u: Update, r: nat)
    requires InGap(nodes, t.es, t.ps, u.epoch, r) && t.es[0] < u.epoch
    ensures Inserted(t.es, u.epoch) != [] && Inserted(t.es, u.epoch)[0] == t.es[0]
  {
    InsertedEnds(t.es, u.epoch, r);
  }

  lemma ReplacedMembers(es: seq<nat>, ps: seq<nat>, r: nat, e: nat, h: nat)
    requires Increasing(ps) && r < |es| && es[r] in ps && Place(ps, es[r]) + 1 < |ps|
    requires h in ps[Place(ps, es[r]) + 1 := e] && h != e
    ensures h in ps && h != Beside(es, ps, r)
  {
    hide Place;
    var p := Place(ps, es[r]);
    var j :| 0 <= j < |ps| && ps[p + 1 := e][j] == h;
    InOrder(ps, p + 1, j);
    InOrder(ps, j, p + 1);
  }

  /** The visited nodes after an update that is visited at once. */
  lemma ShownVisible(nodes: Table, t: Trace, u: Update, r: nat)
    requires Tracks(nodes, t) && InGap(nodes, t.es, t.ps, u.epoch, r)
    requires Beside(t.es, t.ps, r) != t.es[r + 1] && Beside(t.es, t.ps, r) != u.epoch
    ensures t.es[0] < u.epoch
    ensures Visible(ValueUpdated(nodes, t.es, t.ps, u), Inserted(t.es, u.epoch), t.seen + [u])
  {
    hide BackAt, PathAt, Keyed, Replay, Updated, ValueUpdated, Owned, Visible, Increasing, Inserted, Place, Steps, Beside;
    GapOf(nodes, t.es, t.ps, u.epoch, r);
    Gap(nodes, t.es, t.ps, r);
    var now := ValueUpdated(nodes, t.es, t.ps, u);
    forall i | 0 <= i < |t.es|
      ensures Steps(nodes, now, u, t.es[i])
    {
      assert t.es[i] in t.ps && t.es[i] in t.es;
      BesideHidden(nodes, t.es, t.ps, r);
      GapSteps(nodes, t.es, t.ps, u, r, u.epoch, t.es[i]);
    }
    VisibleSteps(nodes, now, t.es, t.seen, u);
    NewValue(nodes, t, u, r);
    BetweenAt(nodes, t.es, t.ps, u, r, u.epoch);
    BesideIs(t.es, t.ps, r);
    InsertedMembers(t.es, u.epoch);
    NewVisible(now, t.es, Inserted(t.es, u.epoch), t.seen + [u], u.epoch);
  }

  lemma BesideIs(es: seq<nat>, ps: seq<nat>, r: nat)
    requires Increasing(ps) && r < |es| && es[r] in ps && Place(ps, es[r]) + 1 < |ps|
    ensures Beside(es, ps, r) == ps[Place(ps, es[r]) + 1]
  {
  }

  lemma BesideHidden(nodes: Table, es: seq<nat>, ps: seq<nat>, r: nat)
    requires TwoWalks(nodes, es, ps) && r + 1 < |es| && es[r] in ps && Place(ps, es[r]) + 1 < |ps|
    ensures Beside(es, ps, r) != es[r + 1] ==> Beside(es, ps, r) !in es
  {
    hide BackAt, PathAt, Increasing, Place;
    Gap(nodes, es, ps, r);
  }

  /** The other hidden nodes lie in other gaps. */
  lemma ShownOwned(nodes: Table, t: Trace, u: Update, r: nat, h: nat)
    requires Tracks(nodes, t) && InGap(nodes, t.es, t.ps, u.epoch, r) && Beside(t.es, t.ps, r) != t.es[r + 1]
    requires h in t.ps && h !in t.es && h != u.epoch && h != Beside(t.es, t.ps, r)
    ensures t.es[0] < u.epoch
    ensures Owned(ValueUpdated(nodes, t.es, t.ps, u), Inserted(t.es, u.epoch), t.own, t.seen + [u], h)
    ensures h < t.es[r] || t.es[r + 1] < h
  {
    hide BackAt, PathAt, Keyed, Replay, Updated, ValueUpdated, Owned, Visible, Increasing, Inserted, Place, Steps, Beside;
    var now := ValueUpdated(nodes, t.es, t.ps, u);
    GapOf(nodes, t.es, t.ps, u.epoch, r);
    GapSteps(nodes, t.es, t.ps, u, r, u.epoch, h);
    assert t.es[r] in t.es && t.es[r + 1] in t.es;
    HiddenFacts(nodes, t, h);
    OwnedSteps(nodes, now, t.es, t.own, t.seen, u, h);
    InsertedMembers(t.es, u.epoch);
    OwnedAmong(now, t.es, Inserted(t.es, u.epoch), t.own, t.seen + [u], u.epoch, h);
  }

  /** Seen from its own epoch on, the update of a hidden node changes no visited value. */
  lemma VisibleMoved(nodes: Table, t: Trace, e: nat)
    requires Tracks(nodes, t) && e in t.ps && e !in t.es
    ensures e in t.own && t.own[e] < |t.seen| && Visible(nodes, t.es, Moved(t.seen, t.own[e], e))
  {
    hide BackAt, PathAt, Keyed, Replay, Owned, Increasing, Moved;
    HiddenFacts(nodes, t, e);
    forall i | 0 <= i < |t.es|
      ensures nodes[t.es[i]].params == Replay(Moved(t.seen, t.own[e], e), t.es[i])
    {
      ReplayMoved(t.seen, t.own[e], e, t.es[i]);
    }
  }

  lemma OwnedMoved(nodes: Table, t: Trace, e: nat, h: nat)
    requires Tracks(nodes, t) && e in t.ps && e !in t.es && h in t.ps && h !in t.es
    requires e in t.own && t.own[e] < |t.seen| && h in t.own && t.own[h] < |t.seen|
    requires t.seen[t.own[h]].epoch < e || t.seen[t.own[e]].epoch < h
    ensures Owned(nodes, t.es, t.own, Moved(t.seen, t.own[e], e), h)
  {
    hide BackAt, PathAt, Keyed, Replay, Visible, Increasing;
    var j, k := t.own[h], t.own[e];
    HiddenFacts(nodes, t, e);
    HiddenFacts(nodes, t, h);
    assert Owned(nodes, t.es, t.own, t.seen, h);
    assert j != k;
    assert Moved(Moved(t.seen, k, e), j, h) == Moved(Moved(t.seen, j, h), k, e);
    ReplayMoved(Moved(t.seen, j, h), k, e, h);
  }

  lemma HealedVisible(nodes: Table, t: Trace, u: Update, r: nat)
    requires Tracks(nodes, t) && InGap(nodes, t.es, t.ps, u.epoch, r) && Beside(t.es, t.ps, r) == u.epoch
    ensures t.es[0] < u.epoch && u.epoch in t.own && t.own[u.epoch] < |t.seen|
    ensures Visible(ValueUpdated(nodes, t.es, t.ps, u), Inserted(t.es, u.epoch), Moved(t.seen, t.own[u.epoch], u.epoch) + [u])
  {
    hide BackAt, PathAt, Keyed, Replay, Updated, ValueUpdated, Visible, Increasing, Inserted, Place, Steps, Moved;
    var e, now := u.epoch, ValueUpdated(nodes, t.es, t.ps, u);
    GapOf(nodes, t.es, t.ps, e, r);
    VisibleMoved(nodes, t, e);
    var seen := Moved(t.seen, t.own[e], e);
    forall i | 0 <= i < |t.es|
      ensures Steps(nodes, now, u, t.es[i])
    {
      assert t.es[i] in t.ps && t.es[i] in t.es;
      GapSteps(nodes, t.es, t.ps, u, r, e, t.es[i]);
    }
    VisibleSteps(nodes, now, t.es, seen, u);
    BetweenAt(nodes, t.es, t.ps, u, r, e);
    assert Owned(nodes, t.es, t.own, t.seen, e);
    ReplayNext(seen, u, e);
    InsertedMembers(t.es, e);
    NewVisible(now, t.es, Inserted(t.es, e), seen + [u], e);
  }

  lemma HealedOwned(nodes: Table, t: Trace, u: Update, r: nat, h: nat)
    requires Tracks(nodes, t) && InGap(nodes, t.es, t.ps, u.epoch, r) && Beside(t.es, t.ps, r) == u.epoch
    requires h in t.ps && h !in t.es && h != u.epoch
    ensures t.es[0] < u.epoch && u.epoch in t.own && t.own[u.epoch] < |t.seen|
    ensures Owned(ValueUpdated(nodes, t.es, t.ps, u), Inserted(t.es, u.epoch), t.own - {u.epoch},
                  Moved(t.seen, t.own[u.epoch], u.epoch) + [u], h)
  {
    hide BackAt, PathAt, Keyed, Replay, Updated, ValueUpdated, Visible, Increasing, Inserted, Place, Steps, Owned;
    var e, now := u.epoch, ValueUpdated(nodes, t.es, t.ps, u);
    GapOf(nodes, t.es, t.ps, e, r);
    GapSteps(nodes, t.es, t.ps, u, r, e, h);
    assert t.es[r] in t.es && t.es[r + 1] in t.es;
    HiddenFacts(nodes, t, e);
    HiddenFacts(nodes, t, h);
    OwnedMoved(nodes, t, e, h);
    var seen, fs := Moved(t.seen, t.own[e], e), Inserted(t.es, e);
    OwnedSteps(nodes, now, t.es, t.own, seen, u, h);
    InsertedMembers(t.es, e);
    OwnedAmong(now, t.es, fs, t.own, seen + [u], e, h);
    OwnedSame(now, fs, t.own, t.own - {e}, seen + [u], h);
  }

  lemma HealedTracks(nodes: Table, t: Trace, u: Update, r: nat)
    requires Tracks(nodes, t) && InGap(nodes, t.es, t.ps, u.epoch, r) && Beside(t.es, t.ps, r) == u.epoch
    ensures t.es[0] < u.epoch && u.epoch in t.own && t.own[u.epoch] < |t.seen|
    ensures Tracks(ValueUpdated(nodes, t.es, t.ps, u),
                   Trace(Inserted(t.es, u.epoch), t.ps, t.own - {u.epoch}, Moved(t.seen, t.own[u.epoch], u.epoch) + [u]))
  {
    hide BackAt, PathAt, Keyed, Replay, Updated, ValueUpdated, Owned, Visible, Increasing, Inserted, Place, Steps, Beside;
    var e := u.epoch;
    HealedVisible(nodes, t, u, r);
    HealedWalks(nodes, t.es, t.ps, u, r);
    var now, fs := ValueUpdated(nodes, t.es, t.ps, u), Inserted(t.es, e);
    var seen := Moved(t.seen, t.own[e], e);
    forall h | h in t.ps && h !in fs
      ensures Owned(now, fs, t.own - {e}, seen + [u], h)
    {
      HealedOwned(nodes, t, u, r, h);
    }
    InsertedEndsAt(nodes, t, u, r);
    SeenIn(seen, u, fs, fs);
  }

  /** Every update, in every state that a run can reach, leaves the table as Next says. */
  lemma UpdateTracks(nodes: Table, t: Trace, u: Update)
    requires Tracks(nodes, t) && u.epoch >= 1
    ensures WellShaped(t) && t.es[0] <= u.epoch && Tracks(ValueUpdated(nodes, t.es, t.ps, u), Next(t, u))
  {
    hide Tracks, ValueUpdated, Increasing, Inserted, Place, Moved, TwoWalks, Rank, Beside;
    TracksShape(nodes, t);
    WalksOf(nodes, t);
    var e, r := u.epoch, Rank(t.es, u.epoch);
    if t.es[r] == e {
      OnNodeTracks(nodes, t, u);
    } else if r == |t.es| - 1 {
      NewHeadTracks(nodes, t, u);
    } else {
      GapOf(nodes, t.es, t.ps, e, r);
      BesideIs(t.es, t.ps, r);
      var h := Beside(t.es, t.ps, r);
      if h == t.es[r + 1] {
        HiddenTracks(nodes, t, u, r);
      } else if h == e {
        HealedTracks(nodes, t, u, r);
      } else {
        ReplacedTracks(nodes, t, u, r);
      }
    }
  }

  lemma WalksOf(nodes: Table, t: Trace)
    requires Tracks(nodes, t)
    ensures TwoWalks(nodes, t.es, t.ps) && t.es != [] && t.es[0] == 1
  {
  }

  // ----- whole runs

  predicate Usable(u: Update) {
    u.epoch != 0 && u.change != Unusable
  }

  /** The trace of a run of accepted updates. */
  function TraceOf(us: seq<Update>): Trace {
    if us == [] then FirstTrace()
    else
      var t, u := TraceOf(us[..|us| - 1]), us[|us| - 1];
      if WellShaped(t) && u.epoch >= 1 then Next(t, u) else t
  }

  lemma TraceNext(us: seq<Update>, u: Update)
    requires WellShaped(TraceOf(us)) && u.epoch >= 1
    ensures TraceOf(us + [u]) == Next(TraceOf(us), u)
  {
    hide Next, WellShaped;
    assert (us + [u])[..|us|] == us;
  }

  lemma NothingSeen(e: nat)
    ensures Replay(TraceOf([]).seen, e) == Standard()
  {
    ReplayNothing(e);
  }

  /** Both walks end at the latest epoch. */
  lemma NextHead(t: Trace, u: Update)
    requires WellShaped(t) && u.epoch >= 1
    ensures var es, fs := t.es, Next(t, u).es;
            fs != [] && fs[|fs| - 1] == if u.epoch > es[|es| - 1] then u.epoch else es[|es| - 1]
  {
    hide Place, Inserted, Rank, Within, Moved, Increasing;
    var e, r := u.epoch, Rank(t.es, u.epoch);
    assert t.es[r] in t.es;
    AtMost(t.es, t.es[r]);
    if r + 1 < |t.es| && t.es[r] != e {
      Ordered(t.es, 0, r + 1);
      Between(t.es, e, r);
      InsertedEnds(t.es, e, r);
    }
  }

  // ----- when every answer is the plain history

  /** An epoch between two visited nodes that has none itself. */
  predicate Splits(es: seq<nat>, e: nat) {
    es != [] && es[0] < e < es[|es| - 1] && e !in es
  }

  /** Nothing is hidden, and every update is seen from its own epoch on. */
  predicate Clean(t: Trace, us: seq<Update>) {
    && WellShaped(t) && t.ps == t.es && t.seen == us
    && forall i :: 0 <= i < |us| ==> us[i].epoch in t.es
  }

  /** Where an update falls, on a clean trace. */
  lemma CleanNext(t: Trace, us: seq<Update>, u: Update)
    requires Clean(t, us) && u.epoch >= 1
    ensures !Splits(t.es, u.epoch) ==>
              Next(t, u) == t.(es := Reaching(t.es, u.epoch), ps := Reaching(t.es, u.epoch), seen := us + [u])
    ensures Splits(t.es, u.epoch) ==>
              var r := Rank(t.es, u.epoch);
              && r + 1 < |t.es| && t.es[r] < u.epoch < t.es[r + 1]
              && Next(t, u) == Trace(t.es, Inserted(t.es, u.epoch), t.own[u.epoch := |us|], us + [Update(u.change, t.es[r + 1])])
  {
    hide Inserted, Increasing, Within, Rank, Place;
    CleanPlace(t.es, u.epoch);
    PlaceIs(t.es, Rank(t.es, u.epoch));
  }

  lemma CleanPlace(es: seq<nat>, e: nat)
    requires Increasing(es) && es[0] <= e
    ensures var r := Rank(es, e);
            && es[r] in es && (es[r] == e <==> e in es)
            && (e in es ==> e <= es[|es| - 1])
            && (r == |es| - 1 <==> es[|es| - 1] <= e)
            && (Splits(es, e) <==> es[r] < e && r + 1 < |es|)
  {
    var r := Rank(es, e);
    if e in es {
      PlaceIn(es, e);
      AtMost(es, e);
    }
    assert es[0] in es && es[|es| - 1] in es;
    if es[|es| - 1] <= e {
      RankUnique(es, e, |es| - 1);
    }
  }

  function Reaching(es: seq<nat>, e: nat): seq<nat> {
    if es != [] && es[|es| - 1] < e then es + [e] else es
  }

  /** A clean trace stays clean if and only if no update falls between two nodes. */
  lemma StaysClean(t: Trace, us: seq<Update>, u: Update)
    requires Clean(t, us) && u.epoch >= 1
    ensures Clean(Next(t, u), us + [u]) <==> !Splits(t.es, u.epoch)
  {
    hide Next, Place, Rank, Inserted;
    CleanNext(t, us, u);
    var e, fs := u.epoch, Reaching(t.es, u.epoch);
    if Splits(t.es, e) {
      assert (us + [u])[|us|] == u;
    } else {
      if t.es[|t.es| - 1] < e {
        IncreasingConcat(t.es, [e]);
        assert fs[|t.es|] == e;
      } else {
        CleanPlace(t.es, e);
      }
      SeenIn(us, u, t.es, fs);
    }
  }

  /** An update between two nodes: exactly the epochs up to the later node do not see it. */
  lemma SplitMisses(t: Trace, us: seq<Update>, u: Update, e: nat)
    requires Clean(t, us) && Splits(t.es, u.epoch)
    ensures var n := t.es[Rank(t.es, u.epoch) + 1];
            && u.epoch < n
            && Replay(Next(t, u).seen, e) == if u.epoch <= e < n then Replay(us, e) else Replay(us + [u], e)
  {
    hide Next, Rank, Replay, Updated;
    CleanNext(t, us, u);
    ReplayNext(us, u, e);
    ReplayNext(us, Update(u.change, t.es[Rank(t.es, u.epoch) + 1]), e);
  }

  /** What a walk back answers for every epoch is the plain history. */
  ghost predicate Answers(t: Trace, us: seq<Update>) {
    forall e :: e >= 1 ==> Replay(t.seen, e) == Replay(us, e)
  }

  /**
   After one update on a clean trace all answers are right if and only if it does not fall
   between two nodes, or sets what is already set there.
   */
  lemma UpdateAnswersIff(t: Trace, us: seq<Update>, u: Update)
    requires Clean(t, us) && u.epoch >= 1
    ensures Answers(Next(t, u), us + [u])
            <==> !Splits(t.es, u.epoch) || Updated(Replay(us, u.epoch), u.change) == Replay(us, u.epoch)
  {
    hide Next, Rank, Replay, Updated, Increasing, Within;
    CleanNext(t, us, u);
    if Splits(t.es, u.epoch) {
      forall e | e >= 1
        ensures Replay(Next(t, u).seen, e) == Replay(us + [u], e)
                <==> !(u.epoch <= e < t.es[Rank(t.es, u.epoch) + 1])
                     || Updated(Replay(us, u.epoch), u.change) == Replay(us, u.epoch)
      {
        SplitMisses(t, us, u, e);
        ReplayNext(us, u, e);
        if u.epoch <= e < t.es[Rank(t.es, u.epoch) + 1] {
          GapValue(t, us, u.epoch, e);
        }
      }
      SplitMisses(t, us, u, u.epoch);
      assert u.epoch >= 1;
    }
  }

  /** Between two nodes the value does not change. */
  lemma GapValue(t: Trace, us: seq<Update>, d: nat, e: nat)
    requires Clean(t, us) && 1 <= d <= e && var r := Rank(t.es, d); r + 1 < |t.es| && e < t.es[r + 1]
    ensures Replay(us, d) == Replay(us, e)
  {
    hide Replay;
    var r := Rank(t.es, d);
    RankUnique(t.es, e, r);
    SeenSame(t, d);
    SeenSame(t, e);
  }

  /** A second update of the missed epoch brings the first one to light: the trace says the plain history again. */
  lemma SecondUpdateHeals(t: Trace, us: seq<Update>, u: Update, w: Update)
    requires Clean(t, us) && Splits(t.es, u.epoch) && w.epoch == u.epoch
    ensures WellShaped(Next(t, u)) && Next(Next(t, u), w).seen == us + [u] + [w]
  {
    hide Replay, Next, Rank, Place, Increasing, Inserted, Within;
    CleanNext(t, us, u);
    SplitShape(t, us, u);
    SplitAgain(Next(t, u), w, Rank(t.es, u.epoch), us, u);
  }

  lemma SplitShape(t: Trace, us: seq<Update>, u: Update)
    requires Clean(t, us) && Splits(t.es, u.epoch)
    ensures var mid, r := Next(t, u), Rank(t.es, u.epoch);
            && WellShaped(mid) && mid.es == t.es && r + 1 < |t.es| && t.es[r] < u.epoch < t.es[r + 1]
            && t.es[r] in mid.ps && Place(mid.ps, t.es[r]) == r && r + 1 < |mid.ps| && mid.ps[r + 1] == u.epoch
  {
    hide Next, Replay, Rank, Place, Increasing, Inserted;
    var e, r := u.epoch, Rank(t.es, u.epoch);
    CleanNext(t, us, u);
    InsertedIncreasing(t.es, e);
    InsertedEnds(t.es, e, r);
    InsertedPlaces(t.es, e, r);
    PlaceIs(Inserted(t.es, e), r);
    var qs := Inserted(t.es, e);
    forall i | 0 <= i < |t.es|
      ensures t.es[i] in qs
    {
      assert t.es[i] in t.es;
    }
  }

  lemma InsertedPlaces(es: seq<nat>, e: nat, r: nat)
    requires Increasing(es) && r + 1 < |es| && es[r] < e < es[r + 1] && es[0] < e
    ensures var qs := Inserted(es, e); r + 1 < |qs| && qs[r] == es[r] && qs[r + 1] == e
  {
    RankUnique(es, e, r);
  }

  lemma PlaceIs(ps: seq<nat>, k: nat)
    requires Increasing(ps) && k < |ps|
    ensures Place(ps, ps[k]) == k
  {
    PlaceOf(ps, k);
  }

  lemma SplitAgain(mid: Trace, w: Update, r: nat, us: seq<Update>, u: Update)
    requires WellShaped(mid) && r + 1 < |mid.es| && mid.es[r] < w.epoch < mid.es[r + 1] && w.epoch == u.epoch
    requires mid.es[r] in mid.ps && Place(mid.ps, mid.es[r]) == r && r + 1 < |mid.ps| && mid.ps[r + 1] == w.epoch
    requires w.epoch in mid.own && mid.own[w.epoch] == |us| && mid.seen == us + [Update(u.change, mid.es[r + 1])]
    ensures Next(mid, w).seen == us + [u] + [w]
  {
    hide Place, Inserted, Within;
    Ordered(mid.es, 0, r + 1);
    RankUnique(mid.es, w.epoch, r);
    assert Moved(mid.seen, |us|, w.epoch) == us + [u];
  }

  // ----- orderly runs

  /** The updates of a run that UpdateStorage accepts, in arrival order. */
  function Accepted(us: seq<Update>): seq<Update> {
    if us == [] then []
    else Accepted(us[..|us| - 1]) + if Usable(us[|us| - 1]) then [us[|us| - 1]] else []
  }

  /** What is refused changes no answer, unless it names epoch 0. */
  lemma {:induction false} AcceptedLatest(us: seq<Update>, e: nat, d: Change)
    requires d != Unusable && forall i :: 0 <= i < |us| ==> us[i].epoch >= 1
    ensures Latest(Accepted(us), e, d) == Latest(us, e, d)
  {
    if us != [] {
      var n := |us| - 1;
      AcceptedLatest(us[..n], e, d);
      var a := Accepted(us[..n]);
      assert (a + [us[n]])[..|a|] == a;
      assert a + [] == a;
    }
  }

  lemma AcceptedReads(p: Params, us: seq<Update>, e: nat)
    requires ReadsAs(p, Accepted(us), e) && forall i :: 0 <= i < |us| ==> us[i].epoch >= 1
    ensures ReadsAs(p, us, e)
  {
    hide Accepted, Latest;
    forall d: Change | d != Unusable
      ensures Latest(Accepted(us), e, d) == Latest(us, e, d)
    {
      AcceptedLatest(us, e, d);
    }
  }

  predicate HasEpoch(us: seq<Update>, e: nat) {
    exists j :: 0 <= j < |us| && us[j].epoch == e
  }

  /** The epoch is 1, was updated before, or lies beyond all that were. */
  predicate Follows(before: seq<Update>, e: nat) {
    e == 1 || HasEpoch(before, e) || forall j :: 0 <= j < |before| ==> before[j].epoch < e
  }

  predicate Orderly(us: seq<Update>) {
    forall i :: 0 <= i < |us| ==> us[i].epoch >= 1 && Follows(us[..i], us[i].epoch)
  }

  /** No node is there without a reason. */
  predicate Explained(es: seq<nat>, us: seq<Update>) {
    forall i :: 0 <= i < |es| ==> es[i] == 1 || HasEpoch(us, es[i])
  }

  lemma FollowsDoesNotSplit(t: Trace, us: seq<Update>, u: nat)
    requires Clean(t, us) && Explained(t.es, us) && Follows(us, u)
    ensures !Splits(t.es, u)
  {
    if HasEpoch(us, u) {
      var j :| 0 <= j < |us| && us[j].epoch == u;
    } else {
      assert t.es[|t.es| - 1] == 1 || HasEpoch(us, t.es[|t.es| - 1]);
    }
  }

  lemma StaysExplained(es: seq<nat>, us: seq<Update>, u: Update)
    requires Explained(es, us)
    ensures Explained(Reaching(es, u.epoch), us + [u])
  {
    var fs := Reaching(es, u.epoch);
    forall i | 0 <= i < |fs|
      ensures fs[i] == 1 || HasEpoch(us + [u], fs[i])
    {
      if i < |es| {
        if es[i] != 1 {
          var j :| 0 <= j < |us| && us[j].epoch == es[i];
          assert (us + [u])[j].epoch == es[i];
        }
      } else {
        assert (us + [u])[|us|] == u;
      }
    }
  }

  /** On an orderly run every update is seen from its own epoch on. */
  lemma {:induction false} OrderlyIsClean(us: seq<Update>)
    requires Orderly(us)
    ensures Clean(TraceOf(us), us) && Explained(TraceOf(us).es, us)
  {
    hide Next, Follows, Splits, Reaching;
    if us == [] {
      assert Clean(FirstTrace(), []);
    } else {
      var n := |us| - 1;
      var before, u, t := us[..n], us[n], TraceOf(us[..n]);
      forall i | 0 <= i < n
        ensures before[i].epoch >= 1 && Follows(before[..i], before[i].epoch)
      {
        assert before[..i] == us[..i];
      }
      OrderlyIsClean(before);
      FollowsDoesNotSplit(t, before, u.epoch);
      assert us == before + [u];
      StaysClean(t, before, u);
      CleanNext(t, before, u);
      StaysExplained(t.es, before, u);
    }
  }

  // ----- runs that are not orderly

  /** Updates for the epochs 10 and 5: at epoch 5 the second one is not seen, until that epoch is updated again. */
  lemma LateUpdateMissed()
    ensures var a, b, c := Update(MaxBytes(10), 10), Update(MaxBytes(5), 5), Update(TxValidVersion(1), 5);
            && Replay(TraceOf([a, b]).seen, 5).maxBytes == 3000000 && Replay([a, b], 5).maxBytes == 5
            && TraceOf([a, b, c]).seen == [a, b, c] && Replay(TraceOf([a, b, c]).seen, 5).maxBytes == 5
  {
    hide Next, Replay, Updated, TraceOf, Clean, WellShaped, Standard, Splits;
    var a, b, c := Update(MaxBytes(10), 10), Update(MaxBytes(5), 5), Update(TxValidVersion(1), 5);
    TenIsLast(a);
    var t := TraceOf([a]);
    RankUnique(t.es, 5, 0);
    SplitMisses(t, [a], b, 5);
    SecondUpdateHeals(t, [a], b, c);
    CleanShaped(t, [a]);
    TraceNext([a], b);
    TraceNext([a] + [b], c);
    assert [a] + [b] == [a, b] && [a] + [b] + [c] == [a, b, c];
    ReplayOfThree(a, b, c);
  }

  lemma CleanShaped(t: Trace, us: seq<Update>)
    requires Clean(t, us)
    ensures WellShaped(t)
  {
  }

  lemma ReplayOfThree(a: Update, b: Update, c: Update)
    requires a.epoch == 10 && b == Update(MaxBytes(5), 5) && c == Update(TxValidVersion(1), 5)
    ensures Replay([a], 5).maxBytes == 3000000 && Replay([a, b], 5).maxBytes == 5 && Replay([a, b, c], 5).maxBytes == 5
  {
    ReplayNothing(5);
    ReplayNext([], a, 5);
    ReplayNext([a], b, 5);
    ReplayNext([a, b], c, 5);
    assert [] + [a] == [a] && [a] + [b] == [a, b] && [a, b] + [c] == [a, b, c];
    hide Replay;
  }

  lemma TenIsLast(a: Update)
    requires a.epoch == 10
    ensures TraceOf([a]).es == [1, 10] && Splits([1, 10], 5) && Clean(TraceOf([a]), [a])
  {
    assert [a][..0] == [];
    RankUnique([1], 10, 0);
    OrderlyIsClean([a]);
  }
}
