/**
 The two walks through the epoch nodes, for any run of updates.

 updateStorageValue writes back a copy of the next node that it took before the new node was
 linked in.  So after an update between two nodes, the walk forward passes the new node and
 the walk back does not.
 */
module Walks {
  import opened RawStorages
  import opened Dynamics

  // ----- the shape of the table

  /** One node of the walk forward; a node the walk back passes by stands alone between two that it visits. */
  predicate PathAt(nodes: Table, es: seq<nat>, ps: seq<nat>, j: nat)
    requires j < |ps|
  {
    && NextAt(nodes, ps, j) && nodes[ps[j]].IsValid()
    && (ps[j] !in es ==>
         0 < j < |ps| - 1 && ps[j - 1] in es && ps[j + 1] in es && nodes[ps[j]].prevEpoch == ps[j - 1])
  }

  predicate Within(es: seq<nat>, ps: seq<nat>) {
    && es != [] && ps != [] && es[0] == ps[0] && es[|es| - 1] == ps[|ps| - 1]
    && forall i :: 0 <= i < |es| ==> es[i] in ps
  }

  /** The walk back visits `es`, the walk forward `ps`. */
  ghost predicate TwoWalks(nodes: Table, es: seq<nat>, ps: seq<nat>) {
    && BackLinked(nodes, es) && Increasing(ps) && Within(es, ps)
    && (forall j :: 0 <= j < |ps| ==> ps[j] in nodes)
    && forall j :: 0 <= j < |ps| ==> PathAt(nodes, es, ps, j)
  }

  lemma PathFacts(nodes: Table, es: seq<nat>, ps: seq<nat>, j: nat)
    requires TwoWalks(nodes, es, ps) && j < |ps|
    ensures PathAt(nodes, es, ps, j) && ps[j] in nodes && ps[j] in ps && nodes[ps[j]].thisEpoch == ps[j]
    ensures ps[j] > 0
  {
    hide PathAt, BackAt;
    KeyedAt(nodes, ps[j]);
  }

  lemma PathValid(nodes: Table, es: seq<nat>, ps: seq<nat>, j: nat)
    requires TwoWalks(nodes, es, ps) && j < |ps|
    ensures ps[j] in nodes && nodes[ps[j]].IsValid()
  {
    assert PathAt(nodes, es, ps, j);
  }

  lemma WalksKeyed(nodes: Table, es: seq<nat>, ps: seq<nat>)
    requires TwoWalks(nodes, es, ps)
    ensures Keyed(nodes)
  {
  }

  /** The place of a visited node in the walk forward. */
  function Place(ps: seq<nat>, v: nat): (p: nat)
    requires Increasing(ps) && v in ps
    ensures p < |ps| && ps[p] == v
  {
    PlaceIn(ps, v);
    Rank(ps, v)
  }

  lemma PlaceIn(ps: seq<nat>, v: nat)
    requires Increasing(ps) && v in ps
    ensures ps[0] <= v && ps[Rank(ps, v)] == v
  {
    var k :| 0 <= k < |ps| && ps[k] == v;
    PlaceOf(ps, k);
  }

  /** Behind a visited node comes the next visited one, or one node between them. */
  lemma Gap(nodes: Table, es: seq<nat>, ps: seq<nat>, r: nat)
    requires TwoWalks(nodes, es, ps) && r + 1 < |es|
    ensures es[r] in ps && es[r] < es[r + 1]
    ensures var p := Place(ps, es[r]);
            && p + 1 < |ps| && nodes[es[r]].nextEpoch == ps[p + 1]
            && (ps[p + 1] == es[r + 1]
                || (ps[p + 1] !in es && es[r] < ps[p + 1] < es[r + 1] && p + 2 < |ps| && ps[p + 2] == es[r + 1]
                    && nodes[ps[p + 1]].prevEpoch == es[r] && nodes[ps[p + 1]].nextEpoch == es[r + 1]))
  {
    hide BackAt, Increasing, Keyed, Place;
    Ordered(es, r, r + 1);
    assert es[r] in ps && es[r + 1] in ps;
    var p, q := Place(ps, es[r]), Place(ps, es[r + 1]);
    InOrder(ps, p, q);
    assert PathAt(nodes, es, ps, p) && PathAt(nodes, es, ps, p + 1);
    InOrder(ps, p, p + 1);
    if ps[p + 1] in es {
      NextVisited(es, r, ps[p + 1]);
      InOrder(ps, p + 1, q);
    } else {
      InOrder(ps, p, p + 2);
      NextVisited(es, r, ps[p + 2]);
      InOrder(ps, p + 2, q);
      InOrder(ps, p + 1, p + 2);
      InOrder(ps, p + 1, q);
    }
  }

  lemma InOrder(es: seq<nat>, i: nat, j: nat)
    requires Increasing(es) && i < |es| && j < |es|
    ensures es[i] < es[j] <==> i < j
  {
  }

  lemma NextVisited(es: seq<nat>, r: nat, x: nat)
    requires Increasing(es) && r + 1 < |es| && x in es && es[r] < x
    ensures es[r + 1] <= x
  {
    var i :| 0 <= i < |es| && es[i] == x;
    InOrder(es, r, i);
    if r + 1 < i { InOrder(es, r + 1, i); }
  }

  lemma ForwardOn(nodes: Table, es: seq<nat>, ps: seq<nat>, j: nat)
    requires TwoWalks(nodes, es, ps) && j < |ps|
    ensures Forward(nodes, ps, j, nodes[ps[j]])
  {
    hide BackAt, Increasing, Keyed;
    PathFacts(nodes, es, ps, j);
    forall k | j < k < |ps|
      ensures NextAt(nodes, ps, k) && nodes[ps[k]].IsValid()
    {
      assert PathAt(nodes, es, ps, k);
    }
  }

  /** Linking a node in leaves the walk forward from behind it as it was. */
  lemma ForwardBehind(nodes: Table, es: seq<nat>, ps: seq<nat>, u: nat, q: Params, r: nat)
    requires TwoWalks(nodes, es, ps) && r + 1 < |es| && es[r] < u < es[r + 1] && IsDerived(q)
    ensures es[0] < u && es[r] in ps && Place(ps, es[r]) + 1 < |ps|
    ensures var p := Place(ps, es[r]);
            Forward(LinkIn(nodes, es, u, q), ps, p + 1, nodes[ps[p + 1]])
  {
    hide IsDerived, Rank, Increasing, LinkIn, NextAt, BackAt, Place, Keyed;
    Gap(nodes, es, ps, r);
    LinkInBetween(nodes, es, u, q, r);
    var p, mid := Place(ps, es[r]), LinkIn(nodes, es, u, q);
    LinkInKeyed(nodes, es, u, q);
    ForwardOn(nodes, es, ps, p + 1);
    forall j | p + 1 < j < |ps|
      ensures ps[j] in mid && NextAt(mid, ps, j) && mid[ps[j]].IsValid()
    {
      BehindKept(nodes, es, ps, u, q, r, j);
    }
  }

  lemma BehindKept(nodes: Table, es: seq<nat>, ps: seq<nat>, u: nat, q: Params, r: nat, j: nat)
    requires TwoWalks(nodes, es, ps) && r + 1 < |es| && es[r] < u < es[r + 1]
    requires es[0] < u && es[r] in ps && Place(ps, es[r]) + 1 < j < |ps|
    ensures var mid := LinkIn(nodes, es, u, q);
            ps[j] in mid && NextAt(mid, ps, j) && mid[ps[j]].IsValid()
  {
    hide IsDerived, Rank, Increasing, LinkIn, BackAt, Place, Keyed;
    var p := Place(ps, es[r]);
    Gap(nodes, es, ps, r);
    LinkInBetween(nodes, es, u, q, r);
    PathFacts(nodes, es, ps, j);
    InOrder(ps, p + 1, j);
    if p + 2 < j { InOrder(ps, p + 2, j); }
  }

  /** The table after updateStorageValue, stale copy included. */
  ghost function ValueUpdated(nodes: Table, es: seq<nat>, ps: seq<nat>, u: Update): Table
    requires TwoWalks(nodes, es, ps) && es[0] <= u.epoch
  {
    var r := Rank(es, u.epoch);
    var v := es[r];
    if v == u.epoch then
      Pushed(nodes, ps, Place(ps, v), nodes[v], u.change)
    else
      assert es[0] <= v;
      var mid := LinkIn(nodes, es, u.epoch, Updated(nodes[v].params, u.change));
      if r == |es| - 1 then mid
      else
        UpdatedDerived(nodes[v].params, u.change);
        ForwardBehind(nodes, es, ps, u.epoch, Updated(nodes[v].params, u.change), r);
        Pushed(mid, ps, Place(ps, v) + 1, nodes[ps[Place(ps, v) + 1]], u.change)
  }

  // ----- the table after each kind of update, node by node

  /** On a visited epoch. */
  lemma OnNodeAt(nodes: Table, es: seq<nat>, ps: seq<nat>, u: Update, x: nat)
    requires TwoWalks(nodes, es, ps) && u.epoch in es
    ensures es[0] <= u.epoch
    ensures var now := ValueUpdated(nodes, es, ps, u);
            && now.Keys == nodes.Keys && Keyed(now)
            && (x in nodes ==> now[x] == if x in ps && u.epoch <= x then Changed(nodes[x], u.change) else nodes[x])
  {
    hide Rank, Increasing, Keyed, Pushed, PathAt, BackAt, Changed, NextAt, Forward;
    PlaceIn(es, u.epoch);
    assert u.epoch in ps;
    var p := Place(ps, u.epoch);
    ForwardOn(nodes, es, ps, p);
    PushedAt(nodes, ps, p, nodes[u.epoch], u.change, x);
    PushedKeyed(nodes, ps, p, nodes[u.epoch], u.change);
  }

  /** Beyond the head. */
  lemma NewHeadAt(nodes: Table, es: seq<nat>, ps: seq<nat>, u: Update, x: nat)
    requires TwoWalks(nodes, es, ps) && es[|es| - 1] < u.epoch
    ensures es[0] <= u.epoch && u.epoch !in es
    ensures var now, h := ValueUpdated(nodes, es, ps, u), es[|es| - 1];
            && now.Keys == nodes.Keys + {u.epoch} && Keyed(now)
            && now == LinkIn(nodes, es, u.epoch, Updated(nodes[h].params, u.change))
            && now[h] == nodes[h].(nextEpoch := u.epoch)
            && now[u.epoch] == Node(u.epoch, h, u.epoch, Updated(nodes[h].params, u.change))
            && (x in nodes && x != h && x != u.epoch ==> now[x] == nodes[x])
  {
    hide Rank, Increasing, Keyed, PathAt, BackAt, NextAt, LinkIn, Updated;
    assert es != [] by { NotEmpty(es); }
    var h := es[|es| - 1];
    UpdatedDerived(nodes[h].params, u.change);
    LinkInHead(nodes, es, u.epoch, Updated(nodes[h].params, u.change));
    LinkInKeyed(nodes, es, u.epoch, Updated(nodes[h].params, u.change));
    RankUnique(es, u.epoch, |es| - 1);
  }

  /** Between two visited nodes `v` and `n`, with `h` next to `v` on the walk forward. */
  lemma BetweenAt(nodes: Table, es: seq<nat>, ps: seq<nat>, u: Update, r: nat, x: nat)
    requires TwoWalks(nodes, es, ps) && r + 1 < |es| && es[r] < u.epoch < es[r + 1]
    ensures es[0] <= u.epoch && u.epoch !in es && es[r] in ps && Place(ps, es[r]) + 1 < |ps|
    ensures var now, v, n := ValueUpdated(nodes, es, ps, u), es[r], es[r + 1];
            var h := ps[Place(ps, v) + 1];
            && now.Keys == nodes.Keys + {u.epoch} && Keyed(now)
            && now[v] == nodes[v].(nextEpoch := u.epoch)
            && now[n] == Changed(if h == n then nodes[n] else nodes[n].(prevEpoch := u.epoch), u.change)
            && now[u.epoch] == (if h == u.epoch then Changed(nodes[h], u.change)
                                else Node(u.epoch, v, n, Updated(nodes[v].params, u.change)))
            && (x in nodes && x != v && x != n && x != u.epoch ==>
                 now[x] == if x == h || (x in ps && n < x) then Changed(nodes[x], u.change) else nodes[x])
  {
    hide Rank, Increasing, Keyed, PathAt, BackAt, NextAt, LinkIn, Updated, Pushed, Forward, Changed, Place;
    var v, n := es[r], es[r + 1];
    RankUnique(es, u.epoch, r);
    Gap(nodes, es, ps, r);
    var p := Place(ps, v);
    var h, q := ps[p + 1], Updated(nodes[v].params, u.change);
    UpdatedDerived(nodes[v].params, u.change);
    LinkInBetween(nodes, es, u.epoch, q, r);
    ForwardBehind(nodes, es, ps, u.epoch, q, r);
    var mid := LinkIn(nodes, es, u.epoch, q);
    PushedKeyed(mid, ps, p + 1, nodes[h], u.change);
    PushedAt(mid, ps, p + 1, nodes[h], u.change, x);
    PushedAt(mid, ps, p + 1, nodes[h], u.change, v);
    PushedAt(mid, ps, p + 1, nodes[h], u.change, n);
    PushedAt(mid, ps, p + 1, nodes[h], u.change, u.epoch);
    assert n in ps && h in ps;
    BehindIs(ps, p, n, h, u.epoch);
    BehindIs(ps, p, n, h, x);
  }

  /** What lies behind the node next to `v` on the walk forward. */
  lemma BehindIs(ps: seq<nat>, p: nat, n: nat, h: nat, x: nat)
    requires Increasing(ps) && p + 1 < |ps| && ps[p + 1] == h && (h == n || (p + 2 < |ps| && ps[p + 2] == n))
    ensures x in ps && x > h ==> n <= x
    ensures x in ps && x < h ==> x <= ps[p]
    ensures h <= n && ps[p] < h
  {
    InOrder(ps, p, p + 1);
    if x in ps {
      var i :| 0 <= i < |ps| && ps[i] == x;
      InOrder(ps, p + 1, i);
      InOrder(ps, i, p + 1);
      if p < i { InOrder(ps, p, i); }
      InOrder(ps, i, p);
      if p + 2 < |ps| {
        InOrder(ps, p + 2, i);
        InOrder(ps, p + 1, p + 2);
        InOrder(ps, i, p + 2);
      }
    } else if p + 2 < |ps| {
      InOrder(ps, p + 1, p + 2);
    }
  }

  // ----- both walks after an update

  /** Changed values leave the walks as they are. */
  lemma SameWalks(nodes: Table, now: Table, es: seq<nat>, ps: seq<nat>, c: Change)
    requires TwoWalks(nodes, es, ps) && Keyed(now)
    requires forall j :: 0 <= j < |ps| ==> ps[j] in now && (now[ps[j]] == nodes[ps[j]] || now[ps[j]] == Changed(nodes[ps[j]], c))
    ensures TwoWalks(now, es, ps)
  {
    hide Increasing, Keyed, BackAt, NextAt, Changed;
    forall j | 0 <= j < |ps|
      ensures PathAt(now, es, ps, j)
    {
      assert PathAt(nodes, es, ps, j);
      SameLinks(nodes, now, ps, j, c);
      ChangedLinks(nodes[ps[j]], c);
    }
    forall i | 0 <= i < |es|
      ensures es[i] in now && BackAt(now, es, i)
    {
      assert es[i] in ps && BackAt(nodes, es, i);
      var j :| 0 <= j < |ps| && ps[j] == es[i];
      SameLinks(nodes, now, es, i, c);
    }
  }

  lemma ChangedLinks(n: Node, c: Change)
    ensures var m := Changed(n, c);
            m.prevEpoch == n.prevEpoch && m.nextEpoch == n.nextEpoch && (m.IsValid() <==> n.IsValid())
  {
    hide Updated;
  }

  lemma OnNodeWalks(nodes: Table, es: seq<nat>, ps: seq<nat>, u: Update)
    requires TwoWalks(nodes, es, ps) && u.epoch in es
    ensures es[0] <= u.epoch && TwoWalks(ValueUpdated(nodes, es, ps, u), es, ps)
  {
    hide Increasing, Keyed, BackAt, PathAt, Changed, ValueUpdated;
    OnNodeAt(nodes, es, ps, u, 0);
    var now := ValueUpdated(nodes, es, ps, u);
    forall j | 0 <= j < |ps|
      ensures ps[j] in now && (now[ps[j]] == nodes[ps[j]] || now[ps[j]] == Changed(nodes[ps[j]], u.change))
    {
      OnNodeAt(nodes, es, ps, u, ps[j]);
    }
    SameWalks(nodes, now, es, ps, u.change);
  }

  /** Back links of a chain with one more epoch. */
  lemma BackInserted(nodes: Table, es: seq<nat>, u: nat, q: Params)
    requires BackLinked(nodes, es) && es[0] < u && u !in es && IsDerived(q)
    ensures BackLinked(LinkIn(nodes, es, u, q), Inserted(es, u))
    ensures forall e :: e in Inserted(es, u) <==> e in es || e == u
  {
    hide Increasing, Keyed, BackAt, LinkIn, Inserted, IsDerived;
    InsertedIncreasing(es, u);
    LinkInKeyed(nodes, es, u, q);
    var fs, now := Inserted(es, u), LinkIn(nodes, es, u, q);
    forall i | 0 <= i < |fs|
      ensures fs[i] in now && BackAt(now, fs, i)
    {
      LinkInAt(nodes, es, u, q, i);
      BackPresent(now, fs, i);
    }
  }

  lemma BackPresent(nodes: Table, es: seq<nat>, i: nat)
    requires i < |es| && BackAt(nodes, es, i)
    ensures es[i] in nodes
  {
  }

  lemma InsertedAtEnd(es: seq<nat>, u: nat)
    requires Increasing(es) && es[|es| - 1] < u
    ensures es[0] < u && u !in es && Inserted(es, u) == es + [u]
  {
    RankUnique(es, u, |es| - 1);
    BeyondHead(es, u);
  }

  lemma NewHeadWalks(nodes: Table, es: seq<nat>, ps: seq<nat>, u: Update)
    requires TwoWalks(nodes, es, ps) && es[|es| - 1] < u.epoch
    ensures es[0] <= u.epoch && TwoWalks(ValueUpdated(nodes, es, ps, u), es + [u.epoch], ps + [u.epoch])
  {
    hide Increasing, Keyed, BackAt, LinkIn, Updated, Inserted, ValueUpdated, NextAt;
    assert es != [] && ps != [] by { NotEmpty(es); NotEmpty(ps); }
    var e, h := u.epoch, es[|es| - 1];
    var q := Updated(nodes[h].params, u.change);
    NewHeadAt(nodes, es, ps, u, 0);
    UpdatedDerived(nodes[h].params, u.change);
    InsertedAtEnd(es, e);
    InsertedAtEnd(ps, e);
    BackInserted(nodes, es, e, q);
    InsertedIncreasing(ps, e);
    var now, fs, qs := ValueUpdated(nodes, es, ps, u), es + [e], ps + [e];
    forall j | 0 <= j < |qs|
      ensures qs[j] in now && PathAt(now, fs, qs, j)
    {
      NewHeadPath(nodes, es, ps, u, j);
    }
    forall i | 0 <= i < |fs|
      ensures fs[i] in qs
    {
      assert i < |es| ==> es[i] in ps;
    }
  }

  lemma NewHeadPath(nodes: Table, es: seq<nat>, ps: seq<nat>, u: Update, j: nat)
    requires TwoWalks(nodes, es, ps) && es[|es| - 1] < u.epoch && j <= |ps|
    ensures es[0] <= u.epoch
    ensures var now, fs, qs := ValueUpdated(nodes, es, ps, u), es + [u.epoch], ps + [u.epoch];
            qs[j] in now && PathAt(now, fs, qs, j)
  {
    hide Increasing, Keyed, BackAt, LinkIn, Updated, ValueUpdated;
    assert es != [] && ps != [] by { NotEmpty(es); NotEmpty(ps); }
    NewHeadAt(nodes, es, ps, u, if j < |ps| then ps[j] else 0);
    if j < |ps| {
      PathFacts(nodes, es, ps, j);
      InOrder(ps, j, |ps| - 1);
    }
    BackFacts(nodes, es, |es| - 1);
  }

  /** The node next to `es[r]` on the walk forward. */
  function Beside(es: seq<nat>, ps: seq<nat>, r: nat): nat
    requires Increasing(ps) && r < |es| && es[r] in ps && Place(ps, es[r]) + 1 < |ps|
  {
    ps[Place(ps, es[r]) + 1]
  }

  /** An epoch in the gap behind `es[r]`. */
  ghost predicate InGap(nodes: Table, es: seq<nat>, ps: seq<nat>, u: nat, r: nat) {
    && TwoWalks(nodes, es, ps) && r + 1 < |es| && es[r] < u < es[r + 1]
    && es[r] in ps && Place(ps, es[r]) + 1 < |ps|
  }

  lemma GapOf(nodes: Table, es: seq<nat>, ps: seq<nat>, u: nat, r: nat)
    requires TwoWalks(nodes, es, ps) && r + 1 < |es| && es[r] < u < es[r + 1]
    ensures InGap(nodes, es, ps, u, r) && u !in es && es[0] < u
  {
    hide BackAt, PathAt, Increasing, Place;
    Gap(nodes, es, ps, r);
    Between(es, u, r);
  }

  // A gap with nothing in it: the walk forward gets the new node, the walk back does not.

  lemma HiddenBack(nodes: Table, es: seq<nat>, ps: seq<nat>, u: Update, r: nat, i: nat)
    requires InGap(nodes, es, ps, u.epoch, r) && Beside(es, ps, r) == es[r + 1] && i < |es|
    ensures es[0] <= u.epoch
    ensures var now := ValueUpdated(nodes, es, ps, u); es[i] in now && BackAt(now, es, i)
  {
    hide Increasing, Keyed, PathAt, NextAt, Updated, ValueUpdated, Place;
    BetweenAt(nodes, es, ps, u, r, es[i]);
    BackFacts(nodes, es, i);
    assert BackAt(nodes, es, i);
    InOrder(es, i, r);
    InOrder(es, r, i);
    InOrder(es, r + 1, i);
  }

  lemma HiddenPath(nodes: Table, es: seq<nat>, ps: seq<nat>, u: Update, r: nat, j: nat)
    requires InGap(nodes, es, ps, u.epoch, r) && Beside(es, ps, r) == es[r + 1]
    requires ps[0] < u.epoch && j < |Inserted(ps, u.epoch)| && u.epoch !in es
    ensures es[0] <= u.epoch
    ensures var now, qs := ValueUpdated(nodes, es, ps, u), Inserted(ps, u.epoch);
            qs[j] in now && PathAt(now, es, qs, j)
  {
    hide Increasing, Keyed, BackAt, Updated, ValueUpdated, Inserted, Place, Rank;
    var e, p, qs := u.epoch, Place(ps, es[r]), Inserted(ps, u.epoch);
    RankUnique(ps, e, p);
    InsertedAt(ps, e, j);
    if j > 0 { InsertedAt(ps, e, j - 1); }
    if j + 1 < |qs| { InsertedAt(ps, e, j + 1); }
    BetweenAt(nodes, es, ps, u, r, qs[j]);
    assert es[r] in es && es[r + 1] in es;
    PathFacts(nodes, es, ps, p);
    PathFacts(nodes, es, ps, p + 1);
    if j != p + 1 {
      var k := if j <= p then j else j - 1;
      PathFacts(nodes, es, ps, k);
      InOrder(ps, k, p);
      InOrder(ps, p, k);
      InOrder(ps, k, p + 1);
      InOrder(ps, p + 1, k);
    }
  }

  lemma HiddenWalks(nodes: Table, es: seq<nat>, ps: seq<nat>, u: Update, r: nat)
    requires InGap(nodes, es, ps, u.epoch, r) && Beside(es, ps, r) == es[r + 1]
    ensures es[0] <= u.epoch && ps[0] < u.epoch && u.epoch !in ps
    ensures TwoWalks(ValueUpdated(nodes, es, ps, u), es, Inserted(ps, u.epoch))
    ensures forall e :: e in Inserted(ps, u.epoch) <==> e in ps || e == u.epoch
  {
    hide Increasing, Keyed, BackAt, PathAt, NextAt, Updated, ValueUpdated, Inserted, Place;
    var e, p := u.epoch, Place(ps, es[r]);
    GapOf(nodes, es, ps, e, r);
    Between(ps, e, p);
    BetweenAt(nodes, es, ps, u, r, 0);
    InsertedIncreasing(ps, e);
    var now, qs := ValueUpdated(nodes, es, ps, u), Inserted(ps, e);
    forall i | 0 <= i < |es|
      ensures es[i] in now && BackAt(now, es, i)
    {
      HiddenBack(nodes, es, ps, u, r, i);
    }
    forall j | 0 <= j < |qs|
      ensures qs[j] in now && PathAt(now, es, qs, j)
    {
      HiddenPath(nodes, es, ps, u, r, j);
    }
    InsertedEnds(ps, e, p);
    assert forall i :: 0 <= i < |es| ==> es[i] in ps && es[i] in qs;
  }

  lemma InsertedEnds(ps: seq<nat>, u: nat, p: nat)
    requires Increasing(ps) && p + 1 < |ps| && ps[p] < u < ps[p + 1] && ps[0] < u
    ensures var qs := Inserted(ps, u);
            qs != [] && qs[0] == ps[0] && qs[|qs| - 1] == ps[|ps| - 1]
  {
    hide Rank;
    RankUnique(ps, u, p);
  }

  // A gap with a hidden node in it: the new node is visited by both walks.

  lemma ShownBack(nodes: Table, es: seq<nat>, ps: seq<nat>, u: Update, r: nat)
    requires InGap(nodes, es, ps, u.epoch, r) && Beside(es, ps, r) != es[r + 1]
    ensures es[0] < u.epoch && u.epoch !in es
    ensures BackLinked(ValueUpdated(nodes, es, ps, u), Inserted(es, u.epoch))
    ensures forall e :: e in Inserted(es, u.epoch) <==> e in es || e == u.epoch
  {
    hide Increasing, Keyed, BackAt, PathAt, NextAt, Updated, ValueUpdated, Inserted, Place, LinkIn, Changed;
    var e, v := u.epoch, es[r];
    var q := Updated(nodes[v].params, u.change);
    GapOf(nodes, es, ps, e, r);
    UpdatedDerived(nodes[v].params, u.change);
    BackInserted(nodes, es, e, q);
    BetweenAt(nodes, es, ps, u, r, 0);
    var fs, now := Inserted(es, e), ValueUpdated(nodes, es, ps, u);
    forall i | 0 <= i < |fs|
      ensures fs[i] in now && BackAt(now, fs, i)
    {
      assert fs[i] in fs;
      ShownBackAt(nodes, es, ps, u, r, i);
    }
  }

  lemma ShownBackAt(nodes: Table, es: seq<nat>, ps: seq<nat>, u: Update, r: nat, i: nat)
    requires InGap(nodes, es, ps, u.epoch, r) && Beside(es, ps, r) != es[r + 1] && es[0] < u.epoch && u.epoch !in es
    requires i < |Inserted(es, u.epoch)| && (Inserted(es, u.epoch)[i] in es || Inserted(es, u.epoch)[i] == u.epoch)
    ensures var now, fs := ValueUpdated(nodes, es, ps, u), Inserted(es, u.epoch);
            fs[i] in now && BackAt(now, fs, i)
  {
    hide Increasing, Keyed, PathAt, NextAt, Updated, ValueUpdated, Inserted, Place, LinkIn, Rank;
    var e, v, x := u.epoch, es[r], Inserted(es, u.epoch)[i];
    var q := Updated(nodes[v].params, u.change);
    LinkInAt(nodes, es, e, q, i);
    LinkInBetween(nodes, es, e, q, r);
    Gap(nodes, es, ps, r);
    BetweenAt(nodes, es, ps, u, r, x);
    PathFacts(nodes, es, ps, Place(ps, v) + 1);
    ChangedLinks(nodes[Beside(es, ps, r)], u.change);
    ChangedLinks(nodes[es[r + 1]].(prevEpoch := e), u.change);
    if x in es {
      ChangedLinks(nodes[x], u.change);
      KeyedAt(nodes, x);
    }
  }

  /** Another epoch than the hidden one: that one is left behind, on neither walk. */
  lemma ReplacedPath(nodes: Table, es: seq<nat>, ps: seq<nat>, u: Update, r: nat, j: nat)
    requires InGap(nodes, es, ps, u.epoch, r) && Beside(es, ps, r) != es[r + 1] && Beside(es, ps, r) != u.epoch
    requires es[0] < u.epoch && j < |ps| && u.epoch !in es
    requires forall e :: e in Inserted(es, u.epoch) <==> e in es || e == u.epoch
    ensures var now, fs, qs := ValueUpdated(nodes, es, ps, u), Inserted(es, u.epoch), ps[Place(ps, es[r]) + 1 := u.epoch];
            qs[j] in now && PathAt(now, fs, qs, j)
  {
    hide Increasing, Keyed, BackAt, Updated, ValueUpdated, Inserted, Place;
    var e, p := u.epoch, Place(ps, es[r]);
    Gap(nodes, es, ps, r);
    BetweenAt(nodes, es, ps, u, r, ps[j]);
    assert es[r] in es && es[r + 1] in es;
    PathFacts(nodes, es, ps, j);
    PathFacts(nodes, es, ps, p);
    PathFacts(nodes, es, ps, p + 2);
    InOrder(ps, j, p);
    InOrder(ps, p, j);
    InOrder(ps, p + 1, j);
    InOrder(ps, j, p + 1);
    InOrder(ps, p + 2, j);
    InOrder(ps, j, p + 2);
  }

  lemma ReplacedWalks(nodes: Table, es: seq<nat>, ps: seq<nat>, u: Update, r: nat)
    requires InGap(nodes, es, ps, u.epoch, r) && Beside(es, ps, r) != es[r + 1] && Beside(es, ps, r) != u.epoch
    ensures es[0] < u.epoch
    ensures TwoWalks(ValueUpdated(nodes, es, ps, u), Inserted(es, u.epoch), ps[Place(ps, es[r]) + 1 := u.epoch])
    ensures forall e :: e in Inserted(es, u.epoch) <==> e in es || e == u.epoch
  {
    hide Increasing, Keyed, BackAt, PathAt, NextAt, Updated, ValueUpdated, Inserted, Place;
    var e, p := u.epoch, Place(ps, es[r]);
    GapOf(nodes, es, ps, e, r);
    Gap(nodes, es, ps, r);
    ShownBack(nodes, es, ps, u, r);
    var now, fs, qs := ValueUpdated(nodes, es, ps, u), Inserted(es, e), ps[p + 1 := e];
    ReplacedIncreasing(ps, p, e);
    InsertedEnds(es, e, r);
    forall j | 0 <= j < |qs|
      ensures qs[j] in now && PathAt(now, fs, qs, j)
    {
      ReplacedPath(nodes, es, ps, u, r, j);
    }
    forall i | 0 <= i < |fs|
      ensures fs[i] in qs
    {
      assert fs[i] in fs;
      if fs[i] == e {
        assert qs[p + 1] == e;
      } else {
        VisitedStays(es, ps, p, e, fs[i]);
      }
    }
  }

  lemma ReplacedIncreasing(ps: seq<nat>, p: nat, e: nat)
    requires Increasing(ps) && p + 2 < |ps| && ps[p] < e < ps[p + 2]
    ensures Increasing(ps[p + 1 := e])
  {
    assert forall i, j :: 0 <= i <= j < |ps| ==> ps[i] <= ps[j];
  }

  lemma VisitedStays(es: seq<nat>, ps: seq<nat>, p: nat, e: nat, x: nat)
    requires p + 1 < |ps| && ps[p + 1] !in es && x in es && x in ps
    ensures x in ps[p + 1 := e]
  {
    var i :| 0 <= i < |ps| && ps[i] == x;
    assert ps[p + 1 := e][i] == x;
  }

  /** The hidden epoch itself: its node, with both changes, is visited from now on. */
  lemma HealedPath(nodes: Table, es: seq<nat>, ps: seq<nat>, u: Update, r: nat, j: nat)
    requires InGap(nodes, es, ps, u.epoch, r) && Beside(es, ps, r) == u.epoch && es[0] < u.epoch && j < |ps|
    requires forall e :: e in Inserted(es, u.epoch) <==> e in es || e == u.epoch
    ensures var now, fs := ValueUpdated(nodes, es, ps, u), Inserted(es, u.epoch);
            ps[j] in now && PathAt(now, fs, ps, j)
  {
    hide Increasing, Keyed, BackAt, Updated, ValueUpdated, Inserted, Place;
    var e, p := u.epoch, Place(ps, es[r]);
    Gap(nodes, es, ps, r);
    BetweenAt(nodes, es, ps, u, r, ps[j]);
    PathFacts(nodes, es, ps, j);
    PathFacts(nodes, es, ps, p + 1);
    PathFacts(nodes, es, ps, p + 2);
    InOrder(ps, j, p);
    InOrder(ps, p, j);
  }

  lemma HealedWalks(nodes: Table, es: seq<nat>, ps: seq<nat>, u: Update, r: nat)
    requires InGap(nodes, es, ps, u.epoch, r) && Beside(es, ps, r) == u.epoch
    ensures es[0] < u.epoch
    ensures TwoWalks(ValueUpdated(nodes, es, ps, u), Inserted(es, u.epoch), ps)
    ensures forall e :: e in Inserted(es, u.epoch) <==> e in es || e == u.epoch
  {
    hide Increasing, Keyed, BackAt, PathAt, NextAt, Updated, ValueUpdated, Inserted, Place;
    var e := u.epoch;
    GapOf(nodes, es, ps, e, r);
    ShownBack(nodes, es, ps, u, r);
    var now, fs := ValueUpdated(nodes, es, ps, u), Inserted(es, e);
    InsertedEnds(es, e, r);
    forall j | 0 <= j < |ps|
      ensures ps[j] in now && PathAt(now, fs, ps, j)
    {
      HealedPath(nodes, es, ps, u, r, j);
    }
    forall i | 0 <= i < |fs|
      ensures fs[i] in ps
    {
      assert fs[i] in fs;
    }
  }
}
