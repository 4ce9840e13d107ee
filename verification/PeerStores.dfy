/**
 The peer stores: active connections with the goroutines that watch them, inactive peers with
 the timers of their cooldowns, and the sections in which the peer manager updates both.
 */
module PeerStores {

  type Identity = nat

  /** One connection to a peer. */
  datatype Client = Client(conn: nat, identity: Identity)

  datatype Active = Active(store: map<Identity, Client>, pid: map<Identity, nat>)

  datatype Inactive = Inactive(store: set<Identity>, cooldown: map<Identity, nat>)

  datatype Watcher = Watcher(pid: nat, client: Client)

  datatype Timer = Timer(pid: nat, identity: Identity)

  datatype Option<+T> = None | Some(value: T)

  // ----- what each operation does to its store

  predicate Kept(s: Active, c: Client, closed: set<Client>) {
    c.identity !in s.store || s.store[c.identity] in closed
  }

  function Added(s: Active, c: Client, closed: set<Client>, pid: nat): Active {
    if Kept(s, c, closed) then Active(s.store[c.identity := c], s.pid[c.identity := pid]) else s
  }

  function Deleted(s: Active, id: Identity): Active {
    if id in s.store then Active(s.store - {id}, s.pid - {id}) else s
  }

  /** A map lookup in the source gives 0 for a key that is not there. */
  function PidOf(pids: map<Identity, nat>, id: Identity): nat {
    if id in pids then pids[id] else 0
  }

  function Exited(s: Active, w: Watcher): Active {
    var id := w.client.identity;
    if PidOf(s.pid, id) == w.pid then Active(s.store - {id}, s.pid - {id}) else s
  }

  function Learnt(s: Inactive, id: Identity): Inactive {
    if id in s.cooldown then s else s.(store := s.store + {id})
  }

  function Dropped(s: Inactive, id: Identity, pid: nat): Inactive {
    if id in s.store then Inactive(s.store - {id}, s.cooldown[id := pid]) else s
  }

  function Expired(s: Inactive, t: Timer): Inactive {
    if PidOf(s.cooldown, t.identity) == t.pid then s.(cooldown := s.cooldown - {t.identity}) else s
  }

  class ActivePeerStore {
    var canClose: bool
    var store: map<Identity, Client>
    var pid: map<Identity, nat>

    ghost function View(): Active
      reads this
    {
      Active(store, pid)
    }

    constructor (canClose: bool)
      ensures View() == Active(map[], map[]) && this.canClose == canClose
    {
      this.canClose, store, pid := canClose, map[], map[];
    }

    /** add: the connections closed before and after, and the watcher it starts */
    method Add(c: Client, newPid: nat, closed: set<Client>) returns (nowClosed: set<Client>, watcher: Option<Watcher>)
      modifies this`store, this`pid
      ensures View() == Added(old(View()), c, closed, newPid)
      ensures watcher == if Kept(old(View()), c, closed) then Some(Watcher(newPid, c)) else None
      ensures c.identity in store
      ensures store[c.identity] == if c.identity !in old(store) || old(store)[c.identity] in closed then c else old(store)[c.identity]
      ensures store - {c.identity} == old(store) - {c.identity} && pid - {c.identity} == old(pid) - {c.identity}
      ensures nowClosed == if watcher.None? && canClose then closed + {c} else closed
    {
      nowClosed := closed;
      if c.identity in store {
        var stale := store[c.identity];
        if stale in closed {
          store, pid := store - {c.identity}, pid - {c.identity};
        } else {
          if canClose {
            nowClosed := closed + {c};
          }
          return nowClosed, None;
        }
      }
      store := store[c.identity := c];
      pid := pid[c.identity := newPid];
      watcher := Some(Watcher(newPid, c));
    }

    /** del */
    method Del(id: Identity, closed: set<Client>) returns (nowClosed: set<Client>)
      modifies this`store, this`pid
      ensures View() == Deleted(old(View()), id)
      ensures nowClosed == if id in old(store) && canClose then closed + {old(store)[id]} else closed
      ensures store == old(store) - {id}
    {
      nowClosed := closed;
      if id in store {
        if canClose {
          nowClosed := closed + {store[id]};
        }
        store := store - {id};
        pid := pid - {id};
      }
    }

    /** onExit, once the connection is closed */
    method OnExit(w: Watcher)
      modifies this`store, this`pid
      ensures View() == Exited(old(View()), w)
    {
      if PidOf(pid, w.client.identity) == w.pid {
        store := store - {w.client.identity};
        pid := pid - {w.client.identity};
      }
    }
  }

  class InactivePeerStore {
    var store: set<Identity>
    var cooldown: map<Identity, nat>

    ghost function View(): Inactive
      reads this
    {
      Inactive(store, cooldown)
    }

    constructor ()
      ensures View() == Inactive({}, map[])
    {
      store, cooldown := {}, map[];
    }

    /** add */
    method Add(id: Identity)
      modifies this`store
      ensures View() == Learnt(old(View()), id)
      ensures id in old(store) || id !in cooldown <==> id in store
    {
      if id !in cooldown {
        store := store + {id};
      }
    }

    /** del with backoff */
    method Del(id: Identity, newPid: nat) returns (timer: Option<Timer>)
      modifies this`store, this`cooldown
      ensures View() == Dropped(old(View()), id, newPid)
      ensures timer == if id in old(store) then Some(Timer(newPid, id)) else None
      ensures store == old(store) - {id} && cooldown == if id in old(store) then old(cooldown)[id := newPid] else old(cooldown)
    {
      timer := None;
      if id in store {
        store := store - {id};
        cooldown := cooldown[id := newPid];
        timer := Some(Timer(newPid, id));
      }
    }

    /** The goroutine of backoff, after its delay */
    method Expire(t: Timer)
      modifies this`cooldown
      ensures View() == Expired(old(View()), t)
    {
      if PidOf(cooldown, t.identity) == t.pid {
        cooldown := cooldown - {t.identity};
      }
    }

    /** randomPop, with a drawn index or a draw that failed: whatever the order of the iteration, the panic behind the loop is not reached */
    method RandomPop(draw: Option<nat>, newPid: nat) returns (popped: Option<Identity>)
      requires store != {} && draw.Some? ==> draw.value < |store|
      modifies this`store, this`cooldown
      ensures popped.None? <==> old(store) == {} || draw.None?
      ensures popped.None? ==> View() == old(View())
      ensures popped.Some? ==> popped.value in old(store) && View() == Dropped(old(View()), popped.value, newPid)
    {
      if |store| == 0 {
        return None;
      }
      if draw.None? {
        return None;
      }
      var i, rest, index := 0, store, draw.value;
      while rest != {}
        invariant rest <= store && i + |rest| == |store| && i <= index
        invariant View() == old(View())
        decreases |rest|
      {
        var k :| k in rest;
        if i == index {
          var _ := Del(k, newPid);
          return Some(k);
        }
        rest := rest - {k};
        i := i + 1;
      }
      assert false;
    }
  }

  // ----- all interleavings

  /** How far the goroutine that holds the manager's lock has come. */
  datatype Section =
    | Free
    | Connecting(client: Client)     // handleP2P: before active.add
    | Connected(client: Client)      // handleP2P: before inactive.del
    | Learning(identity: Identity)   // handleDisc, getPeersActive, discoDialBootnode: before active.contains
    | Unknown(identity: Identity)    // the same, before inactive.add

  /** seen holds the connections that were handed to the manager, pids the pids that were made. */
  datatype World = World(
    canClose: bool, active: Active, inactive: Inactive, section: Section,
    watchers: set<Watcher>, timers: set<Timer>,
    closed: set<Client>, seen: set<Client>, pids: set<nat>)

  /** The steps of all goroutines; each holds the lock of at most one store. */
  datatype Event =
    | Connect(client: Client)          // the manager's lock is taken for a new connection
    | AddActive(pid: nat)
    | DelInactive(pid: nat)
    | Learn(identity: Identity)        // the manager's lock is taken for a peer address
    | Contains
    | AddInactive
    | Close(client: Client)            // a connection is closed by either side
    | WatcherExit(watcher: Watcher)
    | TimerExpires(timer: Timer)
    | RandomPop(identity: Identity, pid: nat)
    | DelActive(identity: Identity)

  function Start(canClose: bool): World {
    World(canClose, Active(map[], map[]), Inactive({}, map[]), Free, {}, {}, {}, {}, {})
  }

  /** A pid that was not made before; the source draws 64 random bits. */
  predicate Fresh(w: World, pid: nat) {
    pid > 0 && pid !in w.pids
  }

  predicate Enabled(w: World, e: Event) {
    match e
    case Connect(c) => w.section.Free? && c !in w.seen
    case AddActive(pid) => w.section.Connecting? && Fresh(w, pid)
    case DelInactive(pid) => w.section.Connected? && Fresh(w, pid)
    case Learn(_) => w.section.Free?
    case Contains => w.section.Learning?
    case AddInactive => w.section.Unknown?
    case Close(_) => true
    case WatcherExit(x) => x in w.watchers && x.client in w.closed
    case TimerExpires(t) => t in w.timers
    case RandomPop(id, pid) => id in w.inactive.store && Fresh(w, pid)
    case DelActive(_) => true
  }

  function Next(w: World, e: Event): World
    requires Enabled(w, e)
  {
    match e
    case Connect(c) => w.(section := Connecting(c), seen := w.seen + {c})
    case AddActive(pid) =>
      var c := w.section.client;
      var kept := Kept(w.active, c, w.closed);
      w.(section := Connected(c),
         active := Added(w.active, c, w.closed, pid),
         watchers := if kept then w.watchers + {Watcher(pid, c)} else w.watchers,
         closed := if !kept && w.canClose then w.closed + {c} else w.closed,
         pids := w.pids + {pid})
    case DelInactive(pid) =>
      var id := w.section.client.identity;
      w.(section := Free,
         inactive := Dropped(w.inactive, id, pid),
         timers := if id in w.inactive.store then w.timers + {Timer(pid, id)} else w.timers,
         pids := w.pids + {pid})
    case Learn(id) => w.(section := Learning(id))
    case Contains =>
      var id := w.section.identity;
      w.(section := if id in w.active.store then Free else Unknown(id))
    case AddInactive => w.(section := Free, inactive := Learnt(w.inactive, w.section.identity))
    case Close(c) => w.(closed := w.closed + {c})
    case WatcherExit(x) => w.(active := Exited(w.active, x), watchers := w.watchers - {x})
    case TimerExpires(t) => w.(inactive := Expired(w.inactive, t), timers := w.timers - {t})
    case RandomPop(id, pid) =>
      w.(inactive := Dropped(w.inactive, id, pid), timers := w.timers + {Timer(pid, id)}, pids := w.pids + {pid})
    case DelActive(id) =>
      w.(active := Deleted(w.active, id),
         closed := if id in w.active.store && w.canClose then w.closed + {w.active.store[id]} else w.closed)
  }

  /** The worlds that an interleaving goes through. */
  ghost predicate IsRun(worlds: seq<World>, events: seq<Event>) {
    && |worlds| == |events| + 1
    && worlds[0] == Start(worlds[0].canClose)
    && forall i :: 0 <= i < |events| ==>
         Enabled(worlds[i], events[i]) && worlds[i + 1] == Next(worlds[i], events[i])
  }

  /** No pid and no connection has two watchers. */
  predicate Unique(watchers: set<Watcher>) {
    forall x, y :: x in watchers && y in watchers && (x.pid == y.pid || x.client == y.client) ==> x == y
  }

  /** Both maps of the active store have the same keys, and every entry has its own watcher. */
  predicate Watched(w: World) {
    && w.active.store.Keys == w.active.pid.Keys
    && (forall id :: id in w.active.store ==>
          && w.active.store[id].identity == id
          && Watcher(w.active.pid[id], w.active.store[id]) in w.watchers)
    && (forall x :: x in w.watchers ==> x.pid in w.pids && x.pid > 0 && x.client in w.seen)
    && Unique(w.watchers)
    && (w.section.Connecting? ==> w.section.client in w.seen)
    && (w.section.Connecting? ==> forall x :: x in w.watchers ==> x.client != w.section.client)
  }

  /** No identity is inactive and cooling down, and every cooldown has a timer that will end it. */
  predicate Timed(w: World) {
    && w.inactive.store !! w.inactive.cooldown.Keys
    && (forall id :: id in w.inactive.cooldown ==> Timer(w.inactive.cooldown[id], id) in w.timers)
    && (forall t :: t in w.timers ==> t.pid in w.pids && t.pid > 0)
    && (forall t, u :: t in w.timers && u in w.timers && t.pid == u.pid ==> t == u)
  }

  /** No identity is active and inactive, except inside a section that is about to mend it. */
  predicate Apart(w: World) {
    && (forall id :: id in w.active.store && id in w.inactive.store ==>
          w.section.Connected? && id == w.section.client.identity)
    && (w.section.Unknown? ==> w.section.identity !in w.active.store)
  }

  lemma AddWatched(w: World, pid: nat)
    requires Watched(w) && Enabled(w, AddActive(pid))
    ensures Watched(Next(w, AddActive(pid)))
  {
    hide Unique;
    var v, c := Next(w, AddActive(pid)), w.section.client;
    var x := Watcher(pid, c);
    if Kept(w.active, c, w.closed) {
      UniqueAdd(w.watchers, x);
      assert v.watchers == w.watchers + {x};
      forall id | id in v.active.store
        ensures v.active.store[id].identity == id && Watcher(v.active.pid[id], v.active.store[id]) in v.watchers
      {
        assert id != c.identity ==> id in w.active.store;
      }
    }
  }

  lemma UniqueAdd(watchers: set<Watcher>, x: Watcher)
    requires Unique(watchers) && forall y :: y in watchers ==> y.pid != x.pid && y.client != x.client
    ensures Unique(watchers + {x})
  {
  }

  lemma ExitWatched(w: World, x: Watcher)
    requires Watched(w) && Enabled(w, WatcherExit(x))
    ensures Watched(Next(w, WatcherExit(x)))
  {
    hide Unique;
    UniqueRemove(w.watchers, x);
    var v := Next(w, WatcherExit(x));
    forall id | id in v.active.store
      ensures Watcher(v.active.pid[id], v.active.store[id]) in v.watchers
    {
      assert v.active.pid[id] == w.active.pid[id] && v.active.store[id] == w.active.store[id];
      assert id == x.client.identity ==> w.active.pid[id] != x.pid;
    }
  }

  lemma UniqueRemove(watchers: set<Watcher>, x: Watcher)
    requires Unique(watchers)
    ensures Unique(watchers - {x})
  {
  }

  lemma StepWatched(w: World, e: Event)
    requires Watched(w) && Enabled(w, e)
    ensures Watched(Next(w, e))
  {
    if e.AddActive? {
      AddWatched(w, e.pid);
    } else if e.WatcherExit? {
      ExitWatched(w, e.watcher);
    } else {
      hide Watched, Added, Exited, Learnt, Dropped, Expired;
      OthersWatched(w, Next(w, e), if e.DelActive? then Some(e.identity) else None);
    }
  }

  /** A step that adds no entry and stops no watcher. */
  lemma OthersWatched(w: World, v: World, gone: Option<Identity>)
    requires Watched(w) && v.watchers == w.watchers && w.seen <= v.seen && w.pids <= v.pids
    requires v.active == if gone.Some? then Deleted(w.active, gone.value) else w.active
    requires v.section.Connecting? ==>
               v.section == w.section || (v.section.client in v.seen && v.section.client !in w.seen)
    ensures Watched(v)
  {
    hide Unique;
  }

  lemma StepTimed(w: World, e: Event)
    requires Timed(w) && Enabled(w, e)
    ensures Timed(Next(w, e))
  {
  }

  lemma StepApart(w: World, e: Event)
    requires Watched(w) && Apart(w) && Enabled(w, e)
    ensures Apart(Next(w, e))
  {
  }

  /** In every interleaving, at every moment. */
  lemma {:induction false} AlwaysSound(worlds: seq<World>, events: seq<Event>, i: nat)
    requires IsRun(worlds, events) && i <= |events|
    ensures var w := worlds[i];
            && Watched(w) && Timed(w) && Apart(w)
            && w.active.store.Keys == w.active.pid.Keys
            && w.inactive.store !! w.inactive.cooldown.Keys
            && (w.section.Free? ==> w.active.store.Keys !! w.inactive.store)
  {
    if i > 0 {
      AlwaysSound(worlds, events, i - 1);
      StepWatched(worlds[i - 1], events[i - 1]);
      StepTimed(worlds[i - 1], events[i - 1]);
      StepApart(worlds[i - 1], events[i - 1]);
    }
  }

  /** A watcher that exits removes the entry of its own connection, and no other. */
  lemma WatcherRemovesItsOwn(worlds: seq<World>, events: seq<Event>, i: nat)
    requires IsRun(worlds, events) && i < |events| && events[i].WatcherExit?
    ensures var before, after := worlds[i].active.store, worlds[i + 1].active.store;
            && (forall id :: id in before ==> (id !in after <==> before[id] == events[i].watcher.client))
            && (forall id :: id in after ==> id in before && after[id] == before[id])
  {
    AlwaysSound(worlds, events, i);
  }

  /** Once the watchers of closed connections have exited, only open connections are left. */
  lemma SettledIsOpen(worlds: seq<World>, events: seq<Event>, i: nat)
    requires IsRun(worlds, events) && i <= |events|
    requires forall x :: x in worlds[i].watchers ==> x.client !in worlds[i].closed
    ensures forall id :: id in worlds[i].active.store ==> worlds[i].active.store[id] !in worlds[i].closed
  {
    AlwaysSound(worlds, events, i);
  }

  /** A cooldown ends when its own timer expires, and in no other way. */
  lemma CooldownEndsOnTime(worlds: seq<World>, events: seq<Event>, i: nat, id: Identity)
    requires IsRun(worlds, events) && i < |events| && id in worlds[i].inactive.cooldown
    ensures id !in worlds[i + 1].inactive.cooldown
            <==> events[i] == TimerExpires(Timer(worlds[i].inactive.cooldown[id], id))
  {
    AlwaysSound(worlds, events, i);
  }

  // ----- what the steps achieve, in every interleaving

  /** After a connection was handed over its peer is active: by it, if there was none or the old one was closed, else by the old one. */
  lemma ConnectionArrives(worlds: seq<World>, events: seq<Event>, i: nat)
    requires IsRun(worlds, events) && i < |events| && events[i].AddActive?
    ensures var v, w, c := worlds[i], worlds[i + 1], worlds[i].section.client;
            var before, after, id := v.active.store, w.active.store, c.identity;
            && id in after
            && (after[id] == c <==> id !in before || before[id] in v.closed)
            && (after[id] != c ==> after[id] == before[id] && PidOf(w.active.pid, id) == PidOf(v.active.pid, id))
            && (after[id] == c ==> PidOf(w.active.pid, id) == events[i].pid && Watcher(events[i].pid, c) in w.watchers)
            && w.closed == (if after[id] != c && v.canClose then v.closed + {c} else v.closed)
            && after - {id} == before - {id} && w.active.pid - {id} == v.active.pid - {id}
            && w.inactive == v.inactive && w.section == Connected(c)
  {
    hide Watched, Timed, Apart, Next;
    AlwaysSound(worlds, events, i);
    ArrivesStep(worlds[i], events[i].pid);
  }

  lemma ArrivesStep(v: World, pid: nat)
    requires Watched(v) && Enabled(v, AddActive(pid))
    ensures var w, c := Next(v, AddActive(pid)), v.section.client;
            var before, after, id := v.active.store, w.active.store, c.identity;
            && id in after
            && (after[id] == c <==> id !in before || before[id] in v.closed)
            && (after[id] != c ==> after[id] == before[id] && PidOf(w.active.pid, id) == PidOf(v.active.pid, id))
            && (after[id] == c ==> PidOf(w.active.pid, id) == pid && Watcher(pid, c) in w.watchers)
            && w.closed == (if after[id] != c && v.canClose then v.closed + {c} else v.closed)
            && after - {id} == before - {id} && w.active.pid - {id} == v.active.pid - {id}
            && w.inactive == v.inactive && w.section == Connected(c)
  {
    hide Unique;
    var c := v.section.client;
    assert c.identity in v.active.store ==> v.active.store[c.identity] != c;
  }

  /** After an address was learnt its peer is inactive, and can be dialled, unless it cools down. */
  lemma PeerIsLearnt(worlds: seq<World>, events: seq<Event>, i: nat)
    requires IsRun(worlds, events) && i < |events| && events[i].AddInactive?
    ensures var v, w, id := worlds[i], worlds[i + 1], worlds[i].section.identity;
            && (id in w.inactive.store <==> id !in v.inactive.cooldown)
            && (id in w.inactive.store ==> id !in w.active.store)
            && w.inactive.store - {id} == v.inactive.store - {id}
            && w.inactive.cooldown == v.inactive.cooldown && w.active == v.active && w.section.Free?
  {
    AlwaysSound(worlds, events, i);
    AlwaysSound(worlds, events, i + 1);
  }

  /** A learnt address is looked up among the active peers first. */
  lemma ActiveIsNotLearnt(worlds: seq<World>, events: seq<Event>, i: nat)
    requires IsRun(worlds, events) && i < |events| && events[i].Contains?
    ensures var v, w, id := worlds[i], worlds[i + 1], worlds[i].section.identity;
            && w.section == (if id in v.active.store then Free else Unknown(id))
            && w.active == v.active && w.inactive == v.inactive
  {
  }

  /** The peer that a step takes out of the inactive store, to dial it or because it is connected. */
  function Taken(w: World, e: Event): Option<Identity>
    requires Enabled(w, e)
  {
    match e
    case RandomPop(id, _) => Some(id)
    case DelInactive(_) => Some(w.section.client.identity)
    case _ => None
  }

  /** A peer leaves the inactive store exactly if it is taken, and then it cools down, with a timer of its own. */
  lemma TakenCoolsDown(worlds: seq<World>, events: seq<Event>, i: nat, id: Identity)
    requires IsRun(worlds, events) && i < |events| && id in worlds[i].inactive.store
    ensures var v, w := worlds[i], worlds[i + 1];
            && (id !in w.inactive.store <==> Taken(v, events[i]) == Some(id))
            && (id !in w.inactive.store <==> id in w.inactive.cooldown)
            && (id in w.inactive.cooldown ==>
                 var pid := w.inactive.cooldown[id]; pid !in v.pids && Timer(pid, id) in w.timers)
  {
    hide Watched, Apart, Next, Taken;
    AlwaysSound(worlds, events, i);
    TakenStep(worlds[i], events[i], id);
  }

  lemma TakenStep(v: World, e: Event, id: Identity)
    requires v.inactive.store !! v.inactive.cooldown.Keys && Enabled(v, e) && id in v.inactive.store
    ensures var w := Next(v, e);
            && (id !in w.inactive.store <==> Taken(v, e) == Some(id))
            && (id !in w.inactive.store <==> id in w.inactive.cooldown)
            && (id in w.inactive.cooldown ==>
                 var pid := w.inactive.cooldown[id]; pid !in v.pids && Timer(pid, id) in w.timers)
  {
    hide Kept, Added, Deleted, Exited;
  }

  /** A peer comes into the inactive store by being learnt, and in no other way. */
  lemma OnlyLearntAreInactive(worlds: seq<World>, events: seq<Event>, i: nat, id: Identity)
    requires IsRun(worlds, events) && i < |events| && id !in worlds[i].inactive.store
    ensures id in worlds[i + 1].inactive.store
            <==> events[i].AddInactive? && worlds[i].section.identity == id && id !in worlds[i].inactive.cooldown
  {
    AlwaysSound(worlds, events, i);
  }

  /** A cooldown starts by being taken, and in no other way; what cools down keeps its timer. */
  lemma OnlyTakenCoolDown(worlds: seq<World>, events: seq<Event>, i: nat, id: Identity)
    requires IsRun(worlds, events) && i < |events| && id in worlds[i + 1].inactive.cooldown
    ensures if id in worlds[i].inactive.cooldown then worlds[i + 1].inactive.cooldown[id] == worlds[i].inactive.cooldown[id]
            else id in worlds[i].inactive.store && Taken(worlds[i], events[i]) == Some(id)
  {
    hide Watched, Apart, Next, Taken;
    AlwaysSound(worlds, events, i);
    CooldownStep(worlds[i], events[i], id);
  }

  lemma CooldownStep(v: World, e: Event, id: Identity)
    requires v.inactive.store !! v.inactive.cooldown.Keys && Enabled(v, e) && id in Next(v, e).inactive.cooldown
    ensures if id in v.inactive.cooldown then Next(v, e).inactive.cooldown[id] == v.inactive.cooldown[id]
            else id in v.inactive.store && Taken(v, e) == Some(id)
  {
    hide Kept, Added, Deleted, Exited;
  }

  /** Once the section of a connection is over, its peer is not inactive. */
  lemma ConnectedIsNotInactive(worlds: seq<World>, events: seq<Event>, i: nat)
    requires IsRun(worlds, events) && i < |events| && events[i].DelInactive?
    ensures worlds[i].section.client.identity !in worlds[i + 1].inactive.store && worlds[i + 1].section.Free?
  {
    AlwaysSound(worlds, events, i);
  }

  /** A peer stops being active exactly by deletion or by the exit of its own watcher; a deletion closes the connection if the store may. */
  lemma ActiveUntilRemoved(worlds: seq<World>, events: seq<Event>, i: nat, id: Identity)
    requires IsRun(worlds, events) && i < |events| && id in worlds[i].active.store
    ensures var v, w := worlds[i], worlds[i + 1];
            && (id !in w.active.store <==>
                  events[i] == DelActive(id) || events[i] == WatcherExit(Watcher(PidOf(v.active.pid, id), v.active.store[id])))
            && (events[i] == DelActive(id) ==>
                  w.closed == if v.canClose then v.closed + {v.active.store[id]} else v.closed)
            && (id in w.active.store && w.active.store[id] != v.active.store[id] ==> events[i].AddActive?)
  {
    AlwaysSound(worlds, events, i);
  }

  /** A peer becomes active by a connection of its own, and in no other way. */
  lemma OnlyConnectedAreActive(worlds: seq<World>, events: seq<Event>, i: nat, id: Identity)
    requires IsRun(worlds, events) && i < |events| && id !in worlds[i].active.store
    ensures id in worlds[i + 1].active.store <==> events[i].AddActive? && worlds[i].section.client.identity == id
  {
    AlwaysSound(worlds, events, i);
  }
}
