/**
 The controller of a peer's request workers: how many of them run, and when a peer that
 keeps running into deadlines is disconnected.
 */
module WorkerOversight {

  /** The result of one request, as a worker reports it. */
  datatype Outcome = Success | DeadlineExceeded | OtherError

  /** live counts the request workers that were started and not told to stop. */
  datatype State = State(errMetric: int, numWorkers: int, backoff: int, live: int, disconnects: nat)

  const MAX_BACKOFF := 10

  /** What newP2PBus starts with */
  function Initial(): State {
    State(0, 2, 0, 2, 0)
  }

  function Step(s: State, max: int, outcome: Outcome): State {
    match outcome
    case OtherError => s
    case Success =>
      if s.errMetric + 1 < 2 * s.numWorkers then s.(errMetric := s.errMetric + 1)
      else
        var calmer := s.(errMetric := 0, backoff := if s.backoff > 0 then s.backoff - 1 else s.backoff);
        if s.numWorkers < max then calmer.(numWorkers := s.numWorkers + 1, live := s.live + 1) else calmer
    case DeadlineExceeded =>
      if s.backoff == MAX_BACKOFF then s.(disconnects := s.disconnects + 1)
      else if s.errMetric - 1 > -2 * s.numWorkers then s.(errMetric := s.errMetric - 1)
      else if s.numWorkers == 1 then s.(errMetric := 0, backoff := s.backoff + 1)
      else s.(errMetric := 0, numWorkers := s.numWorkers - 1, live := s.live - 1)
  }

  function Run(max: int, outcomes: seq<Outcome>): State {
    if outcomes == [] then Initial()
    else Step(Run(max, outcomes[..|outcomes| - 1]), max, outcomes[|outcomes| - 1])
  }

  function Deadlines(outcomes: seq<Outcome>): nat {
    if outcomes == [] then 0
    else Deadlines(outcomes[..|outcomes| - 1]) + if outcomes[|outcomes| - 1] == DeadlineExceeded then 1 else 0
  }

  /** What holds each time the loop waits for a result. */
  predicate Healthy(s: State, max: int) {
    && 1 <= s.numWorkers && (s.numWorkers <= max || s.numWorkers <= 2)
    && 0 <= s.backoff <= MAX_BACKOFF
    && -2 * s.numWorkers < s.errMetric < 2 * s.numWorkers
    && s.live == s.numWorkers
    && (s.backoff == MAX_BACKOFF ==> s.numWorkers == 1 && s.errMetric >= 0)
  }

  /** How many deadline results are still needed before the backoff is at its maximum. */
  function Distance(s: State): int {
    (if s.errMetric < 0 then s.errMetric else 0) + s.numWorkers * (s.numWorkers + 1) + 2 * (MAX_BACKOFF - 1 - s.backoff)
  }

  /** No result but a deadline lowers the distance, and a deadline lowers it by at most one. */
  lemma StepDistance(s: State, max: int, outcome: Outcome)
    requires Healthy(s, max)
    ensures var t := Step(s, max, outcome);
            && Healthy(t, max)
            && Distance(t) >= Distance(s) - (if outcome == DeadlineExceeded then 1 else 0)
            && t.disconnects == s.disconnects + if outcome == DeadlineExceeded && s.backoff == MAX_BACKOFF then 1 else 0
  {
    Neighbours(s.numWorkers);
  }

  lemma Neighbours(n: int)
    ensures (n + 1) * (n + 2) == n * (n + 1) + 2 * n + 2
    ensures (n - 1) * n == n * (n + 1) - 2 * n
  {
  }

  /** Every sequence of results keeps the controller healthy, and no disconnect comes before the 25th deadline. */
  lemma {:induction false} NoEarlyDisconnect(max: int, outcomes: seq<Outcome>)
    ensures var s := Run(max, outcomes);
            && Healthy(s, max)
            && Deadlines(outcomes) + Distance(s) >= 24
            && (s.disconnects > 0 ==> Deadlines(outcomes) >= 25)
  {
    if outcomes != [] {
      var before := outcomes[..|outcomes| - 1];
      NoEarlyDisconnect(max, before);
      StepDistance(Run(max, before), max, outcomes[|outcomes| - 1]);
    }
  }

  function AllDeadlines(n: nat): seq<Outcome> {
    seq(n, _ => DeadlineExceeded)
  }

  /** The bound is reached: 25 deadlines in a row disconnect, 24 do not. */
  lemma {:induction false} DeadlinesInARow(max: int, n: nat)
    requires n <= 24
    ensures var s := Run(max, AllDeadlines(n));
            && Healthy(s, max) && s.errMetric <= 0 && Distance(s) == 24 - n
            && s.disconnects == 0 && (s.backoff == MAX_BACKOFF <==> n == 24)
            && (n == 24 ==> Run(max, AllDeadlines(25)).disconnects == 1)
  {
    assert n > 0 ==> AllDeadlines(n)[..n - 1] == AllDeadlines(n - 1);
    if n > 0 {
      DeadlinesInARow(max, n - 1);
      ExactStep(Run(max, AllDeadlines(n - 1)), max);
      AtDistanceZero(Run(max, AllDeadlines(n)), max);
    }
    assert AllDeadlines(n + 1)[..n] == AllDeadlines(n);
  }

  lemma ExactStep(s: State, max: int)
    requires Healthy(s, max) && s.errMetric <= 0 && s.backoff < MAX_BACKOFF
    ensures var t := Step(s, max, DeadlineExceeded);
            Healthy(t, max) && t.errMetric <= 0 && Distance(t) == Distance(s) - 1 && t.disconnects == s.disconnects
  {
    var n := s.numWorkers;
    assert (n - 1) * n == n * (n + 1) - 2 * n;
  }

  lemma AtDistanceZero(s: State, max: int)
    requires Healthy(s, max)
    ensures Distance(s) >= 0
    ensures Distance(s) == 0 <==> s.backoff == MAX_BACKOFF
  {
    var n := s.numWorkers;
    if s.backoff < MAX_BACKOFF {
      assert n * (n + 1) >= 2 * n by { assert (n - 1) * n >= 0; }
    }
  }

  // ----- the same result again and again, from any state

  function Repeat(s: State, max: int, outcome: Outcome, n: nat): State {
    if n == 0 then s else Step(Repeat(s, max, outcome, n - 1), max, outcome)
  }

  /** As many successes as are missing to twice the workers add one worker, up to the limit, and take one backoff back. */
  lemma {:induction false} SuccessesFrom(s: State, max: int, n: nat)
    requires Healthy(s, max) && n <= 2 * s.numWorkers - s.errMetric
    ensures var w := if s.numWorkers < max then s.numWorkers + 1 else s.numWorkers;
            Repeat(s, max, Success, n)
            == if n < 2 * s.numWorkers - s.errMetric then s.(errMetric := s.errMetric + n)
               else State(0, w, if s.backoff > 0 then s.backoff - 1 else 0, w, s.disconnects)
  {
    if n > 0 {
      SuccessesFrom(s, max, n - 1);
    }
  }

  /** The counterpart: they stop one worker, or raise the backoff for the last one; at the maximum each deadline disconnects. */
  lemma {:induction false} DeadlinesFrom(s: State, max: int, n: nat)
    requires Healthy(s, max) && (s.backoff < MAX_BACKOFF ==> n <= 2 * s.numWorkers + s.errMetric)
    ensures Repeat(s, max, DeadlineExceeded, n)
            == if s.backoff == MAX_BACKOFF then s.(disconnects := s.disconnects + n)
               else if n < 2 * s.numWorkers + s.errMetric then s.(errMetric := s.errMetric - n)
               else if s.numWorkers > 1 then s.(errMetric := 0, numWorkers := s.numWorkers - 1, live := s.live - 1)
               else s.(errMetric := 0, backoff := s.backoff + 1)
  {
    if n > 0 {
      DeadlinesFrom(s, max, n - 1);
    }
  }

  lemma {:induction false} RepeatHealthy(s: State, max: int, outcome: Outcome, n: nat)
    requires Healthy(s, max)
    ensures Healthy(Repeat(s, max, outcome, n), max)
  {
    if n > 0 {
      RepeatHealthy(s, max, outcome, n - 1);
      StepDistance(Repeat(s, max, outcome, n - 1), max, outcome);
    }
  }

  lemma {:induction false} RepeatMore(s: State, max: int, outcome: Outcome, a: nat, b: nat)
    ensures Repeat(s, max, outcome, a + b) == Repeat(Repeat(s, max, outcome, a), max, outcome, b)
  {
    if b > 0 {
      RepeatMore(s, max, outcome, a, b - 1);
    }
  }

  function AllSuccesses(n: nat): seq<Outcome> {
    seq(n, _ => Success)
  }

  lemma {:induction false} RunRepeats(max: int, outcomes: seq<Outcome>, n: nat)
    ensures Run(max, outcomes + AllSuccesses(n)) == Repeat(Run(max, outcomes), max, Success, n)
  {
    if n == 0 {
      assert outcomes + AllSuccesses(0) == outcomes;
    } else {
      RunRepeats(max, outcomes, n - 1);
      assert (outcomes + AllSuccesses(n))[..|outcomes| + n - 1] == outcomes + AllSuccesses(n - 1);
    }
  }

  /** The successes up to w workers: twice the workers for each. */
  function Climb(w: nat): nat
    requires w >= 2
  {
    if w == 2 then 0 else Climb(w - 1) + 2 * (w - 1)
  }

  lemma {:induction false} ClimbIs(w: nat)
    requires w >= 2
    ensures Climb(w) == w * (w - 1) - 2
  {
    if w > 2 {
      ClimbIs(w - 1);
      Neighbours(w - 1);
    }
  }

  lemma {:induction false} ClimbsTo(max: int, w: nat, j: nat)
    requires 2 <= w <= max && j < 2 * w
    ensures Run(max, AllSuccesses(Climb(w) + j)) == State(j, w, 0, w, 0)
    decreases w, j
  {
    hide Run, Climb;
    var n := Climb(w) + j;
    if j > 0 {
      ClimbsTo(max, w, j - 1);
      LastSuccess(max, n);
    } else if w > 2 {
      ClimbsTo(max, w - 1, 2 * w - 3);
      ClimbStep(w);
      LastSuccess(max, n);
    } else {
      ClimbStart(max);
    }
  }

  lemma ClimbStep(w: nat)
    requires w > 2
    ensures Climb(w) == Climb(w - 1) + 2 * (w - 1)
  {
  }

  lemma ClimbStart(max: int)
    ensures Climb(2) == 0 && Run(max, AllSuccesses(0)) == Initial()
  {
  }

  lemma LastSuccess(max: int, n: nat)
    requires n > 0
    ensures Run(max, AllSuccesses(n)) == Step(Run(max, AllSuccesses(n - 1)), max, Success)
  {
    hide Step;
    assert AllSuccesses(n)[..n - 1] == AllSuccesses(n - 1);
  }

  /** From the start: after w * (w - 1) - 2 successes there are w workers, and they are as many until the next 2 * w. */
  lemma SuccessesInARow(max: int, w: nat, j: nat)
    requires 2 <= w <= max && j < 2 * w
    ensures w * (w - 1) - 2 + j >= 0
    ensures Run(max, AllSuccesses(w * (w - 1) - 2 + j)) == State(j, w, 0, w, 0)
  {
    hide Run, Climb;
    ClimbIs(w);
    ClimbsTo(max, w, j);
  }

  function Budget(top: nat, r: nat): nat {
    if r == 0 then 2 * top else Budget(top, r - 1) + 2 * top
  }

  lemma {:induction false} BudgetIs(top: nat, r: nat)
    ensures Budget(top, r) == 2 * top * (r + 1)
  {
    if r > 0 {
      BudgetIs(top, r - 1);
      assert 2 * top * (r + 1) == 2 * top * r + 2 * top;
    }
  }

  function Top(s: State, max: int): int {
    if s.numWorkers < max then max else s.numWorkers
  }

  /** r rounds of successes: r more workers up to the limit, r steps of backoff less. */
  lemma {:induction false} Recovers(s: State, max: int, r: nat) returns (n: nat)
    requires Healthy(s, max) && r > 0
    ensures var w := if s.numWorkers + r < Top(s, max) then s.numWorkers + r else Top(s, max);
            && Repeat(s, max, Success, n) == State(0, w, if s.backoff > r then s.backoff - r else 0, w, s.disconnects)
            && n <= Budget(Top(s, max), r)
    decreases r
  {
    hide Repeat;
    if r == 1 {
      n := 2 * s.numWorkers - s.errMetric;
      SuccessesFrom(s, max, n);
      assert Budget(Top(s, max), 1) == 4 * Top(s, max);
    } else {
      var before := Recovers(s, max, r - 1);
      var t := Repeat(s, max, Success, before);
      RepeatHealthy(s, max, Success, before);
      var more: nat := 2 * t.numWorkers;
      SuccessesFrom(t, max, more);
      RepeatMore(s, max, Success, before, more);
      n := before + more;
    }
  }

  /** After any sequence of results, enough successes bring all workers back and end the backoff. */
  lemma FullRecovery(max: int, outcomes: seq<Outcome>) returns (n: nat)
    requires max >= 2
    ensures Run(max, outcomes + AllSuccesses(n)) == State(0, max, 0, max, Run(max, outcomes).disconnects)
    ensures n <= 2 * max * (max + MAX_BACKOFF + 1)
  {
    hide Run, Repeat, Budget, Distance;
    NoEarlyDisconnect(max, outcomes);
    n := Recovers(Run(max, outcomes), max, max + MAX_BACKOFF);
    BudgetIs(max, max + MAX_BACKOFF);
    RunRepeats(max, outcomes, n);
  }

  // ----- results that are neither

  function WithoutOthers(outcomes: seq<Outcome>): seq<Outcome> {
    if outcomes == [] then []
    else
      WithoutOthers(outcomes[..|outcomes| - 1])
      + if outcomes[|outcomes| - 1] == OtherError then [] else [outcomes[|outcomes| - 1]]
  }

  /** Other errors change nothing, wherever they come. */
  lemma {:induction false} OthersDoNotCount(max: int, outcomes: seq<Outcome>)
    ensures Run(max, WithoutOthers(outcomes)) == Run(max, outcomes)
    ensures OtherError !in WithoutOthers(outcomes)
  {
    if outcomes != [] {
      var before := outcomes[..|outcomes| - 1];
      OthersDoNotCount(max, before);
      var w := WithoutOthers(before);
      assert (w + [outcomes[|outcomes| - 1]])[..|w|] == w;
      assert w + [] == w;
    }
  }

  // ----- the waits

  /** The waits of a run, in seconds: each time the backoff is raised, twice the backoff. */
  function Waits(max: int, outcomes: seq<Outcome>): seq<int> {
    if outcomes == [] then []
    else
      var before := outcomes[..|outcomes| - 1];
      Waits(max, before)
      + if Run(max, outcomes).backoff > Run(max, before).backoff then [2 * Run(max, outcomes).backoff] else []
  }

  lemma RaisedByOne(s: State, max: int)
    ensures s.backoff <= Step(s, max, DeadlineExceeded).backoff <= s.backoff + 1
  {
  }

  /** Deadlines in a row wait 2, 4, 6 and up to 20 seconds. */
  lemma {:induction false} WaitsInARow(max: int, n: nat)
    requires n <= 24
    ensures var b := Run(max, AllDeadlines(n)).backoff;
            && b >= 0 && Waits(max, AllDeadlines(n)) == seq(b, i => 2 * (i + 1))
            && (n == 24 ==> Waits(max, AllDeadlines(n)) == [2, 4, 6, 8, 10, 12, 14, 16, 18, 20])
  {
    hide Step, Distance;
    DeadlinesInARow(max, n);
    if n > 0 {
      RaisedByOne(Run(max, AllDeadlines(n - 1)), max);
      WaitsInARow(max, n - 1);
      DeadlinesInARow(max, n - 1);
      assert AllDeadlines(n)[..n - 1] == AllDeadlines(n - 1);
    }
  }

  class P2PBus {
    const maxRequestWorkers: int
    var errMetric: int
    var numWorkers: int
    var backoff: int
    ghost var live: int
    ghost var disconnects: nat
    ghost var waits: seq<int>

    ghost function View(): State
      reads this
    {
      State(errMetric, numWorkers, backoff, live, disconnects)
    }

    /** newP2PBus */
    constructor (reqCount: int)
      ensures maxRequestWorkers == reqCount && View() == Initial() && waits == []
    {
      maxRequestWorkers := reqCount;
      errMetric, numWorkers, backoff, live, disconnects, waits := 0, 2, 0, 2, 0, [];
    }

    function BackoffCalc(): int
      reads this
    {
      backoff * 2
    }

    /** One round of workerOversight; closed tells that the connection was closed while it waited inside the round. */
    method Handle(outcome: Outcome) returns (closed: bool)
      requires Healthy(View(), maxRequestWorkers)
      requires forall i :: 0 <= i < |waits| ==> 2 <= waits[i] <= 20
      modifies this
      ensures !closed ==> View() == Step(old(View()), maxRequestWorkers, outcome)
      ensures closed ==> outcome == DeadlineExceeded
      ensures disconnects == Step(old(View()), maxRequestWorkers, outcome).disconnects
      ensures !closed ==> waits == old(waits) + if backoff > old(backoff) then [2 * backoff] else []
      ensures forall i :: 0 <= i < |waits| ==> 2 <= waits[i] <= 20
    {
      closed := false;
      if outcome == Success {
        errMetric := errMetric + 1;
        if errMetric >= numWorkers * 2 {
          if backoff > 0 {
            backoff := backoff - 1;
          }
          errMetric := 0;
          if numWorkers < maxRequestWorkers {
            numWorkers := numWorkers + 1;
            live := live + 1;
          }
        }
      }
      if outcome == DeadlineExceeded {
        if backoff == 10 {
          disconnects := disconnects + 1;
          return;
        }
        errMetric := errMetric - 1;
        if errMetric <= -numWorkers * 2 {
          errMetric := 0;
          if numWorkers > 0 {
            numWorkers := numWorkers - 1;
            if * {
              return true;
            }
            live := live - 1;
            if numWorkers == 0 {
              if backoff < 10 {
                backoff := backoff + 1;
              }
              waits := waits + [BackoffCalc()];
              if * {
                return true;
              }
              numWorkers := numWorkers + 1;
              live := live + 1;
            }
          }
        }
      }
    }

    /** workerOversight on the results received before the connection closes */
    method Oversee(outcomes: seq<Outcome>) returns (received: nat, interrupted: bool)
      requires View() == Initial() && waits == []
      modifies this
      ensures received <= |outcomes|
      ensures !interrupted ==>
                View() == Run(maxRequestWorkers, outcomes[..received]) && Healthy(View(), maxRequestWorkers)
      ensures disconnects == Run(maxRequestWorkers, outcomes[..received]).disconnects
      ensures disconnects > 0 ==> Deadlines(outcomes[..received]) >= 25
      ensures !interrupted ==> waits == Waits(maxRequestWorkers, outcomes[..received])
      ensures forall i :: 0 <= i < |waits| ==> 2 <= waits[i] <= 20
    {
      received, interrupted := 0, false;
      while received < |outcomes|
        invariant received <= |outcomes| && !interrupted
        invariant View() == Run(maxRequestWorkers, outcomes[..received])
        invariant waits == Waits(maxRequestWorkers, outcomes[..received])
        invariant forall i :: 0 <= i < |waits| ==> 2 <= waits[i] <= 20
      {
        if * {
          break;
        }
        NoEarlyDisconnect(maxRequestWorkers, outcomes[..received]);
        assert outcomes[..received + 1][..received] == outcomes[..received];
        interrupted := Handle(outcomes[received]);
        received := received + 1;
        if interrupted {
          break;
        }
      }
      NoEarlyDisconnect(maxRequestWorkers, outcomes[..received]);
    }
  }
}
