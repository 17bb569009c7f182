/**
  The event socket's reconnection (incus-ui/src/Events.tsx): a failure counter that sockets change when
  they close, a delay computed from it, one timer that is replaced whenever the effect runs again, and
  a bounded chain of retries when the socket cannot even be constructed.
 */
module Reconnection {
  import opened TextSearch

  // ---------- The delay ----------

  function Pow2(n: nat): nat {
    if n == 0 then 1 else 2 * Pow2(n - 1)
  }

  const MAX_DELAY := 30000
  const SHORT_LIVED := 5000

  function Delay(failures: nat): nat {
    if failures == 0 then 0
    else if 1000 * Pow2(failures - 1) < MAX_DELAY then 1000 * Pow2(failures - 1) else MAX_DELAY
  }

  lemma {:induction false} Pow2Monotone(m: nat, n: nat)
    requires m <= n
    ensures Pow2(m) <= Pow2(n)
    decreases n
  {
    if m < n {
      Pow2Monotone(m, n - 1);
    }
  }

  /** The delay grows with the failures, doubles from one to five of them and stays at its maximum from six on. */
  lemma DelayShape(m: nat, n: nat)
    requires m <= n
    ensures Delay(m) <= Delay(n) <= MAX_DELAY
    ensures 1 <= m < 5 ==> Delay(m + 1) == 2 * Delay(m)
    ensures Delay(n) == MAX_DELAY <==> n >= 6
  {
    if m > 0 {
      Pow2Monotone(m - 1, n - 1);
    }
    assert Pow2(4) == 16 by { assert Pow2(2) == 4; }
    assert Pow2(5) == 32;
    assert Pow2(1) == 2 && Pow2(2) == 4 && Pow2(3) == 8;
    if n >= 6 {
      Pow2Monotone(5, n - 1);
    } else if n >= 1 {
      Pow2Monotone(n - 1, 4);
    }
  }

  /** In milliseconds: nothing without a failure, one second with one, twice as much with each more, up to thirty. */
  lemma DelayValues()
    ensures Delay(0) == 0 && Delay(1) == 1000 && Delay(2) == 2000 && Delay(3) == 4000 && Delay(4) == 8000
    ensures Delay(5) == 16000 && forall n: nat :: n >= 6 ==> Delay(n) == 30000
  {
    assert Pow2(1) == 2 && Pow2(2) == 4 && Pow2(3) == 8;
    DelayShape(1, 2);
    DelayShape(2, 3);
    DelayShape(3, 4);
    DelayShape(4, 5);
    forall n: nat | n >= 6 ensures Delay(n) == 30000 {
      DelayShape(6, n);
    }
  }

  // ---------- The state of the component ----------

  /** When a socket opened; `None` until it does. */
  datatype Socket = Socket(openedAt: Option<nat>)

  /** What one timer of the effect has led to: the attempts made and the delays of the retries scheduled. */
  datatype Chain = Chain(attempts: nat, waits: seq<nat>)

  /** A pending retry: the argument with which the attempt will be made, and the chain it continues. */
  datatype Retry = Retry(count: nat, chain: Chain)

  /** A chain that has ended, with a socket or with a notice. */
  datatype Outcome = Outcome(chain: Chain, connected: bool)

  datatype State = State(
    authenticated: bool,
    failures: nat,
    eventWs: Option<nat>,          // the index of the open socket the component knows
    sockets: seq<Socket>,          // every socket constructed so far
    timer: Option<nat>,            // the timer variable of the latest run of the effect
    outstanding: set<nat>,         // the timers that are scheduled and not cleared
    delays: seq<nat>,              // the delay of every timer set so far
    retries: seq<Retry>,           // the pending retries of failed constructors
    finished: seq<Outcome>,        // the chains of attempts that have ended
    chains: nat,                   // the chains of attempts begun
    attempts: nat,                 // the attempts to construct a socket
    notices: nat)                  // the failures shown to the user

  const UNMOUNTED := State(false, 0, None, [], None, {}, [], [], [], 0, 0, 0)
  const MAX_WS_CONNECTION_RETRIES := 5
  const WS_RETRY_DELAY_MULTIPLIER := 250

  /** Clean up after the previous run of the effect and run it: clear its timer, set a new one when unconnected. */
  function RunEffect(s: State): State {
    var cleared := s.(outstanding := if s.timer.Some? then s.outstanding - {s.timer.value} else s.outstanding);
    if s.eventWs.None? && s.authenticated then
      cleared.(
        timer := Some(|s.delays|),
        outstanding := cleared.outstanding + {|s.delays|},
        delays := s.delays + [Delay(s.failures)])
    else cleared.(timer := None)
  }

  /** Setting the known socket runs the effect only when the value changes. */
  function SetEventWs(s: State, ws: Option<nat>): State {
    if s.eventWs == ws then s else RunEffect(s.(eventWs := ws))
  }

  function CountFailure(failures: nat, socket: Socket, now: nat): nat {
    if socket.openedAt.None? || now - socket.openedAt.value < SHORT_LIVED then failures + 1 else 0
  }

  /** An attempt of a chain to construct a socket, which may throw. */
  function Attempt(s: State, chain: Chain, retry: nat, throws: bool): State {
    var counted, made := s.(attempts := s.attempts + 1), chain.(attempts := chain.attempts + 1);
    if !throws then
      counted.(sockets := s.sockets + [Socket(None)], finished := s.finished + [Outcome(made, true)])
    else if retry < MAX_WS_CONNECTION_RETRIES then
      var delayed := made.(waits := made.waits + [WS_RETRY_DELAY_MULTIPLIER * retry]);
      counted.(retries := s.retries + [Retry(retry + 1, delayed)])
    else counted.(notices := s.notices + 1, finished := s.finished + [Outcome(made, false)])
  }

  datatype Event =
    | SetAuthenticated(value: bool)
    | TabVisible
    | TimerFires(timer: nat, throws: bool)
    | RetryFires(index: nat, throws: bool)
    | Opens(socket: nat, now: nat)
    | Ends(socket: nat, now: nat)    // a close event or an error event

  function Next(s: State, e: Event): State {
    match e
    case SetAuthenticated(value) =>
      if value == s.authenticated then s else RunEffect(s.(authenticated := value))
    case TabVisible => if s.eventWs.None? then RunEffect(s) else s
    case TimerFires(t, throws) =>
      if t !in s.outstanding then s
      else Attempt(s.(outstanding := s.outstanding - {t}, chains := s.chains + 1), Chain(0, []), 0, throws)
    case RetryFires(k, throws) =>
      if k >= |s.retries| then s
      else Attempt(s.(retries := RemoveAt(s.retries, k)), s.retries[k].chain, s.retries[k].count, throws)
    case Opens(k, now) =>
      if k >= |s.sockets| then s
      else SetEventWs(s.(sockets := s.sockets[k := Socket(Some(now))]), Some(k))
    case Ends(k, now) =>
      if k >= |s.sockets| then s
      else SetEventWs(s.(failures := CountFailure(s.failures, s.sockets[k], now)), None)
  }

  function After(s: State, events: seq<Event>): State
    decreases |events|
  {
    if events == [] then s else After(Next(s, events[0]), events[1..])
  }

  /** The component with its state in fields, as its handlers change it. */
  class EventSocket {
    var authenticated: bool
    var eventWsFailureCount: nat
    var eventWs: Option<nat>
    var sockets: seq<Socket>
    var timer: Option<nat>
    var outstanding: set<nat>
    var delays: seq<nat>
    var retries: seq<Retry>
    var finished: seq<Outcome>
    var chains: nat
    var attempts: nat
    var notices: nat

    constructor ()
      ensures Value() == UNMOUNTED
    {
      authenticated, eventWsFailureCount, eventWs, sockets := false, 0, None, [];
      timer, outstanding, delays := None, {}, [];
      retries, finished, chains, attempts, notices := [], [], 0, 0, 0;
    }

    function Value(): State
      reads this
    {
      State(authenticated, eventWsFailureCount, eventWs, sockets, timer, outstanding, delays, retries,
            finished, chains, attempts, notices)
    }

    method Effect()
      modifies this
      ensures Value() == RunEffect(old(Value()))
    {
      if timer.Some? {
        outstanding := outstanding - {timer.value};
      }
      timer := None;
      if eventWs.None? && authenticated {
        var failures := eventWsFailureCount;
        var delay := Delay(failures);
        timer := Some(|delays|);
        outstanding := outstanding + {|delays|};
        delays := delays + [delay];
      }
    }

    method SetSocket(ws: Option<nat>)
      modifies this
      ensures Value() == SetEventWs(old(Value()), ws)
    {
      if eventWs != ws {
        eventWs := ws;
        Effect();
      }
    }

    method RegisterFailureIfShortLived(socket: nat, now: nat)
      requires socket < |sockets|
      modifies this`eventWsFailureCount
      ensures eventWsFailureCount == CountFailure(old(eventWsFailureCount), sockets[socket], now)
    {
      var openedAt := sockets[socket].openedAt;
      if openedAt.None? || now - openedAt.value < SHORT_LIVED {
        eventWsFailureCount := eventWsFailureCount + 1;
      } else {
        eventWsFailureCount := 0;
      }
    }

    method OnOpen(socket: nat, now: nat)
      requires socket < |sockets|
      modifies this
      ensures Value() == Next(old(Value()), Opens(socket, now))
    {
      sockets := sockets[socket := Socket(Some(now))];
      SetSocket(Some(socket));
    }

    method OnCloseOrError(socket: nat, now: nat)
      requires socket < |sockets|
      modifies this
      ensures Value() == Next(old(Value()), Ends(socket, now))
    {
      RegisterFailureIfShortLived(socket, now);
      SetSocket(None);
    }

    method ConnectEventWs(chain: Chain, retryCount: nat, throws: bool)
      modifies this
      ensures Value() == Attempt(old(Value()), chain, retryCount, throws)
    {
      attempts := attempts + 1;
      var made := chain.(attempts := chain.attempts + 1);
      if !throws {
        sockets, finished := sockets + [Socket(None)], finished + [Outcome(made, true)];
      } else if retryCount < MAX_WS_CONNECTION_RETRIES {
        var delay := WS_RETRY_DELAY_MULTIPLIER * retryCount;
        retries := retries + [Retry(retryCount + 1, made.(waits := made.waits + [delay]))];
      } else {
        notices, finished := notices + 1, finished + [Outcome(made, false)];
      }
    }

    method OnTimer(t: nat, throws: bool)
      requires t in outstanding
      modifies this
      ensures Value() == Next(old(Value()), TimerFires(t, throws))
    {
      outstanding, chains := outstanding - {t}, chains + 1;
      ConnectEventWs(Chain(0, []), 0, throws);
    }

    method OnRetryTimer(k: nat, throws: bool)
      requires k < |retries|
      modifies this
      ensures Value() == Next(old(Value()), RetryFires(k, throws))
    {
      var retry := retries[k];
      retries := RemoveAt(retries, k);
      ConnectEventWs(retry.chain, retry.count, throws);
    }

    method OnTabVisible()
      modifies this
      ensures Value() == Next(old(Value()), TabVisible)
    {
      if eventWs.None? {
        Effect();
      }
    }

    method OnAuthentication(value: bool)
      modifies this
      ensures Value() == Next(old(Value()), SetAuthenticated(value))
    {
      if value != authenticated {
        authenticated := value;
        Effect();
      }
    }
  }

  // ---------- Invariants of every run ----------

  /** How many attempts the pending retries may still make. */
  function Budget(retries: seq<Retry>): int {
    if retries == [] then 0 else 6 - retries[0].count + Budget(retries[1..])
  }

  /** The delays of the first retries of a chain. */
  function Waits(retries: nat): seq<nat> {
    seq(retries, i => WS_RETRY_DELAY_MULTIPLIER * i)
  }

  predicate RetryInv(r: Retry) {
    1 <= r.count <= MAX_WS_CONNECTION_RETRIES && r.chain == Chain(r.count, Waits(r.count))
  }

  predicate OutcomeInv(o: Outcome) {
    if o.connected then 1 <= o.chain.attempts <= 6 && o.chain.waits == Waits(o.chain.attempts - 1)
    else o.chain == Chain(6, Waits(5))
  }

  function GivenUp(finished: seq<Outcome>): nat {
    if finished == [] then 0
    else GivenUp(finished[..|finished| - 1]) + (if finished[|finished| - 1].connected then 0 else 1)
  }

  ghost predicate Inv(s: State) {
    && s.outstanding <= (if s.timer.Some? then {s.timer.value} else {})
    && (s.timer.Some? ==> s.timer.value < |s.delays| && s.eventWs.None? && s.authenticated)
    && (s.eventWs.Some? ==> s.eventWs.value < |s.sockets| && s.sockets[s.eventWs.value].openedAt.Some?)
    && (forall d :: d in s.delays ==> exists f: nat :: d == Delay(f))
  }

  /** Every chain is pending as its retry says, or has ended with a socket or with a notice. */
  ghost predicate ChainsInv(s: State, chains: int) {
    && (forall r :: r in s.retries ==> RetryInv(r))
    && (forall o :: o in s.finished ==> OutcomeInv(o))
    && |s.retries| + |s.finished| == chains
    && GivenUp(s.finished) == s.notices && |s.sockets| + s.notices == |s.finished|
  }

  ghost predicate RetriesInv(s: State) {
    ChainsInv(s, s.chains) && s.attempts + Budget(s.retries) <= 6 * s.chains
  }

  lemma StepKeepsInv(s: State, e: Event)
    requires Inv(s)
    ensures Inv(Next(s, e))
  {
  }

  lemma {:induction false} BudgetConcat(a: seq<Retry>, b: seq<Retry>)
    ensures Budget(a + b) == Budget(a) + Budget(b)
  {
    if a == [] {
      assert a + b == b;
    } else {
      assert (a + b)[1..] == a[1..] + b;
      BudgetConcat(a[1..], b);
    }
  }

  lemma BudgetFirst(r: Retry, rest: seq<Retry>)
    ensures Budget([r] + rest) == 6 - r.count + Budget(rest)
  {
    assert ([r] + rest)[1..] == rest;
  }

  lemma BudgetOne(r: Retry)
    ensures Budget([r]) == 6 - r.count
  {
    assert [r][1..] == [];
  }

  lemma BudgetWithout(retries: seq<Retry>, k: nat)
    requires k < |retries|
    ensures Budget(RemoveAt(retries, k)) == Budget(retries) - 6 + retries[k].count
  {
    hide Budget;
    var before, r, behind := retries[..k], retries[k], retries[k + 1..];
    BudgetConcat(before, behind);
    BudgetConcat(before, [r] + behind);
    BudgetFirst(r, behind);
    assert retries == before + ([r] + behind);
  }

  lemma GivenUpOneMore(finished: seq<Outcome>, o: Outcome)
    ensures GivenUp(finished + [o]) == GivenUp(finished) + (if o.connected then 0 else 1)
  {
    assert (finished + [o])[..|finished|] == finished;
  }

  lemma WaitsNone()
    ensures Waits(0) == []
  {
  }

  lemma WaitsOneMore(n: nat)
    ensures Waits(n + 1) == Waits(n) + [WS_RETRY_DELAY_MULTIPLIER * n]
  {
  }

  /** An attempt of a chain that has made `retry` of them, taken out of the pending ones. */
  lemma AttemptKeepsRetries(s: State, chain: Chain, retry: nat, throws: bool)
    requires retry <= MAX_WS_CONNECTION_RETRIES && chain == Chain(retry, Waits(retry))
    requires ChainsInv(s, s.chains - 1)
    requires s.attempts + Budget(s.retries) + 6 - retry <= 6 * s.chains
    ensures RetriesInv(Attempt(s, chain, retry, throws))
  {
    hide Budget, Waits, GivenUp;
    var made := chain.(attempts := retry + 1);
    GivenUpOneMore(s.finished, Outcome(made, !throws));
    WaitsOneMore(retry);
    var next := Retry(retry + 1, made.(waits := made.waits + [WS_RETRY_DELAY_MULTIPLIER * retry]));
    BudgetConcat(s.retries, [next]);
    BudgetOne(next);
  }

  lemma StepKeepsRetries(s: State, e: Event)
    requires RetriesInv(s)
    ensures RetriesInv(Next(s, e))
  {
    hide Budget, Attempt, Waits, GivenUp;
    match e
    case TimerFires(t, throws) =>
      if t in s.outstanding {
        WaitsNone();
        AttemptKeepsRetries(s.(outstanding := s.outstanding - {t}, chains := s.chains + 1), Chain(0, []), 0, throws);
      }
    case RetryFires(k, throws) =>
      if k < |s.retries| {
        BudgetWithout(s.retries, k);
        var r := s.retries[k];
        assert r in s.retries;
        forall other | other in RemoveAt(s.retries, k) ensures other in s.retries {
        }
        AttemptKeepsRetries(s.(retries := RemoveAt(s.retries, k)), r.chain, r.count, throws);
      }
    case _ =>
  }

  lemma {:induction false} RunKeepsInv(s: State, events: seq<Event>)
    requires Inv(s) && RetriesInv(s)
    ensures Inv(After(s, events)) && RetriesInv(After(s, events))
    decreases |events|
  {
    hide Inv, RetriesInv;
    if events != [] {
      StepKeepsInv(s, events[0]);
      StepKeepsRetries(s, events[0]);
      RunKeepsInv(Next(s, events[0]), events[1..]);
    }
  }

  /**
    In every history, constructors that throw included: at most one reconnect timer of the effect is scheduled,
    none while a socket is open or the user is not authenticated, and every delay ever used lies between zero and
    the maximum.
   */
  lemma OneTimerAtMost(events: seq<Event>)
    ensures var s := After(UNMOUNTED, events);
            && |s.outstanding| <= 1
            && (s.eventWs.Some? || !s.authenticated ==> s.outstanding == {})
            && (forall d :: d in s.delays ==> 0 <= d <= MAX_DELAY)
  {
    RunKeepsInv(UNMOUNTED, events);
    var s := After(UNMOUNTED, events);
    if s.timer.Some? {
      SubsetOfOne(s.outstanding, s.timer.value);
    }
    forall d | d in s.delays
      ensures 0 <= d <= MAX_DELAY
    {
      var f: nat :| d == Delay(f);
      DelayShape(f, f);
    }
  }

  /**
    In every history every pending retry is the first to fifth of its chain, and all chains together, however
    their retries interleave, make at most six attempts each.
   */
  lemma AttemptsBounded(events: seq<Event>)
    ensures var s := After(UNMOUNTED, events);
            && (forall r :: r in s.retries ==> 1 <= r.count <= MAX_WS_CONNECTION_RETRIES)
            && s.attempts + |s.retries| <= 6 * s.chains
  {
    RunKeepsInv(UNMOUNTED, events);
    BudgetCovers(After(UNMOUNTED, events).retries);
  }

  lemma {:induction false} BudgetCovers(retries: seq<Retry>)
    requires forall r :: r in retries ==> 1 <= r.count <= MAX_WS_CONNECTION_RETRIES
    ensures Budget(retries) >= |retries|
  {
    if retries != [] {
      assert retries[0] in retries && forall r :: r in retries[1..] ==> r in retries;
      BudgetCovers(retries[1..]);
    }
  }

  function Sum(delays: seq<nat>): nat {
    if delays == [] then 0 else Sum(delays[..|delays| - 1]) + delays[|delays| - 1]
  }

  lemma {:induction false} WaitsTotal(n: nat)
    ensures Sum(Waits(n)) == 125 * n * (n - 1)
  {
    if n > 0 {
      WaitsOneMore(n - 1);
      assert Waits(n)[..n - 1] == Waits(n - 1);
      WaitsTotal(n - 1);
    }
  }

  lemma RetryBound(r: Retry)
    requires RetryInv(r)
    ensures 1 <= r.count == r.chain.attempts <= 5 && r.chain.waits == Waits(r.count)
    ensures Sum(r.chain.waits) == 125 * r.count * (r.count - 1)
  {
    WaitsTotal(r.count);
  }

  lemma OutcomeBound(o: Outcome)
    requires OutcomeInv(o)
    ensures o.chain.attempts == |o.chain.waits| + 1 <= 6 && o.chain.waits == Waits(|o.chain.waits|)
    ensures !o.connected ==> o.chain.attempts == 6 && Sum(o.chain.waits) == 2500
  {
    WaitsTotal(5);
  }

  /**
    In every history, however timers and retries interleave, each chain begun is pending, connected or given up.
    A pending one has made one to five attempts and will make its next with that count. A connected one has made
    at most six, one for each retry it waited for and one more. One given up has made exactly six and waited
    2500 ms. The `k`-th retry is delayed by `250 * (k - 1)` ms, and there is one notice for each chain given up.
   */
  lemma RetriesBounded(events: seq<Event>)
    ensures var s := After(UNMOUNTED, events);
            && |s.retries| + |s.finished| == s.chains
            && |s.sockets| == |s.finished| - s.notices && s.notices == GivenUp(s.finished)
            && (forall r :: r in s.retries ==>
                  && 1 <= r.count == r.chain.attempts <= 5
                  && r.chain.waits == Waits(r.count) && Sum(r.chain.waits) == 125 * r.count * (r.count - 1))
            && (forall o :: o in s.finished ==>
                  && o.chain.attempts == |o.chain.waits| + 1 <= 6
                  && o.chain.waits == Waits(|o.chain.waits|)
                  && (!o.connected ==> o.chain.attempts == 6 && Sum(o.chain.waits) == 2500))
  {
    RunKeepsInv(UNMOUNTED, events);
    hide After, Inv, Sum, Waits, GivenUp, Budget, RetryInv, OutcomeInv;
    var s := After(UNMOUNTED, events);
    forall r | r in s.retries
      ensures 1 <= r.count == r.chain.attempts <= 5 && r.chain.waits == Waits(r.count)
      ensures Sum(r.chain.waits) == 125 * r.count * (r.count - 1)
    {
      RetryBound(r);
    }
    forall o | o in s.finished
      ensures o.chain.attempts == |o.chain.waits| + 1 <= 6 && o.chain.waits == Waits(|o.chain.waits|)
      ensures !o.connected ==> o.chain.attempts == 6 && Sum(o.chain.waits) == 2500
    {
      OutcomeBound(o);
    }
  }

  lemma SubsetOfOne(a: set<nat>, x: nat)
    requires a <= {x}
    ensures |a| <= 1
  {
    assert a == {} || a == {x};
  }

  /** The socket has opened, and at least five seconds before. */
  predicate LongLived(socket: Socket, now: nat) {
    socket.openedAt.Some? && now - socket.openedAt.value >= 5000
  }

  /** The end of a socket resets the failure count exactly when it has been open for five seconds, or adds one. */
  lemma ResetIff(s: State, k: nat, now: nat)
    requires k < |s.sockets|
    ensures Next(s, Ends(k, now)).failures == 0 <==>
            s.sockets[k].openedAt.Some? && now - s.sockets[k].openedAt.value >= 5000
    ensures !LongLived(s.sockets[k], now) ==> Next(s, Ends(k, now)).failures == s.failures + 1
  {
  }

  /** The failure count goes down only when a socket ends that was open for at least five seconds. */
  lemma ResetOnlyAfterLongLife(s: State, e: Event)
    requires Next(s, e).failures < s.failures
    ensures e.Ends? && e.socket < |s.sockets|
    ensures s.sockets[e.socket].openedAt.Some? && e.now - s.sockets[e.socket].openedAt.value >= 5000
    ensures Next(s, e).failures == 0
  {
  }

  /** The end of a socket schedules a reconnect exactly when the component knew an open socket. */
  lemma EndSchedulesIffConnected(s: State, k: nat, now: nat)
    requires Inv(s) && s.authenticated && k < |s.sockets|
    ensures |Next(s, Ends(k, now)).delays| > |s.delays| <==> s.eventWs.Some?
    ensures s.eventWs.Some? ==>
              var s' := Next(s, Ends(k, now));
              && s'.outstanding == {|s.delays|}
              && s'.delays[|s.delays|] == if LongLived(s.sockets[k], now) then 0 else Delay(s.failures + 1)
  {
  }

  // ---------- Left without a socket and without a timer ----------

  /** The user is authenticated, and there is neither an open socket nor a scheduled timer of the effect. */
  predicate Stalled(s: State) {
    s.authenticated && s.eventWs.None? && s.outstanding == {}
  }

  /** Event `i` of the history fires a scheduled timer, and no timer has been set since. */
  ghost predicate FiresLast(events: seq<Event>, i: nat)
    requires i < |events|
  {
    var before := After(UNMOUNTED, events[..i]);
    && events[i].TimerFires? && events[i].timer in before.outstanding
    && |After(UNMOUNTED, events).delays| == |before.delays|
  }

  lemma {:induction false} AfterOneMore(s: State, events: seq<Event>, e: Event)
    ensures After(s, events + [e]) == Next(After(s, events), e)
    decreases |events|
  {
    hide Next;
    if events == [] {
      assert events + [e] == [e] && [e][1..] == [];
    } else {
      assert (events + [e])[1..] == events[1..] + [e];
      AfterOneMore(Next(s, events[0]), events[1..], e);
    }
  }

  /** Timers are only ever added. */
  lemma {:induction false} DelaysGrow(events: seq<Event>, i: nat)
    requires i <= |events|
    ensures |After(UNMOUNTED, events[..i]).delays| <= |After(UNMOUNTED, events).delays|
    decreases |events|
  {
    if i < |events| {
      var front, e := events[..|events| - 1], events[|events| - 1];
      assert events == front + [e] && events[..i] == front[..i];
      AfterOneMore(UNMOUNTED, front, e);
      DelaysGrow(front, i);
    } else {
      assert events[..i] == events;
    }
  }

  /** A step that leaves the component waiting for a socket sets a timer, fires one, or changes none of this. */
  lemma WaitingStep(s: State, e: Event)
    requires Inv(s) && Next(s, e).authenticated && Next(s, e).eventWs.None?
    ensures var s' := Next(s, e);
            || (|s'.delays| > |s.delays| && s'.outstanding != {} && !e.TimerFires?)
            || (e.TimerFires? && e.timer in s.outstanding && s'.outstanding == {} && |s'.delays| == |s.delays|)
            || (s.authenticated && s.eventWs.None? && |s'.delays| == |s.delays| && s'.outstanding == s.outstanding &&
                !(e.TimerFires? && e.timer in s.outstanding))
  {
  }

  /**
    Over all histories: an authenticated component without a socket is left without a timer if and only if the
    latest timer has fired, that is, an attempt has been made since the effect last ran.
   */
  lemma {:induction false} StalledIffTimerFired(events: seq<Event>)
    requires var s := After(UNMOUNTED, events); s.authenticated && s.eventWs.None?
    ensures Stalled(After(UNMOUNTED, events)) <==> exists i :: 0 <= i < |events| && FiresLast(events, i)
    decreases |events|
  {
    hide Next, Inv;
    assert events != [];
    var front, e := events[..|events| - 1], events[|events| - 1];
    assert events == front + [e];
    AfterOneMore(UNMOUNTED, front, e);
    var s0, s := After(UNMOUNTED, front), After(UNMOUNTED, events);
    RunKeepsFromStart(front);
    WaitingStep(s0, e);
    forall i | 0 <= i < |front|
      ensures FiresLast(events, i) <==> FiresLast(front, i) && |s.delays| == |s0.delays|
    {
      assert events[..i] == front[..i] && events[i] == front[i];
      DelaysGrow(front, i);
      DelaysGrow(events, |front|);
    }
    if e.TimerFires? && e.timer in s0.outstanding {
      assert FiresLast(events, |front|);
    } else if |s.delays| == |s0.delays| {
      StalledIffTimerFired(front);
      if i :| 0 <= i < |front| && FiresLast(front, i) {
        assert FiresLast(events, i);
      }
    }
  }

  lemma RunKeepsFromStart(events: seq<Event>)
    ensures Inv(After(UNMOUNTED, events))
  {
    RunKeepsInv(UNMOUNTED, events);
  }

  /** What ends a stall: the tab becomes visible, a socket opens, or the user is no longer authenticated. */
  predicate Wakes(s: State, e: Event) {
    e.TabVisible? || (e.Opens? && e.socket < |s.sockets|) || (e.SetAuthenticated? && !e.value)
  }

  lemma StallEndsIffWoken(s: State, e: Event)
    requires Inv(s) && Stalled(s)
    ensures Stalled(Next(s, e)) <==> !Wakes(s, e)
  {
  }

  /** Failures, closes, retries and the passing of time never end a stall. */
  lemma {:induction false} StallLasts(s: State, events: seq<Event>)
    requires Inv(s) && Stalled(s)
    requires forall e :: e in events ==> !e.TabVisible? && !e.Opens? && !(e.SetAuthenticated? && !e.value)
    ensures Stalled(After(s, events))
    decreases |events|
  {
    hide Next, Inv;
    if events != [] {
      assert events[0] in events;
      StallEndsIffWoken(s, events[0]);
      StepKeepsInv(s, events[0]);
      StallLasts(Next(s, events[0]), events[1..]);
    }
  }

  // ---------- Failures counted ----------

  /** The event ends a socket. */
  predicate EndsOne(s: State, e: Event) {
    e.Ends? && e.socket < |s.sockets|
  }

  /** The sockets that end along the events, in order, one entry for each close or error. */
  function Ended(s: State, events: seq<Event>): seq<nat>
    decreases |events|
  {
    if events == [] then []
    else (if EndsOne(s, events[0]) then [events[0].socket] else []) + Ended(Next(s, events[0]), events[1..])
  }

  /** No socket that ends along the events has been open for so long that its end resets the counter. */
  predicate NoReset(s: State, events: seq<Event>)
    decreases |events|
  {
    events != [] ==>
      && (EndsOne(s, events[0]) ==> !LongLived(s.sockets[events[0].socket], events[0].now))
      && NoReset(Next(s, events[0]), events[1..])
  }

  predicate Distinct(q: seq<nat>) {
    forall i, j :: 0 <= i < j < |q| ==> q[i] != q[j]
  }

  function Elements(q: seq<nat>): set<nat> {
    if q == [] then {} else Elements(q[1..]) + {q[0]}
  }

  lemma {:induction false} ElementsAre(q: seq<nat>, x: nat)
    ensures x in Elements(q) <==> x in q
  {
    if q != [] {
      ElementsAre(q[1..], x);
      assert q == [q[0]] + q[1..];
    }
  }

  lemma DistinctFirst(x: nat, rest: seq<nat>)
    ensures Distinct([x] + rest) <==> Distinct(rest) && x !in rest
  {
    var q := [x] + rest;
    assert forall i :: 0 <= i < |rest| ==> q[i + 1] == rest[i];
    if Distinct(q) {
      forall i, j | 0 <= i < j < |rest| ensures rest[i] != rest[j] {
        assert q[i + 1] != q[j + 1];
      }
      forall i | 0 <= i < |rest| ensures rest[i] != x {
        assert q[0] != q[i + 1];
      }
    }
  }

  lemma {:induction false} DistinctIffAsMany(q: seq<nat>)
    ensures |Elements(q)| <= |q|
    ensures |Elements(q)| == |q| <==> Distinct(q)
  {
    if q != [] {
      DistinctIffAsMany(q[1..]);
      ElementsAre(q[1..], q[0]);
      DistinctFirst(q[0], q[1..]);
      assert q == [q[0]] + q[1..];
      if q[0] in q[1..] {
        assert Elements(q) == Elements(q[1..]);
      }
    }
  }

  lemma EventCounts(s: State, e: Event)
    requires EndsOne(s, e) ==> !LongLived(s.sockets[e.socket], e.now)
    ensures Next(s, e).failures == s.failures + (if EndsOne(s, e) then 1 else 0)
  {
  }

  lemma {:induction false} FailuresCounted(s: State, events: seq<Event>)
    requires NoReset(s, events)
    ensures After(s, events).failures == s.failures + |Ended(s, events)|
    decreases |events|
  {
    hide Next;
    if events != [] {
      EventCounts(s, events[0]);
      FailuresCounted(Next(s, events[0]), events[1..]);
    }
  }

  /**
    From any state, along any events none of which resets the counter: it grows by the closes and errors of
    sockets, which is the number of sockets that ended if and only if none of them ended twice, as one does that
    both errs and closes.
   */
  lemma CountedOnceIff(s: State, events: seq<Event>)
    requires NoReset(s, events)
    ensures After(s, events).failures == s.failures + |Ended(s, events)|
    ensures After(s, events).failures == s.failures + |Elements(Ended(s, events))| <==>
            Distinct(Ended(s, events))
  {
    FailuresCounted(s, events);
    DistinctIffAsMany(Ended(s, events));
  }

  /** The sockets whose ends have been counted since the last reset, one entry for each close or error. */
  function Counted(s: State, events: seq<Event>, counted: seq<nat>): seq<nat>
    decreases |events|
  {
    if events == [] then counted
    else Counted(Next(s, events[0]), events[1..], CountedBy(s, events[0], counted))
  }

  function CountedBy(s: State, e: Event, counted: seq<nat>): seq<nat> {
    if !EndsOne(s, e) then counted
    else if LongLived(s.sockets[e.socket], e.now) then []
    else counted + [e.socket]
  }

  lemma CountedByOne(s: State, e: Event, counted: seq<nat>)
    requires s.failures == |counted|
    ensures Next(s, e).failures == |CountedBy(s, e, counted)|
  {
  }

  lemma {:induction false} CountedFrom(s: State, events: seq<Event>, counted: seq<nat>)
    requires s.failures == |counted|
    ensures After(s, events).failures == |Counted(s, events, counted)|
    decreases |events|
  {
    hide Next, CountedBy;
    if events != [] {
      CountedByOne(s, events[0], counted);
      CountedFrom(Next(s, events[0]), events[1..], CountedBy(s, events[0], counted));
    }
  }

  /**
    In every history, resets included: the counter is the number of closes and errors of sockets since the last
    reset, and that of the sockets they ended if and only if none of these ended twice.
   */
  lemma FailuresIff(events: seq<Event>)
    ensures var counted := Counted(UNMOUNTED, events, []);
            && After(UNMOUNTED, events).failures == |counted|
            && (After(UNMOUNTED, events).failures == |Elements(counted)| <==> Distinct(counted))
  {
    CountedFrom(UNMOUNTED, events, []);
    DistinctIffAsMany(Counted(UNMOUNTED, events, []));
  }

  // ---------- When a socket has opened ----------

  /** Event `i` of the history opens the socket, which has been constructed, at that time. */
  ghost predicate OpensThen(events: seq<Event>, i: int, k: nat, time: nat) {
    0 <= i < |events| && events[i] == Opens(k, time) && k < |After(UNMOUNTED, events[..i]).sockets|
  }

  /** Event `i` is the last one that opens the socket. */
  ghost predicate OpensLast(events: seq<Event>, i: int, k: nat, time: nat) {
    OpensThen(events, i, k, time) && forall j, t :: i < j ==> !OpensThen(events, j, k, t)
  }

  lemma OpensBefore(front: seq<Event>, e: Event, i: int, k: nat, time: nat)
    requires i < |front|
    ensures OpensThen(front + [e], i, k, time) <==> OpensThen(front, i, k, time)
  {
    if 0 <= i {
      assert (front + [e])[i] == front[i] && (front + [e])[..i] == front[..i];
    }
  }

  lemma SocketStep(s: State, e: Event, k: nat)
    requires k < |Next(s, e).sockets|
    ensures k < |s.sockets| || Next(s, e).sockets[k] == Socket(None)
    ensures k < |s.sockets| ==>
              Next(s, e).sockets[k] == if e.Opens? && e.socket == k then Socket(Some(e.now)) else s.sockets[k]
    ensures k < |s.sockets| || !e.Opens?
  {
  }

  /** In every history the time kept for a socket is that of the last event that opened it, and none without one. */
  lemma {:induction false} OpenedAtIs(events: seq<Event>, k: nat)
    requires k < |After(UNMOUNTED, events).sockets|
    ensures match After(UNMOUNTED, events).sockets[k].openedAt
            case None => forall i, t :: !OpensThen(events, i, k, t)
            case Some(time) => exists i :: OpensLast(events, i, k, time)
    decreases |events|
  {
    hide Next;
    assert events != [];
    var front, e := events[..|events| - 1], events[|events| - 1];
    assert events == front + [e] && events[..|front|] == front;
    AfterOneMore(UNMOUNTED, front, e);
    var before := After(UNMOUNTED, front);
    SocketStep(before, e, k);
    forall i, t | i < |front|
      ensures OpensThen(events, i, k, t) <==> OpensThen(front, i, k, t)
    {
      OpensBefore(front, e, i, k, t);
    }
    if k >= |before.sockets| {
      NotYetOpened(front, k);
    } else if e.Opens? && e.socket == k {
      assert OpensLast(events, |front|, k, e.now);
    } else {
      OpenedAtIs(front, k);
      if before.sockets[k].openedAt.Some? {
        var time := before.sockets[k].openedAt.value;
        var i :| OpensLast(front, i, k, time);
        assert OpensLast(events, i, k, time);
      }
    }
  }

  lemma {:induction false} NotYetOpened(events: seq<Event>, k: nat)
    requires k >= |After(UNMOUNTED, events).sockets|
    ensures forall i, t :: !OpensThen(events, i, k, t)
  {
    forall i, t ensures !OpensThen(events, i, k, t) {
      if OpensThen(events, i, k, t) {
        SocketsGrow(events, i);
      }
    }
  }

  /** Sockets are only ever added. */
  lemma {:induction false} SocketsGrow(events: seq<Event>, i: nat)
    requires i <= |events|
    ensures |After(UNMOUNTED, events[..i]).sockets| <= |After(UNMOUNTED, events).sockets|
    decreases |events|
  {
    if i < |events| {
      var front, e := events[..|events| - 1], events[|events| - 1];
      assert events == front + [e] && events[..i] == front[..i];
      AfterOneMore(UNMOUNTED, front, e);
      SocketsGrow(front, i);
    } else {
      assert events[..i] == events;
    }
  }

  /**
    In every history: the end of a socket resets the failure count if and only if the last event that opened the
    socket lies at least five seconds back; otherwise, or when there is none, it adds one.
   */
  lemma ResetInHistoryIff(events: seq<Event>, k: nat, now: nat)
    requires k < |After(UNMOUNTED, events).sockets|
    ensures var before, after := After(UNMOUNTED, events), After(UNMOUNTED, events + [Ends(k, now)]);
            && (after.failures == 0 <==> exists i, t :: OpensLast(events, i, k, t) && now - t >= 5000)
            && (after.failures == 0 || after.failures == before.failures + 1)
  {
    hide Next;
    AfterOneMore(UNMOUNTED, events, Ends(k, now));
    ResetIff(After(UNMOUNTED, events), k, now);
    OpenedAtIs(events, k);
    forall i, j, t, u | OpensLast(events, i, k, t) && OpensLast(events, j, k, u)
      ensures t == u
    {
      assert i == j;
    }
  }

  /** A first attempt whose socket errs and closes without opening counts twice, and leaves nothing scheduled. */
  lemma FailedAttemptStalls(now: nat)
    ensures var s := After(UNMOUNTED, [SetAuthenticated(true), TimerFires(0, false), Ends(0, now), Ends(0, now)]);
            Stalled(s) && s.failures == 2
  {
    var events := [SetAuthenticated(true), TimerFires(0, false), Ends(0, now), Ends(0, now)];
    assert events[1..] == [TimerFires(0, false), Ends(0, now), Ends(0, now)];
    assert events[1..][1..] == [Ends(0, now), Ends(0, now)];
    assert [Ends(0, now), Ends(0, now)][1..] == [Ends(0, now)] && [Ends(0, now)][1..] == [];
    var s1 := Next(UNMOUNTED, SetAuthenticated(true));
    var s2 := Next(s1, TimerFires(0, false));
    var s3 := Next(s2, Ends(0, now));
    var s4 := Next(s3, Ends(0, now));
    assert After(s3, [Ends(0, now)]) == s4;
    assert After(s2, [Ends(0, now), Ends(0, now)]) == s4;
  }
}
