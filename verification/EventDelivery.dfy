/**
  Delivery of operation results to registered callbacks (incus-ui/src/Events.tsx): socket messages
  handled after a delay and polling passes over possibly stale lists of operations share one queue of
  callbacks, and each callback must be completed at most once.
 */
module EventDelivery {
  import opened TextSearch

  /** One registration: a number that identifies it and whether it has a finishing callback. */
  datatype Callback = Callback(token: nat, hasFinish: bool)

  /** A call made on a registered callback. */
  datatype Effect =
    | Succeeded(token: nat, result: int)
    | Failed(token: nat, message: string)
    | Finished(token: nat)

  /** What a message or an operation in a list says: `result` stands for the event or the operation itself. */
  datatype Report = Report(operationId: string, status: string, err: Option<string>, result: int)

  datatype Queue = Queue(pending: map<string, Callback>, log: seq<Effect>)

  predicate Terminal(status: string) {
    status == "Success" || status == "Failure"
  }

  function Completion(c: Callback, r: Report): Effect
    requires Terminal(r.status)
  {
    if r.status == "Success" then Succeeded(c.token, r.result)
    else Failed(c.token, if r.err.Some? then r.err.value else "")
  }

  function Effects(c: Callback, completion: Effect): seq<Effect> {
    [completion] + if c.hasFinish then [Finished(c.token)] else []
  }

  function Handle(q: Queue, r: Report): Queue {
    if r.operationId !in q.pending || !Terminal(r.status) then q
    else
      var c := q.pending[r.operationId];
      Queue(q.pending - {r.operationId}, q.log + Effects(c, Completion(c, r)))
  }

  function HandleAll(q: Queue, reports: seq<Report>): Queue
    decreases |reports|
  {
    if reports == [] then q else HandleAll(Handle(q, reports[0]), reports[1..])
  }

  /** The queue and the callbacks as the component changes them. */
  class Component {
    var pending: map<string, Callback>
    var log: seq<Effect>

    constructor ()
      ensures Contents() == Queue(map[], [])
    {
      pending := map[];
      log := [];
    }

    function Contents(): Queue
      reads this
    {
      Queue(pending, log)
    }

    method HandleEvent(operationId: string, status: string, err: Option<string>, result: int)
      modifies this
      ensures Contents() == Handle(old(Contents()), Report(operationId, status, err, result))
    {
      if operationId !in pending {
        return;
      }
      var eventCallback := pending[operationId];
      if status == "Success" {
        log := log + [Succeeded(eventCallback.token, result)];
        if eventCallback.hasFinish { log := log + [Finished(eventCallback.token)]; }
        pending := pending - {operationId};
      }
      if status == "Failure" {
        log := log + [Failed(eventCallback.token, if err.Some? then err.value else "")];
        if eventCallback.hasFinish { log := log + [Finished(eventCallback.token)]; }
        pending := pending - {operationId};
      }
      ghost var report := Report(operationId, status, err, result);
      assert log == old(log) || log == old(log) + Effects(eventCallback, Completion(eventCallback, report));
    }

    method ReEvaluateOperations(operations: seq<Report>)
      modifies this
      ensures Contents() == HandleAll(old(Contents()), operations)
    {
      var i := 0;
      assert operations[0..] == operations;
      while i < |operations|
        invariant 0 <= i <= |operations|
        invariant HandleAll(Contents(), operations[i..]) == HandleAll(old(Contents()), operations)
      {
        var operation := operations[i];
        assert operations[i..][0] == operation && operations[i..][1..] == operations[i + 1..];
        HandleEvent(operation.operationId, operation.status, operation.err, operation.result);
        i := i + 1;
      }
    }
  }

  // ---------- What a list of reports does for one registration ----------

  /** The report ends the operation, in one of the two ways that are passed on. */
  predicate Ends(r: Report, id: string) {
    r.operationId == id && (r.status == "Success" || r.status == "Failure")
  }

  /** The position of the first report that ends an operation, or the length of the list. */
  function FirstTerminal(reports: seq<Report>, id: string): (k: nat)
    ensures k <= |reports|
    ensures k < |reports| ==> Ends(reports[k], id)
    ensures forall j :: 0 <= j < k ==> !Ends(reports[j], id)
  {
    if reports == [] then 0 else if Ends(reports[0], id) then 0 else 1 + FirstTerminal(reports[1..], id)
  }

  /** The report completes the callback: the success or the failure callback first, then the finish if there is one. */
  ghost predicate Completes(calls: seq<Effect>, c: Callback, r: Report) {
    var finish := if c.hasFinish then [Finished(c.token)] else [];
    && (r.status == "Success" ==> calls == [Succeeded(c.token, r.result)] + finish)
    && (r.status == "Failure" ==> calls == [Failed(c.token, if r.err.Some? then r.err.value else "")] + finish)
  }

  /** The calls made for one registration. */
  function CallsFor(log: seq<Effect>, token: nat): seq<Effect> {
    if log == [] then []
    else (if log[0].token == token then [log[0]] else []) + CallsFor(log[1..], token)
  }

  lemma {:induction false} CallsForConcat(a: seq<Effect>, b: seq<Effect>, token: nat)
    ensures CallsFor(a + b, token) == CallsFor(a, token) + CallsFor(b, token)
    decreases |a|
  {
    if a == [] {
      assert a + b == b;
    } else {
      assert (a + b)[1..] == a[1..] + b;
      CallsForConcat(a[1..], b, token);
      Associative(if a[0].token == token then [a[0]] else [], CallsFor(a[1..], token), CallsFor(b, token));
    }
  }

  lemma CallsForEffects(c: Callback, completion: Effect, token: nat)
    requires completion.token == c.token
    ensures CallsFor(Effects(c, completion), token) == if token == c.token then Effects(c, completion) else []
  {
    var finish := if c.hasFinish then [Finished(c.token)] else [];
    assert [completion][1..] == [];
    assert CallsFor([completion], token) == if token == c.token then [completion] else [];
    if c.hasFinish {
      assert finish[1..] == [];
      assert CallsFor(finish, token) == if token == c.token then finish else [];
    }
    CallsForConcat([completion], finish, token);
  }

  ghost predicate DistinctTokens(q: Queue) {
    forall a, b :: a in q.pending && b in q.pending && q.pending[a].token == q.pending[b].token ==> a == b
  }

  /**
    A pending callback is completed by the first terminal report for its operation, with that report's
    result, and by nothing else; without such a report it stays pending and no call is made on it.
   */
  lemma {:induction false} FirstTerminalReportDecides(q: Queue, reports: seq<Report>, id: string)
    requires DistinctTokens(q) && id in q.pending
    ensures var c, k, q' := q.pending[id], FirstTerminal(reports, id), HandleAll(q, reports);
            if k == |reports| then
              id in q'.pending && q'.pending[id] == c && CallsFor(q'.log, c.token) == CallsFor(q.log, c.token)
            else
              && id !in q'.pending
              && CallsFor(q.log, c.token) <= CallsFor(q'.log, c.token)
              && Completes(CallsFor(q'.log, c.token)[|CallsFor(q.log, c.token)|..], c, reports[k])
    decreases |reports|
  {
    hide CallsFor;
    if reports != [] {
      var c, r := q.pending[id], reports[0];
      var q1 := Handle(q, r);
      if r.operationId in q.pending && Terminal(r.status) {
        var other := q.pending[r.operationId];
        CallsForConcat(q.log, Effects(other, Completion(other, r)), c.token);
        CallsForEffects(other, Completion(other, r), c.token);
      }
      if Ends(r, id) {
        NotPendingUntouched(q1, reports[1..], id, c.token);
        Behind(CallsFor(q.log, c.token), Effects(c, Completion(c, r)));
      } else {
        FirstTerminalReportDecides(q1, reports[1..], id);
      }
    }
  }

  lemma Behind<T>(a: seq<T>, b: seq<T>)
    ensures a <= a + b && (a + b)[|a|..] == b
  {
  }

  /** A registration that is no longer pending receives no further calls. */
  lemma {:induction false} NotPendingUntouched(q: Queue, reports: seq<Report>, id: string, token: nat)
    requires id !in q.pending && forall a :: a in q.pending ==> q.pending[a].token != token
    ensures var q' := HandleAll(q, reports);
            id !in q'.pending && CallsFor(q'.log, token) == CallsFor(q.log, token)
    decreases |reports|
  {
    if reports != [] {
      var r := reports[0];
      if r.operationId in q.pending && Terminal(r.status) {
        var other := q.pending[r.operationId];
        CallsForConcat(q.log, Effects(other, Completion(other, r)), token);
        CallsForEffects(other, Completion(other, r), token);
      }
      NotPendingUntouched(Handle(q, r), reports[1..], id, token);
    }
  }

  // ---------- Every interleaving ----------

  /** A scheduled task: one delayed message, or a polling pass over the list known when it was scheduled. */
  datatype Task = Message(report: Report) | Pass(operations: seq<Report>)

  datatype Step =
    | Register(id: string, hasFinish: bool)
    | Receive(report: Report)
    | Refresh(operations: seq<Report>)
    | Poll
    | Fire(index: nat)

  /** The queue, the registrations so far, those replaced while pending, the known list, the scheduled tasks. */
  datatype World = World(
    queue: Queue, issued: seq<Callback>, replaced: set<nat>, operations: seq<Report>, tasks: seq<Task>)

  const EMPTY_WORLD := World(Queue(map[], []), [], {}, [], [])

  function RunTask(q: Queue, task: Task): Queue {
    match task
    case Message(report) => Handle(q, report)
    case Pass(operations) => HandleAll(q, operations)
  }

  function Next(w: World, step: Step): World {
    match step
    case Register(id, hasFinish) =>
      var c := Callback(|w.issued|, hasFinish);
      w.(queue := w.queue.(pending := w.queue.pending[id := c]),
         issued := w.issued + [c],
         replaced := w.replaced + if id in w.queue.pending then {w.queue.pending[id].token} else {})
    case Receive(report) => w.(tasks := w.tasks + [Message(report)])
    case Refresh(operations) => w.(operations := operations)
    case Poll => w.(tasks := w.tasks + [Pass(w.operations)])
    case Fire(k) =>
      if k >= |w.tasks| then w
      else w.(queue := RunTask(w.queue, w.tasks[k]), tasks := w.tasks[..k] + w.tasks[k + 1..])
  }

  function After(w: World, steps: seq<Step>): World
    decreases |steps|
  {
    if steps == [] then w else After(Next(w, steps[0]), steps[1..])
  }

  ghost predicate IsPending(w: World, token: nat) {
    exists id :: id in w.queue.pending && w.queue.pending[id].token == token
  }

  /** All calls on a registration: none, or one completion followed by its finish if it has one. */
  ghost predicate CompletedOnce(w: World, token: nat)
    requires token < |w.issued|
  {
    exists completion: Effect :: !completion.Finished? && completion.token == token &&
      CallsFor(w.queue.log, token) == [completion] + if w.issued[token].hasFinish then [Finished(token)] else []
  }

  ghost predicate Untouched(w: World, token: nat) {
    CallsFor(w.queue.log, token) == []
  }

  /** Each registration is in exactly one state: pending, replaced before completion, or completed once. */
  ghost predicate Accounted(w: World, token: nat)
    requires token < |w.issued|
  {
    || (IsPending(w, token) && token !in w.replaced && Untouched(w, token))
    || (!IsPending(w, token) && token in w.replaced && Untouched(w, token))
    || (!IsPending(w, token) && token !in w.replaced && CompletedOnce(w, token))
  }

  ghost predicate Inv(w: World) {
    && (forall t :: t in w.replaced ==> t < |w.issued|)
    && (forall k :: 0 <= k < |w.issued| ==> w.issued[k].token == k)
    && (forall id :: id in w.queue.pending ==>
          w.queue.pending[id].token < |w.issued| && w.issued[w.queue.pending[id].token] == w.queue.pending[id])
    && DistinctTokens(w.queue)
    && (forall e :: e in w.queue.log ==> e.token < |w.issued|)
    && (forall t: nat :: t < |w.issued| ==> Accounted(w, t))
  }

  lemma {:induction false} CallsForForeign(log: seq<Effect>, token: nat)
    requires forall e :: e in log ==> e.token != token
    ensures CallsFor(log, token) == []
  {
    if log != [] {
      assert log[0] in log;
      CallsForForeign(log[1..], token);
    }
  }

  lemma HandleKeepsInv(w: World, r: Report)
    requires Inv(w)
    ensures Inv(w.(queue := Handle(w.queue, r)))
  {
    hide CallsFor;
    if r.operationId in w.queue.pending && Terminal(r.status) {
      var c := w.queue.pending[r.operationId];
      var completion := Completion(c, r);
      var w' := w.(queue := Handle(w.queue, r));
      forall t: nat | t < |w.issued|
        ensures Accounted(w', t)
      {
        CallsForConcat(w.queue.log, Effects(c, completion), t);
        CallsForEffects(c, completion, t);
        assert Accounted(w, t);
        assert IsPending(w, c.token);
        if t == c.token {
          assert Untouched(w, t);
          assert [] + Effects(c, completion) == Effects(c, completion);
          assert CompletedOnce(w', t);
        } else {
          assert CallsFor(w'.queue.log, t) == CallsFor(w.queue.log, t);
          OthersPending(w, w', t, r.operationId);
        }
      }
    }
  }

  lemma OthersPending(w: World, w': World, t: nat, id: string)
    requires id in w.queue.pending && w'.queue.pending == w.queue.pending - {id}
    requires w.queue.pending[id].token != t
    ensures IsPending(w, t) == IsPending(w', t)
  {
    if IsPending(w, t) {
      var other :| other in w.queue.pending && w.queue.pending[other].token == t;
      assert other in w'.queue.pending;
    }
  }

  lemma {:induction false} HandleAllKeepsInv(w: World, reports: seq<Report>)
    requires Inv(w)
    ensures Inv(w.(queue := HandleAll(w.queue, reports)))
    decreases |reports|
  {
    hide Inv;
    if reports == [] {
      assert w.(queue := w.queue) == w;
    } else {
      HandleKeepsInv(w, reports[0]);
      HandleAllKeepsInv(w.(queue := Handle(w.queue, reports[0])), reports[1..]);
    }
  }

  lemma RegisterKeepsInv(w: World, id: string, hasFinish: bool)
    requires Inv(w)
    ensures Inv(Next(w, Register(id, hasFinish)))
  {
    hide CallsFor;
    var w', n := Next(w, Register(id, hasFinish)), |w.issued|;
    CallsForForeign(w.queue.log, n);
    assert w'.queue.pending[id].token == n && IsPending(w', n);
    forall t: nat | t < n
      ensures Accounted(w', t)
    {
      assert Accounted(w, t);
      assert CompletedOnce(w, t) ==> CompletedOnce(w', t);
      if id in w.queue.pending && w.queue.pending[id].token == t {
        assert IsPending(w, t) && !IsPending(w', t);
      } else {
        StillPending(w, w', t, id);
      }
    }
  }

  lemma StillPending(w: World, w': World, t: nat, id: string)
    requires w'.queue.pending.Keys == w.queue.pending.Keys + {id}
    requires forall a :: a in w.queue.pending && a != id ==> w'.queue.pending[a] == w.queue.pending[a]
    requires w'.queue.pending[id].token != t && (id in w.queue.pending ==> w.queue.pending[id].token != t)
    ensures IsPending(w, t) == IsPending(w', t)
  {
    if IsPending(w, t) {
      var other :| other in w.queue.pending && w.queue.pending[other].token == t;
      assert other in w'.queue.pending;
    }
    if IsPending(w', t) {
      var other :| other in w'.queue.pending && w'.queue.pending[other].token == t;
      assert other in w.queue.pending;
    }
  }

  lemma QueueOnly(w: World, w': World)
    requires Inv(w) && w'.queue == w.queue && w'.issued == w.issued && w'.replaced == w.replaced
    ensures Inv(w')
  {
    forall t: nat | t < |w.issued|
      ensures Accounted(w', t)
    {
      assert Accounted(w, t);
    }
  }

  lemma StepKeepsInv(w: World, step: Step)
    requires Inv(w)
    ensures Inv(Next(w, step))
  {
    hide Inv;
    match step
    case Register(id, hasFinish) => RegisterKeepsInv(w, id, hasFinish);
    case Receive(_) => QueueOnly(w, Next(w, step));
    case Refresh(_) => QueueOnly(w, Next(w, step));
    case Poll => QueueOnly(w, Next(w, step));
    case Fire(k) =>
      if k < |w.tasks| {
        match w.tasks[k]
        case Message(report) =>
          HandleKeepsInv(w, report);
          QueueOnly(w.(queue := Handle(w.queue, report)), Next(w, step));
        case Pass(operations) =>
          HandleAllKeepsInv(w, operations);
          QueueOnly(w.(queue := HandleAll(w.queue, operations)), Next(w, step));
      }
  }

  lemma {:induction false} RunKeepsInv(w: World, steps: seq<Step>)
    requires Inv(w)
    ensures Inv(After(w, steps))
    decreases |steps|
  {
    hide Inv;
    if steps != [] {
      StepKeepsInv(w, steps[0]);
      RunKeepsInv(Next(w, steps[0]), steps[1..]);
    }
  }

  /**
    Exactly-once completion, over every interleaving from the start: each registration is pending and
    untouched, or was replaced while pending and never called, or has exactly one completion, followed
    by exactly one finish if it has one.
   */
  lemma EveryRegistrationAccounted(steps: seq<Step>, token: nat)
    requires token < |After(EMPTY_WORLD, steps).issued|
    ensures Accounted(After(EMPTY_WORLD, steps), token)
  {
    RunKeepsInv(EMPTY_WORLD, steps);
  }

  // ---------- What becomes of a registration ----------

  /** The reports that a step handles: those of the task that it fires. */
  function Handled(w: World, step: Step): seq<Report> {
    if !step.Fire? || step.index >= |w.tasks| then []
    else match w.tasks[step.index]
      case Message(report) => [report]
      case Pass(operations) => operations
  }

  /** The step registers the operation id anew or handles a report that ends the operation. */
  ghost predicate Settles(w: World, step: Step, id: string) {
    (step.Register? && step.id == id) || exists r :: r in Handled(w, step) && Ends(r, id)
  }

  /** A step that settles nothing for a pending registration leaves it alone. */
  lemma UnsettledStep(w: World, step: Step, id: string)
    requires Inv(w) && id in w.queue.pending && !Settles(w, step, id)
    ensures var w', c := Next(w, step), w.queue.pending[id];
            && id in w'.queue.pending && w'.queue.pending[id] == c
            && CallsFor(w'.queue.log, c.token) == CallsFor(w.queue.log, c.token)
  {
    hide CallsFor;
    if step.Fire? && step.index < |w.tasks| {
      var reports := Handled(w, step);
      FirstTerminalReportDecides(w.queue, reports, id);
      forall k | 0 <= k < |reports| ensures !Ends(reports[k], id) {
        assert reports[k] in reports;
      }
      HandleOne(w.queue, reports);
    }
  }

  lemma HandleOne(q: Queue, reports: seq<Report>)
    ensures |reports| == 1 ==> HandleAll(q, reports) == Handle(q, reports[0])
  {
  }

  /** The first report for a pending registration makes its calls. */
  lemma SettlingStep(w: World, step: Step, id: string)
    requires Inv(w) && id in w.queue.pending && Settles(w, step, id)
    ensures var w', c, reports := Next(w, step), w.queue.pending[id], Handled(w, step);
            var k := FirstTerminal(reports, id);
            && !IsPending(w', c.token) && c.token < |w'.issued|
            && if step.Register? then CallsFor(w'.queue.log, c.token) == CallsFor(w.queue.log, c.token)
               else
                 && k < |reports|
                 && CallsFor(w.queue.log, c.token) <= CallsFor(w'.queue.log, c.token)
                 && Completes(CallsFor(w'.queue.log, c.token)[|CallsFor(w.queue.log, c.token)|..], c, reports[k])
  {
    hide CallsFor, Completes;
    var c, reports := w.queue.pending[id], Handled(w, step);
    StepKeepsInv(w, step);
    if step.Fire? {
      var k := FirstTerminal(reports, id);
      FirstTerminalReportDecides(w.queue, reports, id);
      HandleOne(w.queue, reports);
      HandleAllShrinks(w.queue, reports);
      KeptAsTheyWere(w.queue, reports);
      forall other | other in Next(w, step).queue.pending
        ensures Next(w, step).queue.pending[other].token != c.token
      {
        assert other != id && w.queue.pending[other] == Next(w, step).queue.pending[other];
      }
    }
  }

  lemma {:induction false} HandleAllShrinks(q: Queue, reports: seq<Report>)
    ensures HandleAll(q, reports).pending.Keys <= q.pending.Keys
    decreases |reports|
  {
    if reports != [] {
      HandleAllShrinks(Handle(q, reports[0]), reports[1..]);
    }
  }

  /** What is still pending after some reports is what it was. */
  lemma {:induction false} KeptAsTheyWere(q: Queue, reports: seq<Report>)
    ensures forall a :: a in HandleAll(q, reports).pending ==>
              a in q.pending && HandleAll(q, reports).pending[a] == q.pending[a]
    decreases |reports|
  {
    if reports != [] {
      KeptAsTheyWere(Handle(q, reports[0]), reports[1..]);
    }
  }

  /** A registration that has been settled is never called again. */
  lemma {:induction false} SettledForGood(w: World, steps: seq<Step>, token: nat)
    requires Inv(w) && token < |w.issued| && !IsPending(w, token)
    ensures CallsFor(After(w, steps).queue.log, token) == CallsFor(w.queue.log, token)
    decreases |steps|
  {
    hide CallsFor, Inv;
    if steps != [] {
      StepKeepsInv(w, steps[0]);
      SettledStep(w, steps[0], token);
      SettledForGood(Next(w, steps[0]), steps[1..], token);
    }
  }

  lemma SettledStep(w: World, step: Step, token: nat)
    requires Inv(w) && token < |w.issued| && !IsPending(w, token)
    ensures var w' := Next(w, step);
            && token < |w'.issued| && !IsPending(w', token)
            && CallsFor(w'.queue.log, token) == CallsFor(w.queue.log, token)
  {
    hide CallsFor;
    match step
    case Register(id, hasFinish) =>
      forall a | a in w.queue.pending ensures w.queue.pending[a].token != token {
      }
    case Fire(k) =>
      if k < |w.tasks| {
        var reports := Handled(w, step);
        KeptAsTheyWere(w.queue, reports);
        HandleOne(w.queue, reports);
        NotCalled(w.queue, reports, token);
        forall a | a in Next(w, step).queue.pending ensures Next(w, step).queue.pending[a].token != token {
          assert a in w.queue.pending;
        }
      }
    case _ =>
  }

  lemma {:induction false} NotCalled(q: Queue, reports: seq<Report>, token: nat)
    requires forall a :: a in q.pending ==> q.pending[a].token != token
    ensures CallsFor(HandleAll(q, reports).log, token) == CallsFor(q.log, token)
    decreases |reports|
  {
    if reports != [] {
      var r := reports[0];
      if r.operationId in q.pending && Terminal(r.status) {
        var other := q.pending[r.operationId];
        CallsForConcat(q.log, Effects(other, Completion(other, r)), token);
        CallsForEffects(other, Completion(other, r), token);
      }
      NotCalled(Handle(q, r), reports[1..], token);
    }
  }

  /** The first step that settles a registration for the id, or the number of steps. */
  ghost function FirstSettling(w: World, steps: seq<Step>, id: string): (j: nat)
    ensures j <= |steps|
    ensures j < |steps| ==> Settles(After(w, steps[..j]), steps[j], id)
    ensures forall i :: 0 <= i < j ==> !Settles(After(w, steps[..i]), steps[i], id)
    decreases |steps|
  {
    if steps == [] then 0
    else if Settles(w, steps[0], id) then
      assert steps[..0] == [];
      0
    else
      var j := FirstSettling(Next(w, steps[0]), steps[1..], id);
      assert forall i {:trigger steps[..i]} :: 0 < i <= |steps| ==>
        steps[..i][0] == steps[0] && steps[..i][1..] == steps[1..][..i - 1];
      assert forall i :: 0 < i < |steps| ==> steps[i] == steps[1..][i - 1];
      j + 1
  }

  /**
    What becomes of a pending registration along any steps. Until its operation id is registered anew or a task
    that reports the end of the operation fires, it stays pending and is not called. If the former happens first
    it is never called; if the latter, the first such report in that task makes exactly its calls, and no others
    ever follow.
   */
  lemma {:induction false} RegistrationOutcome(w: World, steps: seq<Step>, id: string)
    requires Inv(w) && id in w.queue.pending
    ensures var c, j, end := w.queue.pending[id], FirstSettling(w, steps, id), After(w, steps);
            var before, calls := CallsFor(w.queue.log, c.token), CallsFor(end.queue.log, c.token);
            if j == |steps| then id in end.queue.pending && end.queue.pending[id] == c && calls == before
            else if steps[j].Register? then calls == before
            else
              var reports := Handled(After(w, steps[..j]), steps[j]);
              var k := FirstTerminal(reports, id);
              k < |reports| && before <= calls && Completes(calls[|before|..], c, reports[k])
    decreases |steps|
  {
    hide CallsFor, Inv, Completes, Settles, Next;
    if steps != [] {
      var c, step, w' := w.queue.pending[id], steps[0], Next(w, steps[0]);
      StepKeepsInv(w, step);
      if Settles(w, step, id) {
        assert steps[..0] == [];
        SettlingStep(w, step, id);
        SettledForGood(w', steps[1..], c.token);
      } else {
        UnsettledStep(w, step, id);
        RegistrationOutcome(w', steps[1..], id);
        var j := FirstSettling(w', steps[1..], id);
        assert steps[..j + 1][0] == step && steps[..j + 1][1..] == steps[1..][..j];
      }
    }
  }

  /** Step `i` of a run from the start is the registration of that number. */
  ghost predicate Registers(steps: seq<Step>, i: int, token: nat) {
    0 <= i < |steps| && steps[i].Register? && |After(EMPTY_WORLD, steps[..i]).issued| == token
  }

  lemma {:induction false} AfterConcat(w: World, a: seq<Step>, b: seq<Step>)
    ensures After(w, a + b) == After(After(w, a), b)
    decreases |a|
  {
    hide Next;
    if a == [] {
      assert a + b == b;
    } else {
      assert (a + b)[0] == a[0] && (a + b)[1..] == a[1..] + b;
      AfterConcat(Next(w, a[0]), a[1..], b);
    }
  }

  lemma AfterOneMore(w: World, steps: seq<Step>, step: Step)
    ensures After(w, steps + [step]) == Next(After(w, steps), step)
  {
    hide Next;
    AfterConcat(w, steps, [step]);
    assert [step][1..] == [];
    assert After(Next(After(w, steps), step), []) == Next(After(w, steps), step);
  }

  lemma {:induction false} EveryTokenRegistered(steps: seq<Step>, token: nat)
    requires token < |After(EMPTY_WORLD, steps).issued|
    ensures exists i :: Registers(steps, i, token)
    decreases |steps|
  {
    hide Next;
    assert steps != [];
    var front, step := steps[..|steps| - 1], steps[|steps| - 1];
    assert steps == front + [step] && steps[..|front|] == front;
    AfterOneMore(EMPTY_WORLD, front, step);
    IssuedStep(After(EMPTY_WORLD, front), step);
    if token < |After(EMPTY_WORLD, front).issued| {
      EveryTokenRegistered(front, token);
      var i :| Registers(front, i, token);
      assert steps[..i] == front[..i];
      assert Registers(steps, i, token);
    } else {
      assert Registers(steps, |front|, token);
    }
  }

  lemma IssuedStep(w: World, step: Step)
    ensures |Next(w, step).issued| == |w.issued| + (if step.Register? then 1 else 0)
  {
  }

  /** Right after its registration, a callback is pending under its id and has not been called. */
  lemma JustRegistered(steps: seq<Step>, i: nat, token: nat)
    requires Registers(steps, i, token)
    ensures var w := After(EMPTY_WORLD, steps[..i + 1]);
            && Inv(w) && steps[i].id in w.queue.pending
            && w.queue.pending[steps[i].id] == Callback(token, steps[i].hasFinish)
            && CallsFor(w.queue.log, token) == []
  {
    hide CallsFor;
    assert steps[..i + 1] == steps[..i] + [steps[i]];
    AfterOneMore(EMPTY_WORLD, steps[..i], steps[i]);
    RunKeepsInv(EMPTY_WORLD, steps[..i]);
    CallsForForeign(After(EMPTY_WORLD, steps[..i]).queue.log, token);
    RunKeepsInv(EMPTY_WORLD, steps[..i + 1]);
  }

  lemma {:induction false} CallIsAmong(log: seq<Effect>, e: Effect)
    requires e in log
    ensures e in CallsFor(log, e.token)
  {
    if log[0] != e {
      CallIsAmong(log[1..], e);
    }
  }

  /** A report that step `j` handles, for the id registered in step `i`, that makes the call. */
  ghost predicate Justifies(steps: seq<Step>, i: int, j: int, r: Report, e: Effect) {
    && 0 <= i < j < |steps| && steps[i].Register? && r in Handled(After(EMPTY_WORLD, steps[..j]), steps[j])
    && Ends(r, steps[i].id)
    && (e.Succeeded? ==> r.status == "Success" && r.result == e.result)
    && (e.Failed? ==> r.status == "Failure" && e.message == if r.err.Some? then r.err.value else "")
  }

  /**
    Over every run from the start, each call made on a registration comes from a report for its operation id that
    is handled after the registration: a success from one with status `Success` and that result, a failure from one
    with status `Failure` and that message.
   */
  lemma EveryCallReported(steps: seq<Step>, e: Effect)
    requires e in After(EMPTY_WORLD, steps).queue.log
    ensures exists i, j, r :: Registers(steps, i, e.token) && Justifies(steps, i, j, r, e)
  {
    hide CallsFor, Next, Handled;
    RunKeepsInv(EMPTY_WORLD, steps);
    EveryTokenRegistered(steps, e.token);
    var i :| Registers(steps, i, e.token);
    CallIsAmong(After(EMPTY_WORLD, steps).queue.log, e);
    hide Justifies, After, Inv;
    var j, r := CalledByReport(steps, i, e);
  }

  lemma CalledByReport(steps: seq<Step>, i: nat, e: Effect) returns (j: nat, r: Report)
    requires Registers(steps, i, e.token) && e in CallsFor(After(EMPTY_WORLD, steps).queue.log, e.token)
    ensures Justifies(steps, i, j, r, e)
  {
    hide CallsFor, Next, After, FirstSettling, FirstTerminal, Handled, Completes, Inv, Registers;
    JustRegistered(steps, i, e.token);
    assert i < |steps| && steps[i].Register? by { InRange(steps, i, e.token); }
    var front, rest := steps[..i + 1], steps[i + 1..];
    var w, id := After(EMPTY_WORLD, front), steps[i].id;
    assert steps == front + rest;
    AfterConcat(EMPTY_WORLD, front, rest);
    RegistrationOutcome(w, rest, id);
    var n := FirstSettling(w, rest, id);
    j := i + 1 + n;
    AfterConcat(EMPTY_WORLD, front, rest[..n]);
    assert steps[..j] == front + rest[..n];
    var reports := Handled(After(w, rest[..n]), rest[n]);
    r := reports[FirstTerminal(reports, id)];
    CompletesWith(CallsFor(After(EMPTY_WORLD, steps).queue.log, e.token), Callback(e.token, steps[i].hasFinish), r, e);
  }

  lemma InRange(steps: seq<Step>, i: int, token: nat)
    requires Registers(steps, i, token)
    ensures 0 <= i < |steps| && steps[i].Register?
  {
  }

  lemma CompletesWith(calls: seq<Effect>, c: Callback, r: Report, e: Effect)
    requires Completes(calls, c, r) && e in calls && (r.status == "Success" || r.status == "Failure")
    ensures e.Succeeded? ==> r.status == "Success" && r.result == e.result
    ensures e.Failed? ==> r.status == "Failure" && e.message == if r.err.Some? then r.err.value else ""
  {
  }

  // ---------- Which reports are handled ----------

  /** The tasks that a step schedules: a message that is received, or a poll with the list known by then. */
  function ScheduledBy(step: Step, known: seq<Report>): seq<Task> {
    match step
    case Receive(report) => [Message(report)]
    case Poll => [Pass(known)]
    case _ => []
  }

  /** The tasks scheduled along the steps, when a list is known at first and then the one refreshed last. */
  function Scheduled(steps: seq<Step>, known: seq<Report>): seq<Task> {
    if steps == [] then []
    else
      ScheduledBy(steps[0], known) +
      Scheduled(steps[1..], if steps[0].Refresh? then steps[0].operations else known)
  }

  /** The task that a step fires, if any. */
  function FiredBy(w: World, step: Step): seq<Task> {
    if step.Fire? && step.index < |w.tasks| then [w.tasks[step.index]] else []
  }

  function Fired(w: World, steps: seq<Step>): seq<Task>
    decreases |steps|
  {
    if steps == [] then [] else FiredBy(w, steps[0]) + Fired(Next(w, steps[0]), steps[1..])
  }

  lemma TasksStep(w: World, step: Step)
    ensures multiset(Next(w, step).tasks) + multiset(FiredBy(w, step)) ==
            multiset(w.tasks) + multiset(ScheduledBy(step, w.operations))
    ensures Next(w, step).operations == if step.Refresh? then step.operations else w.operations
  {
    hide RunTask;
    if step.Fire? && step.index < |w.tasks| {
      assert w.tasks == w.tasks[..step.index] + [w.tasks[step.index]] + w.tasks[step.index + 1..];
    }
  }

  /** Over every run each scheduled task fires once or still waits, and nothing else ever fires. */
  lemma {:induction false} TasksConserved(w: World, steps: seq<Step>)
    ensures multiset(After(w, steps).tasks) + multiset(Fired(w, steps)) ==
            multiset(w.tasks) + multiset(Scheduled(steps, w.operations))
    decreases |steps|
  {
    hide Next, FiredBy, ScheduledBy;
    if steps != [] {
      var next := Next(w, steps[0]);
      TasksStep(w, steps[0]);
      TasksConserved(next, steps[1..]);
      BalanceOnward(
        multiset(w.tasks), multiset(next.tasks), multiset(After(w, steps).tasks), multiset(FiredBy(w, steps[0])),
        multiset(Fired(next, steps[1..])), multiset(ScheduledBy(steps[0], w.operations)),
        multiset(Scheduled(steps[1..], next.operations)));
    }
  }

  lemma BalanceOnward(
    start: multiset<Task>, middle: multiset<Task>, end: multiset<Task>, out1: multiset<Task>, out2: multiset<Task>,
    in1: multiset<Task>, in2: multiset<Task>)
    requires middle + out1 == start + in1 && end + out2 == middle + in2
    ensures end + (out1 + out2) == start + (in1 + in2)
  {
    forall t: Task ensures (end + (out1 + out2))[t] == (start + (in1 + in2))[t] {
      assert (middle + out1)[t] == (start + in1)[t] && (end + out2)[t] == (middle + in2)[t];
    }
  }

  // ---------- Fresh registrations ----------

  /** Every registration in the run uses an operation id of its own. */
  ghost predicate FreshIds(steps: seq<Step>) {
    forall j, k :: 0 <= j < k < |steps| && steps[j].Register? && steps[k].Register? ==> steps[j].id != steps[k].id
  }

  ghost predicate UnusedIds(w: World, steps: seq<Step>) {
    forall k :: 0 <= k < |steps| && steps[k].Register? ==> steps[k].id !in w.queue.pending
  }

  lemma {:induction false} FreshNeverReplaced(w: World, steps: seq<Step>)
    requires FreshIds(steps) && UnusedIds(w, steps)
    ensures After(w, steps).replaced == w.replaced
    decreases |steps|
  {
    if steps != [] {
      var step, w1 := steps[0], Next(w, steps[0]);
      if step.Fire? && step.index < |w.tasks| && w.tasks[step.index].Pass? {
        HandleAllShrinks(w.queue, w.tasks[step.index].operations);
      }
      forall k | 0 <= k < |steps[1..]| && steps[1..][k].Register?
        ensures steps[1..][k].id !in w1.queue.pending
      {
        assert steps[k + 1] == steps[1..][k];
      }
      assert FreshIds(steps[1..]);
      FreshNeverReplaced(w1, steps[1..]);
    }
  }

  /** With an id of its own, every registration is either pending or completed exactly once. */
  lemma FreshPendingOrCompleted(steps: seq<Step>, token: nat)
    requires FreshIds(steps)
    requires token < |After(EMPTY_WORLD, steps).issued|
    ensures IsPending(After(EMPTY_WORLD, steps), token) != CompletedOnce(After(EMPTY_WORLD, steps), token)
  {
    FreshNeverReplaced(EMPTY_WORLD, steps);
    EveryRegistrationAccounted(steps, token);
  }
}
