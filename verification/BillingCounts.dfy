/**
  What the repair reports about a run: each counter is the number of messages, or of records, with the property
  that its name promises, stated without the loop that counts.
 */
module BillingCounts {
  import opened TextSearch
  import opened BillingLineage
  import opened BillingRepair

  // ---------- Messages ----------

  /** The message names an instance, and that instance belongs to its user. */
  ghost predicate Addressed(cat: Catalog, m: Message) {
    m.data.instanceId.Some? &&
    exists i :: i in cat.instances && m.data.instanceId == Some(i.id) && i.userId == m.userId
  }

  /** An earlier message is for the same instance. */
  ghost predicate Repeated(cat: Catalog, messages: seq<Message>, j: nat)
    requires j < |messages|
  {
    exists i :: 0 <= i < j && Addressed(cat, messages[i]) &&
                messages[i].data.instanceId == messages[j].data.instanceId
  }

  /** Some instance is the resolved predecessor of the message's instance, for those billing records. */
  ghost predicate Resolved(cat: Catalog, records: seq<Record>, m: Message) {
    m.data.instanceId.Some? && exists p :: Precedes(cat, records, p, m.data.instanceId.value)
  }

  datatype Verdict = Skipped | Unresolved | Eligible

  /** The run before message `j`. */
  function Before(cat: Catalog, messages: seq<Message>, records: seq<Record>, apply: bool, j: nat): Run
    requires j <= |messages|
  {
    HandleAll(cat, messages[..j], Start(records), apply)
  }

  ghost function VerdictOn(cat: Catalog, messages: seq<Message>, records: seq<Record>, apply: bool, j: nat): Verdict
    requires j < |messages|
  {
    if !Addressed(cat, messages[j]) || Repeated(cat, messages, j) then Skipped
    else if Resolved(cat, Before(cat, messages, records, apply, j).records, messages[j]) then Eligible
    else Unresolved
  }

  /** How many of the first `n` messages get that verdict. */
  ghost function Count(
    cat: Catalog, messages: seq<Message>, records: seq<Record>, apply: bool, n: nat, v: Verdict): nat
    requires n <= |messages|
  {
    if n == 0 then 0
    else
      Count(cat, messages, records, apply, n - 1, v) +
      if VerdictOn(cat, messages, records, apply, n - 1) == v then 1 else 0
  }

  // ---------- Records ----------

  /** How many records belong to another instance in the second table. */
  function Changed(a: seq<Record>, b: seq<Record>): nat
    requires |a| == |b|
  {
    if a == [] then 0 else (if a[0].instanceId != b[0].instanceId then 1 else 0) + Changed(a[1..], b[1..])
  }

  /** How many records the first `n` messages move, each message counted for itself. */
  ghost function Moves(cat: Catalog, messages: seq<Message>, records: seq<Record>, n: nat): nat
    requires n <= |messages|
  {
    if n == 0 then 0
    else
      var before, after := Before(cat, messages, records, true, n - 1).records,
                           Before(cat, messages, records, true, n).records;
      Moves(cat, messages, records, n - 1) + if |before| == |after| then Changed(before, after) else 0
  }

  function CountIn(records: seq<Record>, sources: seq<int>): nat {
    if records == [] then 0
    else (if records[0].instanceId in sources then 1 else 0) + CountIn(records[1..], sources)
  }

  lemma {:induction false} CountInNothing(records: seq<Record>)
    ensures CountIn(records, []) == 0
  {
    if records != [] {
      CountInNothing(records[1..]);
    }
  }

  lemma {:induction false} CountInFirst(records: seq<Record>, source: int, rest: seq<int>, target: int)
    requires source !in rest && target !in rest && source != target
    ensures CountIn(records, [source] + rest) ==
            CountRecords(records, source) + CountIn(Reassigned(records, source, target), rest)
  {
    if records != [] {
      CountInFirst(records[1..], source, rest, target);
      assert Reassigned(records, source, target)[1..] == Reassigned(records[1..], source, target);
    }
  }

  lemma {:induction false} MovedIsCountIn(records: seq<Record>, sources: seq<int>, target: int)
    requires target !in sources && forall j, k :: 0 <= j < k < |sources| ==> sources[j] != sources[k]
    ensures MovedCount(records, sources, target) == CountIn(records, sources)
    decreases |sources|
  {
    if sources == [] {
      CountInNothing(records);
    } else {
      var source, rest := sources[0], sources[1..];
      assert sources == [source] + rest;
      CountInFirst(records, source, rest, target);
      MovedIsCountIn(Reassigned(records, source, target), rest, target);
    }
  }

  lemma {:induction false} ChangedIsCountIn(a: seq<Record>, b: seq<Record>, sources: seq<int>, target: int)
    requires |a| == |b| && target !in sources
    requires forall k :: 0 <= k < |a| ==> b[k].instanceId == if a[k].instanceId in sources then target
                                                             else a[k].instanceId
    ensures Changed(a, b) == CountIn(a, sources)
  {
    if a != [] {
      ChangedIsCountIn(a[1..], b[1..], sources, target);
    }
  }

  /** What is counted as moved to a target is what has changed its instance. */
  lemma MovedIsChanged(records: seq<Record>, sources: seq<int>, target: int)
    requires target !in sources && forall j, k :: 0 <= j < k < |sources| ==> sources[j] != sources[k]
    ensures |ReassignedAll(records, sources, target)| == |records|
    ensures MovedCount(records, sources, target) == Changed(records, ReassignedAll(records, sources, target))
  {
    ReassignedAllMoves(records, sources, target);
    MovedIsCountIn(records, sources, target);
    ChangedIsCountIn(records, ReassignedAll(records, sources, target), sources, target);
  }

  lemma {:induction false} NothingChanged(records: seq<Record>)
    ensures Changed(records, records) == 0
  {
    if records != [] {
      NothingChanged(records[1..]);
    }
  }

  // ---------- One message ----------

  /** A lineage is longer than the instance itself exactly when the instance has a predecessor. */
  lemma LongerIff(cat: Catalog, records: seq<Record>, id: int)
    ensures |Lineage(cat, records, id)| > 1 <==> exists p :: Precedes(cat, records, p, id)
  {
    hide Lineage, Precedes;
    var l := Lineage(cat, records, id);
    LineageIsChain(cat, records, id);
    if |l| > 1 {
      assert Precedes(cat, records, l[|l| - 2], id);
    }
    if p :| Precedes(cat, records, p, id) {
      NotItsOwn(cat, records, p, id);
      assert |l| == 1 ==> l == [id];
    }
  }

  lemma NotItsOwn(cat: Catalog, records: seq<Record>, p: int, id: int)
    requires Precedes(cat, records, p, id)
    ensures p != id
  {
    ResolvedIsDeletedSibling(cat.instances, cat.messages, Find(cat.instances, id).value, records);
  }

  lemma HandleCounts(cat: Catalog, m: Message, run: Run, apply: bool)
    ensures var run' := Handle(cat, m, run, apply);
            var skips := !Addressed(cat, m) || m.data.instanceId.value in run.targets;
            && run'.scanned == run.scanned + 1
            && run'.skipped == run.skipped + (if skips then 1 else 0)
            && run'.eligible == run.eligible + (if !skips && Resolved(cat, run.records, m) then 1 else 0)
            && run'.unresolved == run.unresolved + (if !skips && !Resolved(cat, run.records, m) then 1 else 0)
            && run'.targets == run.targets + (if skips then [] else [m.data.instanceId.value])
            && |run'.records| == |run.records|
            && run'.moved == run.moved + (if apply then Changed(run.records, run'.records) else 0)
            && (!apply ==> run'.records == run.records)
  {
    hide Lineage, ReassignedAll, MovedCount, Changed;
    NothingChanged(run.records);
    if m.data.instanceId.Some? {
      var target := m.data.instanceId.value;
      var lineage := Lineage(cat, run.records, target);
      LongerIff(cat, run.records, target);
      LineageShape(cat, run.records, target);
      MovedIsChanged(run.records, lineage[..|lineage| - 1], target);
    }
  }

  // ---------- A whole run ----------

  lemma {:induction false} HandleAllOneMore(cat: Catalog, messages: seq<Message>, m: Message, run: Run, apply: bool)
    ensures HandleAll(cat, messages + [m], run, apply) == Handle(cat, m, HandleAll(cat, messages, run, apply), apply)
    decreases |messages|
  {
    hide Handle;
    if messages == [] {
      assert [] + [m] == [m] && [m][1..] == [];
      assert HandleAll(cat, [], Handle(cat, m, run, apply), apply) == Handle(cat, m, run, apply);
    } else {
      assert (messages + [m])[0] == messages[0] && (messages + [m])[1..] == messages[1..] + [m];
      HandleAllOneMore(cat, messages[1..], m, Handle(cat, messages[0], run, apply), apply);
    }
  }

  lemma BeforeStep(cat: Catalog, messages: seq<Message>, records: seq<Record>, apply: bool, j: nat)
    requires j < |messages|
    ensures Before(cat, messages, records, apply, j + 1) ==
            Handle(cat, messages[j], Before(cat, messages, records, apply, j), apply)
  {
    hide Handle, HandleAll;
    assert messages[..j + 1] == messages[..j] + [messages[j]];
    HandleAllOneMore(cat, messages[..j], messages[j], Start(records), apply);
  }

  /**
    For every catalog, at every message of a run: the processed targets are the instances that earlier messages
    name and whose user theirs is, the counters are the numbers of messages without a new such instance, with one
    that has no predecessor then, and with one that has, and in an applied run the records moved are those that
    have changed their instance.
   */
  lemma {:induction false} RunCounts(
    cat: Catalog, messages: seq<Message>, records: seq<Record>, apply: bool, n: nat)
    requires n <= |messages|
    ensures var run := Before(cat, messages, records, apply, n);
            && run.scanned == n
            && run.skipped == Count(cat, messages, records, apply, n, Skipped)
            && run.unresolved == Count(cat, messages, records, apply, n, Unresolved)
            && run.eligible == Count(cat, messages, records, apply, n, Eligible)
            && run.moved == (if apply then Moves(cat, messages, records, n) else 0)
    ensures forall t :: t in Before(cat, messages, records, apply, n).targets <==>
                        exists j :: 0 <= j < n && Addressed(cat, messages[j]) &&
                                    messages[j].data.instanceId == Some(t)
  {
    hide Handle, Changed;
    if n == 0 {
      assert messages[..0] == [];
    } else {
      hide Before;
      var m, before := messages[n - 1], Before(cat, messages, records, apply, n - 1);
      RunCounts(cat, messages, records, apply, n - 1);
      BeforeStep(cat, messages, records, apply, n - 1);
      HandleCounts(cat, m, before, apply);
      hide Addressed, Resolved;
      SeenIff(cat, messages, n - 1, before.targets);
      var after := Before(cat, messages, records, apply, n);
      forall t
        ensures t in after.targets <==> exists j :: 0 <= j < n && Addressed(cat, messages[j]) &&
                                                    messages[j].data.instanceId == Some(t)
      {
      }
    }
  }

  lemma SeenIff(cat: Catalog, messages: seq<Message>, j: nat, targets: seq<int>)
    requires j < |messages|
    requires forall t :: t in targets <==>
                         exists i :: 0 <= i < j && Addressed(cat, messages[i]) &&
                                     messages[i].data.instanceId == Some(t)
    ensures Addressed(cat, messages[j]) ==>
              messages[j].data.instanceId.Some? &&
              (messages[j].data.instanceId.value in targets <==> Repeated(cat, messages, j))
  {
  }

  /** So for a whole run. */
  lemma RepairCounts(cat: Catalog, messages: seq<Message>, records: seq<Record>, apply: bool)
    ensures var n, end := |messages|, HandleAll(cat, messages, Start(records), apply);
            && end.scanned == n
            && end.skipped == Count(cat, messages, records, apply, n, Skipped)
            && end.unresolved == Count(cat, messages, records, apply, n, Unresolved)
            && end.eligible == Count(cat, messages, records, apply, n, Eligible)
            && end.moved == (if apply then Moves(cat, messages, records, n) else 0)
  {
    RunCounts(cat, messages, records, apply, |messages|);
    assert messages[..|messages|] == messages;
  }
}
