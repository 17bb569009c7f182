/**
  The repair of billing records after migrations (server/scripts/fix-migrated-instance-billing.ts): for
  every migration message in order, the records of the target's ancestors move to the target.
 */
module BillingRepair {
  import opened TextSearch
  import opened BillingLineage
  import opened LineageOrder

  // ---------- Lineages as sets ----------

  function Elements(s: seq<int>): set<int> {
    set x | x in s
  }

  function Up(cat: Catalog, records: seq<Record>): int -> set<int> {
    id => Elements(Lineage(cat, records, id))
  }

  ghost predicate ClosedUp(cat: Catalog, records: seq<Record>, ids: set<int>) {
    forall i :: i in cat.instances && i.id in ids ==>
      Parent(cat, i, records).Some? ==> Parent(cat, i, records).value in ids
  }

  predicate UniqueInstances(cat: Catalog) {
    forall i, j :: i in cat.instances && j in cat.instances && i.id == j.id ==> i == j
  }

  lemma {:induction false} AncestryFacts(
    cat: Catalog, records: seq<Record>, current: Option<Instance>, visited: set<int>)
    requires current.Some? ==> current.value in cat.instances
    ensures var walk := Ancestry(cat, records, current, visited);
            && (forall x :: x in walk ==> x !in visited && exists i :: i in cat.instances && i.id == x)
            && (current.Some? && current.value.id !in visited ==> walk != [] && walk[|walk| - 1] == current.value.id)
            && (forall j, k :: 0 <= j < k < |walk| ==> walk[j] != walk[k])
    decreases Ids(cat.instances) - visited
  {
    if current.Some? && current.value.id !in visited {
      var seed := current.value;
      var p := Parent(cat, seed, records);
      if p.Some? && p.value !in visited + {seed.id} {
        AncestryFacts(cat, records, Find(cat.instances, p.value), visited + {seed.id});
      }
    }
  }

  /** The walk covers every predecessor of what is on it, except where it met visited instances. */
  lemma {:induction false} AncestryClosed(
    cat: Catalog, records: seq<Record>, current: Option<Instance>, visited: set<int>)
    requires UniqueInstances(cat)
    requires current.Some? ==> current.value in cat.instances
    ensures var walk := Ancestry(cat, records, current, visited);
            forall i :: i in cat.instances && i.id in walk && Parent(cat, i, records).Some? ==>
              Parent(cat, i, records).value in walk || Parent(cat, i, records).value in visited
    decreases Ids(cat.instances) - visited
  {
    if current.Some? && current.value.id !in visited {
      var seed := current.value;
      var p := Parent(cat, seed, records);
      if p.Some? && p.value !in visited + {seed.id} {
        ParentExists(cat, records, seed);
        var next := Find(cat.instances, p.value);
        AncestryClosed(cat, records, next, visited + {seed.id});
        AncestryFacts(cat, records, next, visited + {seed.id});
      }
    }
  }

  lemma ParentExists(cat: Catalog, records: seq<Record>, seed: Instance)
    ensures Parent(cat, seed, records).Some? ==> Find(cat.instances, Parent(cat, seed, records).value).Some?
  {
    ResolvedIsDeletedSibling(cat.instances, cat.messages, seed, records);
  }

  /** The walk stays inside every set that is closed under predecessors. */
  lemma {:induction false} AncestryInside(
    cat: Catalog, records: seq<Record>, current: Option<Instance>, visited: set<int>, ids: set<int>)
    requires current.Some? ==> current.value in cat.instances && current.value.id in ids
    requires ClosedUp(cat, records, ids)
    ensures forall x :: x in Ancestry(cat, records, current, visited) ==> x in ids
    decreases Ids(cat.instances) - visited
  {
    if current.Some? && current.value.id !in visited {
      var seed := current.value;
      var p := Parent(cat, seed, records);
      if p.Some? && p.value !in visited + {seed.id} {
        AncestryInside(cat, records, Find(cat.instances, p.value), visited + {seed.id}, ids);
      }
    }
  }

  lemma LineageClosed(cat: Catalog, records: seq<Record>, id: int)
    requires UniqueInstances(cat)
    ensures id in Up(cat, records)(id)
    ensures ClosedUp(cat, records, Up(cat, records)(id))
  {
    var current := Find(cat.instances, id);
    AncestryFacts(cat, records, current, {});
    AncestryClosed(cat, records, current, {});
  }

  lemma LineageOfAncestor(cat: Catalog, records: seq<Record>, t: int, x: int)
    requires UniqueInstances(cat) && x in Up(cat, records)(t)
    ensures Up(cat, records)(x) <= Up(cat, records)(t)
  {
    hide Ancestry, ClosedUp;
    var ids := Up(cat, records)(t);
    LineageClosed(cat, records, t);
    AncestryInside(cat, records, Find(cat.instances, x), {}, ids);
    assert forall y :: y in Lineage(cat, records, x) ==> y in ids;
  }

  /** Lineages form a preorder, cycles among the instances included. */
  lemma LineagesFormPreorder(cat: Catalog, records: seq<Record>)
    requires UniqueInstances(cat)
    ensures Preorder(Up(cat, records))
  {
    hide Lineage;
    var up := Up(cat, records);
    forall t, x | x in up(t)
      ensures up(x) <= up(t)
    {
      LineageOfAncestor(cat, records, t, x);
    }
    forall t
      ensures t in up(t)
    {
      LineageClosed(cat, records, t);
    }
  }

  // ---------- Records do not matter when no choice is left to them ----------

  lemma {:induction false} AncestryIgnoresRecords(
    cat: Catalog, r1: seq<Record>, r2: seq<Record>, current: Option<Instance>, visited: set<int>)
    requires Unambiguous(cat)
    requires current.Some? ==> current.value in cat.instances
    ensures Ancestry(cat, r1, current, visited) == Ancestry(cat, r2, current, visited)
    decreases Ids(cat.instances) - visited
  {
    if current.Some? && current.value.id !in visited {
      var seed := current.value;
      DeterminedResolves(cat.instances, cat.messages, seed, r1, r2);
      var p := Parent(cat, seed, r1);
      if p.Some? && p.value !in visited + {seed.id} {
        AncestryIgnoresRecords(cat, r1, r2, Find(cat.instances, p.value), visited + {seed.id});
      }
    }
  }

  lemma LineageIgnoresRecords(cat: Catalog, r1: seq<Record>, r2: seq<Record>, id: int)
    requires Unambiguous(cat)
    ensures Lineage(cat, r1, id) == Lineage(cat, r2, id)
  {
    AncestryIgnoresRecords(cat, r1, r2, Find(cat.instances, id), {});
  }

  /** A lineage has no repetitions and ends with the instance itself. */
  lemma LineageShape(cat: Catalog, records: seq<Record>, id: int)
    ensures var l := Lineage(cat, records, id);
            && l != [] && l[|l| - 1] == id
            && forall j, k :: 0 <= j < k < |l| ==> l[j] != l[k]
  {
    AncestryFacts(cat, records, Find(cat.instances, id), {});
  }

  /** The instance `p` is the resolved predecessor of the instance of that identifier; 0 counts as none. */
  ghost predicate Precedes(cat: Catalog, records: seq<Record>, p: int, id: int) {
    && p != 0 && Find(cat.instances, id).Some?
    && Resolve(cat.instances, cat.messages, Find(cat.instances, id).value, records) == Some(p)
  }

  lemma {:induction false} AncestryLinks(
    cat: Catalog, records: seq<Record>, current: Option<Instance>, visited: set<int>)
    requires current.Some? ==> current.value in cat.instances && Find(cat.instances, current.value.id) == current
    ensures var walk := Ancestry(cat, records, current, visited);
            && (walk == [] <==> current.None? || current.value.id in visited)
            && (walk != [] ==> walk[|walk| - 1] == current.value.id)
            && (forall k :: 0 <= k < |walk| - 1 ==> Precedes(cat, records, walk[k], walk[k + 1]))
            && (walk != [] ==> forall p :: Precedes(cat, records, p, walk[0]) ==> p in walk || p in visited)
    decreases Ids(cat.instances) - visited
  {
    if current.Some? && current.value.id !in visited {
      var seed := current.value;
      var p := Parent(cat, seed, records);
      if p.Some? && p.value !in visited + {seed.id} {
        ParentExists(cat, records, seed);
        var next := Find(cat.instances, p.value);
        AncestryLinks(cat, records, next, visited + {seed.id});
        LinksOneMore(cat, records, Ancestry(cat, records, next, visited + {seed.id}), seed.id, visited);
      }
    }
  }

  lemma LinksOneMore(cat: Catalog, records: seq<Record>, walk: seq<int>, id: int, visited: set<int>)
    requires walk != [] && Precedes(cat, records, walk[|walk| - 1], id)
    requires forall k :: 0 <= k < |walk| - 1 ==> Precedes(cat, records, walk[k], walk[k + 1])
    requires forall p :: Precedes(cat, records, p, walk[0]) ==> p in walk || p in visited + {id}
    ensures var more := walk + [id];
            && (forall k :: 0 <= k < |more| - 1 ==> Precedes(cat, records, more[k], more[k + 1]))
            && forall p :: Precedes(cat, records, p, more[0]) ==> p in more || p in visited
  {
    hide Precedes;
  }

  /**
    A lineage is the chain of resolved predecessors: each entry is that of the next one, the last is the instance,
    and the first has no predecessor that is not on the lineage.
   */
  lemma LineageIsChain(cat: Catalog, records: seq<Record>, id: int)
    ensures var l := Lineage(cat, records, id);
            && l != [] && l[|l| - 1] == id
            && (forall k :: 0 <= k < |l| - 1 ==> Precedes(cat, records, l[k], l[k + 1]))
            && (forall p :: Precedes(cat, records, p, l[0]) ==> p in l)
  {
    hide Ancestry;
    AncestryLinks(cat, records, Find(cat.instances, id), {});
  }

  // ---------- Moving records ----------

  function Move(r: Record, source: int, target: int): Record {
    if r.instanceId == source then r.(instanceId := target) else r
  }

  function Reassigned(records: seq<Record>, source: int, target: int): (r: seq<Record>)
    ensures |r| == |records|
    ensures forall k :: 0 <= k < |r| ==> r[k] == Move(records[k], source, target)
  {
    seq(|records|, k requires 0 <= k < |records| => Move(records[k], source, target))
  }

  function ReassignedAll(records: seq<Record>, sources: seq<int>, target: int): seq<Record>
    decreases |sources|
  {
    if sources == [] then records
    else ReassignedAll(Reassigned(records, sources[0], target), sources[1..], target)
  }

  function MovedCount(records: seq<Record>, sources: seq<int>, target: int): nat
    decreases |sources|
  {
    if sources == [] then 0
    else (if sources[0] == target then 0 else CountRecords(records, sources[0])) +
         MovedCount(Reassigned(records, sources[0], target), sources[1..], target)
  }

  // ---------- One run over the messages ----------

  datatype Run = Run(
    records: seq<Record>, targets: seq<int>, scanned: nat, eligible: nat, moved: nat, unresolved: nat, skipped: nat)

  function Start(records: seq<Record>): Run {
    Run(records, [], 0, 0, 0, 0, 0)
  }

  predicate Owned(cat: Catalog, id: int, userId: int) {
    exists i :: i in cat.instances && i.id == id && i.userId == userId
  }

  /** The effect of one migration message. */
  function Handle(cat: Catalog, m: Message, run: Run, apply: bool): Run {
    var r := run.(scanned := run.scanned + 1);
    if m.data.instanceId.None? || m.data.instanceId.value in run.targets ||
       !Owned(cat, m.data.instanceId.value, m.userId)
    then r.(skipped := r.skipped + 1)
    else
      var target := m.data.instanceId.value;
      var lineage := Lineage(cat, run.records, target);
      var sources := lineage[..|lineage| - 1];
      var r1 := r.(targets := run.targets + [target]);
      if sources == [] then r1.(unresolved := r1.unresolved + 1)
      else if !apply then r1.(eligible := r1.eligible + 1)
      else r1.(
        eligible := r1.eligible + 1,
        records := ReassignedAll(run.records, sources, target),
        moved := r1.moved + MovedCount(run.records, sources, target))
  }

  function HandleAll(cat: Catalog, messages: seq<Message>, run: Run, apply: bool): Run {
    if messages == [] then run else HandleAll(cat, messages[1..], Handle(cat, messages[0], run, apply), apply)
  }

  // ---------- Conservation, whatever the catalog ----------

  /** The same records with the same contents, except for the instance they belong to. */
  ghost predicate SameButOwner(a: seq<Record>, b: seq<Record>) {
    |a| == |b| && forall k :: 0 <= k < |a| ==> a[k].(instanceId := 0) == b[k].(instanceId := 0)
  }

  lemma {:induction false} ReassignConserves(records: seq<Record>, sources: seq<int>, target: int)
    ensures SameButOwner(records, ReassignedAll(records, sources, target))
    decreases |sources|
  {
    if sources != [] {
      ReassignConserves(Reassigned(records, sources[0], target), sources[1..], target);
    }
  }

  /** Every message is counted once, no record is lost or altered, and a dry run moves nothing. */
  lemma {:induction false} RunConserves(cat: Catalog, messages: seq<Message>, run: Run, apply: bool)
    ensures var end := HandleAll(cat, messages, run, apply);
            && SameButOwner(run.records, end.records)
            && end.scanned == run.scanned + |messages|
            && end.scanned - run.scanned ==
               (end.eligible - run.eligible) + (end.unresolved - run.unresolved) + (end.skipped - run.skipped)
            && (!apply ==> end.records == run.records && end.moved == run.moved)
    decreases |messages|
  {
    if messages != [] {
      var next := Handle(cat, messages[0], run, apply);
      var m := messages[0];
      if m.data.instanceId.Some? {
        var lineage := Lineage(cat, run.records, m.data.instanceId.value);
        ReassignConserves(run.records, lineage[..|lineage| - 1], m.data.instanceId.value);
      }
      RunConserves(cat, messages[1..], next, apply);
    }
  }

  // ---------- A run as drawing records along lineages ----------

  /** The target that a message adds to those already processed, if any. */
  function TargetOf(cat: Catalog, m: Message, seen: seq<int>): seq<int> {
    var id := m.data.instanceId;
    if id.None? || id.value in seen || !Owned(cat, id.value, m.userId) then [] else [id.value]
  }

  function Targets(cat: Catalog, messages: seq<Message>, seen: seq<int>): seq<int> {
    if messages == [] then []
    else
      var first := TargetOf(cat, messages[0], seen);
      first + Targets(cat, messages[1..], seen + first)
  }

  lemma {:induction false} ReassignedAllMoves(records: seq<Record>, sources: seq<int>, target: int)
    requires target !in sources
    ensures |ReassignedAll(records, sources, target)| == |records|
    ensures forall k :: 0 <= k < |records| ==>
              ReassignedAll(records, sources, target)[k].instanceId ==
              if records[k].instanceId in sources then target else records[k].instanceId
    decreases |sources|
  {
    if sources != [] {
      ReassignedAllMoves(Reassigned(records, sources[0], target), sources[1..], target);
    }
  }

  lemma {:induction false} CountZero(records: seq<Record>, id: int)
    ensures CountRecords(records, id) == 0 <==> forall k :: 0 <= k < |records| ==> records[k].instanceId != id
  {
    if records != [] {
      CountZero(records[1..], id);
    }
  }

  lemma {:induction false} ReassignedNothing(records: seq<Record>, source: int, target: int)
    requires CountRecords(records, source) == 0
    ensures Reassigned(records, source, target) == records
  {
    CountZero(records, source);
  }

  lemma {:induction false} MovedNothing(records: seq<Record>, sources: seq<int>, target: int)
    requires target !in sources
    ensures MovedCount(records, sources, target) == 0 <==>
            forall k :: 0 <= k < |records| ==> records[k].instanceId !in sources
    ensures MovedCount(records, sources, target) == 0 ==> ReassignedAll(records, sources, target) == records
    decreases |sources|
  {
    if sources != [] {
      CountZero(records, sources[0]);
      if CountRecords(records, sources[0]) == 0 {
        ReassignedNothing(records, sources[0], target);
        MovedNothing(records, sources[1..], target);
      }
    }
  }

  /** What the sources of a target are: its lineage without itself. */
  lemma SourcesOf(cat: Catalog, records: seq<Record>, target: int)
    ensures var l := Lineage(cat, records, target);
            var sources := l[..|l| - 1];
            && target !in sources
            && forall x :: x in sources <==> x in Up(cat, records)(target) && x != target
  {
    hide Lineage;
    LineageShape(cat, records, target);
    var l := Lineage(cat, records, target);
    forall x
      ensures x in l[..|l| - 1] <==> x in l && x != target
    {
      if x in l && x != target {
        var k :| 0 <= k < |l| && l[k] == x;
        assert l[..|l| - 1][k] == x;
      }
    }
  }

  /** One message that is handled draws every record on the lineage of its target, as it is then, to the target. */
  lemma HandleDraws(cat: Catalog, m: Message, run: Run)
    ensures var run' := Handle(cat, m, run, true);
            var up := Up(cat, run.records);
            var added := TargetOf(cat, m, run.targets);
            && run'.targets == run.targets + added
            && |run'.records| == |run.records|
            && (forall k :: 0 <= k < |run.records| ==>
                  run'.records[k].instanceId == DrawAll(up, added, run.records[k].instanceId))
            && (run'.moved == run.moved <==>
                  forall k :: 0 <= k < |run.records| ==> Settled(up, added, run.records[k].instanceId))
            && (run'.moved == run.moved ==> run'.records == run.records)
            && run'.moved >= run.moved
  {
    hide Lineage, ReassignedAll, MovedCount;
    var run' := Handle(cat, m, run, true);
    var added := TargetOf(cat, m, run.targets);
    if added == [] {
      assert run.targets + [] == run.targets;
    } else {
      var target := m.data.instanceId.value;
      var lineage := Lineage(cat, run.records, target);
      var sources := lineage[..|lineage| - 1];
      assert added == [target];
      SourcesOf(cat, run.records, target);
      ReassignedAllMoves(run.records, sources, target);
      MovedNothing(run.records, sources, target);
      DrawOne(Up(cat, run.records), target);
      if sources == [] {
        MovedNothing(run.records, [], target);
      }
    }
  }

  /** The order on instances is the same for all billing records. */
  lemma UpIgnoresRecords(cat: Catalog, r1: seq<Record>, r2: seq<Record>, targets: seq<int>, x: int)
    requires Unambiguous(cat)
    ensures DrawAll(Up(cat, r1), targets, x) == DrawAll(Up(cat, r2), targets, x)
    ensures Settled(Up(cat, r1), targets, x) <==> Settled(Up(cat, r2), targets, x)
  {
    hide Lineage, Unambiguous;
    forall id ensures Up(cat, r1)(id) == Up(cat, r2)(id) {
      LineageIgnoresRecords(cat, r1, r2, id);
    }
    DrawSame(Up(cat, r1), Up(cat, r2), targets, x);
  }

  lemma {:induction false} DrawSame(up: int -> set<int>, up': int -> set<int>, targets: seq<int>, x: int)
    requires forall id :: up(id) == up'(id)
    ensures DrawAll(up, targets, x) == DrawAll(up', targets, x)
    ensures Settled(up, targets, x) <==> Settled(up', targets, x)
    decreases |targets|
  {
    if targets != [] {
      DrawSame(up, up', targets[1..], Draw(up, targets[0], x));
    }
    assert forall t :: Draw(up, t, x) == Draw(up', t, x);
  }

  lemma DrawOne(up: int -> set<int>, t: int)
    ensures forall x :: DrawAll(up, [t], x) == Draw(up, t, x)
    ensures forall x :: Settled(up, [t], x) <==> Draw(up, t, x) == x
  {
    forall x
      ensures DrawAll(up, [t], x) == Draw(up, t, x)
    {
      assert [t][1..] == [];
      assert DrawAll(up, [], Draw(up, t, x)) == Draw(up, t, x);
    }
    forall x
      ensures Settled(up, [t], x) <==> Draw(up, t, x) == x
    {
      assert t in [t];
    }
  }

  lemma {:induction false} DrawConcat(up: int -> set<int>, a: seq<int>, b: seq<int>, x: int)
    ensures DrawAll(up, a + b, x) == DrawAll(up, b, DrawAll(up, a, x))
    decreases |a|
  {
    if a == [] {
      assert a + b == b;
    } else {
      assert (a + b)[1..] == a[1..] + b;
      DrawConcat(up, a[1..], b, Draw(up, a[0], x));
    }
  }

  /**
    For every catalog: a run moves nothing if and only if every record is settled in the lineages that hold at its
    start, that is, none is on a proper ancestor of a target; it then leaves the table as it is.
   */
  lemma {:induction false} MovesNothingIffSettled(cat: Catalog, messages: seq<Message>, run: Run)
    ensures var end := HandleAll(cat, messages, run, true);
            var up, added := Up(cat, run.records), Targets(cat, messages, run.targets);
            && end.targets == run.targets + added
            && end.moved >= run.moved
            && (end.moved == run.moved <==>
                  forall k :: 0 <= k < |run.records| ==> Settled(up, added, run.records[k].instanceId))
            && (end.moved == run.moved ==> end.records == run.records)
    decreases |messages|
  {
    hide Handle, TargetOf, Up;
    if messages != [] {
      var up := Up(cat, run.records);
      var first := TargetOf(cat, messages[0], run.targets);
      var next := Handle(cat, messages[0], run, true);
      var rest := Targets(cat, messages[1..], next.targets);
      HandleDraws(cat, messages[0], run);
      MovesNothingIffSettled(cat, messages[1..], next);
      forall k | 0 <= k < |run.records|
        ensures Settled(up, first + rest, run.records[k].instanceId) <==>
                Settled(up, first, run.records[k].instanceId) && Settled(up, rest, run.records[k].instanceId)
      {
      }
    } else {
      assert run.targets + [] == run.targets;
    }
  }

  /** Where a record at `x` is after a run, drawn at each message along the lineages as they then are. */
  function DrawnAlong(cat: Catalog, messages: seq<Message>, run: Run, x: int): int
    decreases |messages|
  {
    if messages == [] then x
    else
      var drawn := DrawAll(Up(cat, run.records), TargetOf(cat, messages[0], run.targets), x);
      DrawnAlong(cat, messages[1..], Handle(cat, messages[0], run, true), drawn)
  }

  /**
    For every catalog, tie-breaks and cycles included: a run draws each record, message by message, along the
    lineages as they then are. So records of one instance stay together.
   */
  lemma {:induction false} RunDrawsAlong(cat: Catalog, messages: seq<Message>, run: Run)
    ensures var end := HandleAll(cat, messages, run, true);
            && |end.records| == |run.records|
            && (forall k :: 0 <= k < |run.records| ==>
                  end.records[k].instanceId == DrawnAlong(cat, messages, run, run.records[k].instanceId))
            && (forall j, k | 0 <= j < |run.records| && 0 <= k < |run.records| ::
                  run.records[j].instanceId == run.records[k].instanceId ==>
                    end.records[j].instanceId == end.records[k].instanceId)
    decreases |messages|
  {
    hide Handle, TargetOf, Up, DrawAll;
    if messages != [] {
      HandleDraws(cat, messages[0], run);
      RunDrawsAlong(cat, messages[1..], Handle(cat, messages[0], run, true));
    }
  }

  /** When predecessors do not depend on records, a whole run draws each record along all its targets. */
  lemma {:induction false} RunDraws(cat: Catalog, messages: seq<Message>, run: Run)
    requires Unambiguous(cat)
    ensures var end := HandleAll(cat, messages, run, true);
            var up, added := Up(cat, []), Targets(cat, messages, run.targets);
            && |end.records| == |run.records|
            && (forall k :: 0 <= k < |run.records| ==>
                  end.records[k].instanceId == DrawAll(up, added, run.records[k].instanceId))
    decreases |messages|
  {
    hide Handle, TargetOf, Unambiguous, Up;
    var up := Up(cat, []);
    if messages != [] {
      var first := TargetOf(cat, messages[0], run.targets);
      var next := Handle(cat, messages[0], run, true);
      var rest := Targets(cat, messages[1..], next.targets);
      HandleDraws(cat, messages[0], run);
      RunDraws(cat, messages[1..], next);
      forall k | 0 <= k < |run.records|
        ensures DrawAll(up, first + rest, run.records[k].instanceId) ==
                DrawAll(up, rest, next.records[k].instanceId)
      {
        UpIgnoresRecords(cat, run.records, [], first, run.records[k].instanceId);
        DrawConcat(up, first, rest, run.records[k].instanceId);
      }
    }
  }

  function Repaired(cat: Catalog, messages: seq<Message>, records: seq<Record>): Run {
    HandleAll(cat, messages, Start(records), true)
  }

  /** Running the repair twice over the same messages. */
  function SecondRun(cat: Catalog, messages: seq<Message>, records: seq<Record>): Run {
    Repaired(cat, messages, Repaired(cat, messages, records).records)
  }

  /**
    For every catalog, tie-breaks by billing records and cycles included: the second run moves nothing if and only
    if the first one has left no record on a proper ancestor, in the lineages of the repaired table, of a target.
   */
  lemma SecondRunMovesNothingIffSettled(cat: Catalog, messages: seq<Message>, records: seq<Record>)
    ensures var once := Repaired(cat, messages, records).records;
            && (SecondRun(cat, messages, records).moved == 0 <==>
                forall k :: 0 <= k < |once| ==> Settled(Up(cat, once), Targets(cat, messages, []), once[k].instanceId))
            && (SecondRun(cat, messages, records).moved == 0 ==>
                SecondRun(cat, messages, records).records == once)
  {
    hide HandleAll, Up, Targets, Settled;
    MovesNothingIffSettled(cat, messages, Start(Repaired(cat, messages, records).records));
  }

  /** When predecessors do not depend on records, that is so exactly when every record started where it settles. */
  lemma SecondRunMoves(cat: Catalog, messages: seq<Message>, records: seq<Record>)
    requires Unambiguous(cat)
    ensures SecondRun(cat, messages, records).moved == 0 <==>
            forall k :: 0 <= k < |records| ==>
              SettledFrom(Up(cat, []), Targets(cat, messages, []), records[k].instanceId)
  {
    hide HandleAll, Up, Targets, Settled, Unambiguous;
    var once := Repaired(cat, messages, records).records;
    SecondRunMovesNothingIffSettled(cat, messages, records);
    RunDraws(cat, messages, Start(records));
    forall k | 0 <= k < |records|
      ensures Settled(Up(cat, once), Targets(cat, messages, []), once[k].instanceId) <==>
              SettledFrom(Up(cat, []), Targets(cat, messages, []), records[k].instanceId)
    {
      UpIgnoresRecords(cat, once, [], Targets(cat, messages, []), once[k].instanceId);
    }
  }

  /**
    Convergence: when no predecessor depends on billing records, a second run moves nothing, for every table of
    records, if and only if every cycle of lineages with two targets on it is drained by a target outside it.
   */
  lemma SecondRunMovesNothingIffDrained(cat: Catalog, messages: seq<Message>)
    requires Unambiguous(cat) && UniqueInstances(cat)
    ensures (forall records: seq<Record> :: SecondRun(cat, messages, records).moved == 0) <==>
            CyclesDrained(Up(cat, []), Targets(cat, messages, []))
  {
    hide HandleAll, Unambiguous, UniqueInstances, Up, CyclesDrained, SettledFrom, Targets, SecondRun;
    var up, targets := Up(cat, []), Targets(cat, messages, []);
    LineagesFormPreorder(cat, []);
    ConvergesIffDrained(up, targets);
    forall records: seq<Record>
      ensures (forall x :: SettledFrom(up, targets, x)) ==> SecondRun(cat, messages, records).moved == 0
    {
      SecondRunMoves(cat, messages, records);
    }
    if x :| !SettledFrom(up, targets, x) {
      SecondRunMoves(cat, messages, [RecordAt(x)]);
      assert [RecordAt(x)][0].instanceId == x;
      assert SecondRun(cat, messages, [RecordAt(x)]).moved != 0;
    }
  }

  /** Without cycles, after any messages in any order, no record is left on an ancestor of a processed target. */
  lemma NothingLeftOnAncestors(cat: Catalog, messages: seq<Message>, records: seq<Record>, k: nat, t: int)
    requires Unambiguous(cat) && UniqueInstances(cat)
    requires var targets := Targets(cat, messages, []);
             forall a, b :: a in targets && b in targets && Mutual(Up(cat, []), a, b) ==> a == b
    requires k < |records| && t in Targets(cat, messages, [])
    ensures |Repaired(cat, messages, records).records| == |records|
    ensures var at := Repaired(cat, messages, records).records[k].instanceId;
            at in Up(cat, [])(t) ==> at == t
  {
    hide HandleAll, Unambiguous, UniqueInstances, Up, CyclesDrained, Targets;
    var up, targets := Up(cat, []), Targets(cat, messages, []);
    LineagesFormPreorder(cat, []);
    AcyclicPrefixesSettle(up, targets, |targets|, records[k].instanceId);
    assert targets[..|targets|] == targets;
    RunDraws(cat, messages, Start(records));
  }
}
