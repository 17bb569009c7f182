/**
  Why the repair need not converge when a predecessor is chosen by billing records: moving records changes later
  choices.  Two instances left the same host within an hour.  The first migration message has both deleted
  instances for candidates and cannot tell them apart; the second one has a single candidate, whose records move,
  and from then on the first message has a single candidate with records.
 */
module BillingTieBreak {
  import opened TextSearch
  import opened BillingLineage
  import opened LineageOrder
  import opened BillingRepair

  const MINUTE := 60 * 1000

  const ONE := Instance(1, 1, 10, "vm", Some(5), false, 0)
  const FOUR := Instance(4, 1, 30, "vm", Some(6), false, 40 * MINUTE)
  const TWO := Instance(2, 1, 20, "vm", Some(1), true, 0)
  const THREE := Instance(3, 1, 20, "vm", Some(2), true, 20 * MINUTE)
  const TO_ONE := Message(1, 0, MessageData(Some(1), Some(20), None, None))
  const TO_FOUR := Message(1, 40 * MINUTE, MessageData(Some(4), Some(20), None, None))
  const TIED := Catalog([ONE, TWO, THREE, FOUR], [TO_ONE, TO_FOUR])

  lemma TiedCandidates()
    ensures Candidates(TIED.instances, ONE, TO_ONE) == [TWO, THREE]
    ensures Candidates(TIED.instances, FOUR, TO_FOUR) == [THREE]
  {
    assert TIED.instances[1..] == [TWO, THREE, FOUR];
    assert [TWO, THREE, FOUR][1..] == [THREE, FOUR] && [THREE, FOUR][1..] == [FOUR] && [FOUR][1..] == [];
    TiedLast();
    hide IsCandidate;
    assert Candidates([THREE, FOUR], ONE, TO_ONE) == [THREE] && Candidates([THREE, FOUR], FOUR, TO_FOUR) == [THREE];
    assert Candidates([TWO, THREE, FOUR], ONE, TO_ONE) == [TWO, THREE];
    assert Candidates([TWO, THREE, FOUR], FOUR, TO_FOUR) == [THREE];
  }

  lemma TiedLast()
    ensures !IsCandidate(ONE, ONE, TO_ONE) && !IsCandidate(ONE, FOUR, TO_FOUR)
    ensures IsCandidate(TWO, ONE, TO_ONE) && !IsCandidate(TWO, FOUR, TO_FOUR)
    ensures IsCandidate(THREE, ONE, TO_ONE) && IsCandidate(THREE, FOUR, TO_FOUR)
    ensures !IsCandidate(FOUR, ONE, TO_ONE) && !IsCandidate(FOUR, FOUR, TO_FOUR)
    ensures Candidates([FOUR], ONE, TO_ONE) == [] && Candidates([FOUR], FOUR, TO_FOUR) == []
  {
    assert [FOUR][1..] == [];
  }

  /** The first message chooses the only candidate with records, if there is just one. */
  lemma TiedChoice(records: seq<Record>)
    ensures Choose([TWO, THREE], ONE, records) ==
            if CountRecords(records, 2) > 0 && CountRecords(records, 3) == 0 then Some(2)
            else if CountRecords(records, 2) == 0 && CountRecords(records, 3) > 0 then Some(3)
            else None
    ensures Choose([THREE], FOUR, records) == Some(3)
  {
    assert [TWO, THREE][1..] == [THREE] && [THREE][1..] == [];
    assert Preferred([THREE], ONE) == [] && Preferred([TWO, THREE], ONE) == [];
    assert WithRecords([THREE], records) == if CountRecords(records, 3) > 0 then [THREE] else [];
  }

  lemma ResolveTwo(seed: Instance, records: seq<Record>)
    ensures Resolve(TIED.instances, TIED.messages, seed, records) ==
            if Says(TIED.instances, TO_FOUR, seed, records).Some? then Says(TIED.instances, TO_FOUR, seed, records)
            else Says(TIED.instances, TO_ONE, seed, records)
  {
    hide Says;
    assert TIED.messages[..1] == [TO_ONE] && [TO_ONE][..0] == [];
    assert Resolve(TIED.instances, [], seed, records) == None;
    assert Resolve(TIED.instances, [TO_ONE], seed, records) == Says(TIED.instances, TO_ONE, seed, records);
  }

  lemma TiedParents(records: seq<Record>)
    ensures Parent(TIED, ONE, records) == Choose([TWO, THREE], ONE, records)
    ensures Parent(TIED, FOUR, records) == Some(3)
    ensures Parent(TIED, TWO, records) == None && Parent(TIED, THREE, records) == None
  {
    hide Resolve, Candidates;
    TiedCandidates();
    TiedChoice(records);
    ResolveTwo(ONE, records);
    ResolveTwo(TWO, records);
    ResolveTwo(THREE, records);
    ResolveTwo(FOUR, records);
  }

  lemma TiedFinds()
    ensures Find(TIED.instances, 1) == Some(ONE) && Find(TIED.instances, 4) == Some(FOUR)
    ensures Find(TIED.instances, 2) == Some(TWO) && Find(TIED.instances, 3) == Some(THREE)
  {
    assert TIED.instances[1..] == [TWO, THREE, FOUR];
    assert [TWO, THREE, FOUR][1..] == [THREE, FOUR] && [THREE, FOUR][1..] == [FOUR];
  }

  /** Whatever the records are, lineages are chains of at most two, so there are no cycles. */
  lemma TiedLineages(records: seq<Record>)
    ensures Lineage(TIED, records, 4) == [3, 4]
    ensures Lineage(TIED, records, 1) ==
            (match Choose([TWO, THREE], ONE, records) case Some(id) => [id, 1] case None => [1])
  {
    hide Parent, Find, Choose;
    TiedParents(records);
    TiedFinds();
    TiedChoice(records);
    Orphan(TIED, THREE, records, {} + {4});
    Orphan(TIED, TWO, records, {} + {1});
    Orphan(TIED, THREE, records, {} + {1});
    assert Ancestry(TIED, records, Some(FOUR), {}) == [3] + [4];
    if Choose([TWO, THREE], ONE, records).None? {
      Orphan(TIED, ONE, records, {});
    }
  }

  lemma Orphan(cat: Catalog, seed: Instance, records: seq<Record>, visited: set<int>)
    requires seed in cat.instances && Parent(cat, seed, records).None? && seed.id !in visited
    ensures Ancestry(cat, records, Some(seed), visited) == [seed.id]
  {
    hide Parent;
  }

  const BOTH := [RecordAt(2), RecordAt(3)]
  const APART := [RecordAt(2), RecordAt(4)]
  const DRAWN := [RecordAt(1), RecordAt(4)]

  /** The first run moves the record of 3 to 4; the second run then moves the record of 2 to 1. */
  lemma TieBreakNeedsSecondRun()
    ensures UniqueInstances(TIED) && !Unambiguous(TIED)
    ensures Repaired(TIED, TIED.messages, BOTH).records == APART
    ensures SecondRun(TIED, TIED.messages, BOTH).moved == 1
  {
    hide HandleAll, Unambiguous;
    TiedAmbiguous();
    TiedFirstRun();
    TiedSecondRun();
  }

  lemma TiedAmbiguous()
    ensures !Unambiguous(TIED)
  {
    TiedCounts();
    TiedChoice(APART);
    TiedChoice(BOTH);
    TiedParents(APART);
    TiedParents(BOTH);
    assert ONE in TIED.instances;
    if Determined(TIED.instances, TIED.messages, ONE) {
      DeterminedResolves(TIED.instances, TIED.messages, ONE, APART, BOTH);
    }
  }

  lemma TiedCounts()
    ensures CountRecords(BOTH, 2) == 1 && CountRecords(BOTH, 3) == 1
    ensures CountRecords(APART, 2) == 1 && CountRecords(APART, 3) == 0
    ensures CountRecords(DRAWN, 3) == 0
  {
    assert BOTH[1..] == [RecordAt(3)] && APART[1..] == [RecordAt(4)] && DRAWN[1..] == [RecordAt(4)];
    assert [RecordAt(3)][1..] == [] && [RecordAt(4)][1..] == [];
    assert CountRecords([RecordAt(3)], 2) == 0 && CountRecords([RecordAt(3)], 3) == 1;
    assert CountRecords([RecordAt(4)], 2) == 0 && CountRecords([RecordAt(4)], 3) == 0;
  }

  lemma TiedOwned()
    ensures Owned(TIED, 1, 1) && Owned(TIED, 4, 1)
  {
    assert ONE in TIED.instances && FOUR in TIED.instances;
  }

  lemma HandleBoth(run: Run)
    ensures HandleAll(TIED, TIED.messages, run, true) ==
            Handle(TIED, TO_FOUR, Handle(TIED, TO_ONE, run, true), true)
  {
    hide Handle;
    assert TIED.messages[1..] == [TO_FOUR] && [TO_FOUR][1..] == [];
    var next := Handle(TIED, TO_ONE, run, true);
    assert HandleAll(TIED, [TO_FOUR], next, true) == HandleAll(TIED, [], Handle(TIED, TO_FOUR, next, true), true);
  }

  /** One message whose target has no source. */
  lemma HandleAlone(cat: Catalog, m: Message, run: Run, target: int)
    requires m.data.instanceId == Some(target) && target !in run.targets && Owned(cat, target, m.userId)
    requires Lineage(cat, run.records, target) == [target]
    ensures var next := Handle(cat, m, run, true);
            next.records == run.records && next.moved == run.moved && next.targets == run.targets + [target]
  {
    hide Lineage, Owned;
    assert [target][..0] == [];
  }

  /** One message whose target has a single source. */
  lemma HandleSingle(cat: Catalog, m: Message, run: Run, source: int, target: int)
    requires m.data.instanceId == Some(target) && target !in run.targets && Owned(cat, target, m.userId)
    requires Lineage(cat, run.records, target) == [source, target] && source != target
    ensures var next := Handle(cat, m, run, true);
            && next.records == Reassigned(run.records, source, target)
            && next.moved == run.moved + CountRecords(run.records, source)
            && next.targets == run.targets + [target]
  {
    hide Lineage, Owned, Reassigned;
    assert [source, target][..1] == [source] && [source][1..] == [];
    var records := Reassigned(run.records, source, target);
    assert ReassignedAll(records, [], target) == records && MovedCount(records, [], target) == 0;
    assert ReassignedAll(run.records, [source], target) == records;
  }

  lemma TiedFirstRun()
    ensures Repaired(TIED, TIED.messages, BOTH).records == APART
  {
    hide Lineage, Owned, HandleAll, CountRecords, Handle;
    TiedOwned();
    TiedCounts();
    TiedChoice(BOTH);
    TiedLineages(BOTH);
    var run0 := Start(BOTH);
    HandleBoth(run0);
    HandleAlone(TIED, TO_ONE, run0, 1);
    HandleSingle(TIED, TO_FOUR, Handle(TIED, TO_ONE, run0, true), 3, 4);
    assert Reassigned(BOTH, 3, 4) == APART;
  }

  lemma TiedSecondRun()
    ensures Repaired(TIED, TIED.messages, APART).moved == 1
  {
    hide Lineage, Owned, HandleAll, CountRecords, Handle;
    TiedOwned();
    TiedCounts();
    TiedChoice(APART);
    TiedLineages(APART);
    TiedLineages(DRAWN);
    var run0 := Start(APART);
    HandleBoth(run0);
    HandleSingle(TIED, TO_ONE, run0, 2, 1);
    assert Reassigned(APART, 2, 1) == DRAWN;
    HandleSingle(TIED, TO_FOUR, Handle(TIED, TO_ONE, run0, true), 3, 4);
  }
}
