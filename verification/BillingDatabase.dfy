/**
  The repair as it changes the database: the walk along predecessors, the reassignment of records and
  the loop over the migration messages, each against its specification.
 */
module BillingDatabase {
  import opened TextSearch
  import opened BillingLineage
  import opened BillingRepair

  class Database {
    const catalog: Catalog
    var records: seq<Record>

    constructor (catalog: Catalog, records: seq<Record>)
      ensures this.catalog == catalog && this.records == records
    {
      this.catalog := catalog;
      this.records := records;
    }

    method ResolveImmediateSource(seed: Instance) returns (r: Option<int>)
      ensures r == Resolve(catalog.instances, catalog.messages, seed, records)
    {
      var i := |catalog.messages|;
      assert catalog.messages[..i] == catalog.messages;
      while i > 0
        invariant 0 <= i <= |catalog.messages|
        invariant Resolve(catalog.instances, catalog.messages[..i], seed, records) ==
                  Resolve(catalog.instances, catalog.messages, seed, records)
      {
        i := i - 1;
        var message := catalog.messages[i];
        assert catalog.messages[..i + 1][i] == message && catalog.messages[..i + 1][..i] == catalog.messages[..i];
        if !Applies(seed, message) { continue; }
        var candidates := Candidates(catalog.instances, seed, message);
        if |candidates| == 0 { continue; }
        var chosen := Choose(candidates, seed, records);
        if chosen.Some? { return chosen; }
      }
      return None;
    }

    method GetInstanceBillingLineageIds(instanceId: int) returns (lineage: seq<int>)
      ensures lineage == Lineage(catalog, records, instanceId)
    {
      lineage := [];
      var visited: set<int> := {};
      var start := Find(catalog.instances, instanceId);
      var current := start;
      while current.Some? && current.value.id !in visited
        invariant current.Some? ==> current.value in catalog.instances
        invariant Ancestry(catalog, records, current, visited) + lineage ==
                  Ancestry(catalog, records, start, {})
        decreases Ids(catalog.instances) - visited
      {
        var seed := current.value;
        var predecessorId := ResolveImmediateSource(seed);
        lineage := [seed.id] + lineage;
        visited := visited + {seed.id};
        if predecessorId.None? || predecessorId.value == 0 || predecessorId.value in visited {
          break;
        }
        current := Find(catalog.instances, predecessorId.value);
      }
      if |lineage| == 0 {
        lineage := [instanceId];
      }
    }

    method ReassignInstanceBillingRecords(sourceInstanceId: int, targetInstanceId: int) returns (count: nat)
      modifies this`records
      ensures records == Reassigned(old(records), sourceInstanceId, targetInstanceId)
      ensures count == if sourceInstanceId == targetInstanceId then 0
                       else CountRecords(old(records), sourceInstanceId)
    {
      if sourceInstanceId == targetInstanceId {
        assert records == Reassigned(records, sourceInstanceId, targetInstanceId);
        return 0;
      }
      count := CountRecords(records, sourceInstanceId);
      records := Reassigned(records, sourceInstanceId, targetInstanceId);
    }

    method MoveAll(sources: seq<int>, target: int) returns (totalMoved: nat)
      modifies this`records
      ensures records == ReassignedAll(old(records), sources, target)
      ensures totalMoved == MovedCount(old(records), sources, target)
    {
      totalMoved := 0;
      var i := 0;
      while i < |sources|
        invariant 0 <= i <= |sources|
        invariant ReassignedAll(records, sources[i..], target) == ReassignedAll(old(records), sources, target)
        invariant totalMoved + MovedCount(records, sources[i..], target) == MovedCount(old(records), sources, target)
      {
        assert sources[i..][0] == sources[i] && sources[i..][1..] == sources[i + 1..];
        var moved := ReassignInstanceBillingRecords(sources[i], target);
        totalMoved := totalMoved + moved;
        i := i + 1;
      }
    }

    /** The loop over the migration messages, oldest first, cut off at the limit when there is one. */
    method Repair(apply: bool, limit: Option<nat>) returns (summary: Run)
      modifies this`records
      ensures var messages := if limit.Some? && limit.value < |catalog.messages| then catalog.messages[..limit.value]
                              else catalog.messages;
              summary == HandleAll(catalog, messages, Start(old(records)), apply)
      ensures summary.records == records
    {
      hide Lineage, Owned, ReassignedAll, MovedCount, HandleAll;
      var messages := catalog.messages;
      if limit.Some? && limit.value < |messages| {
        messages := messages[..limit.value];
      }
      var scanned, eligible, movedRecords, unresolved, skipped := 0, 0, 0, 0, 0;
      var processedTargetIds: seq<int> := [];
      var i := 0;
      ghost var all := HandleAll(catalog, messages, Start(records), apply);
      assert messages[0..] == messages;
      while i < |messages|
        invariant 0 <= i <= |messages|
        invariant HandleAll(
                    catalog, messages[i..],
                    Run(records, processedTargetIds, scanned, eligible, movedRecords, unresolved, skipped),
                    apply) == all
      {
        var message := messages[i];
        HandleNext(catalog, messages, i,
                   Run(records, processedTargetIds, scanned, eligible, movedRecords, unresolved, skipped), apply);
        i := i + 1;
        scanned := scanned + 1;
        if message.data.instanceId.None? {
          skipped := skipped + 1;
          continue;
        }
        var newInstanceId := message.data.instanceId.value;
        if newInstanceId in processedTargetIds {
          skipped := skipped + 1;
          continue;
        }
        if !Owned(catalog, newInstanceId, message.userId) {
          skipped := skipped + 1;
          continue;
        }
        processedTargetIds := processedTargetIds + [newInstanceId];
        var lineage := GetInstanceBillingLineageIds(newInstanceId);
        var sourceInstanceIds := lineage[..|lineage| - 1];
        if |sourceInstanceIds| == 0 {
          unresolved := unresolved + 1;
          continue;
        }
        eligible := eligible + 1;
        if !apply { continue; }
        var moved := MoveAll(sourceInstanceIds, newInstanceId);
        movedRecords := movedRecords + moved;
      }
      HandleNone(
        catalog, Run(records, processedTargetIds, scanned, eligible, movedRecords, unresolved, skipped), apply);
      assert messages[i..] == [];
      summary := Run(records, processedTargetIds, scanned, eligible, movedRecords, unresolved, skipped);
    }
  }

  lemma HandleNone(cat: Catalog, run: Run, apply: bool)
    ensures HandleAll(cat, [], run, apply) == run
  {
  }

  lemma HandleNext(cat: Catalog, messages: seq<Message>, i: nat, run: Run, apply: bool)
    requires i < |messages|
    ensures HandleAll(cat, messages[i..], run, apply) ==
            HandleAll(cat, messages[i + 1..], Handle(cat, messages[i], run, apply), apply)
  {
    hide Handle;
    assert messages[i..][1..] == messages[i + 1..];
  }
}
