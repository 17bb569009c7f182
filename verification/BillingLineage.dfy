/**
  The billing lineage of an instance (server/src/db/billing-records.ts): the migration messages of its
  user name the host it came from, the deleted instances there are the candidates for its predecessor,
  and the chain of predecessors is its lineage.
 */
module BillingLineage {
  import opened TextSearch

  datatype Instance = Instance(
    id: int, userId: int, hostId: int, name: string, expiresAt: Option<int>, deleted: bool, updatedAt: int)

  /** The data of a migration message; `None` stands for everything that is not an integer or a string. */
  datatype MessageData = MessageData(
    instanceId: Option<int>, oldHostId: Option<int>, newHostId: Option<int>, instanceName: Option<string>)

  datatype Message = Message(userId: int, createdAt: int, data: MessageData)

  /** A billing record: where it belongs, and everything else about it. */
  datatype Record = Record(id: int, instanceId: int, userId: int, amount: int, remark: string)

  /** The instances and the migration messages, oldest first. */
  datatype Catalog = Catalog(instances: seq<Instance>, messages: seq<Message>)

  const HALF_HOUR := 30 * 60 * 1000

  // ---------- Instances ----------

  function Find(instances: seq<Instance>, id: int): (r: Option<Instance>)
    ensures r.Some? ==> r.value in instances && r.value.id == id
    ensures r.None? ==> forall i :: i in instances ==> i.id != id
  {
    if instances == [] then None
    else if instances[0].id == id then Some(instances[0])
    else Find(instances[1..], id)
  }

  predicate IsCandidate(i: Instance, seed: Instance, m: Message)
    requires m.data.oldHostId.Some?
  {
    var name := if m.data.instanceName.Some? && Trim(m.data.instanceName.value) != "" then m.data.instanceName.value
                else seed.name;
    && i.userId == seed.userId && i.hostId == m.data.oldHostId.value && i.name == name
    && i.deleted && i.id != seed.id
    && m.createdAt - HALF_HOUR <= i.updatedAt <= m.createdAt + HALF_HOUR
  }

  function Candidates(instances: seq<Instance>, seed: Instance, m: Message): (r: seq<Instance>)
    requires m.data.oldHostId.Some?
    ensures forall i :: i in r <==> i in instances && IsCandidate(i, seed, m)
  {
    if instances == [] then []
    else (if IsCandidate(instances[0], seed, m) then [instances[0]] else []) + Candidates(instances[1..], seed, m)
  }

  /** The candidates that expire when the seed does. */
  function Preferred(candidates: seq<Instance>, seed: Instance): (r: seq<Instance>)
    ensures forall i :: i in r <==> i in candidates && i.expiresAt == seed.expiresAt
  {
    if candidates == [] then []
    else (if candidates[0].expiresAt == seed.expiresAt then [candidates[0]] else []) + Preferred(candidates[1..], seed)
  }

  function CountRecords(records: seq<Record>, id: int): nat {
    if records == [] then 0 else (if records[0].instanceId == id then 1 else 0) + CountRecords(records[1..], id)
  }

  /** The candidates that have billing records. */
  function WithRecords(candidates: seq<Instance>, records: seq<Record>): (r: seq<Instance>)
    ensures forall i :: i in r <==> i in candidates && CountRecords(records, i.id) > 0
  {
    if candidates == [] then []
    else (if CountRecords(records, candidates[0].id) > 0 then [candidates[0]] else []) +
         WithRecords(candidates[1..], records)
  }

  // ---------- The immediate predecessor ----------

  /**
    The one candidate, else the one that expires when the seed does, else the one with billing records.
    The source then asks once more whether a single candidate or a single preferred one is left, which
    the first two rules have ruled out.
   */
  function Choose(candidates: seq<Instance>, seed: Instance, records: seq<Record>): Option<int> {
    var preferred, billed := Preferred(candidates, seed), WithRecords(candidates, records);
    if |candidates| == 1 then Some(candidates[0].id)
    else if |preferred| == 1 then Some(preferred[0].id)
    else if |billed| == 1 then Some(billed[0].id)
    else None
  }

  predicate Applies(seed: Instance, m: Message) {
    && m.userId == seed.userId
    && m.data.instanceId == Some(seed.id)
    && m.data.oldHostId.Some?
    && (m.data.newHostId.Some? ==> m.data.newHostId.value == seed.hostId)
  }

  /** What a single message says about the predecessor. */
  function Says(instances: seq<Instance>, m: Message, seed: Instance, records: seq<Record>): Option<int> {
    if !Applies(seed, m) then None
    else if Candidates(instances, seed, m) == [] then None
    else Choose(Candidates(instances, seed, m), seed, records)
  }

  /** The latest message that names a predecessor decides. */
  function Resolve(instances: seq<Instance>, messages: seq<Message>, seed: Instance, records: seq<Record>): Option<int>
    decreases |messages|
  {
    if messages == [] then None
    else
      var last := |messages| - 1;
      var said := Says(instances, messages[last], seed, records);
      if said.Some? then said else Resolve(instances, messages[..last], seed, records)
  }

  lemma ChosenAmong(candidates: seq<Instance>, seed: Instance, records: seq<Record>)
    ensures Choose(candidates, seed, records).Some? ==>
              exists i :: i in candidates && i.id == Choose(candidates, seed, records).value
  {
    var preferred, billed := Preferred(candidates, seed), WithRecords(candidates, records);
    if |candidates| == 1 {
      assert candidates[0] in candidates;
    } else if |preferred| == 1 {
      assert preferred[0] in preferred;
    } else if |billed| == 1 {
      assert billed[0] in billed;
    }
  }

  /** A resolved predecessor is a deleted instance of the same user, and another one. */
  lemma {:induction false} ResolvedIsDeletedSibling(
    instances: seq<Instance>, messages: seq<Message>, seed: Instance, records: seq<Record>)
    ensures var r := Resolve(instances, messages, seed, records);
            r.Some? ==> exists i :: i in instances && i.id == r.value && i.id != seed.id && i.deleted &&
                                    i.userId == seed.userId
    decreases |messages|
  {
    if messages != [] {
      var m := messages[|messages| - 1];
      if Says(instances, m, seed, records).Some? {
        ChosenAmong(Candidates(instances, seed, m), seed, records);
      } else {
        ResolvedIsDeletedSibling(instances, messages[..|messages| - 1], seed, records);
      }
    }
  }

  predicate DistinctIds(instances: seq<Instance>) {
    forall j, k :: 0 <= j < k < |instances| ==> instances[j].id != instances[k].id
  }

  lemma FirstDiffers(instances: seq<Instance>)
    requires DistinctIds(instances) && instances != []
    ensures DistinctIds(instances[1..]) && forall i :: i in instances[1..] ==> i.id != instances[0].id
  {
    forall i | i in instances[1..] ensures i.id != instances[0].id {
      var k :| 0 <= k < |instances[1..]| && instances[1..][k] == i;
      assert instances[k + 1] == i;
    }
  }

  lemma {:induction false} CandidatesDistinct(instances: seq<Instance>, seed: Instance, m: Message)
    requires DistinctIds(instances) && m.data.oldHostId.Some?
    ensures DistinctIds(Candidates(instances, seed, m))
  {
    if instances != [] {
      FirstDiffers(instances);
      CandidatesDistinct(instances[1..], seed, m);
    }
  }

  // ---------- The choice in terms of the candidates ----------

  ghost predicate Lone(c: Instance, cs: set<Instance>) {
    c in cs && forall o :: o in cs ==> o == c
  }

  ghost predicate LonePreferred(c: Instance, cs: set<Instance>, seed: Instance) {
    && c in cs && c.expiresAt == seed.expiresAt
    && forall o :: o in cs && o.expiresAt == seed.expiresAt ==> o == c
  }

  ghost predicate HasRecord(records: seq<Record>, id: int) {
    exists r :: r in records && r.instanceId == id
  }

  ghost predicate LoneBilled(c: Instance, cs: set<Instance>, records: seq<Record>) {
    && c in cs && HasRecord(records, c.id)
    && forall o :: o in cs && HasRecord(records, o.id) ==> o == c
  }

  /**
    The instance is the only candidate; or, when there is no such one, the only one that expires when the seed does;
    or, when there is no such one either, the only one with a billing record.
   */
  ghost predicate Picked(c: Instance, cs: set<Instance>, seed: Instance, records: seq<Record>) {
    || Lone(c, cs)
    || ((forall o :: !Lone(o, cs)) && LonePreferred(c, cs, seed))
    || ((forall o :: !Lone(o, cs)) && (forall o :: !LonePreferred(o, cs, seed)) && LoneBilled(c, cs, records))
  }

  lemma {:induction false} HasRecordIff(records: seq<Record>, id: int)
    ensures CountRecords(records, id) > 0 <==> HasRecord(records, id)
  {
    if records != [] {
      HasRecordIff(records[1..], id);
      assert records == [records[0]] + records[1..];
    }
  }

  /** In a list without repetitions an element is alone exactly when it is the whole list. */
  lemma AloneIff(s: seq<Instance>, c: Instance)
    requires DistinctIds(s)
    ensures c in s && (forall o :: o in s ==> o == c) <==> |s| == 1 && c == s[0]
  {
    if |s| > 1 {
      assert s[0] in s && s[1] in s && s[0].id != s[1].id;
    } else if |s| == 1 {
      assert s[0] in s && s == [s[0]];
    }
  }

  lemma {:induction false} PreferredDistinct(candidates: seq<Instance>, seed: Instance)
    requires DistinctIds(candidates)
    ensures DistinctIds(Preferred(candidates, seed))
  {
    if candidates != [] {
      PreferredDistinct(candidates[1..], seed);
      FirstDiffers(candidates);
    }
  }

  lemma {:induction false} WithRecordsDistinct(candidates: seq<Instance>, records: seq<Record>)
    requires DistinctIds(candidates)
    ensures DistinctIds(WithRecords(candidates, records))
  {
    if candidates != [] {
      WithRecordsDistinct(candidates[1..], records);
      FirstDiffers(candidates);
    }
  }

  lemma LoneIff(candidates: seq<Instance>, cs: set<Instance>, c: Instance)
    requires DistinctIds(candidates) && forall i :: i in cs <==> i in candidates
    ensures Lone(c, cs) <==> |candidates| == 1 && c == candidates[0]
  {
    AloneIff(candidates, c);
  }

  lemma LonePreferredIff(candidates: seq<Instance>, cs: set<Instance>, seed: Instance, c: Instance)
    requires DistinctIds(candidates) && forall i :: i in cs <==> i in candidates
    ensures LonePreferred(c, cs, seed) <==>
            |Preferred(candidates, seed)| == 1 && c == Preferred(candidates, seed)[0]
  {
    PreferredDistinct(candidates, seed);
    AloneIff(Preferred(candidates, seed), c);
  }

  lemma LoneBilledIff(candidates: seq<Instance>, cs: set<Instance>, records: seq<Record>, c: Instance)
    requires DistinctIds(candidates) && forall i :: i in cs <==> i in candidates
    ensures LoneBilled(c, cs, records) <==>
            |WithRecords(candidates, records)| == 1 && c == WithRecords(candidates, records)[0]
  {
    forall i: Instance ensures CountRecords(records, i.id) > 0 <==> HasRecord(records, i.id) {
      HasRecordIff(records, i.id);
    }
    hide HasRecord, CountRecords;
    WithRecordsDistinct(candidates, records);
    AloneIff(WithRecords(candidates, records), c);
  }

  /** For candidates with distinct identifiers the choice is exactly the instance so picked. */
  lemma ChoiceIs(candidates: seq<Instance>, seed: Instance, records: seq<Record>, id: int)
    requires DistinctIds(candidates)
    ensures Choose(candidates, seed, records) == Some(id) <==>
            exists c: Instance :: c.id == id && Picked(c, (set i | i in candidates), seed, records)
  {
    hide Lone, LonePreferred, LoneBilled, Preferred, WithRecords, DistinctIds;
    var cs := set i | i in candidates;
    var preferred, billed := Preferred(candidates, seed), WithRecords(candidates, records);
    forall c
      ensures Lone(c, cs) <==> |candidates| == 1 && c == candidates[0]
      ensures LonePreferred(c, cs, seed) <==> |preferred| == 1 && c == preferred[0]
      ensures LoneBilled(c, cs, records) <==> |billed| == 1 && c == billed[0]
    {
      LoneIff(candidates, cs, c);
      LonePreferredIff(candidates, cs, seed, c);
      LoneBilledIff(candidates, cs, records, c);
    }
    if |candidates| == 1 {
      assert Picked(candidates[0], cs, seed, records);
    } else if |preferred| == 1 {
      assert Picked(preferred[0], cs, seed, records);
    } else if |billed| == 1 {
      assert Picked(billed[0], cs, seed, records);
    }
  }

  /** The name in the message, if it has more than white space in it, or else that of the instance. */
  ghost predicate ExpectedName(name: string, seed: Instance, m: Message) {
    if m.data.instanceName.Some? && exists c :: c in m.data.instanceName.value && !IsSpace(c)
    then name == m.data.instanceName.value else name == seed.name
  }

  /** A deleted instance of the user on the old host, with the expected name, last changed within half an hour. */
  ghost predicate Fits(i: Instance, seed: Instance, m: Message) {
    && i.userId == seed.userId && m.data.oldHostId == Some(i.hostId) && ExpectedName(i.name, seed, m)
    && i.deleted && i.id != seed.id
    && -1800000 <= i.updatedAt - m.createdAt <= 1800000
  }

  ghost predicate Names(instances: seq<Instance>, m: Message, seed: Instance, records: seq<Record>, id: int) {
    && m.userId == seed.userId && m.data.instanceId == Some(seed.id) && m.data.oldHostId.Some?
    && (m.data.newHostId.None? || m.data.newHostId == Some(seed.hostId))
    && exists c: Instance :: c.id == id && Picked(c, (set i | i in instances && Fits(i, seed, m)), seed, records)
  }

  lemma FitsIff(i: Instance, seed: Instance, m: Message)
    requires m.data.oldHostId.Some?
    ensures IsCandidate(i, seed, m) <==> Fits(i, seed, m)
  {
    if m.data.instanceName.Some? {
      TrimmedEmptyIff(m.data.instanceName.value);
    }
  }

  lemma SaysIff(instances: seq<Instance>, m: Message, seed: Instance, records: seq<Record>, id: int)
    requires DistinctIds(instances)
    ensures Says(instances, m, seed, records) == Some(id) <==> Names(instances, m, seed, records, id)
  {
    if Applies(seed, m) {
      var candidates := Candidates(instances, seed, m);
      forall i: Instance ensures IsCandidate(i, seed, m) <==> Fits(i, seed, m) {
        FitsIff(i, seed, m);
      }
      assert (set i | i in candidates) == set i | i in instances && Fits(i, seed, m);
      CandidatesDistinct(instances, seed, m);
      ChoiceIs(candidates, seed, records, id);
    }
  }

  /** Message `k` is the latest one that names any instance, and it names this one. */
  ghost predicate NamesLast(
    instances: seq<Instance>, messages: seq<Message>, seed: Instance, records: seq<Record>, id: int, k: int)
  {
    && 0 <= k < |messages| && Names(instances, messages[k], seed, records, id)
    && forall j, other :: k < j < |messages| ==> !Names(instances, messages[j], seed, records, other)
  }

  /**
    An instance's predecessor is the one that the latest message naming any names: the message is for that instance
    and its host, and among the deleted instances that fit it one is picked.
   */
  lemma {:induction false} ResolvedIff(
    instances: seq<Instance>, messages: seq<Message>, seed: Instance, records: seq<Record>, id: int)
    requires DistinctIds(instances)
    ensures Resolve(instances, messages, seed, records) == Some(id) <==>
            exists k :: NamesLast(instances, messages, seed, records, id, k)
    decreases |messages|
  {
    hide Names, Says;
    if messages != [] {
      var last := |messages| - 1;
      var front, m := messages[..last], messages[last];
      ResolvedIff(instances, front, seed, records, id);
      forall other ensures Says(instances, m, seed, records) == Some(other) <==>
                           Names(instances, m, seed, records, other)
      {
        SaysIff(instances, m, seed, records, other);
      }
      if Says(instances, m, seed, records).None? {
        forall k
          ensures NamesLast(instances, messages, seed, records, id, k) <==>
                  NamesLast(instances, front, seed, records, id, k)
        {
        }
      } else {
        var said := Says(instances, m, seed, records).value;
        assert Names(instances, messages[last], seed, records, said);
        assert said == id ==> NamesLast(instances, messages, seed, records, id, last);
      }
    }
  }

  // ---------- When billing records do not matter ----------

  /** The tie-break by billing records is not reached. */
  predicate Decided(candidates: seq<Instance>, seed: Instance) {
    |candidates| <= 1 || |Preferred(candidates, seed)| == 1
  }

  function RecordAt(id: int): Record {
    Record(0, id, 0, 0, "")
  }

  lemma {:induction false} OneBilled(candidates: seq<Instance>, k: nat)
    requires DistinctIds(candidates) && k < |candidates|
    ensures WithRecords(candidates, [RecordAt(candidates[k].id)]) == [candidates[k]]
  {
    var records := [RecordAt(candidates[k].id)];
    assert records[1..] == [];
    assert CountRecords(records, candidates[k].id) == 1;
    if k == 0 {
      NoneBilled(candidates[1..], records);
    } else {
      assert candidates[1..][k - 1] == candidates[k];
      assert CountRecords(records, candidates[0].id) == 0;
      OneBilled(candidates[1..], k - 1);
    }
  }

  lemma {:induction false} NoneBilled(candidates: seq<Instance>, records: seq<Record>)
    requires forall i :: i in candidates ==> CountRecords(records, i.id) == 0
    ensures WithRecords(candidates, records) == []
  {
    if candidates != [] {
      assert candidates[0] in candidates;
      NoneBilled(candidates[1..], records);
    }
  }

  /** The choice is the same whatever the billing records are, if and only if the tie-break is not reached. */
  lemma ChoiceIgnoresRecordsIffDecided(candidates: seq<Instance>, seed: Instance)
    requires DistinctIds(candidates)
    ensures Decided(candidates, seed) <==>
            forall r1, r2 :: Choose(candidates, seed, r1) == Choose(candidates, seed, r2)
  {
    if Decided(candidates, seed) {
      forall r1, r2
        ensures Choose(candidates, seed, r1) == Choose(candidates, seed, r2)
      {
        if |candidates| == 0 {
          assert WithRecords(candidates, r1) == WithRecords(candidates, r2) == [];
        }
      }
    } else {
      var r1, r2 := UndecidedChoices(candidates, seed);
    }
  }

  /** The latest message that applies and has candidates does not leave the choice to the billing records. */
  predicate Determined(instances: seq<Instance>, messages: seq<Message>, seed: Instance)
    decreases |messages|
  {
    if messages == [] then true
    else
      var last := |messages| - 1;
      var m := messages[last];
      if Applies(seed, m) && Candidates(instances, seed, m) != [] then Decided(Candidates(instances, seed, m), seed)
      else Determined(instances, messages[..last], seed)
  }

  lemma DecidedSays(instances: seq<Instance>, m: Message, seed: Instance, r1: seq<Record>, r2: seq<Record>)
    requires Applies(seed, m) && Candidates(instances, seed, m) != []
    requires Decided(Candidates(instances, seed, m), seed)
    ensures Says(instances, m, seed, r1).Some? && Says(instances, m, seed, r1) == Says(instances, m, seed, r2)
  {
  }

  lemma {:induction false} DeterminedResolves(
    instances: seq<Instance>, messages: seq<Message>, seed: Instance, r1: seq<Record>, r2: seq<Record>)
    requires Determined(instances, messages, seed)
    ensures Resolve(instances, messages, seed, r1) == Resolve(instances, messages, seed, r2)
    decreases |messages|
  {
    hide Choose, Decided;
    if messages != [] {
      var m := messages[|messages| - 1];
      if Applies(seed, m) && Candidates(instances, seed, m) != [] {
        DecidedSays(instances, m, seed, r1, r2);
      } else {
        DeterminedResolves(instances, messages[..|messages| - 1], seed, r1, r2);
      }
    }
  }

  /** Otherwise the first two candidates of that message are both chosen for some billing records. */
  lemma {:induction false} UndeterminedResolves(instances: seq<Instance>, messages: seq<Message>, seed: Instance)
    returns (r1: seq<Record>, r2: seq<Record>)
    requires DistinctIds(instances) && !Determined(instances, messages, seed)
    ensures Resolve(instances, messages, seed, r1) != Resolve(instances, messages, seed, r2)
    decreases |messages|
  {
    var last := |messages| - 1;
    var m := messages[last];
    if Applies(seed, m) && Candidates(instances, seed, m) != [] {
      CandidatesDistinct(instances, seed, m);
      r1, r2 := UndecidedChoices(Candidates(instances, seed, m), seed);
    } else {
      r1, r2 := UndeterminedResolves(instances, messages[..last], seed);
    }
  }

  lemma UndecidedChoices(candidates: seq<Instance>, seed: Instance) returns (r1: seq<Record>, r2: seq<Record>)
    requires DistinctIds(candidates) && !Decided(candidates, seed)
    ensures Choose(candidates, seed, r1) == Some(candidates[0].id)
    ensures Choose(candidates, seed, r2) == Some(candidates[1].id)
    ensures candidates[0].id != candidates[1].id
  {
    OneBilled(candidates, 0);
    OneBilled(candidates, 1);
    r1, r2 := [RecordAt(candidates[0].id)], [RecordAt(candidates[1].id)];
  }

  /**
    The predecessor of an instance is the same for all billing records if and only if the latest applicable
    message with candidates has a single one, or a single one that expires when the instance does.
   */
  lemma ResolveIgnoresRecordsIffDetermined(instances: seq<Instance>, messages: seq<Message>, seed: Instance)
    requires DistinctIds(instances)
    ensures Determined(instances, messages, seed) <==>
            forall r1, r2 :: Resolve(instances, messages, seed, r1) == Resolve(instances, messages, seed, r2)
  {
    if Determined(instances, messages, seed) {
      forall r1, r2
        ensures Resolve(instances, messages, seed, r1) == Resolve(instances, messages, seed, r2)
      {
        DeterminedResolves(instances, messages, seed, r1, r2);
      }
    } else {
      var r1, r2 := UndeterminedResolves(instances, messages, seed);
    }
  }

  /** No predecessor depends on the billing records. */
  predicate Unambiguous(cat: Catalog) {
    forall seed :: seed in cat.instances ==> Determined(cat.instances, cat.messages, seed)
  }

  // ---------- The lineage ----------

  function Ids(instances: seq<Instance>): set<int> {
    set i | i in instances :: i.id
  }

  /** The predecessor that the walk continues with; the id 0 counts as no predecessor. */
  function Parent(cat: Catalog, seed: Instance, records: seq<Record>): Option<int> {
    var p := Resolve(cat.instances, cat.messages, seed, records);
    if p == Some(0) then None else p
  }

  /** The walk from the current instance upwards, earliest ancestor first. */
  function Ancestry(cat: Catalog, records: seq<Record>, current: Option<Instance>, visited: set<int>): seq<int>
    requires current.Some? ==> current.value in cat.instances
    decreases Ids(cat.instances) - visited
  {
    if current.None? || current.value.id in visited then []
    else
      var seed := current.value;
      var p := Parent(cat, seed, records);
      if p.None? || p.value in visited + {seed.id} then [seed.id]
      else Ancestry(cat, records, Find(cat.instances, p.value), visited + {seed.id}) + [seed.id]
  }

  function Lineage(cat: Catalog, records: seq<Record>, id: int): (r: seq<int>)
    ensures r != []
  {
    var lineage := Ancestry(cat, records, Find(cat.instances, id), {});
    if lineage == [] then [id] else lineage
  }
}
