/**
  Reconciling the plans of a seeded package with their specifications (server/scripts/seed-test-data.ts):
  plans are identified by package and name, missing ones are created, present ones updated, others switched off.
 */
module PlanReconciler {

  import opened TextSearch

  /** What a specification says of a plan, its name and its activity apart. */
  datatype Terms = Terms(
    description: string, cpu: int, memory: int, disk: int, portLimit: int, snapshotLimit: int, backupLimit: int,
    siteLimit: int, swapSize: int, trafficLimit: int, trafficLimitSpeed: string, price: int, billingCycle: int,
    setupFee: int, sortOrder: int, slaGuarantee: real)

  datatype Plan = Plan(name: string, terms: Terms, isActive: bool)

  /** What the table keeps besides, and what a specification does not mention. */
  datatype Extras = Extras(
    gpuShared: Option<bool>, gpuDeviceIds: seq<int>, trafficResetPrice: Option<int>, isSoldOut: bool)

  datatype Row = Row(id: int, packageId: int, name: string, terms: Terms, isActive: bool, extras: Extras)

  const DEFAULTS := Extras(None, [], None, false)

  predicate SameKey(row: Row, packageId: int, name: string) {
    row.packageId == packageId && row.name == name
  }

  /** Identifiers are unique, and so are names within a package (server/prisma/schema.prisma). */
  ghost predicate WellFormed(rows: seq<Row>, nextId: int) {
    && (forall k :: 0 <= k < |rows| ==> rows[k].id < nextId)
    && (forall j, k :: 0 <= j < k < |rows| ==> rows[j].id != rows[k].id)
    && (forall j, k :: 0 <= j < k < |rows| ==> !SameKey(rows[j], rows[k].packageId, rows[k].name))
  }

  /** The position of the plan of that name in the package, or the length. */
  function Find(rows: seq<Row>, packageId: int, name: string): nat {
    if rows == [] || SameKey(rows[0], packageId, name) then 0 else 1 + Find(rows[1..], packageId, name)
  }

  lemma {:induction false} FindIs(rows: seq<Row>, packageId: int, name: string)
    ensures var j := Find(rows, packageId, name);
            && j <= |rows| && (j < |rows| ==> SameKey(rows[j], packageId, name))
            && forall k :: 0 <= k < j ==> !SameKey(rows[k], packageId, name)
  {
    if rows != [] && !SameKey(rows[0], packageId, name) {
      FindIs(rows[1..], packageId, name);
      forall k | 0 <= k < Find(rows, packageId, name) ensures !SameKey(rows[k], packageId, name) {
        if k > 0 {
          assert rows[k] == rows[1..][k - 1];
        }
      }
    }
  }

  predicate Present(rows: seq<Row>, packageId: int, name: string) {
    Find(rows, packageId, name) < |rows|
  }

  /** The last of the first `n` specifications of that name, or -1. */
  function LastOf(plans: seq<Plan>, n: nat, name: string): (i: int)
    requires n <= |plans|
    ensures -1 <= i < n && (i >= 0 ==> plans[i].name == name)
  {
    if n == 0 then -1 else if plans[n - 1].name == name then n - 1 else LastOf(plans, n - 1, name)
  }

  lemma {:induction false} LastOfIs(plans: seq<Plan>, n: nat, name: string, i: nat)
    requires i < n <= |plans| && plans[i].name == name
    ensures i <= LastOf(plans, n, name)
  {
    if i < n - 1 && plans[n - 1].name != name {
      LastOfIs(plans, n - 1, name, i);
    }
  }

  // ---------- What the run makes of the table ----------

  /** A row after the first `n` specifications. */
  function Revised(row: Row, packageId: int, plans: seq<Plan>, n: nat): Row
    requires n <= |plans|
  {
    var i := LastOf(plans, n, row.name);
    if row.packageId == packageId && i >= 0 then row.(terms := plans[i].terms, isActive := plans[i].isActive) else row
  }

  predicate Unexpected(row: Row, packageId: int, plans: seq<Plan>) {
    row.packageId == packageId && LastOf(plans, |plans|, row.name) < 0
  }

  /** A row after the whole run. */
  function Settled(row: Row, packageId: int, plans: seq<Plan>): Row {
    if Unexpected(row, packageId, plans) then row.(isActive := false)
    else Revised(row, packageId, plans, |plans|)
  }

  function NewRow(id: int, packageId: int, plan: Plan): Row {
    Row(id, packageId, plan.name, plan.terms, plan.isActive, DEFAULTS)
  }

  /** The rows created for the first `n` specifications. */
  function Created(rows: seq<Row>, nextId: int, packageId: int, plans: seq<Plan>, n: nat): seq<Row>
    requires n <= |plans|
  {
    if n == 0 then []
    else
      var earlier := Created(rows, nextId, packageId, plans, n - 1);
      if Present(rows, packageId, plans[n - 1].name) then earlier
      else earlier + [NewRow(nextId + |earlier|, packageId, plans[n - 1])]
  }

  /** The old rows with the first `m` settled and the others as the first `n` specifications leave them. */
  function Amended(rows: seq<Row>, packageId: int, plans: seq<Plan>, n: nat, m: nat): (r: seq<Row>)
    requires n <= |plans| && m <= |rows|
  {
    seq(|rows|, k requires 0 <= k < |rows| =>
      if k < m && Unexpected(rows[k], packageId, plans) then rows[k].(isActive := false)
      else Revised(rows[k], packageId, plans, n))
  }

  function Reconciled(rows: seq<Row>, nextId: int, packageId: int, plans: seq<Plan>): seq<Row> {
    seq(|rows|, k requires 0 <= k < |rows| => Settled(rows[k], packageId, plans)) +
    Created(rows, nextId, packageId, plans, |plans|)
  }

  /** How many of the first `m` rows are switched off. */
  function SwitchedOff(rows: seq<Row>, packageId: int, plans: seq<Plan>, m: nat): nat
    requires m <= |rows|
  {
    if m == 0 then 0
    else
      SwitchedOff(rows, packageId, plans, m - 1) +
      if Unexpected(rows[m - 1], packageId, plans) && rows[m - 1].isActive then 1 else 0
  }

  /** Specification `i` names a plan that the table lacked and an earlier specification has already created. */
  predicate CreatedBefore(rows: seq<Row>, packageId: int, plans: seq<Plan>, i: nat)
    requires i < |plans|
  {
    !Present(rows, packageId, plans[i].name) && LastOf(plans, i, plans[i].name) >= 0
  }

  // ---------- The table and the run ----------

  /** An update of a plan: all terms or none, and the activity. */
  datatype Patch = Patch(terms: Option<Terms>, isActive: bool)

  function Patched(row: Row, patch: Patch): Row {
    row.(terms := if patch.terms.Some? then patch.terms.value else row.terms, isActive := patch.isActive)
  }

  class Database {
    var rows: seq<Row>
    var nextId: int
    var created: nat
    var updated: nat

    ghost predicate Valid()
      reads this
    {
      WellFormed(rows, nextId)
    }

    /** Fails, changing nothing, when the package has a plan of that name. */
    method CreatePlan(packageId: int, plan: Plan) returns (ok: bool)
      modifies this`rows, this`nextId
      ensures ok <==> forall k :: 0 <= k < |old(rows)| ==> !SameKey(old(rows)[k], packageId, plan.name)
      ensures !ok ==> rows == old(rows) && nextId == old(nextId)
      ensures ok ==> rows == old(rows) + [NewRow(old(nextId), packageId, plan)] && nextId == old(nextId) + 1
    {
      for k := 0 to |rows|
        invariant rows == old(rows) && nextId == old(nextId)
        invariant forall j :: 0 <= j < k ==> !SameKey(rows[j], packageId, plan.name)
      {
        if SameKey(rows[k], packageId, plan.name) {
          return false;
        }
      }
      rows, nextId := rows + [NewRow(nextId, packageId, plan)], nextId + 1;
      return true;
    }

    /** Changes the first row of that identifier and gives its position, or changes nothing and fails. */
    method UpdatePlan(id: int, patch: Patch) returns (at: nat)
      modifies this`rows
      ensures at <= |old(rows)| && forall j :: 0 <= j < at ==> old(rows)[j].id != id
      ensures at < |old(rows)| ==>
                old(rows)[at].id == id && rows == old(rows)[at := Patched(old(rows)[at], patch)]
      ensures at == |old(rows)| ==> rows == old(rows)
    {
      for k := 0 to |rows|
        invariant rows == old(rows)
        invariant forall j :: 0 <= j < k ==> rows[j].id != id
      {
        if rows[k].id == id {
          rows := rows[k := Patched(rows[k], patch)];
          return k;
        }
      }
      return |rows|;
    }

    /**
      Succeeds exactly when no name that the table lacks is specified twice, and then leaves the reconciled table
      and has counted what it did. Otherwise it stops at the first such repetition, with the earlier
      specifications carried out and nothing switched off.
     */
    method EnsurePlans(packageId: int, plans: seq<Plan>) returns (ok: bool)
      requires Valid()
      modifies this
      ensures Valid()
      ensures ok <==> forall i :: 0 <= i < |plans| ==> !CreatedBefore(old(rows), packageId, plans, i)
      ensures ok ==>
                && rows == Reconciled(old(rows), old(nextId), packageId, plans)
                && created == old(created) + |Created(old(rows), old(nextId), packageId, plans, |plans|)|
                && updated == old(updated) + |plans|
                              - |Created(old(rows), old(nextId), packageId, plans, |plans|)|
                              + SwitchedOff(old(rows), packageId, plans, |old(rows)|)
      ensures !ok ==> exists n :: 0 <= n < |plans| && CreatedBefore(old(rows), packageId, plans, n) &&
                                  (forall i :: 0 <= i < n ==> !CreatedBefore(old(rows), packageId, plans, i)) &&
                                  rows == Amended(old(rows), packageId, plans, n, 0) +
                                          Created(old(rows), old(nextId), packageId, plans, n)
    {
      hide Find, Amended, Unexpected, WellFormed, Reconciled;
      var existing, firstId := rows, nextId;
      AmendedStart(existing, packageId, plans);
      for i := 0 to |plans|
        invariant Valid()
        invariant rows == Amended(existing, packageId, plans, i, 0) + Created(existing, firstId, packageId, plans, i)
        invariant nextId == firstId + |Created(existing, firstId, packageId, plans, i)|
        invariant created == old(created) + |Created(existing, firstId, packageId, plans, i)|
        invariant updated == old(updated) + i - |Created(existing, firstId, packageId, plans, i)|
        invariant forall j :: 0 <= j < i ==> !CreatedBefore(existing, packageId, plans, j)
      {
        var at := Find(existing, packageId, plans[i].name);
        FindIs(existing, packageId, plans[i].name);
        AmendedIs(existing, packageId, plans, i, 0);
        if at == |existing| {
          CreatedBeforeIff(existing, firstId, packageId, plans, i);
          ghost var before := rows;
          var added := CreatePlan(packageId, plans[i]);
          if !added {
            assert CreatedBefore(existing, packageId, plans, i);
            return false;
          }
          WellFormedWith(before, nextId - 1, NewRow(nextId - 1, packageId, plans[i]));
          AmendedByOther(existing, packageId, plans, i);
          created := created + 1;
        } else {
          AmendedByUpdate(existing, firstId, packageId, plans, i, at);
          ghost var before, patch := rows, Patch(Some(plans[i].terms), plans[i].isActive);
          var changed := UpdatePlan(existing[at].id, Patch(Some(plans[i].terms), plans[i].isActive));
          SameIdSamePlace(before, nextId, at, changed);
          WellFormedPatched(before, nextId, at, patch);
          UpdateLeft(Amended(existing, packageId, plans, i, 0), Created(existing, firstId, packageId, plans, i), at,
                     Patched(before[at], patch));
          updated := updated + 1;
        }
      }
      ghost var newRows := Created(existing, firstId, packageId, plans, |plans|);
      // Rows of other packages are never unexpected, so this visits the package's existing plans.
      for m := 0 to |existing|
        invariant Valid()
        invariant rows == Amended(existing, packageId, plans, |plans|, m) + newRows
        invariant created == old(created) + |newRows|
        invariant updated == old(updated) + |plans| - |newRows| + SwitchedOff(existing, packageId, plans, m)
      {
        AmendedIs(existing, packageId, plans, |plans|, m);
        AmendedBySwitch(existing, packageId, plans, m);
        if Unexpected(existing[m], packageId, plans) && existing[m].isActive {
          ghost var before, patch := rows, Patch(None, false);
          var changed := UpdatePlan(existing[m].id, Patch(None, false));
          SameIdSamePlace(before, nextId, m, changed);
          WellFormedPatched(before, nextId, m, patch);
          UpdateLeft(Amended(existing, packageId, plans, |plans|, m), newRows, m, Patched(before[m], patch));
          updated := updated + 1;
        }
      }
      AmendedWhole(existing, firstId, packageId, plans);
      return true;
    }
  }

  // ---------- Steps of the run ----------

  lemma AmendedStart(rows: seq<Row>, packageId: int, plans: seq<Plan>)
    ensures Amended(rows, packageId, plans, 0, 0) == rows
  {
  }

  lemma AmendedIs(rows: seq<Row>, packageId: int, plans: seq<Plan>, n: nat, m: nat)
    requires n <= |plans| && m <= |rows|
    ensures |Amended(rows, packageId, plans, n, m)| == |rows|
    ensures forall k :: 0 <= k < |rows| ==>
              var row := Amended(rows, packageId, plans, n, m)[k];
              row.id == rows[k].id && row.packageId == rows[k].packageId && row.name == rows[k].name
  {
  }

  lemma AmendedByOther(rows: seq<Row>, packageId: int, plans: seq<Plan>, n: nat)
    requires n < |plans| && !Present(rows, packageId, plans[n].name)
    ensures Amended(rows, packageId, plans, n + 1, 0) == Amended(rows, packageId, plans, n, 0)
  {
    hide Find;
    FindIs(rows, packageId, plans[n].name);
    forall k | 0 <= k < |rows|
      ensures Amended(rows, packageId, plans, n + 1, 0)[k] == Amended(rows, packageId, plans, n, 0)[k]
    {
      assert !SameKey(rows[k], packageId, plans[n].name);
    }
  }

  lemma AmendedByUpdate(rows: seq<Row>, nextId: int, packageId: int, plans: seq<Plan>, n: nat, at: nat)
    requires n < |plans| && at < |rows| && SameKey(rows[at], packageId, plans[n].name) && WellFormed(rows, nextId)
    ensures var before, patch := Amended(rows, packageId, plans, n, 0), Patch(Some(plans[n].terms), plans[n].isActive);
            |before| == |rows| && Amended(rows, packageId, plans, n + 1, 0) == before[at := Patched(before[at], patch)]
  {
    var before, after := Amended(rows, packageId, plans, n, 0), Amended(rows, packageId, plans, n + 1, 0);
    forall k | 0 <= k < |rows| && k != at ensures after[k] == before[k] {
      assert !SameKey(rows[if k < at then k else at], rows[if k < at then at else k].packageId, plans[n].name) ||
             rows[k].name != plans[n].name;
      assert !SameKey(rows[k], packageId, plans[n].name);
    }
  }

  lemma DifferentIds(rows: seq<Row>, nextId: int, j: nat, k: nat)
    requires WellFormed(rows, nextId) && j < k < |rows|
    ensures rows[j].id != rows[k].id
  {
  }

  lemma SameIdSamePlace(rows: seq<Row>, nextId: int, j: nat, k: nat)
    requires WellFormed(rows, nextId) && j < |rows| && k <= |rows|
    requires k < |rows| ==> rows[j].id == rows[k].id
    requires forall i :: 0 <= i < k ==> rows[i].id != rows[j].id
    ensures j == k
  {
    var id := rows[j].id;
    assert rows[j].id == id;
    if k < j {
      DifferentIds(rows, nextId, k, j);
    }
  }

  lemma UpdateLeft(a: seq<Row>, b: seq<Row>, at: nat, row: Row)
    requires at < |a|
    ensures (a + b)[at := row] == a[at := row] + b
  {
  }

  lemma AmendedBySwitch(rows: seq<Row>, packageId: int, plans: seq<Plan>, m: nat)
    requires m < |rows|
    ensures var before := Amended(rows, packageId, plans, |plans|, m);
            && |before| == |rows|
            && Amended(rows, packageId, plans, |plans|, m + 1) ==
               if Unexpected(rows[m], packageId, plans) && rows[m].isActive
               then before[m := Patched(before[m], Patch(None, false))] else before
  {
  }

  lemma AmendedWhole(rows: seq<Row>, nextId: int, packageId: int, plans: seq<Plan>)
    ensures Amended(rows, packageId, plans, |plans|, |rows|) + Created(rows, nextId, packageId, plans, |plans|) ==
            Reconciled(rows, nextId, packageId, plans)
  {
    hide Created;
  }

  /** A specified name that the table lacks gets the row at the number of rows created before it. */
  lemma {:induction false} CreatedAt(rows: seq<Row>, nextId: int, packageId: int, plans: seq<Plan>, n: nat, i: nat)
    requires i < n <= |plans| && !Present(rows, packageId, plans[i].name)
    ensures var at := |Created(rows, nextId, packageId, plans, i)|;
            && at < |Created(rows, nextId, packageId, plans, n)|
            && Created(rows, nextId, packageId, plans, n)[at] == NewRow(nextId + at, packageId, plans[i])
  {
    hide Present;
    if i < n - 1 {
      CreatedAt(rows, nextId, packageId, plans, n - 1, i);
    }
  }

  /** Every created row is that of a specified name that the table lacks. */
  lemma {:induction false} CreatedFrom(
    rows: seq<Row>, nextId: int, packageId: int, plans: seq<Plan>, n: nat, k: nat)
    returns (i: nat)
    requires n <= |plans| && k < |Created(rows, nextId, packageId, plans, n)|
    ensures i < n && !Present(rows, packageId, plans[i].name)
    ensures Created(rows, nextId, packageId, plans, n)[k] == NewRow(nextId + k, packageId, plans[i])
  {
    hide Present;
    if k < |Created(rows, nextId, packageId, plans, n - 1)| {
      i := CreatedFrom(rows, nextId, packageId, plans, n - 1, k);
    } else {
      i := n - 1;
    }
  }

  lemma Absent(rows: seq<Row>, packageId: int, name: string, k: nat)
    requires !Present(rows, packageId, name) && k < |rows|
    ensures !SameKey(rows[k], packageId, name)
  {
    FindIs(rows, packageId, name);
  }

  lemma CreatedBeforeIff(rows: seq<Row>, nextId: int, packageId: int, plans: seq<Plan>, i: nat)
    requires i < |plans| && !Present(rows, packageId, plans[i].name)
    ensures var now := Amended(rows, packageId, plans, i, 0) + Created(rows, nextId, packageId, plans, i);
            CreatedBefore(rows, packageId, plans, i) <==>
            exists k :: 0 <= k < |now| && SameKey(now[k], packageId, plans[i].name)
  {
    hide Find, Amended, Created;
    var name := plans[i].name;
    var amended, newRows := Amended(rows, packageId, plans, i, 0), Created(rows, nextId, packageId, plans, i);
    AmendedIs(rows, packageId, plans, i, 0);
    FindIs(rows, packageId, name);
    if CreatedBefore(rows, packageId, plans, i) {
      var j := LastOf(plans, i, name);
      CreatedAt(rows, nextId, packageId, plans, i, j);
      assert SameKey((amended + newRows)[|amended| + |Created(rows, nextId, packageId, plans, j)|], packageId, name);
    }
    forall k | 0 <= k < |amended|
      ensures !SameKey((amended + newRows)[k], packageId, name)
    {
      Absent(rows, packageId, name, k);
    }
    if k :| |amended| <= k < |amended + newRows| && SameKey((amended + newRows)[k], packageId, name) {
      var j := CreatedFrom(rows, nextId, packageId, plans, i, k - |amended|);
      LastOfIs(plans, i, name, j);
    }
  }

  lemma WellFormedWith(rows: seq<Row>, nextId: int, row: Row)
    requires WellFormed(rows, nextId) && row.id == nextId
    requires forall k :: 0 <= k < |rows| ==> !SameKey(rows[k], row.packageId, row.name)
    ensures WellFormed(rows + [row], nextId + 1)
  {
  }

  lemma WellFormedPatched(rows: seq<Row>, nextId: int, at: nat, patch: Patch)
    requires WellFormed(rows, nextId) && at < |rows|
    ensures WellFormed(rows[at := Patched(rows[at], patch)], nextId)
  {
    var after := rows[at := Patched(rows[at], patch)];
    forall j, k | 0 <= j < k < |rows| ensures after[j].id != after[k].id {
      assert rows[j].id != rows[k].id;
    }
    forall j, k | 0 <= j < k < |rows| ensures !SameKey(after[j], after[k].packageId, after[k].name) {
      assert !SameKey(rows[j], rows[k].packageId, rows[k].name);
    }
  }

  // ---------- What a run achieves ----------

  ghost predicate Succeeds(rows: seq<Row>, packageId: int, plans: seq<Plan>) {
    forall i :: 0 <= i < |plans| ==> !CreatedBefore(rows, packageId, plans, i)
  }

  /** A run of specifications with distinct names succeeds on every table. */
  lemma DistinctNamesSucceed(rows: seq<Row>, packageId: int, plans: seq<Plan>)
    requires forall i, j :: 0 <= i < j < |plans| ==> plans[i].name != plans[j].name
    ensures Succeeds(rows, packageId, plans)
  {
  }

  /** Other packages keep their rows, in place and as they were, and get none. */
  lemma OtherPackagesUntouched(rows: seq<Row>, nextId: int, packageId: int, plans: seq<Plan>, other: int)
    requires other != packageId
    ensures Select(Reconciled(rows, nextId, packageId, plans), other) == Select(rows, other)
  {
    var newRows := Created(rows, nextId, packageId, plans, |plans|);
    var settled := seq(|rows|, k requires 0 <= k < |rows| => Settled(rows[k], packageId, plans));
    forall k: nat | k < |newRows| ensures newRows[k].packageId == packageId {
      var i := CreatedFrom(rows, nextId, packageId, plans, |plans|, k);
    }
    SelectConcat(settled, newRows, other);
    SelectNone(newRows, other);
    SelectSame(settled, rows, other);
  }

  function Select(rows: seq<Row>, packageId: int): seq<Row> {
    if rows == [] then []
    else (if rows[0].packageId == packageId then [rows[0]] else []) + Select(rows[1..], packageId)
  }

  lemma {:induction false} SelectConcat(a: seq<Row>, b: seq<Row>, packageId: int)
    ensures Select(a + b, packageId) == Select(a, packageId) + Select(b, packageId)
  {
    if a == [] {
      assert a + b == b;
    } else {
      assert (a + b)[1..] == a[1..] + b;
      SelectConcat(a[1..], b, packageId);
      var first := if a[0].packageId == packageId then [a[0]] else [];
      assert first + (Select(a[1..], packageId) + Select(b, packageId)) ==
             (first + Select(a[1..], packageId)) + Select(b, packageId);
    }
  }

  lemma {:induction false} SelectNone(rows: seq<Row>, packageId: int)
    requires forall k :: 0 <= k < |rows| ==> rows[k].packageId != packageId
    ensures Select(rows, packageId) == []
  {
    if rows != [] {
      SelectNone(rows[1..], packageId);
    }
  }

  lemma {:induction false} SelectSame(a: seq<Row>, b: seq<Row>, packageId: int)
    requires |a| == |b|
    requires forall k :: 0 <= k < |a| ==>
               a[k] == b[k] || (a[k].packageId != packageId && b[k].packageId != packageId)
    ensures Select(a, packageId) == Select(b, packageId)
  {
    if a != [] {
      SelectSame(a[1..], b[1..], packageId);
    }
  }

  /** The table after a run: every row of the package is as the last specification of its name says, or inactive. */
  lemma RowsSettled(rows: seq<Row>, nextId: int, packageId: int, plans: seq<Plan>, k: nat)
    requires Succeeds(rows, packageId, plans)
    requires k < |Reconciled(rows, nextId, packageId, plans)|
    requires Reconciled(rows, nextId, packageId, plans)[k].packageId == packageId
    ensures var row := Reconciled(rows, nextId, packageId, plans)[k];
            var i := LastOf(plans, |plans|, row.name);
            if i >= 0 then row.terms == plans[i].terms && row.isActive == plans[i].isActive else !row.isActive
  {
    hide Created, Find;
    var row := Reconciled(rows, nextId, packageId, plans)[k];
    var i := LastOf(plans, |plans|, row.name);
    if k >= |rows| {
      var j := CreatedFrom(rows, nextId, packageId, plans, |plans|, k - |rows|);
      LastOfIs(plans, |plans|, row.name, j);
      assert !CreatedBefore(rows, packageId, plans, i);
      if j < i {
        LastOfIs(plans, i, row.name, j);
      }
    }
  }

  /** Every specified plan has a row after a run. */
  lemma EveryPlanHasRow(rows: seq<Row>, nextId: int, packageId: int, plans: seq<Plan>, i: nat)
    requires i < |plans|
    ensures Present(Reconciled(rows, nextId, packageId, plans), packageId, plans[i].name)
  {
    hide Find, Created;
    var name, after := plans[i].name, Reconciled(rows, nextId, packageId, plans);
    FindIs(rows, packageId, name);
    FindIs(after, packageId, name);
    if Present(rows, packageId, name) {
      assert SameKey(after[Find(rows, packageId, name)], packageId, name);
    } else {
      CreatedAt(rows, nextId, packageId, plans, |plans|, i);
      var k := |Created(rows, nextId, packageId, plans, i)|;
      assert SameKey(after[|rows| + k], packageId, name);
    }
  }

  lemma {:induction false} CreatedNamesDiffer(
    rows: seq<Row>, nextId: int, packageId: int, plans: seq<Plan>, n: nat, j: nat, k: nat)
    requires n <= |plans| && Succeeds(rows, packageId, plans)
    requires j < k < |Created(rows, nextId, packageId, plans, n)|
    ensures Created(rows, nextId, packageId, plans, n)[j].name != Created(rows, nextId, packageId, plans, n)[k].name
  {
    hide Find;
    if k < |Created(rows, nextId, packageId, plans, n - 1)| {
      CreatedNamesDiffer(rows, nextId, packageId, plans, n - 1, j, k);
    } else {
      var i := CreatedFrom(rows, nextId, packageId, plans, n - 1, j);
      assert !CreatedBefore(rows, packageId, plans, n - 1);
      if plans[i].name == plans[n - 1].name {
        LastOfIs(plans, n - 1, plans[i].name, i);
      }
    }
  }

  /** After a successful run no two rows share package and name. */
  lemma KeysStayUnique(rows: seq<Row>, nextId: int, packageId: int, plans: seq<Plan>, j: nat, k: nat)
    requires WellFormed(rows, nextId) && Succeeds(rows, packageId, plans)
    requires j < k < |Reconciled(rows, nextId, packageId, plans)|
    ensures var after := Reconciled(rows, nextId, packageId, plans);
            !SameKey(after[j], after[k].packageId, after[k].name)
  {
    hide Find, Created;
    if k < |rows| {
      assert !SameKey(rows[j], rows[k].packageId, rows[k].name);
    } else {
      var i := CreatedFrom(rows, nextId, packageId, plans, |plans|, k - |rows|);
      if j < |rows| {
        Absent(rows, packageId, plans[i].name, j);
      } else {
        CreatedNamesDiffer(rows, nextId, packageId, plans, |plans|, j - |rows|, k - |rows|);
      }
    }
  }

  /** With distinct names every specification has exactly one row, with its terms and its activity. */
  lemma ExactlyOneRowEach(rows: seq<Row>, nextId: int, packageId: int, plans: seq<Plan>, i: nat)
    requires forall a, b :: 0 <= a < b < |plans| ==> plans[a].name != plans[b].name
    requires i < |plans| && WellFormed(rows, nextId)
    ensures exists k :: OnlyRowOf(Reconciled(rows, nextId, packageId, plans), packageId, plans[i], k)
  {
    hide Reconciled, Find;
    var after := Reconciled(rows, nextId, packageId, plans);
    EveryPlanHasRow(rows, nextId, packageId, plans, i);
    var k := Find(after, packageId, plans[i].name);
    FindIs(after, packageId, plans[i].name);
    DistinctNamesSucceed(rows, packageId, plans);
    RowsSettled(rows, nextId, packageId, plans, k);
    LastOfIs(plans, |plans|, plans[i].name, i);
    forall j: nat | k < j < |after| ensures !SameKey(after[j], packageId, plans[i].name) {
      KeysStayUnique(rows, nextId, packageId, plans, k, j);
    }
    assert OnlyRowOf(after, packageId, plans[i], k);
  }

  ghost predicate OnlyRowOf(rows: seq<Row>, packageId: int, plan: Plan, k: int) {
    && 0 <= k < |rows| && SameKey(rows[k], packageId, plan.name)
    && rows[k].terms == plan.terms && rows[k].isActive == plan.isActive
    && forall j :: 0 <= j < |rows| && SameKey(rows[j], packageId, plan.name) ==> j == k
  }

  /** A run after a successful run creates nothing, switches nothing off and leaves every row as it is. */
  lemma SecondRunChangesNothing(rows: seq<Row>, nextId: int, packageId: int, plans: seq<Plan>, id: int)
    requires Succeeds(rows, packageId, plans)
    ensures var once := Reconciled(rows, nextId, packageId, plans);
            && Succeeds(once, packageId, plans)
            && Reconciled(once, id, packageId, plans) == once
            && Created(once, id, packageId, plans, |plans|) == []
            && SwitchedOff(once, packageId, plans, |once|) == 0
  {
    hide Reconciled, Find, Created;
    var once := Reconciled(rows, nextId, packageId, plans);
    forall i: nat | i < |plans| ensures Present(once, packageId, plans[i].name) {
      EveryPlanHasRow(rows, nextId, packageId, plans, i);
    }
    NothingCreated(once, id, packageId, plans, |plans|);
    forall k: nat | k < |once|
      ensures Settled(once[k], packageId, plans) == once[k]
      ensures Unexpected(once[k], packageId, plans) ==> !once[k].isActive
    {
      if once[k].packageId == packageId {
        RowsSettled(rows, nextId, packageId, plans, k);
      }
    }
    NoneSwitchedOff(once, packageId, plans, |once|);
    AllSettled(once, id, packageId, plans);
  }

  lemma AllSettled(rows: seq<Row>, id: int, packageId: int, plans: seq<Plan>)
    requires forall k :: 0 <= k < |rows| ==> Settled(rows[k], packageId, plans) == rows[k]
    requires Created(rows, id, packageId, plans, |plans|) == []
    ensures Reconciled(rows, id, packageId, plans) == rows
  {
    hide Settled, Created;
  }

  lemma {:induction false} NothingCreated(rows: seq<Row>, id: int, packageId: int, plans: seq<Plan>, n: nat)
    requires n <= |plans|
    requires forall i :: 0 <= i < n ==> Present(rows, packageId, plans[i].name)
    ensures Created(rows, id, packageId, plans, n) == []
  {
    hide Find;
    if n > 0 {
      NothingCreated(rows, id, packageId, plans, n - 1);
    }
  }

  lemma {:induction false} NoneSwitchedOff(rows: seq<Row>, packageId: int, plans: seq<Plan>, m: nat)
    requires m <= |rows|
    requires forall k :: 0 <= k < m ==> Unexpected(rows[k], packageId, plans) ==> !rows[k].isActive
    ensures SwitchedOff(rows, packageId, plans, m) == 0
  {
    if m > 0 {
      NoneSwitchedOff(rows, packageId, plans, m - 1);
    }
  }

  // ---------- The run in terms of the specifications ----------

  /** The last of the first `n` specifications of that name is at `i`. */
  ghost predicate LastNamed(plans: seq<Plan>, n: nat, name: string, i: int)
    requires n <= |plans|
  {
    0 <= i < n && plans[i].name == name && forall j :: i < j < n ==> plans[j].name != name
  }

  lemma {:induction false} LastOfIff(plans: seq<Plan>, n: nat, name: string)
    requires n <= |plans|
    ensures LastOf(plans, n, name) >= 0 ==> LastNamed(plans, n, name, LastOf(plans, n, name))
    ensures forall i :: LastNamed(plans, n, name, i) ==> i == LastOf(plans, n, name)
    ensures LastOf(plans, n, name) < 0 <==> forall j :: 0 <= j < n ==> plans[j].name != name
  {
    if n > 0 && plans[n - 1].name != name {
      LastOfIff(plans, n - 1, name);
      forall i ensures LastNamed(plans, n, name, i) ==> LastNamed(plans, n - 1, name, i) {
      }
    }
  }

  /** No row of the package has the name. */
  ghost predicate Lacks(rows: seq<Row>, packageId: int, name: string) {
    forall k :: 0 <= k < |rows| ==> !(rows[k].packageId == packageId && rows[k].name == name)
  }

  lemma LacksIff(rows: seq<Row>, packageId: int, name: string)
    ensures Lacks(rows, packageId, name) <==> !Present(rows, packageId, name)
  {
    hide Find;
    FindIs(rows, packageId, name);
    if Present(rows, packageId, name) {
      assert SameKey(rows[Find(rows, packageId, name)], packageId, name);
    }
  }

  /**
    What becomes of an existing row: identity, package, name and everything that no specification mentions stay. In
    another package all of it stays. In the package the last specification of its name sets terms and activity, and
    without one the row is switched off and nothing else.
   */
  lemma ExistingRowAfter(rows: seq<Row>, nextId: int, packageId: int, plans: seq<Plan>, k: nat, i: int)
    requires k < |rows|
    ensures var row, after := rows[k], Reconciled(rows, nextId, packageId, plans)[k];
            && after.id == row.id && after.packageId == row.packageId && after.name == row.name
            && after.extras == row.extras
            && (row.packageId != packageId ==> after == row)
            && (row.packageId == packageId && LastNamed(plans, |plans|, row.name, i) ==>
                  after.terms == plans[i].terms && after.isActive == plans[i].isActive)
            && (row.packageId == packageId && (forall j :: 0 <= j < |plans| ==> plans[j].name != row.name) ==>
                  after.terms == row.terms && !after.isActive)
  {
    hide Created;
    LastOfIff(plans, |plans|, rows[k].name);
  }

  /**
    Which rows are created: one for each specification whose name the package lacks, in the order of the
    specifications, with consecutive new identifiers, its terms and activity, and nothing else set.
   */
  lemma CreatedRowsAre(rows: seq<Row>, nextId: int, packageId: int, plans: seq<Plan>, i: nat)
    requires i < |plans| && Lacks(rows, packageId, plans[i].name)
    ensures var after := Reconciled(rows, nextId, packageId, plans);
            var k := |rows| + |LackedBefore(rows, packageId, plans, i)|;
            && k < |after|
            && after[k] == Row(nextId + k - |rows|, packageId, plans[i].name, plans[i].terms, plans[i].isActive,
                               Extras(None, [], None, false))
    ensures |Reconciled(rows, nextId, packageId, plans)| ==
            |rows| + |LackedBefore(rows, packageId, plans, |plans|)|
  {
    hide Find, Created, LackedBefore, Lacks;
    LacksIff(rows, packageId, plans[i].name);
    CreatedAt(rows, nextId, packageId, plans, |plans|, i);
    CreatedCounted(rows, nextId, packageId, plans, i);
    CreatedCounted(rows, nextId, packageId, plans, |plans|);
  }

  /** Which of the first `n` specifications have a name that the package lacks. */
  ghost function LackedBefore(rows: seq<Row>, packageId: int, plans: seq<Plan>, n: nat): set<int>
    requires n <= |plans|
  {
    set i | 0 <= i < n && Lacks(rows, packageId, plans[i].name)
  }

  /** There are as many created rows as specifications with a name that the package lacks. */
  lemma {:induction false} CreatedCounted(rows: seq<Row>, nextId: int, packageId: int, plans: seq<Plan>, n: nat)
    requires n <= |plans|
    ensures |Created(rows, nextId, packageId, plans, n)| == |LackedBefore(rows, packageId, plans, n)|
  {
    hide Present, Lacks;
    if n == 0 {
      assert LackedBefore(rows, packageId, plans, 0) == {};
    } else {
      CreatedCounted(rows, nextId, packageId, plans, n - 1);
      LacksIff(rows, packageId, plans[n - 1].name);
      assert LackedBefore(rows, packageId, plans, n) ==
             LackedBefore(rows, packageId, plans, n - 1) +
             if Lacks(rows, packageId, plans[n - 1].name) then {n - 1} else {};
    }
  }

  /** An active row of the package that no specification names. */
  ghost predicate Surplus(row: Row, packageId: int, plans: seq<Plan>) {
    row.packageId == packageId && row.isActive && forall j :: 0 <= j < |plans| ==> plans[j].name != row.name
  }

  ghost function SurplusBefore(rows: seq<Row>, packageId: int, plans: seq<Plan>, m: nat): set<int>
    requires m <= |rows|
  {
    set k | 0 <= k < m && Surplus(rows[k], packageId, plans)
  }

  /** As many rows are switched off as active rows of the package have a name that is not specified. */
  lemma {:induction false} SwitchedOffCounted(rows: seq<Row>, packageId: int, plans: seq<Plan>, m: nat)
    requires m <= |rows|
    ensures SwitchedOff(rows, packageId, plans, m) == |SurplusBefore(rows, packageId, plans, m)|
  {
    hide Surplus;
    if m == 0 {
      assert SurplusBefore(rows, packageId, plans, 0) == {};
    } else {
      SwitchedOffCounted(rows, packageId, plans, m - 1);
      SurplusIff(rows[m - 1], packageId, plans);
      assert SurplusBefore(rows, packageId, plans, m) ==
             SurplusBefore(rows, packageId, plans, m - 1) +
             if Surplus(rows[m - 1], packageId, plans) then {m - 1} else {};
    }
  }

  lemma SurplusIff(row: Row, packageId: int, plans: seq<Plan>)
    ensures Surplus(row, packageId, plans) <==> Unexpected(row, packageId, plans) && row.isActive
  {
    LastOfIff(plans, |plans|, row.name);
  }

  /** A run succeeds exactly when no name that the package lacks is specified twice. */
  lemma SucceedsIff(rows: seq<Row>, packageId: int, plans: seq<Plan>)
    ensures Succeeds(rows, packageId, plans) <==>
            forall i, j :: 0 <= i < j < |plans| && Lacks(rows, packageId, plans[j].name) ==>
              plans[i].name != plans[j].name
  {
    hide Present, Lacks;
    forall j | 0 <= j < |plans|
      ensures CreatedBefore(rows, packageId, plans, j) <==>
              Lacks(rows, packageId, plans[j].name) && exists i :: 0 <= i < j && plans[i].name == plans[j].name
    {
      LacksIff(rows, packageId, plans[j].name);
      LastOfIff(plans, j, plans[j].name);
    }
  }

  /** Where a run that fails has stopped: the first `n` specifications are carried out, and no row is switched off. */
  lemma HalfDoneRow(rows: seq<Row>, packageId: int, plans: seq<Plan>, n: nat, k: nat, i: int)
    requires n <= |plans| && k < |rows|
    ensures var row, after := rows[k], Amended(rows, packageId, plans, n, 0)[k];
            && (row.packageId == packageId && LastNamed(plans, n, row.name, i) ==>
                  after == row.(terms := plans[i].terms, isActive := plans[i].isActive))
            && (row.packageId != packageId || (forall j :: 0 <= j < n ==> plans[j].name != row.name) ==> after == row)
  {
    LastOfIff(plans, n, rows[k].name);
  }
}
