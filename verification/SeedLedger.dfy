/**
  Balances and usage in the bulk seed (server/scripts/seed-bulk-local-data.ts): every seed user is
  funded, given a gift and charged for the instances it owns, with one balance log per movement; and
  every host is charged with what its instances use.
 */
module SeedLedger {

  datatype User = User(username: string, isAdmin: bool)
  datatype Plan = Plan(price: nat, cpu: nat, memory: nat, disk: nat)
  datatype Instance = Instance(userId: int, hostId: int, plan: Plan)
  datatype Kind = AdminAdjust | Recharge | Gift | Consume

  /** A balance log; an order number is the position of the user, for recharges only. */
  datatype Log = Log(userId: int, kind: Kind, amount: int, before: int, after: int, orderIndex: int)

  function Max(a: int, b: int): int {
    if a >= b then a else b
  }

  function BaseRecharge(user: User, index: nat, spend: nat): int {
    Max(if user.isAdmin then 30000 + index * 500 else 9000 + index * 120, spend + 2000 + index * 50)
  }

  function GiftAmount(user: User, index: nat): int {
    if user.isAdmin then 1500 else 300 + index * 10
  }

  function Spend(instances: seq<Instance>, userId: int): nat {
    if instances == [] then 0
    else (if instances[0].userId == userId then instances[0].plan.price else 0) + Spend(instances[1..], userId)
  }

  const NO_ORDER := -1

  /** The logs of one user. */
  function UserLogs(user: User, index: nat, userId: int, spend: nat): seq<Log> {
    var base, gift := BaseRecharge(user, index, spend), GiftAmount(user, index);
    [Log(userId, if user.isAdmin then AdminAdjust else Recharge, base, 0, base,
         if user.isAdmin then NO_ORDER else index),
     Log(userId, Gift, gift, base, base + gift, NO_ORDER)] +
    if spend > 0 then [Log(userId, Consume, 0 - spend, base + gift, base + gift - spend, NO_ORDER)] else []
  }

  /** A run of movements that starts at one balance and ends at another, never below zero. */
  ghost predicate Chain(logs: seq<Log>, start: int, end: int) {
    && start >= 0
    && if logs == [] then start == end
       else logs[0].before == start && logs[0].after == logs[0].before + logs[0].amount &&
            Chain(logs[1..], logs[0].after, end)
  }

  function FinalBalance(user: User, index: nat, spend: nat): int {
    BaseRecharge(user, index, spend) + GiftAmount(user, index) - spend
  }

  /** A user's logs chain from zero to the final balance, which leaves the promised cushion. */
  lemma UserLogsChain(user: User, index: nat, userId: int, spend: nat)
    ensures Chain(UserLogs(user, index, userId, spend), 0, FinalBalance(user, index, spend))
    ensures FinalBalance(user, index, spend) >= 2000 + 50 * index + (if user.isAdmin then 1500 else 300 + 10 * index)
  {
    var logs := UserLogs(user, index, userId, spend);
    var end := FinalBalance(user, index, spend);
    if spend > 0 {
      assert Chain(logs[3..], end, end);
      assert logs[2..][1..] == logs[3..];
    }
    assert Chain(logs[2..], logs[1].after, end);
    assert logs[1..][1..] == logs[2..];
    assert Chain(logs[1..], logs[0].after, end);
  }

  /**
    The logs of one user by role: an administrator is credited at least 30000 + 500 * index by adjustment, and given
    1500; a customer recharges at least 9000 + 120 * index under an order of its own, and is given 300 + 10 * index.
    Either credit is raised to the spending and a cushion when that is more, and no further. The spending is
    consumed in one log, when there is any.
   */
  lemma LogsByRole(user: User, index: nat, userId: int, spend: nat)
    ensures var logs := UserLogs(user, index, userId, spend);
            && |logs| == (if spend > 0 then 3 else 2)
            && (forall l :: l in logs ==> l.userId == userId)
            && logs[0].kind == (if user.isAdmin then AdminAdjust else Recharge)
            && logs[0].orderIndex == (if user.isAdmin then -1 else index)
            && (var least := if user.isAdmin then 30000 + 500 * index else 9000 + 120 * index;
                && logs[0].amount >= least && logs[0].amount >= spend + 2000 + 50 * index
                && (logs[0].amount == least || logs[0].amount == spend + 2000 + 50 * index))
            && logs[1].kind == Gift && logs[1].orderIndex == -1
            && logs[1].amount == (if user.isAdmin then 1500 else 300 + 10 * index)
            && (spend > 0 ==> logs[2].kind == Consume && logs[2].amount + spend == 0 && logs[2].orderIndex == -1)
  {
  }

  function LogsFrom(users: seq<User>, userIds: map<string, int>, instances: seq<Instance>, i: nat): seq<Log>
    requires i <= |users| && forall u :: u in users ==> u.username in userIds
    decreases |users| - i
  {
    if i == |users| then []
    else
      var id := userIds[users[i].username];
      UserLogs(users[i], i, id, Spend(instances, id)) + LogsFrom(users, userIds, instances, i + 1)
  }

  lemma {:induction false} SpendConcat(a: seq<Instance>, b: seq<Instance>, userId: int)
    ensures Spend(a + b, userId) == Spend(a, userId) + Spend(b, userId)
  {
    if a == [] {
      assert a + b == b;
    } else {
      assert (a + b)[1..] == a[1..] + b;
      SpendConcat(a[1..], b, userId);
    }
  }

  lemma SpendNext(instances: seq<Instance>, i: nat, userId: int)
    requires i < |instances|
    ensures Spend(instances[..i + 1], userId) ==
            Spend(instances[..i], userId) + if instances[i].userId == userId then instances[i].plan.price else 0
  {
    assert instances[..i + 1] == instances[..i] + [instances[i]];
    assert [instances[i]][1..] == [];
    SpendConcat(instances[..i], [instances[i]], userId);
  }

  /** The balances after the first users have been served, over those that were there before. */
  function BalancesUpTo(
    users: seq<User>, userIds: map<string, int>, instances: seq<Instance>, before: map<int, int>, i: nat): map<int, int>
    requires i <= |users| && forall u :: u in users ==> u.username in userIds
  {
    if i == 0 then before
    else
      var id := userIds[users[i - 1].username];
      BalancesUpTo(users, userIds, instances, before, i - 1)[
        id := FinalBalance(users[i - 1], i - 1, Spend(instances, id))]
  }

  lemma LedgerStart(users: seq<User>, userIds: map<string, int>, instances: seq<Instance>, before: map<int, int>)
    requires forall u :: u in users ==> u.username in userIds
    ensures BalancesUpTo(users, userIds, instances, before, 0) == before
    ensures LogsFrom(users, userIds, instances, |users|) == []
  {
  }

  lemma LedgerStep(
    users: seq<User>, userIds: map<string, int>, instances: seq<Instance>, before: map<int, int>, i: nat)
    requires i < |users| && forall u :: u in users ==> u.username in userIds
    ensures var id := userIds[users[i].username];
            var spend := Spend(instances, id);
            && LogsFrom(users, userIds, instances, i) ==
               UserLogs(users[i], i, id, spend) + LogsFrom(users, userIds, instances, i + 1)
            && BalancesUpTo(users, userIds, instances, before, i + 1) ==
               BalancesUpTo(users, userIds, instances, before, i)[id := FinalBalance(users[i], i, spend)]
  {
  }

  method SpendByUser(instances: seq<Instance>) returns (spendByUser: map<int, nat>)
    ensures forall id :: (if id in spendByUser then spendByUser[id] else 0) == Spend(instances, id)
  {
    spendByUser := map[];
    for i := 0 to |instances|
      invariant forall id :: (if id in spendByUser then spendByUser[id] else 0) == Spend(instances[..i], id)
    {
      var instance := instances[i];
      forall id
        ensures Spend(instances[..i + 1], id) ==
                Spend(instances[..i], id) + if instance.userId == id then instance.plan.price else 0
      {
        SpendNext(instances, i, id);
      }
      var sofar := if instance.userId in spendByUser then spendByUser[instance.userId] else 0;
      spendByUser := spendByUser[instance.userId := sofar + instance.plan.price];
    }
    assert instances[..|instances|] == instances;
  }

  class Accounts {
    var balances: map<int, int>
    var logs: seq<Log>

    method SyncBalances(users: seq<User>, userIds: map<string, int>, instances: seq<Instance>)
      requires forall u :: u in users ==> u.username in userIds
      modifies this
      ensures logs == LogsFrom(users, userIds, instances, 0)
      ensures balances == BalancesUpTo(users, userIds, instances, old(balances), |users|)
    {
      hide BaseRecharge, GiftAmount, Spend, LogsFrom, BalancesUpTo;
      LedgerStart(users, userIds, instances, balances);
      var spendByUser := SpendByUser(instances);
      var created: seq<Log> := [];
      for index := 0 to |users|
        invariant created + LogsFrom(users, userIds, instances, index) == LogsFrom(users, userIds, instances, 0)
        invariant balances == BalancesUpTo(users, userIds, instances, old(balances), index)
      {
        var user := users[index];
        var userId := userIds[user.username];
        var spend: int := if userId in spendByUser then spendByUser[userId] else 0;
        var baseRecharge := BaseRecharge(user, index, spend);
        var giftAmount := GiftAmount(user, index);
        var balanceBefore := 0;
        ghost var earlier := created;
        LedgerStep(users, userIds, instances, old(balances), index);

        created := created + [Log(
          userId, if user.isAdmin then AdminAdjust else Recharge, baseRecharge, balanceBefore,
          balanceBefore + baseRecharge, if user.isAdmin then NO_ORDER else index)];
        balanceBefore := balanceBefore + baseRecharge;

        created := created + [Log(
          userId, Gift, giftAmount, balanceBefore, balanceBefore + giftAmount, NO_ORDER)];
        balanceBefore := balanceBefore + giftAmount;

        if spend > 0 {
          created := created + [Log(
            userId, Consume, -spend, balanceBefore, balanceBefore - spend, NO_ORDER)];
          balanceBefore := balanceBefore - spend;
        }
        assert created == earlier + UserLogs(user, index, userId, spend);
        balances := balances[userId := balanceBefore];
      }
      logs := created;
    }
  }

  // ---------- The ledger as a whole ----------

  ghost predicate DistinctUsers(users: seq<User>, userIds: map<string, int>)
    requires forall u :: u in users ==> u.username in userIds
  {
    forall j, k :: 0 <= j < k < |users| ==> userIds[users[j].username] != userIds[users[k].username]
  }

  function LogsOf(logs: seq<Log>, userId: int): seq<Log> {
    if logs == [] then []
    else (if logs[0].userId == userId then [logs[0]] else []) + LogsOf(logs[1..], userId)
  }

  lemma {:induction false} LogsOfConcat(a: seq<Log>, b: seq<Log>, userId: int)
    ensures LogsOf(a + b, userId) == LogsOf(a, userId) + LogsOf(b, userId)
  {
    if a == [] {
      assert a + b == b;
    } else {
      assert (a + b)[1..] == a[1..] + b;
      LogsOfConcat(a[1..], b, userId);
      var first := if a[0].userId == userId then [a[0]] else [];
      assert first + (LogsOf(a[1..], userId) + LogsOf(b, userId)) ==
             (first + LogsOf(a[1..], userId)) + LogsOf(b, userId);
    }
  }

  lemma {:induction false} LogsOfUniform(logs: seq<Log>, owner: int, userId: int)
    requires forall l :: l in logs ==> l.userId == owner
    ensures LogsOf(logs, userId) == if userId == owner then logs else []
  {
    if logs != [] {
      assert logs[0] in logs;
      LogsOfUniform(logs[1..], owner, userId);
    }
  }

  /** Among all logs, those of a user are exactly the logs written for that user, in order. */
  lemma {:induction false} LedgerOfUser(
    users: seq<User>, userIds: map<string, int>, instances: seq<Instance>, i: nat, k: nat)
    requires i <= |users| && k < |users| && forall u :: u in users ==> u.username in userIds
    requires DistinctUsers(users, userIds)
    ensures var id := userIds[users[k].username];
            LogsOf(LogsFrom(users, userIds, instances, i), id) ==
            if k < i then [] else UserLogs(users[k], k, id, Spend(instances, id))
    decreases |users| - i
  {
    hide UserLogs, Spend, LogsOf;
    NoLogs(userIds[users[k].username]);
    if i < |users| {
      var id, owner := userIds[users[k].username], userIds[users[i].username];
      LedgerOfUser(users, userIds, instances, i + 1, k);
      var own := UserLogs(users[i], i, owner, Spend(instances, owner));
      OneOwner(users[i], i, owner, Spend(instances, owner));
      LogsOfUniform(own, owner, id);
      LogsOfConcat(own, LogsFrom(users, userIds, instances, i + 1), id);
    }
  }

  lemma NoLogs(userId: int)
    ensures LogsOf([], userId) == []
  {
  }

  lemma OneOwner(user: User, index: nat, userId: int, spend: nat)
    ensures forall l :: l in UserLogs(user, index, userId, spend) ==> l.userId == userId
  {
  }

  /** Every user's part of the ledger is a chain from zero to the balance that the user is left with. */
  lemma LedgerCorrect(
    users: seq<User>, userIds: map<string, int>, instances: seq<Instance>, before: map<int, int>, k: nat)
    requires k < |users| && forall u :: u in users ==> u.username in userIds
    requires DistinctUsers(users, userIds)
    ensures var id := userIds[users[k].username];
            var balances := BalancesUpTo(users, userIds, instances, before, |users|);
            && id in balances
            && Chain(LogsOf(LogsFrom(users, userIds, instances, 0), id), 0, balances[id])
            && balances[id] >= 2000 + 50 * k + (if users[k].isAdmin then 1500 else 300 + 10 * k)
  {
    var id := userIds[users[k].username];
    LedgerOfUser(users, userIds, instances, 0, k);
    UserLogsChain(users[k], k, id, Spend(instances, id));
    BalanceKept(users, userIds, instances, before, |users|, k);
  }

  lemma {:induction false} BalanceKept(
    users: seq<User>, userIds: map<string, int>, instances: seq<Instance>, before: map<int, int>, i: nat, k: nat)
    requires k < i <= |users| && forall u :: u in users ==> u.username in userIds
    requires DistinctUsers(users, userIds)
    ensures var id := userIds[users[k].username];
            var balances := BalancesUpTo(users, userIds, instances, before, i);
            id in balances && balances[id] == FinalBalance(users[k], k, Spend(instances, id))
  {
    if k < i - 1 {
      BalanceKept(users, userIds, instances, before, i - 1, k);
    }
  }

  // ---------- Conservation of money ----------

  /** What the seed users are left with, what they were given, and what they paid, over the first users. */
  function TotalLeft(users: seq<User>, userIds: map<string, int>, balances: map<int, int>, i: nat): int
    requires i <= |users| && forall u :: u in users ==> u.username in userIds && userIds[u.username] in balances
  {
    if i == 0 then 0
    else TotalLeft(users, userIds, balances, i - 1) + balances[userIds[users[i - 1].username]]
  }

  function TotalGiven(users: seq<User>, userIds: map<string, int>, instances: seq<Instance>, i: nat): int
    requires i <= |users| && forall u :: u in users ==> u.username in userIds
  {
    if i == 0 then 0
    else
      var spend := Spend(instances, userIds[users[i - 1].username]);
      TotalGiven(users, userIds, instances, i - 1) +
      BaseRecharge(users[i - 1], i - 1, spend) + GiftAmount(users[i - 1], i - 1)
  }

  function IdsUpTo(users: seq<User>, userIds: map<string, int>, i: nat): set<int>
    requires i <= |users| && forall u :: u in users ==> u.username in userIds
  {
    set k | 0 <= k < i :: userIds[users[k].username]
  }

  /** The prices of the instances that belong to one of the users. */
  function PaidBy(instances: seq<Instance>, ids: set<int>): nat {
    if instances == [] then 0
    else (if instances[0].userId in ids then instances[0].plan.price else 0) + PaidBy(instances[1..], ids)
  }

  lemma {:induction false} PaidByOneMore(instances: seq<Instance>, ids: set<int>, id: int)
    requires id !in ids
    ensures PaidBy(instances, ids + {id}) == PaidBy(instances, ids) + Spend(instances, id)
  {
    if instances != [] {
      PaidByOneMore(instances[1..], ids, id);
    }
  }

  lemma {:induction false} NobodyPays(instances: seq<Instance>)
    ensures PaidBy(instances, {}) == 0
  {
    if instances != [] {
      NobodyPays(instances[1..]);
    }
  }

  lemma {:induction false} MoneyConservedUpTo(
    users: seq<User>, userIds: map<string, int>, instances: seq<Instance>, balances: map<int, int>, i: nat)
    requires i <= |users| && forall u :: u in users ==> u.username in userIds && userIds[u.username] in balances
    requires DistinctUsers(users, userIds)
    requires forall k :: 0 <= k < |users| ==>
               var id := userIds[users[k].username];
               balances[id] == FinalBalance(users[k], k, Spend(instances, id))
    ensures TotalLeft(users, userIds, balances, i) ==
            TotalGiven(users, userIds, instances, i) - PaidBy(instances, IdsUpTo(users, userIds, i))
  {
    if i == 0 {
      assert IdsUpTo(users, userIds, 0) == {};
      NobodyPays(instances);
    } else {
      MoneyConservedUpTo(users, userIds, instances, balances, i - 1);
      var id := userIds[users[i - 1].username];
      assert IdsUpTo(users, userIds, i) == IdsUpTo(users, userIds, i - 1) + {id};
      PaidByOneMore(instances, IdsUpTo(users, userIds, i - 1), id);
    }
  }

  /** All final balances together are what was recharged and given, less the prices of the users' instances. */
  lemma MoneyConserved(users: seq<User>, userIds: map<string, int>, instances: seq<Instance>, before: map<int, int>)
    requires forall u :: u in users ==> u.username in userIds
    requires DistinctUsers(users, userIds)
    ensures var balances := BalancesUpTo(users, userIds, instances, before, |users|);
            && (forall u :: u in users ==> userIds[u.username] in balances)
            && TotalLeft(users, userIds, balances, |users|) ==
               TotalGiven(users, userIds, instances, |users|) -
               PaidBy(instances, IdsUpTo(users, userIds, |users|))
  {
    var balances := BalancesUpTo(users, userIds, instances, before, |users|);
    forall k | 0 <= k < |users|
      ensures userIds[users[k].username] in balances
      ensures balances[userIds[users[k].username]] ==
              FinalBalance(users[k], k, Spend(instances, userIds[users[k].username]))
    {
      BalanceKept(users, userIds, instances, before, |users|, k);
    }
    MoneyConservedUpTo(users, userIds, instances, balances, |users|);
  }

  // ---------- Usage ----------

  datatype Resource = Cpu | Memory | Disk

  datatype Usage = Usage(cpu: nat, memory: nat, disk: nat)

  function Amount(plan: Plan, r: Resource): nat {
    match r case Cpu => plan.cpu case Memory => plan.memory case Disk => plan.disk
  }

  function Used(usage: Usage, r: Resource): nat {
    match r case Cpu => usage.cpu case Memory => usage.memory case Disk => usage.disk
  }

  /** What the instances on any of the listed hosts use of a resource. */
  function UsedOn(instances: seq<Instance>, hosts: seq<int>, r: Resource): nat {
    if instances == [] then 0
    else
      var last := |instances| - 1;
      UsedOn(instances[..last], hosts, r) +
      if instances[last].hostId in hosts then Amount(instances[last].plan, r) else 0
  }

  lemma UsedOnNext(instances: seq<Instance>, i: nat, hosts: seq<int>, r: Resource)
    requires i < |instances|
    ensures UsedOn(instances[..i + 1], hosts, r) ==
            UsedOn(instances[..i], hosts, r) + if instances[i].hostId in hosts then Amount(instances[i].plan, r) else 0
  {
    assert instances[..i + 1][..i] == instances[..i];
  }

  /** The usage is exactly what the host's own instances use, of every resource. */
  ghost predicate Tracks(usage: Usage, instances: seq<Instance>, h: int) {
    forall r :: Used(usage, r) == UsedOn(instances, [h], r)
  }

  /** One instance uses what its plan says, on its own host. */
  lemma OneInstanceUses(usage: Usage, instance: Instance, h: int)
    ensures Tracks(usage, [instance], h) <==>
            usage == if instance.hostId == h
                     then Usage(instance.plan.cpu, instance.plan.memory, instance.plan.disk) else Usage(0, 0, 0)
  {
    assert [instance][..0] == [];
    assert forall r :: UsedOn([instance], [h], r) == if instance.hostId == h then Amount(instance.plan, r) else 0;
    assert Used(usage, Cpu) == usage.cpu && Used(usage, Memory) == usage.memory && Used(usage, Disk) == usage.disk;
  }

  function Plus(usage: Usage, plan: Plan): Usage {
    Usage(usage.cpu + plan.cpu, usage.memory + plan.memory, usage.disk + plan.disk)
  }

  lemma TracksNext(usage: Usage, instances: seq<Instance>, i: nat, h: int)
    requires i < |instances| && Tracks(usage, instances[..i], h)
    ensures Tracks(if instances[i].hostId == h then Plus(usage, instances[i].plan) else usage, instances[..i + 1], h)
  {
    var next := if instances[i].hostId == h then Plus(usage, instances[i].plan) else usage;
    forall r
      ensures Used(next, r) == UsedOn(instances[..i + 1], [h], r)
    {
      UsedOnNext(instances, i, [h], r);
    }
  }

  /** The loop that accumulates usage into a map with an entry for every seeded host. */
  method AccumulateUsage(hostIds: seq<int>, instances: seq<Instance>) returns (stats: map<int, Usage>)
    ensures forall h :: h in stats <==> h in hostIds
    ensures forall h :: h in stats ==> Tracks(stats[h], instances, h)
  {
    stats := map[];
    for i := 0 to |hostIds|
      invariant forall h :: h in stats <==> h in hostIds[..i]
      invariant forall h :: h in stats ==> stats[h] == Usage(0, 0, 0)
    {
      stats := stats[hostIds[i] := Usage(0, 0, 0)];
      assert hostIds[..i + 1] == hostIds[..i] + [hostIds[i]];
    }
    assert hostIds[..|hostIds|] == hostIds;
    for i := 0 to |instances|
      invariant forall h :: h in stats <==> h in hostIds
      invariant forall h :: h in stats ==> Tracks(stats[h], instances[..i], h)
    {
      var instance := instances[i];
      forall h | h in stats
        ensures Tracks(if instance.hostId == h then Plus(stats[h], instance.plan) else stats[h], instances[..i + 1], h)
      {
        TracksNext(stats[h], instances, i, h);
      }
      if instance.hostId in stats {
        var before := stats[instance.hostId];
        stats := stats[instance.hostId := Usage(
          before.cpu + instance.plan.cpu, before.memory + instance.plan.memory, before.disk + instance.plan.disk)];
      }
    }
    assert instances[..|instances|] == instances;
  }

  /** The sum of the accumulated usage over a list of hosts. */
  function Total(stats: map<int, Usage>, hosts: seq<int>, r: Resource): nat
    requires forall k :: 0 <= k < |hosts| ==> hosts[k] in stats
  {
    if hosts == [] then 0 else Used(stats[hosts[0]], r) + Total(stats, hosts[1..], r)
  }

  /** A further host adds what its own instances use. */
  lemma {:induction false} UsedOnOneMore(instances: seq<Instance>, h: int, hosts: seq<int>, r: Resource)
    requires h !in hosts
    ensures UsedOn(instances, [h] + hosts, r) == UsedOn(instances, [h], r) + UsedOn(instances, hosts, r)
    decreases |instances|
  {
    if instances != [] {
      UsedOnOneMore(instances[..|instances| - 1], h, hosts, r);
    }
  }

  /** Summed over the hosts, the usage is that of all instances whose host is among them. */
  lemma {:induction false} UsageConserved(
    instances: seq<Instance>, stats: map<int, Usage>, hosts: seq<int>, r: Resource)
    requires forall k :: 0 <= k < |hosts| ==>
               hosts[k] in stats && Tracks(stats[hosts[k]], instances, hosts[k])
    requires forall j, k :: 0 <= j < k < |hosts| ==> hosts[j] != hosts[k]
    ensures Total(stats, hosts, r) == UsedOn(instances, hosts, r)
    decreases |hosts|
  {
    if hosts == [] {
      NothingUsed(instances, r);
    } else {
      UsageConserved(instances, stats, hosts[1..], r);
      UsedOnOneMore(instances, hosts[0], hosts[1..], r);
      assert hosts == [hosts[0]] + hosts[1..];
    }
  }

  lemma {:induction false} NothingUsed(instances: seq<Instance>, r: Resource)
    ensures UsedOn(instances, [], r) == 0
    decreases |instances|
  {
    if instances != [] {
      NothingUsed(instances[..|instances| - 1], r);
    }
  }
}
