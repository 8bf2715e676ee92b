/** Sorting commands into account queues, those into provider queues, and those into user queues. */
module Dispatch {
  import opened ConfigMgr
  import opened Grouping
  import opened JobIds
  import opened Queues
  import opened Wrappers

  const ERROR_BAD_DATA := -1
  const ERROR_INTERNAL := -2

  /** The eligible ones of the first `k` commands, each with its account. */
  ghost function Jobs(cmds: seq<Transaction>, k: nat, snap: Snapshot): seq<(nat, Transaction)>
    requires k <= |cmds| && forall t :: t in cmds ==> t in snap
  {
    if k == 0 then []
    else
      var t := cmds[k - 1];
      Jobs(cmds, k - 1, snap) + if Eligible(snap[t].status) then [(t.accountId, t)] else []
  }

  lemma {:induction false} EligiblesAre(cmds: seq<Transaction>, k: nat, snap: Snapshot)
    requires k <= |cmds| && forall t :: t in cmds ==> t in snap
    ensures forall t :: t in Eligibles(cmds, k, snap) <==> t in cmds[..k] && Eligible(snap[t].status)
  {
    if k > 0 {
      EligiblesAre(cmds, k - 1, snap);
      assert cmds[..k] == cmds[..k - 1] + [cmds[k - 1]];
    }
  }

  lemma {:induction false} JobsAre(cmds: seq<Transaction>, k: nat, snap: Snapshot)
    requires k <= |cmds| && forall t :: t in cmds ==> t in snap
    ensures forall i :: 0 <= i < |Jobs(cmds, k, snap)| ==>
              var (a, t) := Jobs(cmds, k, snap)[i]; t in cmds[..k] && Eligible(snap[t].status) && a == t.accountId
    ensures forall t :: t in cmds[..k] && Eligible(snap[t].status) ==> (t.accountId, t) in Jobs(cmds, k, snap)
  {
    if k > 0 {
      JobsAre(cmds, k - 1, snap);
      assert cmds[..k] == cmds[..k - 1] + [cmds[k - 1]];
    }
  }

  // ---------- commands into account queues ----------

  /** The queue for the key, which is made when there is none yet. */
  method AccountQueueFor(aql: QueueList<AccountQueue>, uid: nat) returns (aq: AccountQueue)
    requires Distinct(aql.items)
    modifies aql
    ensures Distinct(aql.items) && fresh(Objs(aql.items) - old(Objs(aql.items)))
    ensures var i := Find(old(AccountGroups(aql.items)), uid); i < |aql.items| && aql.items[i] == aq
    ensures aq.accountId == uid
    ensures AccountGroups(aql.items) == WithGroup(old(AccountGroups(aql.items)), uid)
  {
    hide WithGroup, Find;
    ghost var gs := AccountGroups(aql.items);
    var found := GetByAccountId(aql, uid);
    if found != null {
      GroupFound(gs, uid);
      return found;
    }
    aq := new AccountQueue(uid);
    DistinctAdd<AccountQueue>(aql.items, aq);
    aql.Add(aq);
    GroupAdded(gs, uid, AccountGroups(aql.items));
  }

  /** Puts the command into its queue, which has its place on the list. */
  method AddCommand(aql: QueueList<AccountQueue>, aq: AccountQueue, t: Transaction,
                    ghost gs: seq<Group<nat, Transaction>>)
    requires Distinct(aql.items) && AccountGroups(aql.items) == WithGroup(gs, aq.accountId)
    requires Find(gs, aq.accountId) < |aql.items| && aql.items[Find(gs, aq.accountId)] == aq
    modifies aq`transactions
    ensures AccountGroups(aql.items) == Enqueue(gs, aq.accountId, t)
  {
    ghost var mid := AccountGroups(aql.items);
    aq.AddTransaction(t);
    DistinctPairs<AccountQueue>(aql.items);
    EnqueuedAt(gs, aq.accountId, t, mid, AccountGroups(aql.items));
  }

  /** The commands in `taken` are enqueued, keeping the job ids they had; all others are untouched. */
  ghost predicate Taken(before: Snapshot, after: Snapshot, taken: set<Transaction>) {
    && after.Keys == before.Keys
    && taken <= before.Keys
    && (forall t :: t in taken ==>
          && Eligible(before[t].status)
          && after[t].status == StatusEnqueued
          && after[t].refUniqueId == 0
          && (before[t].uniqueId != 0 ==> after[t].uniqueId == before[t].uniqueId))
    && (forall t :: t in before && t !in taken ==> after[t] == before[t])
  }

  lemma TakenStep(before: Snapshot, snap: Snapshot, taken: set<Transaction>, t: Transaction, f: Fields)
    requires Taken(before, snap, taken) && t in before && Eligible(snap[t].status)
    requires f.status == StatusEnqueued && f.refUniqueId == 0
    requires snap[t].uniqueId != 0 ==> f.uniqueId == snap[t].uniqueId
    ensures Taken(before, snap[t := f], taken + {t})
  {
  }

  /** Where the loop stands before command number `k`. */
  ghost predicate Progress(cmds: seq<Transaction>, before: Snapshot, gs: seq<Group<nat, Transaction>>, k: nat,
                           snap: Snapshot, taken: set<Transaction>, groups: seq<Group<nat, Transaction>>)
  {
    && k <= |cmds|
    && (forall t :: t in cmds ==> t in before)
    && taken == Eligibles(cmds, k, before)
    && (forall t :: t in taken ==> t.accountId != 0)
    && Taken(before, snap, taken)
    && groups == EnqueueAll(gs, Jobs(cmds, k, before))
  }

  /** What one pass does to one command: nothing, or all that `Take` promises. */
  ghost predicate Passed(t: Transaction, snap: Snapshot, taken: set<Transaction>, groups: seq<Group<nat, Transaction>>,
                         snap': Snapshot, taken': set<Transaction>, groups': seq<Group<nat, Transaction>>)
  {
    t in snap && t in snap' &&
    if Eligible(snap[t].status) then
      && t.accountId != 0
      && snap'[t].status == StatusEnqueued && snap'[t].refUniqueId == 0
      && (snap[t].uniqueId != 0 ==> snap'[t].uniqueId == snap[t].uniqueId)
      && snap' == snap[t := snap'[t]]
      && taken' == taken + {t}
      && groups' == Enqueue(groups, t.accountId, t)
    else
      snap' == snap && taken' == taken && groups' == groups
  }

  lemma SameStatus(before: Snapshot, snap: Snapshot, taken: set<Transaction>, t: Transaction)
    requires Taken(before, snap, taken) && t in before
    ensures t in snap && (Eligible(snap[t].status) <==> Eligible(before[t].status))
    ensures snap[t].uniqueId == before[t].uniqueId || before[t].uniqueId == 0
  {
  }

  lemma ProgressStep(cmds: seq<Transaction>, before: Snapshot, gs: seq<Group<nat, Transaction>>, k: nat,
                     snap: Snapshot, taken: set<Transaction>, groups: seq<Group<nat, Transaction>>,
                     snap': Snapshot, taken': set<Transaction>, groups': seq<Group<nat, Transaction>>)
    requires Progress(cmds, before, gs, k, snap, taken, groups)
    requires k < |cmds| && Passed(cmds[k], snap, taken, groups, snap', taken', groups')
    ensures Progress(cmds, before, gs, k + 1, snap', taken', groups')
  {
    hide Taken, Enqueue;
    var t := cmds[k];
    SameStatus(before, snap, taken, t);
    if Eligible(snap[t].status) {
      EnqueueAllSnoc(gs, Jobs(cmds, k, before), (t.accountId, t));
      TakenStep(before, snap, taken, t, snap'[t]);
    } else {
      assert Jobs(cmds, k + 1, before) == Jobs(cmds, k, before);
    }
  }

  /** Gives the command its id and marks it as enqueued. */
  method Mark(mgr: ConfigMgr, t: Transaction, ghost cmds: seq<Transaction>)
    requires t in cmds
    modifies mgr, t
    ensures t.status == StatusEnqueued && t.refUniqueId == 0
    ensures Snap(cmds) == old(Snap(cmds))[t := Fields(t.status, t.uniqueId, t.refUniqueId)]
    ensures IdGiven(old(t.uniqueId), t.uniqueId, old(mgr.errors), mgr.errors, old(JobCounters(mgr)),
                    JobCounters(mgr))
    ensures old(Smooth(mgr)) ==> Smooth(mgr) && mgr.errors == old(mgr.errors)
  {
    AssignJobId(mgr, t);
    t.refUniqueId := 0;
    t.status := StatusEnqueued;
  }

  /** Everything the loop does for one eligible command. */
  method Take(mgr: ConfigMgr, t: Transaction, aql: QueueList<AccountQueue>, ghost cmds: seq<Transaction>)
    requires Distinct(aql.items) && t in cmds
    modifies mgr, t, aql, Objs(aql.items)
    ensures Distinct(aql.items)
    ensures fresh(Objs(aql.items) - old(Objs(aql.items)))
    ensures AccountGroups(aql.items) == Enqueue(old(AccountGroups(aql.items)), t.accountId, t)
    ensures t.status == StatusEnqueued && t.refUniqueId == 0
    ensures Snap(cmds) == old(Snap(cmds))[t := Fields(t.status, t.uniqueId, t.refUniqueId)]
    ensures IdGiven(old(t.uniqueId), t.uniqueId, old(mgr.errors), mgr.errors, old(JobCounters(mgr)),
                    JobCounters(mgr))
    ensures old(Smooth(mgr)) ==> Smooth(mgr) && mgr.errors == old(mgr.errors)
  {
    hide IdGiven, Enqueue;
    ghost var gs, snap := AccountGroups(aql.items), Snap(cmds);
    var aq := AccountQueueFor(aql, t.accountId);
    ghost var mid := AccountGroups(aql.items);
    assert Snap(cmds) == snap;
    Mark(mgr, t, cmds);
    ghost var marked := Snap(cmds);
    assert AccountGroups(aql.items) == mid;
    AddCommand(aql, aq, t, gs);
    assert Snap(cmds) == marked;
  }

  /** One pass of the loop: `bad` when the command is eligible but has no account. */
  method SortOne(mgr: ConfigMgr, t: Transaction, aql: QueueList<AccountQueue>, ghost cmds: seq<Transaction>,
                 ghost taken: set<Transaction>)
    returns (bad: bool, ghost taken': set<Transaction>)
    requires Distinct(aql.items) && t in cmds
    modifies mgr, t, aql, Objs(aql.items)
    ensures Distinct(aql.items)
    ensures fresh(Objs(aql.items) - old(Objs(aql.items)))
    ensures bad <==> Eligible(old(t.status)) && t.accountId == 0
    ensures old(mgr.errors) <= mgr.errors && (bad ==> mgr.errors == old(mgr.errors) && mgr.store == old(mgr.store))
    ensures old(Smooth(mgr)) ==> Smooth(mgr) && mgr.errors == old(mgr.errors)
    ensures bad ==> Snap(cmds) == old(Snap(cmds)) && AccountGroups(aql.items) == old(AccountGroups(aql.items))
    ensures !bad ==> Passed(t, old(Snap(cmds)), taken, old(AccountGroups(aql.items)),
                            Snap(cmds), taken', AccountGroups(aql.items))
    ensures Eligible(old(t.status)) && !bad ==>
              IdGiven(old(t.uniqueId), t.uniqueId, old(mgr.errors), mgr.errors, old(JobCounters(mgr)), JobCounters(mgr))
    ensures !Eligible(old(t.status)) ==> mgr.errors == old(mgr.errors) && mgr.store == old(mgr.store)
  {
    bad, taken' := false, taken;
    if Eligible(t.status) {
      if t.accountId == 0 {
        return true, taken;
      }
      Take(mgr, t, aql, cmds);
      taken' := taken + {t};
    }
  }

  /** Eligible commands stay so. */
  lemma SameEligible(cmds: seq<Transaction>, before: Snapshot, gs: seq<Group<nat, Transaction>>, k: nat,
                     snap: Snapshot, taken: set<Transaction>, groups: seq<Group<nat, Transaction>>)
    requires Progress(cmds, before, gs, k, snap, taken, groups) && k < |cmds|
    ensures cmds[k] in snap && (Eligible(snap[cmds[k]].status) <==> Eligible(before[cmds[k]].status))
  {
    assert cmds[k] in before;
    if cmds[k] in taken {
      assert Eligible(before[cmds[k]].status);
    }
  }

  /** `SortOne` carries the loop from command `k` to the next. */
  method Advance(mgr: ConfigMgr, k: nat, cmds: seq<Transaction>, aql: QueueList<AccountQueue>,
                 ghost before: Snapshot, ghost gs: seq<Group<nat, Transaction>>, ghost taken: set<Transaction>,
                 ghost codes: map<Transaction, CInt>, ghost errs: seq<CInt>, ghost c0: Counters)
    returns (bad: bool, next: nat, ghost taken': set<Transaction>, ghost codes': map<Transaction, CInt>)
    requires Distinct(aql.items) && k < |cmds|
    requires IdsStand(cmds, k, before, Snap(cmds), taken, codes, errs, mgr.errors, c0, JobCounters(mgr))
    requires Progress(cmds, before, gs, k, Snap(cmds), taken, AccountGroups(aql.items))
    modifies mgr, cmds[k], aql, Objs(aql.items)
    ensures Distinct(aql.items)
    ensures fresh(Objs(aql.items) - old(Objs(aql.items)))
    ensures bad ==> Eligible(before[cmds[k]].status) && cmds[k].accountId == 0
    ensures next == if bad then k else k + 1
    ensures Progress(cmds, before, gs, next, Snap(cmds), taken', AccountGroups(aql.items))
    ensures IdsStand(cmds, next, before, Snap(cmds), taken', codes', errs, mgr.errors, c0, JobCounters(mgr))
    ensures old(Smooth(mgr)) ==> Smooth(mgr) && mgr.errors == old(mgr.errors)
  {
    hide Progress, IdsStand, IdGiven, AccountGroups;
    ghost var snap, groups, errors, c := Snap(cmds), AccountGroups(aql.items), mgr.errors, JobCounters(mgr);
    ghost var t := cmds[k];
    SameEligible(cmds, before, gs, k, snap, taken, groups);
    bad, taken' := SortOne(mgr, cmds[k], aql, cmds, taken);
    next, codes' := k, codes;
    if bad {
      taken' := taken;
    } else {
      next := k + 1;
      ProgressStep(cmds, before, gs, k, snap, taken, groups, Snap(cmds), taken', AccountGroups(aql.items));
      if Eligible(snap[t].status) {
        codes' := WithCode(codes, t, errors, mgr.errors);
        TakenSoFar(cmds, before, gs, k, snap, taken, groups);
        StandStep(cmds, k, before, snap, taken, codes, errs, errors, c0, c, Snap(cmds)[t], mgr.errors,
                  JobCounters(mgr));
      } else {
        StandIdle(cmds, k, before, snap, taken, codes, errs, errors, c0, c);
      }
    }
  }

  lemma TakenSoFar(cmds: seq<Transaction>, before: Snapshot, gs: seq<Group<nat, Transaction>>, k: nat,
                   snap: Snapshot, taken: set<Transaction>, groups: seq<Group<nat, Transaction>>)
    requires Progress(cmds, before, gs, k, snap, taken, groups)
    ensures k <= |cmds| && (forall t :: t in cmds ==> t in before) && taken == Eligibles(cmds, k, before)
  {
  }

  /** The commands whose status is none of the three to be sent are as they were. */
  ghost predicate OthersLeft(cmds: seq<Transaction>, before: Snapshot, snap: Snapshot) {
    forall t :: t in cmds ==> t in before && t in snap && (before[t].status.StatusOther? ==> snap[t] == before[t])
  }

  /** The command is in the queue of its account. */
  ghost predicate Queued(groups: seq<Group<nat, Transaction>>, t: Transaction) {
    exists j :: 0 <= j < |groups| && groups[j].key == t.accountId && t in groups[j].members
  }

  /** All commands that were unknown, new or enqueued already are enqueued and in the queue of their account. */
  ghost predicate AllQueued(cmds: seq<Transaction>, before: Snapshot, snap: Snapshot,
                            groups: seq<Group<nat, Transaction>>)
  {
    forall t :: t in cmds && t in before && before[t].status in {StatusUnknown, StatusNone, StatusEnqueued} ==>
      t in snap && snap[t].status == StatusEnqueued && snap[t].refUniqueId == 0 && Queued(groups, t)
  }

  /** All of them have a job id. */
  ghost predicate AllHaveIds(cmds: seq<Transaction>, before: Snapshot, snap: Snapshot) {
    forall t :: t in cmds && t in before && before[t].status in {StatusUnknown, StatusNone, StatusEnqueued} ==>
      t in snap && snap[t].uniqueId != 0
  }

  lemma IdsForAll(cmds: seq<Transaction>, before: Snapshot, snap: Snapshot, taken: set<Transaction>,
                  codes: map<Transaction, CInt>, errs: seq<CInt>, errs': seq<CInt>, c0: Counters, c: Counters)
    requires IdsStand(cmds, |cmds|, before, snap, taken, codes, errs, errs', c0, c)
    requires taken == Eligibles(cmds, |cmds|, before) && c0.ready && c.last < 0x1_0000_0000
    ensures AllHaveIds(cmds, before, snap)
  {
    EligiblesAre(cmds, |cmds|, before);
    assert cmds[..|cmds|] == cmds;
    forall t | t in cmds && before[t].status in {StatusUnknown, StatusNone, StatusEnqueued}
      ensures snap[t].uniqueId != 0
    {
      HasId(before, snap, taken, codes, c0.last, c.last, t);
    }
  }

  /** No other command has come into a queue; `gs` is what they held before. */
  ghost predicate OnlyQueued(cmds: seq<Transaction>, before: Snapshot, gs: seq<Group<nat, Transaction>>,
                             groups: seq<Group<nat, Transaction>>)
  {
    forall j, t :: 0 <= j < |groups| && t in groups[j].members && !(j < |gs| && t in gs[j].members) ==>
      t in cmds && t in before && before[t].status in {StatusUnknown, StatusNone, StatusEnqueued}
  }

  lemma StatusesHandled(cmds: seq<Transaction>, before: Snapshot, gs: seq<Group<nat, Transaction>>, n: nat,
                        snap: Snapshot, taken: set<Transaction>, groups: seq<Group<nat, Transaction>>)
    requires Progress(cmds, before, gs, n, snap, taken, groups)
    ensures OthersLeft(cmds, before, snap) && OnlyQueued(cmds, before, gs, groups)
    ensures n == |cmds| ==> AllQueued(cmds, before, snap, groups)
  {
    hide EnqueueAll;
    EligiblesAre(cmds, n, before);
    JobsQueued(cmds, before, gs, n, groups);
    if n == |cmds| {
      JobsAre(cmds, n, before);
      assert cmds[..n] == cmds;
      var jobs := Jobs(cmds, n, before);
      forall t | t in cmds && before[t].status in {StatusUnknown, StatusNone, StatusEnqueued}
        ensures Queued(groups, t)
      {
        var i :| 0 <= i < |jobs| && jobs[i] == (t.accountId, t);
        var j := Grouped(gs, jobs, i);
      }
    }
  }

  lemma JobsQueued(cmds: seq<Transaction>, before: Snapshot, gs: seq<Group<nat, Transaction>>, n: nat,
                   groups: seq<Group<nat, Transaction>>)
    requires n <= |cmds| && forall t :: t in cmds ==> t in before
    requires groups == EnqueueAll(gs, Jobs(cmds, n, before))
    ensures OnlyQueued(cmds, before, gs, groups)
  {
    hide EnqueueAll;
    var jobs := Jobs(cmds, n, before);
    JobsAre(cmds, n, before);
    forall j, t | 0 <= j < |groups| && t in groups[j].members && !(j < |gs| && t in gs[j].members)
      ensures t in cmds && before[t].status in {StatusUnknown, StatusNone, StatusEnqueued}
    {
      OnlyGrouped(gs, jobs, j, t);
      var i :| 0 <= i < |jobs| && jobs[i] == (groups[j].key, t);
      assert t in cmds[..n];
    }
  }

  lemma NothingSorted(mgr: ConfigMgr, cmds: seq<Transaction>, before: Snapshot, gs: seq<Group<nat, Transaction>>)
    requires before == Snap(cmds)
    ensures Progress(cmds, before, gs, 0, before, {}, gs)
    ensures IdsStand(cmds, 0, before, before, {}, map[], mgr.errors, mgr.errors, JobCounters(mgr), JobCounters(mgr))
  {
  }

  /** Stops at the first eligible command without an account, command number `n`; the eligible ones
      before it are `taken`. Those in `codes` were refused an id; there are some only if calls failed. */
  method SortCommandsByAccounts(mgr: ConfigMgr, commandList: seq<Transaction>, aql: QueueList<AccountQueue>)
    returns (rv: int, ghost n: nat, ghost taken: set<Transaction>, ghost codes: map<Transaction, CInt>)
    requires Distinct(aql.items)
    modifies mgr, Objs(commandList), aql, Objs(aql.items)
    ensures n <= |commandList| && rv == if n == |commandList| then 0 else ERROR_BAD_DATA
    ensures n < |commandList| ==>
              Eligible(old(Snap(commandList))[commandList[n]].status) && commandList[n].accountId == 0
    ensures Distinct(aql.items) && fresh(Objs(aql.items) - old(Objs(aql.items)))
    ensures Progress(commandList, old(Snap(commandList)), old(AccountGroups(aql.items)), n,
                     Snap(commandList), taken, AccountGroups(aql.items))
    ensures old(Smooth(mgr)) ==> Smooth(mgr) && mgr.errors == old(mgr.errors)
    ensures OthersLeft(commandList, old(Snap(commandList)), Snap(commandList))
    ensures OnlyQueued(commandList, old(Snap(commandList)), old(AccountGroups(aql.items)), AccountGroups(aql.items))
    ensures rv == 0 ==>
              AllQueued(commandList, old(Snap(commandList)), Snap(commandList), AccountGroups(aql.items))
    ensures rv == 0 && old(JobCounters(mgr)).ready && JobCounters(mgr).last < 0x1_0000_0000 ==>
              AllHaveIds(commandList, old(Snap(commandList)), Snap(commandList))
    ensures IdsSorted(commandList, n, old(Snap(commandList)), Snap(commandList), taken, codes, old(mgr.errors),
                      mgr.errors, old(JobCounters(mgr)), JobCounters(mgr))
  {
    hide Progress, IdsStand, IdsSorted, Snap, AccountGroups, JobCounters, OthersLeft, OnlyQueued, AllQueued, AllHaveIds;
    taken, codes := {}, map[];
    ghost var gs, before, errs, c0 := AccountGroups(aql.items), Snap(commandList), mgr.errors, JobCounters(mgr);
    NothingSorted(mgr, commandList, before, gs);
    var k := 0;
    while k < |commandList|
      invariant k <= |commandList| && Distinct(aql.items)
      invariant fresh(Objs(aql.items) - old(Objs(aql.items)))
      invariant Progress(commandList, before, gs, k, Snap(commandList), taken, AccountGroups(aql.items))
      invariant IdsStand(commandList, k, before, Snap(commandList), taken, codes, errs, mgr.errors, c0,
                         JobCounters(mgr))
      invariant old(Smooth(mgr)) ==> Smooth(mgr) && mgr.errors == errs
    {
      var bad;
      bad, k, taken, codes := Advance(mgr, k, commandList, aql, before, gs, taken, codes, errs, c0);
      if bad {
        TakenSoFar(commandList, before, gs, k, Snap(commandList), taken, AccountGroups(aql.items));
        StatusesHandled(commandList, before, gs, k, Snap(commandList), taken, AccountGroups(aql.items));
        AllSorted(commandList, k, before, Snap(commandList), taken, codes, errs, mgr.errors, c0, JobCounters(mgr));
        return ERROR_BAD_DATA, k, taken, codes;
      }
    }
    TakenSoFar(commandList, before, gs, k, Snap(commandList), taken, AccountGroups(aql.items));
    StatusesHandled(commandList, before, gs, k, Snap(commandList), taken, AccountGroups(aql.items));
    AllSorted(commandList, k, before, Snap(commandList), taken, codes, errs, mgr.errors, c0, JobCounters(mgr));
    if c0.ready && JobCounters(mgr).last < 0x1_0000_0000 {
      IdsForAll(commandList, before, Snap(commandList), taken, codes, errs, mgr.errors, c0, JobCounters(mgr));
    }
    return 0, k, taken, codes;
  }

  // ---------- account queues into provider queues ----------

  /** The backend of an account, empty when its specification cannot be read or names none. */
  function BackendOf(getSpec: nat -> Lookup<AccountSpec>, a: nat): string {
    match getSpec(a)
    case Found(spec) => spec.backendName
    case Failed(_) => ""
  }

  /** The account queues, each with its backend. */
  ghost function ByBackend(qs: seq<AccountQueue>, getSpec: nat -> Lookup<AccountSpec>): seq<(string, AccountQueue)> {
    if qs == [] then []
    else
      var aq := qs[|qs| - 1];
      ByBackend(qs[..|qs| - 1], getSpec) + [(BackendOf(getSpec, aq.accountId), aq)]
  }

  ghost predicate HaveBackend(qs: seq<AccountQueue>, getSpec: nat -> Lookup<AccountSpec>) {
    qs == [] || (HaveBackend(qs[..|qs| - 1], getSpec) && BackendOf(getSpec, qs[|qs| - 1].accountId) != "")
  }

  lemma ByBackendSnoc(qs: seq<AccountQueue>, aq: AccountQueue, getSpec: nat -> Lookup<AccountSpec>)
    ensures ByBackend(qs + [aq], getSpec) == ByBackend(qs, getSpec) + [(BackendOf(getSpec, aq.accountId), aq)]
  {
    assert (qs + [aq])[..|qs|] == qs;
  }

  /** The queue for the key, which is made when there is none yet. */
  method ProviderQueueFor(pql: QueueList<ProviderQueue>, name: string) returns (pq: ProviderQueue)
    requires Distinct(pql.items)
    modifies pql
    ensures Distinct(pql.items) && fresh(Objs(pql.items) - old(Objs(pql.items)))
    ensures var i := Find(old(ProviderGroups(pql.items)), name); i < |pql.items| && pql.items[i] == pq
    ensures pq.name == name
    ensures ProviderGroups(pql.items) == WithGroup(old(ProviderGroups(pql.items)), name)
  {
    hide WithGroup, Find;
    ghost var gs := ProviderGroups(pql.items);
    var found := GetByProviderName(pql, name);
    if found != null {
      GroupFound(gs, name);
      return found;
    }
    pq := new ProviderQueue(name);
    DistinctAdd<ProviderQueue>(pql.items, pq);
    pql.Add(pq);
    GroupAdded(gs, name, ProviderGroups(pql.items));
  }

  /** Puts the account queue into its provider queue, which has its place on the list. */
  method AddToProvider(pql: QueueList<ProviderQueue>, pq: ProviderQueue, aq: AccountQueue,
                       ghost gs: seq<Group<string, AccountQueue>>)
    requires Distinct(pql.items) && ProviderGroups(pql.items) == WithGroup(gs, pq.name)
    requires Find(gs, pq.name) < |pql.items| && pql.items[Find(gs, pq.name)] == pq
    modifies pq`queues
    ensures ProviderGroups(pql.items) == Enqueue(gs, pq.name, aq)
  {
    ghost var mid := ProviderGroups(pql.items);
    pq.AddAccountQueue(aq);
    DistinctPairs<ProviderQueue>(pql.items);
    EnqueuedAt(gs, pq.name, aq, mid, ProviderGroups(pql.items));
  }

  /** Finds the provider queue for an account queue: none when the account cannot be read or has no
      backend. */
  method RouteOne(getSpec: nat -> Lookup<AccountSpec>, aq: AccountQueue, pql: QueueList<ProviderQueue>)
    returns (pq: ProviderQueue?)
    requires Distinct(pql.items)
    modifies aq`spec, pql
    ensures Distinct(pql.items) && fresh(Objs(pql.items) - old(Objs(pql.items)))
    ensures pq == null <==> BackendOf(getSpec, aq.accountId) == ""
    ensures pq == null ==> ProviderGroups(pql.items) == old(ProviderGroups(pql.items))
    ensures pq != null ==>
              var gs := old(ProviderGroups(pql.items));
              && pq.name == BackendOf(getSpec, aq.accountId) && ProviderGroups(pql.items) == WithGroup(gs, pq.name)
              && Find(gs, pq.name) < |pql.items| && pql.items[Find(gs, pq.name)] == pq
  {
    ghost var gs := ProviderGroups(pql.items);
    var spec := getSpec(aq.accountId);
    if spec.Failed? {
      return null;
    }
    aq.spec := Some(spec.value);
    assert ProviderGroups(pql.items) == gs;
    if spec.value.backendName == "" {
      return null;
    }
    pq := ProviderQueueFor(pql, spec.value.backendName);
  }

  /** The loop has put the account queues `moved` on the provider queues; the others still wait. */
  ghost predicate Moved(getSpec: nat -> Lookup<AccountSpec>, gs: seq<Group<string, AccountQueue>>,
                        all: seq<AccountQueue>, moved: seq<AccountQueue>, waiting: seq<AccountQueue>,
                        groups: seq<Group<string, AccountQueue>>)
  {
    && moved + waiting == all
    && HaveBackend(moved, getSpec)
    && groups == EnqueueAll(gs, ByBackend(moved, getSpec))
  }

  lemma MovedStep(getSpec: nat -> Lookup<AccountSpec>, gs: seq<Group<string, AccountQueue>>,
                  all: seq<AccountQueue>, moved: seq<AccountQueue>, aq: AccountQueue, waiting: seq<AccountQueue>,
                  groups: seq<Group<string, AccountQueue>>, groups': seq<Group<string, AccountQueue>>,
                  moved': seq<AccountQueue>)
    requires Moved(getSpec, gs, all, moved, [aq] + waiting, groups) && moved' == moved + [aq]
    requires BackendOf(getSpec, aq.accountId) != ""
    requires groups' == Enqueue(groups, BackendOf(getSpec, aq.accountId), aq)
    ensures Moved(getSpec, gs, all, moved', waiting, groups')
  {
    ByBackendSnoc(moved, aq, getSpec);
    EnqueueAllSnoc(gs, ByBackend(moved, getSpec), (BackendOf(getSpec, aq.accountId), aq));
    assert (moved + [aq])[..|moved|] == moved;
    assert moved + ([aq] + waiting) == (moved + [aq]) + waiting;
  }

  lemma NoneMoved(getSpec: nat -> Lookup<AccountSpec>, gs: seq<Group<string, AccountQueue>>, all: seq<AccountQueue>)
    ensures Moved(getSpec, gs, all, [], all, gs)
  {
  }

  lemma FirstWaiting(all: seq<AccountQueue>, moved: seq<AccountQueue>, waiting: seq<AccountQueue>)
    requires moved + waiting == all && waiting != []
    ensures waiting[0] in Objs(all)
  {
    assert all[|moved|] == waiting[0];
  }

  lemma NextToMove(getSpec: nat -> Lookup<AccountSpec>, gs: seq<Group<string, AccountQueue>>, all: seq<AccountQueue>,
                   moved: seq<AccountQueue>, waiting: seq<AccountQueue>, groups: seq<Group<string, AccountQueue>>)
    requires Moved(getSpec, gs, all, moved, waiting, groups) && waiting != []
    ensures waiting[0] in Objs(all)
  {
    FirstWaiting(all, moved, waiting);
  }

  /** One turn of the loop below. */
  method MoveFirst(getSpec: nat -> Lookup<AccountSpec>, aq: AccountQueue, aql: QueueList<AccountQueue>,
                   pql: QueueList<ProviderQueue>, ghost gs: seq<Group<string, AccountQueue>>,
                   ghost all: seq<AccountQueue>, ghost moved: seq<AccountQueue>)
    returns (bad: bool, ghost moved': seq<AccountQueue>)
    requires Distinct(pql.items) && aql as object != pql && aql.items != [] && aql.items[0] == aq
    requires Moved(getSpec, gs, all, moved, aql.items, ProviderGroups(pql.items))
    modifies aql, aq`spec, pql, Objs(pql.items)
    ensures Distinct(pql.items) && fresh(Objs(pql.items) - old(Objs(pql.items)))
    ensures bad <==> BackendOf(getSpec, aq.accountId) == ""
    ensures aql.items == if bad then old(aql.items) else old(aql.items)[1..]
    ensures Moved(getSpec, gs, all, moved', aql.items, ProviderGroups(pql.items))
  {
    hide Moved, BackendOf, Enqueue;
    var aq := aql.items[0];
    ghost var groups := ProviderGroups(pql.items);
    var pq := RouteOne(getSpec, aq, pql);
    bad, moved' := pq == null, moved;
    if pq != null {
      ghost var mid := ProviderGroups(pql.items);
      aql.DelFirst();
      assert ProviderGroups(pql.items) == mid;
      AddToProvider(pql, pq, aq, groups);
      moved' := moved + [aq];
      MovedStep(getSpec, gs, all, moved, aq, aql.items, groups, ProviderGroups(pql.items), moved');
    }
  }

  /** Stops at the first account queue whose account cannot be read or has no backend. It and those
      behind it stay on the list; those before it, `moved`, are on the provider queues. */
  method SortAccountQueuesByProvider(getSpec: nat -> Lookup<AccountSpec>, aql: QueueList<AccountQueue>,
                                     pql: QueueList<ProviderQueue>)
    returns (rv: int, ghost moved: seq<AccountQueue>)
    requires Distinct(pql.items) && aql as object != pql
    modifies aql, Objs(aql.items)`spec, pql, Objs(pql.items)
    ensures rv == if aql.items == [] then 0 else ERROR_BAD_DATA
    ensures aql.items != [] ==> BackendOf(getSpec, aql.items[0].accountId) == ""
    ensures Distinct(pql.items) && fresh(Objs(pql.items) - old(Objs(pql.items)))
    ensures Moved(getSpec, old(ProviderGroups(pql.items)), old(aql.items), moved, aql.items, ProviderGroups(pql.items))
  {
    hide Moved, BackendOf, ProviderGroups;
    ghost var gs, all := ProviderGroups(pql.items), aql.items;
    moved := [];
    NoneMoved(getSpec, gs, all);
    while aql.items != []
      invariant Distinct(pql.items) && fresh(Objs(pql.items) - old(Objs(pql.items)))
      invariant Moved(getSpec, gs, all, moved, aql.items, ProviderGroups(pql.items))
      decreases |aql.items|
    {
      var aq: AccountQueue := aql.items[0];
      NextToMove(getSpec, gs, all, moved, aql.items, ProviderGroups(pql.items));
      var bad;
      bad, moved := MoveFirst(getSpec, aq, aql, pql, gs, all, moved);
      if bad {
        return ERROR_BAD_DATA, moved;
      }
    }
    return 0, moved;
  }

  // ---------- account queues of one provider into user queues ----------

  /** The user of an account, 0 when the account cannot be read. */
  function UserOf(getAccount: nat -> Lookup<Account>, a: nat): nat {
    match getAccount(a)
    case Found(account) => account.userId
    case Failed(_) => 0
  }

  /** Why an account queue cannot be given to a user: the code of a failed lookup, or an account
      without user; 0 when it can. A user is looked up only for the first of its queues. */
  function Refusal(getAccount: nat -> Lookup<Account>, getUser: nat -> Lookup<nat>,
                   groups: seq<Group<nat, AccountQueue>>, a: nat): int
  {
    match getAccount(a)
    case Failed(rv) => rv
    case Found(account) =>
      if account.userId == 0 then ERROR_INTERNAL
      else if Find(groups, account.userId) == |groups| && getUser(account.userId).Failed? then
        getUser(account.userId).rv
      else 0
  }

  /** Failed lookups have negative codes. */
  ghost predicate CodesNegative<T(!new)>(get: nat -> Lookup<T>) {
    forall a: nat :: get(a).Failed? ==> get(a).rv < 0
  }

  /** An account queue is given to a user exactly when its account can be read and names a user, who has a queue
      already or can be read too. */
  lemma RefusedExactly(getAccount: nat -> Lookup<Account>, getUser: nat -> Lookup<nat>,
                       groups: seq<Group<nat, AccountQueue>>, a: nat)
    requires CodesNegative(getAccount) && CodesNegative(getUser)
    ensures Refusal(getAccount, getUser, groups, a) == 0
       <==> && getAccount(a).Found? && getAccount(a).value.userId != 0
            && ((exists g <- groups :: g.key == getAccount(a).value.userId)
                || getUser(getAccount(a).value.userId).Found?)
  {
    if getAccount(a).Found? {
      var k := getAccount(a).value.userId;
      FindFromMisses(groups, k, 0);
    }
  }

  ghost function ByUser(qs: seq<AccountQueue>, getAccount: nat -> Lookup<Account>): seq<(nat, AccountQueue)> {
    if qs == [] then []
    else
      var aq := qs[|qs| - 1];
      ByUser(qs[..|qs| - 1], getAccount) + [(UserOf(getAccount, aq.accountId), aq)]
  }

  ghost predicate HaveUser(qs: seq<AccountQueue>, getAccount: nat -> Lookup<Account>) {
    qs == [] || (HaveUser(qs[..|qs| - 1], getAccount) && UserOf(getAccount, qs[|qs| - 1].accountId) != 0)
  }

  lemma ByUserSnoc(qs: seq<AccountQueue>, aq: AccountQueue, getAccount: nat -> Lookup<Account>)
    ensures ByUser(qs + [aq], getAccount) == ByUser(qs, getAccount) + [(UserOf(getAccount, aq.accountId), aq)]
  {
    assert (qs + [aq])[..|qs|] == qs;
  }

  /** Puts a new queue at the end of the list. */
  method AddUserQueue(uql: QueueList<UserQueue>, uid: nat) returns (uq: UserQueue)
    requires Distinct(uql.items) && Find(UserGroups(uql.items), uid) == |uql.items|
    modifies uql
    ensures Distinct(uql.items) && fresh(uq) && uq.userId == uid && uql.items == old(uql.items) + [uq]
    ensures UserGroups(uql.items) == WithGroup(old(UserGroups(uql.items)), uid)
  {
    hide WithGroup, Find;
    ghost var gs := UserGroups(uql.items);
    uq := new UserQueue(uid);
    DistinctAdd<UserQueue>(uql.items, uq);
    uql.Add(uq);
    GroupAdded(gs, uid, UserGroups(uql.items));
  }

  /** Finds the user queue for an account queue, making it when there is none for that user yet: a negative
      result refuses the account queue and changes nothing. */
  method GiveToUser(getAccount: nat -> Lookup<Account>, getUser: nat -> Lookup<nat>, aq: AccountQueue,
                    uql: QueueList<UserQueue>)
    returns (rv: int, uq: UserQueue?)
    requires Distinct(uql.items) && CodesNegative(getAccount) && CodesNegative(getUser)
    modifies aq`account, uql
    ensures Distinct(uql.items) && fresh(Objs(uql.items) - old(Objs(uql.items)))
    ensures rv == Refusal(getAccount, getUser, old(UserGroups(uql.items)), aq.accountId) <= 0
    ensures rv < 0 ==> UserGroups(uql.items) == old(UserGroups(uql.items))
    ensures rv == 0 ==>
              var gs := old(UserGroups(uql.items));
              && uq != null && uq.userId == UserOf(getAccount, aq.accountId) != 0
              && UserGroups(uql.items) == WithGroup(gs, uq.userId)
              && Find(gs, uq.userId) < |uql.items| && uql.items[Find(gs, uq.userId)] == uq
  {
    hide WithGroup, Find;
    ghost var gs := UserGroups(uql.items);
    uq := null;
    var a := getAccount(aq.accountId);
    if a.Failed? {
      return a.rv, null;
    }
    aq.account := Some(a.value);
    assert UserGroups(uql.items) == gs;
    var uid := a.value.userId;
    if uid == 0 {
      return ERROR_INTERNAL, null;
    }
    uq := GetByUserId(uql, uid);
    if uq == null {
      var u := getUser(uid);
      if u.Failed? {
        return u.rv, null;
      }
      uq := AddUserQueue(uql, uid);
    } else {
      GroupFound(gs, uid);
    }
    return 0, uq;
  }

  /** Puts the account queue into its user queue, which has its place on the list. */
  method AddToUser(uql: QueueList<UserQueue>, uq: UserQueue, aq: AccountQueue, ghost gs: seq<Group<nat, AccountQueue>>)
    requires Distinct(uql.items) && UserGroups(uql.items) == WithGroup(gs, uq.userId)
    requires Find(gs, uq.userId) < |uql.items| && uql.items[Find(gs, uq.userId)] == uq
    modifies uq`queues
    ensures UserGroups(uql.items) == Enqueue(gs, uq.userId, aq)
  {
    ghost var mid := UserGroups(uql.items);
    uq.AddAccountQueue(aq);
    DistinctPairs<UserQueue>(uql.items);
    EnqueuedAt(gs, uq.userId, aq, mid, UserGroups(uql.items));
  }

  /** The loop has given the account queues `moved` to their users; the others still wait. */
  ghost predicate Given(getAccount: nat -> Lookup<Account>, gs: seq<Group<nat, AccountQueue>>,
                        all: seq<AccountQueue>, moved: seq<AccountQueue>, waiting: seq<AccountQueue>,
                        groups: seq<Group<nat, AccountQueue>>)
  {
    && moved + waiting == all
    && HaveUser(moved, getAccount)
    && groups == EnqueueAll(gs, ByUser(moved, getAccount))
  }

  lemma GivenStep(getAccount: nat -> Lookup<Account>, gs: seq<Group<nat, AccountQueue>>,
                  all: seq<AccountQueue>, moved: seq<AccountQueue>, aq: AccountQueue, waiting: seq<AccountQueue>,
                  groups: seq<Group<nat, AccountQueue>>, groups': seq<Group<nat, AccountQueue>>,
                  moved': seq<AccountQueue>)
    requires Given(getAccount, gs, all, moved, [aq] + waiting, groups) && moved' == moved + [aq]
    requires UserOf(getAccount, aq.accountId) != 0
    requires groups' == Enqueue(groups, UserOf(getAccount, aq.accountId), aq)
    ensures Given(getAccount, gs, all, moved', waiting, groups')
  {
    ByUserSnoc(moved, aq, getAccount);
    EnqueueAllSnoc(gs, ByUser(moved, getAccount), (UserOf(getAccount, aq.accountId), aq));
    assert (moved + [aq])[..|moved|] == moved;
    assert moved + ([aq] + waiting) == (moved + [aq]) + waiting;
  }

  /** One turn of the loop below. */
  method GiveFirst(getAccount: nat -> Lookup<Account>, getUser: nat -> Lookup<nat>, aq: AccountQueue, pq: ProviderQueue,
                   uql: QueueList<UserQueue>, ghost gs: seq<Group<nat, AccountQueue>>, ghost all: seq<AccountQueue>,
                   ghost moved: seq<AccountQueue>)
    returns (rv: int, ghost moved': seq<AccountQueue>)
    requires Distinct(uql.items) && CodesNegative(getAccount) && CodesNegative(getUser)
    requires pq.queues != [] && pq.queues[0] == aq
    requires Given(getAccount, gs, all, moved, pq.queues, UserGroups(uql.items))
    modifies pq, aq`account, uql, Objs(uql.items)
    ensures Distinct(uql.items) && fresh(Objs(uql.items) - old(Objs(uql.items)))
    ensures pq.queues == if rv < 0 then old(pq.queues) else old(pq.queues)[1..]
    ensures rv <= 0 && (rv < 0 ==> rv == Refusal(getAccount, getUser, UserGroups(uql.items), aq.accountId))
    ensures Given(getAccount, gs, all, moved', pq.queues, UserGroups(uql.items))
  {
    hide Given, Refusal, Enqueue;
    ghost var groups := UserGroups(uql.items);
    var uq;
    rv, uq := GiveToUser(getAccount, getUser, aq, uql);
    moved' := moved;
    if rv >= 0 {
      ghost var mid := UserGroups(uql.items);
      pq.DelFirst();
      assert UserGroups(uql.items) == mid;
      AddToUser(uql, uq, aq, groups);
      moved' := moved + [aq];
      GivenStep(getAccount, gs, all, moved, aq, pq.queues, groups, UserGroups(uql.items), moved');
    }
  }

  /** `AB_Provider_SortProviderQueueIntoUserQueueList`: stops at the first account queue that is refused,
      with the reason as result. It and those behind it stay where they were. */
  method SortProviderQueueIntoUserQueueList(getAccount: nat -> Lookup<Account>, getUser: nat -> Lookup<nat>,
                                            pq: ProviderQueue, uql: QueueList<UserQueue>)
    returns (rv: int, ghost moved: seq<AccountQueue>)
    requires Distinct(uql.items) && CodesNegative(getAccount) && CodesNegative(getUser)
    modifies pq, Objs(pq.queues)`account, uql, Objs(uql.items)
    ensures pq.queues == [] ==> rv == 0
    ensures pq.queues != [] ==>
              rv == Refusal(getAccount, getUser, UserGroups(uql.items), pq.queues[0].accountId) < 0
    ensures Distinct(uql.items) && fresh(Objs(uql.items) - old(Objs(uql.items)))
    ensures Given(getAccount, old(UserGroups(uql.items)), old(pq.queues), moved, pq.queues, UserGroups(uql.items))
  {
    ghost var gs, all := UserGroups(uql.items), pq.queues;
    moved := [];
    while pq.queues != []
      invariant Distinct(uql.items) && fresh(Objs(uql.items) - old(Objs(uql.items)))
      invariant Given(getAccount, gs, all, moved, pq.queues, UserGroups(uql.items))
      decreases |pq.queues|
    {
      var aq := pq.queues[0];
      FirstWaiting(all, moved, pq.queues);
      rv, moved := GiveFirst(getAccount, getUser, aq, pq, uql, gs, all, moved);
      if rv < 0 {
        return rv, moved;
      }
    }
    return 0, moved;
  }
}
