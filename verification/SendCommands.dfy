/** From a list of commands to the provider queues: the two sorting steps in a row. */
module SendCommands {
  import opened ConfigMgr
  import opened Delivery
  import opened Dispatch
  import opened Grouping
  import opened JobIds
  import opened Queues
  import opened Seqs
  import opened Wrappers

  // ---------- groupings of queues and groupings of what they hold ----------

  function MapSeq<V, W>(h: V -> W, vs: seq<V>): (ws: seq<W>)
    ensures |ws| == |vs| && forall i :: 0 <= i < |vs| ==> ws[i] == h(vs[i])
  {
    seq(|vs|, i requires 0 <= i < |vs| => h(vs[i]))
  }

  function MapGroups<K, V, W>(h: V -> W, gs: seq<Group<K, V>>): (hs: seq<Group<K, W>>)
    ensures |hs| == |gs|
    ensures forall i :: 0 <= i < |gs| ==> hs[i] == Group(gs[i].key, MapSeq(h, gs[i].members))
  {
    seq(|gs|, i requires 0 <= i < |gs| => Group(gs[i].key, MapSeq(h, gs[i].members)))
  }

  function MapItems<K, V, W>(h: V -> W, items: seq<(K, V)>): (r: seq<(K, W)>)
    ensures |r| == |items| && forall i :: 0 <= i < |items| ==> r[i] == (items[i].0, h(items[i].1))
  {
    seq(|items|, i requires 0 <= i < |items| => (items[i].0, h(items[i].1)))
  }

  lemma MapEnqueue<K, V, W>(h: V -> W, gs: seq<Group<K, V>>, k: K, v: V)
    ensures MapGroups(h, Enqueue(gs, k, v)) == Enqueue(MapGroups(h, gs), k, h(v))
  {
    var hs, i := MapGroups(h, gs), Find(gs, k);
    FindFromMisses(gs, k, 0);
    FindFromFirst(hs, k, 0, i);
    if i < |gs| {
      assert MapSeq(h, gs[i].members + [v]) == hs[i].members + [h(v)];
    } else {
      assert MapSeq(h, [v]) == [h(v)];
    }
  }

  lemma {:induction false} MapEnqueueAll<K, V, W>(h: V -> W, gs: seq<Group<K, V>>, items: seq<(K, V)>)
    ensures MapGroups(h, EnqueueAll(gs, items)) == EnqueueAll(MapGroups(h, gs), MapItems(h, items))
  {
    var rest := MapItems(h, items);
    if items != [] {
      var n := |items| - 1;
      MapEnqueueAll(h, gs, items[..n]);
      MapEnqueue(h, EnqueueAll(gs, items[..n]), items[n].0, items[n].1);
      assert rest[..n] == MapItems(h, items[..n]);
    }
  }

  // ---------- the heap's queues as values ----------

  /** An account queue as it stood when `views` was taken. */
  ghost function Look(views: map<AccountQueue, Group<nat, Transaction>>): AccountQueue -> Group<nat, Transaction> {
    (aq: AccountQueue) => if aq in views then views[aq] else Group(0, [])
  }

  ghost function Views(qs: seq<AccountQueue>): map<AccountQueue, Group<nat, Transaction>>
    reads qs
  {
    map aq | aq in qs :: Group(aq.accountId, aq.transactions)
  }

  lemma LookAll(qs: seq<AccountQueue>)
    ensures MapSeq(Look(Views(qs)), qs) == AccountGroups(qs)
  {
  }

  ghost function BackendMap(getSpec: nat -> Lookup<AccountSpec>): nat -> string {
    (a: nat) => BackendOf(getSpec, a)
  }

  lemma {:induction false} LookItems(qs: seq<AccountQueue>, getSpec: nat -> Lookup<AccountSpec>,
                                     h: AccountQueue -> Group<nat, Transaction>)
    requires forall aq :: aq in qs ==> h(aq).key == aq.accountId
    ensures MapItems(h, ByBackend(qs, getSpec)) == Keyed(MapSeq(h, qs), BackendMap(getSpec))
  {
    if qs != [] {
      var n := |qs| - 1;
      LookItems(qs[..n], getSpec, h);
      assert MapSeq(h, qs[..n]) == MapSeq(h, qs)[..n];
      var l, r := MapItems(h, ByBackend(qs, getSpec)), Keyed(MapSeq(h, qs), BackendMap(getSpec));
      assert l[..n] == MapItems(h, ByBackend(qs[..n], getSpec));
      assert r[..n] == Keyed(MapSeq(h, qs[..n]), BackendMap(getSpec));
      assert l == l[..n] + [l[n]] && r == r[..n] + [r[n]];
    }
  }

  /** The provider queues hold exactly the grouping of `jobs` by account and backend. */
  ghost predicate Holds(pqs: seq<ProviderQueue>, views: map<AccountQueue, Group<nat, Transaction>>,
                        jobs: seq<(nat, Transaction)>, getSpec: nat -> Lookup<AccountSpec>)
    reads pqs
  {
    MapGroups(Look(views), ProviderGroups(pqs)) == ForProviders(jobs, BackendMap(getSpec))
  }

  lemma BothSteps(qs: seq<AccountQueue>, pqs: seq<ProviderQueue>, views: map<AccountQueue, Group<nat, Transaction>>,
                  jobs: seq<(nat, Transaction)>, getSpec: nat -> Lookup<AccountSpec>)
    requires MapSeq(Look(views), qs) == EnqueueAll([], jobs)
    requires forall aq :: aq in qs ==> Look(views)(aq).key == aq.accountId
    requires ProviderGroups(pqs) == EnqueueAll([], ByBackend(qs, getSpec))
    ensures Holds(pqs, views, jobs, getSpec)
  {
    MapEnqueueAll(Look(views), [], ByBackend(qs, getSpec));
    LookItems(qs, getSpec, Look(views));
  }

  /** What sorting all commands did to their job ids. */
  twostate predicate JobIdsSorted(mgr: ConfigMgr, cmds: seq<Transaction>, new codes: map<Transaction, CInt>)
    reads mgr, cmds
  {
    IdsSorted(cmds, |cmds|, old(Snap(cmds)), Snap(cmds), Eligibles(cmds, |cmds|, old(Snap(cmds))), codes,
              old(mgr.errors), mgr.errors, old(JobCounters(mgr)), JobCounters(mgr))
  }

  // ---------- where each command is ----------

  /** The command is in the queue of its account, on the queue of the backend that the account names. */
  ghost predicate AtBackend(pqs: seq<ProviderQueue>, t: Transaction, getSpec: nat -> Lookup<AccountSpec>)
    reads pqs, set i, j | 0 <= i < |pqs| && 0 <= j < |pqs[i].queues| :: pqs[i].queues[j]
  {
    exists i, j :: 0 <= i < |pqs| && 0 <= j < |pqs[i].queues| && InQueue(pqs[i], pqs[i].queues[j], t, getSpec)
  }

  ghost predicate InQueue(pq: ProviderQueue, aq: AccountQueue, t: Transaction, getSpec: nat -> Lookup<AccountSpec>)
    reads aq
  {
    && getSpec(t.accountId).Found? && pq.name == getSpec(t.accountId).value.backendName
    && aq.accountId == t.accountId && t in aq.transactions
  }

  /** Every command that was unknown, new or enqueued already is at its backend, and no other is in any queue. */
  ghost predicate AllAtBackends(pqs: seq<ProviderQueue>, cmds: seq<Transaction>, before: Snapshot,
                                getSpec: nat -> Lookup<AccountSpec>)
    reads pqs, set i, j | 0 <= i < |pqs| && 0 <= j < |pqs[i].queues| :: pqs[i].queues[j]
  {
    && (forall t :: t in cmds && t in before && before[t].status in {StatusUnknown, StatusNone, StatusEnqueued} ==>
          AtBackend(pqs, t, getSpec))
    && (forall i, j, t :: 0 <= i < |pqs| && 0 <= j < |pqs[i].queues| && t in pqs[i].queues[j].transactions ==>
          t in cmds && t in before && before[t].status in {StatusUnknown, StatusNone, StatusEnqueued})
  }

  /** No queue of a provider is empty, so all of them were among those looked at. */
  lemma QueuesLookedAt(pgs: seq<Group<string, AccountQueue>>, views: map<AccountQueue, Group<nat, Transaction>>,
                       jobs: seq<(nat, Transaction)>, backend: nat -> string, i: nat, aq: AccountQueue)
    requires MapGroups(Look(views), pgs) == ForProviders(jobs, backend) && i < |pgs| && aq in pgs[i].members
    ensures aq in views
  {
    var p := ForProviders(jobs, backend)[i];
    var j :| 0 <= j < |pgs[i].members| && pgs[i].members[j] == aq;
    var g := p.members[j];
    assert g == Look(views)(aq);
    MemberGroup(Keyed(EnqueueAll([], jobs), backend), p);
    SelectKeyed(EnqueueAll([], jobs), backend, p.key, g);
    GroupsNotEmpty(jobs);
  }

  lemma JobAtBackend(pqs: seq<ProviderQueue>, views: map<AccountQueue, Group<nat, Transaction>>,
                     jobs: seq<(nat, Transaction)>, getSpec: nat -> Lookup<AccountSpec>, k: nat)
    requires Holds(pqs, views, jobs, getSpec) && k < |jobs| && jobs[k].0 == jobs[k].1.accountId
    requires forall aq :: aq in views ==> views[aq] == Group(aq.accountId, aq.transactions)
    requires BackendOf(getSpec, jobs[k].0) != ""
    ensures AtBackend(pqs, jobs[k].1, getSpec)
  {
    var (a, t) := jobs[k];
    var ps, pgs := ForProviders(jobs, BackendMap(getSpec)), ProviderGroups(pqs);
    var g := GroupOfKey(jobs, k);
    var gs := EnqueueAll<nat, Transaction>([], jobs);
    var m :| 0 <= m < |gs| && gs[m] == g;
    var p := GroupOfKey(Keyed(gs, BackendMap(getSpec)), m);
    var i :| 0 <= i < |ps| && ps[i] == p;
    var j :| 0 <= j < |p.members| && p.members[j] == g;
    var aq := pqs[i].queues[j];
    assert pgs[i].members[j] == aq && MapGroups(Look(views), pgs)[i] == p;
    QueuesLookedAt(pgs, views, jobs, BackendMap(getSpec), i, aq);
    assert InQueue(pqs[i], aq, t, getSpec);
  }

  lemma OnlyJobs(pqs: seq<ProviderQueue>, views: map<AccountQueue, Group<nat, Transaction>>,
                 jobs: seq<(nat, Transaction)>, getSpec: nat -> Lookup<AccountSpec>, i: nat, j: nat, t: Transaction)
    requires Holds(pqs, views, jobs, getSpec) && i < |pqs| && j < |pqs[i].queues|
    requires forall aq :: aq in views ==> views[aq] == Group(aq.accountId, aq.transactions)
    requires t in pqs[i].queues[j].transactions
    ensures exists k :: 0 <= k < |jobs| && jobs[k].1 == t
  {
    var ps, pgs, aq := ForProviders(jobs, BackendMap(getSpec)), ProviderGroups(pqs), pqs[i].queues[j];
    assert pgs[i].members[j] == aq && MapGroups(Look(views), pgs)[i] == ps[i];
    QueuesLookedAt(pgs, views, jobs, BackendMap(getSpec), i, aq);
    var g := ps[i].members[j];
    assert g == views[aq];
    MemberGroup(Keyed(EnqueueAll([], jobs), BackendMap(getSpec)), ps[i]);
    SelectKeyed(EnqueueAll([], jobs), BackendMap(getSpec), ps[i].key, g);
    MemberGroup(jobs, g);
    SelectOnly(jobs, g.key, t);
  }

  lemma JobsAtBackends(pqs: seq<ProviderQueue>, views: map<AccountQueue, Group<nat, Transaction>>,
                       cmds: seq<Transaction>, before: Snapshot, getSpec: nat -> Lookup<AccountSpec>)
    requires (forall t :: t in cmds ==> t in before) && Holds(pqs, views, Jobs(cmds, |cmds|, before), getSpec)
    requires forall aq :: aq in views ==> views[aq] == Group(aq.accountId, aq.transactions)
    requires AllHaveBackends(cmds, before, getSpec)
    ensures AllAtBackends(pqs, cmds, before, getSpec)
  {
    hide Holds, AtBackend, Jobs;
    var jobs := Jobs(cmds, |cmds|, before);
    JobsAre(cmds, |cmds|, before);
    assert cmds[..|cmds|] == cmds;
    forall t | t in cmds && before[t].status in {StatusUnknown, StatusNone, StatusEnqueued}
      ensures AtBackend(pqs, t, getSpec)
    {
      var k :| 0 <= k < |jobs| && jobs[k] == (t.accountId, t);
      JobAtBackend(pqs, views, jobs, getSpec, k);
    }
    forall i, j, t | 0 <= i < |pqs| && 0 <= j < |pqs[i].queues| && t in pqs[i].queues[j].transactions
      ensures t in cmds && before[t].status in {StatusUnknown, StatusNone, StatusEnqueued}
    {
      OnlyJobs(pqs, views, jobs, getSpec, i, j, t);
    }
  }

  // ---------- when the sorting succeeds ----------

  /** All eligible commands have an account. */
  ghost predicate AllHaveAccounts(cmds: seq<Transaction>, snap: Snapshot)
    requires forall t :: t in cmds ==> t in snap
  {
    forall t :: t in cmds && Eligible(snap[t].status) ==> t.accountId != 0
  }

  /** The accounts of all eligible commands have a backend. */
  ghost predicate AllHaveBackends(cmds: seq<Transaction>, snap: Snapshot, getSpec: nat -> Lookup<AccountSpec>)
    requires forall t :: t in cmds ==> t in snap
  {
    forall t :: t in cmds && Eligible(snap[t].status) ==> BackendOf(getSpec, t.accountId) != ""
  }

  lemma {:induction false} HaveBackendAll(qs: seq<AccountQueue>, getSpec: nat -> Lookup<AccountSpec>)
    ensures HaveBackend(qs, getSpec) <==> forall i :: 0 <= i < |qs| ==> BackendOf(getSpec, qs[i].accountId) != ""
  {
    if qs != [] {
      HaveBackendAll(qs[..|qs| - 1], getSpec);
    }
  }

  /** The account queues have backends exactly if the accounts of all jobs do. */
  lemma QueuesHaveBackend(qs: seq<AccountQueue>, views: map<AccountQueue, Group<nat, Transaction>>,
                          jobs: seq<(nat, Transaction)>, getSpec: nat -> Lookup<AccountSpec>)
    requires MapSeq(Look(views), qs) == EnqueueAll([], jobs)
    requires forall aq :: aq in qs ==> Look(views)(aq).key == aq.accountId
    ensures HaveBackend(qs, getSpec) <==> forall i :: 0 <= i < |jobs| ==> BackendOf(getSpec, jobs[i].0) != ""
  {
    HaveBackendAll(qs, getSpec);
    var gs := EnqueueAll<nat, Transaction>([], jobs);
    forall i | 0 <= i < |jobs| ensures exists j :: 0 <= j < |qs| && qs[j].accountId == jobs[i].0 {
      var g := GroupOfKey(jobs, i);
      var j :| 0 <= j < |gs| && gs[j] == g;
      assert Look(views)(qs[j]).key == qs[j].accountId;
    }
    forall j | 0 <= j < |qs| ensures exists i :: 0 <= i < |jobs| && jobs[i].0 == qs[j].accountId {
      var g := gs[j];
      assert g == Look(views)(qs[j]);
      MemberGroup(jobs, g);
      assert g.members[0] in Select(jobs, g.key);
      SelectOnly(jobs, g.key, g.members[0]);
    }
  }

  lemma JobsHaveBackends(cmds: seq<Transaction>, snap: Snapshot, getSpec: nat -> Lookup<AccountSpec>)
    requires forall t :: t in cmds ==> t in snap
    ensures AllHaveBackends(cmds, snap, getSpec)
       <==> forall i :: 0 <= i < |Jobs(cmds, |cmds|, snap)| ==>
              BackendOf(getSpec, Jobs(cmds, |cmds|, snap)[i].0) != ""
  {
    JobsAre(cmds, |cmds|, snap);
    assert cmds[..|cmds|] == cmds;
  }

  /** All commands that were unknown, new or enqueued already are enqueued. */
  ghost predicate CommandsEnqueued(cmds: seq<Transaction>, before: Snapshot, snap: Snapshot) {
    forall t :: t in cmds && t in before && before[t].status in {StatusUnknown, StatusNone, StatusEnqueued} ==>
      t in snap && snap[t].status == StatusEnqueued && snap[t].refUniqueId == 0
  }

  lemma AllInSnap(cmds: seq<Transaction>)
    ensures forall t :: t in cmds ==> t in Snap(cmds)
  {
  }

  /** The first step, into a new list of account queues; `views` tells what is in them. */
  method SortIntoAccountQueues(mgr: ConfigMgr, commandList: seq<Transaction>)
    returns (rv: int, aql: QueueList<AccountQueue>, ghost views: map<AccountQueue, Group<nat, Transaction>>,
             ghost codes: map<Transaction, CInt>)
    modifies mgr, Objs(commandList)
    ensures fresh(aql) && fresh(Objs(aql.items)) && (rv == 0 || rv == ERROR_BAD_DATA)
    ensures rv == 0 <==> AllHaveAccounts(commandList, old(Snap(commandList)))
    ensures views == Views(aql.items)
    ensures rv == 0 ==>
              MapSeq(Look(views), aql.items) == EnqueueAll([], Jobs(commandList, |commandList|, old(Snap(commandList))))
    ensures rv == 0 ==> JobIdsSorted(mgr, commandList, codes)
    ensures OthersLeft(commandList, old(Snap(commandList)), Snap(commandList))
    ensures rv == 0 ==> CommandsEnqueued(commandList, old(Snap(commandList)), Snap(commandList))
    ensures rv == 0 && old(JobCounters(mgr)).ready && JobCounters(mgr).last < 0x1_0000_0000 ==>
              AllHaveIds(commandList, old(Snap(commandList)), Snap(commandList))
    ensures old(Smooth(mgr)) ==> mgr.errors == old(mgr.errors)
  {
    hide IdsSorted, OthersLeft, AllHaveIds, OnlyQueued;
    aql := new QueueList<AccountQueue>();
    ghost var n, taken;
    rv, n, taken, codes := SortCommandsByAccounts(mgr, commandList, aql);
    views := Views(aql.items);
    LookAll(aql.items);
    EligiblesAre(commandList, n, old(Snap(commandList)));
    assert n == |commandList| ==> commandList[..n] == commandList;
  }

  /** The second step, into a new list of provider queues. */
  method SortAccountQueues(aql: QueueList<AccountQueue>, getSpec: nat -> Lookup<AccountSpec>,
                           ghost views: map<AccountQueue, Group<nat, Transaction>>, ghost jobs: seq<(nat, Transaction)>)
    returns (rv: int, pql: QueueList<ProviderQueue>)
    requires views == Views(aql.items) && MapSeq(Look(views), aql.items) == EnqueueAll([], jobs)
    modifies aql, Objs(aql.items)`spec
    ensures fresh(pql) && fresh(Objs(pql.items)) && (rv == 0 || rv == ERROR_BAD_DATA)
    ensures rv == 0 <==> forall i :: 0 <= i < |jobs| ==> BackendOf(getSpec, jobs[i].0) != ""
    ensures rv == 0 ==> Holds(pql.items, views, jobs, getSpec)
  {
    pql := new QueueList<ProviderQueue>();
    ghost var qs, moved := aql.items, [];
    QueuesHaveBackend(qs, views, jobs, getSpec);
    HaveBackendAll(qs, getSpec);
    rv, moved := SortAccountQueuesByProvider(getSpec, aql, pql);
    if rv == 0 {
      assert moved == qs;
      BothSteps(qs, pql.items, views, jobs, getSpec);
    } else {
      assert qs[|moved|] == aql.items[0];
    }
  }

  /** Sorting of the commands as far as the providers: it succeeds exactly if every eligible command has an
      account and that a backend. Then the provider queues hold exactly the grouping by account and backend
      of the eligible commands; otherwise nothing is handed on. */
  method SortIntoProviderQueues(mgr: ConfigMgr, commandList: seq<Transaction>, getSpec: nat -> Lookup<AccountSpec>)
    returns (rv: int, pql: QueueList<ProviderQueue>, ghost views: map<AccountQueue, Group<nat, Transaction>>,
             ghost codes: map<Transaction, CInt>)
    modifies mgr, Objs(commandList)
    ensures fresh(pql) && fresh(Objs(pql.items)) && (rv == 0 || rv == ERROR_BAD_DATA)
    ensures rv == 0 <==> AllHaveAccounts(commandList, old(Snap(commandList)))
                         && AllHaveBackends(commandList, old(Snap(commandList)), getSpec)
    ensures rv == 0 ==> forall aq :: aq in views ==> views[aq] == Group(aq.accountId, aq.transactions)
    ensures rv == 0 ==> Holds(pql.items, views, Jobs(commandList, |commandList|, old(Snap(commandList))), getSpec)
    ensures rv == 0 ==> JobIdsSorted(mgr, commandList, codes)
    ensures OthersLeft(commandList, old(Snap(commandList)), Snap(commandList))
    ensures rv == 0 ==> CommandsEnqueued(commandList, old(Snap(commandList)), Snap(commandList))
    ensures rv == 0 ==> AllAtBackends(pql.items, commandList, old(Snap(commandList)), getSpec)
    ensures rv == 0 && old(JobCounters(mgr)).ready && JobCounters(mgr).last < 0x1_0000_0000 ==>
              AllHaveIds(commandList, old(Snap(commandList)), Snap(commandList))
    ensures old(Smooth(mgr)) ==> mgr.errors == old(mgr.errors)
  {
    hide JobIdsSorted, OthersLeft, CommandsEnqueued, AllHaveIds, AllAtBackends, AllHaveAccounts, AllHaveBackends;
    hide Snap, Jobs, Holds;
    ghost var before := Snap(commandList);
    AllInSnap(commandList);
    var aql;
    rv, aql, views, codes := SortIntoAccountQueues(mgr, commandList);
    if rv < 0 {
      pql := new QueueList<ProviderQueue>();
      return;
    }
    JobsHaveBackends(commandList, before, getSpec);
    rv, pql := SortAccountQueues(aql, getSpec, views, Jobs(commandList, |commandList|, before));
    if rv == 0 {
      JobsAtBackends(pql.items, views, commandList, before, getSpec);
    }
  }

  // ---------- the queues of one provider ----------

  ghost function UserMap(getAccount: nat -> Lookup<Account>): nat -> nat {
    (a: nat) => UserOf(getAccount, a)
  }

  lemma {:induction false} LookUserItems(qs: seq<AccountQueue>, getAccount: nat -> Lookup<Account>,
                                         h: AccountQueue -> Group<nat, Transaction>)
    requires forall aq :: aq in qs ==> h(aq).key == aq.accountId
    ensures MapItems(h, ByUser(qs, getAccount)) == Keyed(MapSeq(h, qs), UserMap(getAccount))
  {
    if qs != [] {
      var n := |qs| - 1;
      LookUserItems(qs[..n], getAccount, h);
      assert MapSeq(h, qs[..n]) == MapSeq(h, qs)[..n];
      var l, r := MapItems(h, ByUser(qs, getAccount)), Keyed(MapSeq(h, qs), UserMap(getAccount));
      assert l[..n] == MapItems(h, ByUser(qs[..n], getAccount));
      assert r[..n] == Keyed(MapSeq(h, qs[..n]), UserMap(getAccount));
      assert l == l[..n] + [l[n]] && r == r[..n] + [r[n]];
    }
  }

  lemma ProviderUsers(qs: seq<AccountQueue>, users: seq<Group<nat, AccountQueue>>,
                      views: map<AccountQueue, Group<nat, Transaction>>, getAccount: nat -> Lookup<Account>,
                      p: Group<string, Group<nat, Transaction>>)
    requires forall aq :: aq in qs ==> Look(views)(aq).key == aq.accountId
    requires p.members == MapSeq(Look(views), qs) && Given(getAccount, [], qs, qs, [], users)
    ensures MapGroups(Look(views), users) == ForUsers(p, UserMap(getAccount))
  {
    MapEnqueueAll(Look(views), [], ByUser(qs, getAccount));
    LookUserItems(qs, getAccount, Look(views));
  }

  /** When all account queues `qs` of a provider were given to users, the user queues hold exactly the
      grouping by user of what the provider queue held. */
  lemma UsersHold(qs: seq<AccountQueue>, uqs: seq<UserQueue>, views: map<AccountQueue, Group<nat, Transaction>>,
                  getAccount: nat -> Lookup<Account>, p: Group<string, Group<nat, Transaction>>)
    requires forall aq :: aq in qs ==> Look(views)(aq).key == aq.accountId
    requires p.members == MapSeq(Look(views), qs)
    requires Given(getAccount, [], qs, qs, [], UserGroups(uqs))
    ensures MapGroups(Look(views), UserGroups(uqs)) == ForUsers(p, UserMap(getAccount))
  {
    ProviderUsers(qs, UserGroups(uqs), views, getAccount, p);
  }

  // ---------- the queues of all providers ----------

  /** What all user queues of one provider hold, and of all providers. */
  ghost function HeldBy(views: map<AccountQueue, Group<nat, Transaction>>, users: seq<Group<nat, AccountQueue>>)
    : seq<Transaction>
  {
    FlatMap((g: Group<nat, Transaction>) => g.members, Flat(MapGroups(Look(views), users)))
  }

  ghost function HeldByAll(views: map<AccountQueue, Group<nat, Transaction>>,
                           users: seq<seq<Group<nat, AccountQueue>>>)
    : seq<Transaction>
  {
    if users == [] then [] else HeldByAll(views, users[..|users| - 1]) + HeldBy(views, users[|users| - 1])
  }

  lemma {:induction false} HeldByProviders(views: map<AccountQueue, Group<nat, Transaction>>,
                                           users: seq<seq<Group<nat, AccountQueue>>>,
                                           ps: seq<Group<string, Group<nat, Transaction>>>, user: nat -> nat)
    requires |users| == |ps|
    requires forall i :: 0 <= i < |ps| ==> MapGroups(Look(views), users[i]) == ForUsers(ps[i], user)
    ensures HeldByAll(views, users) == AtProviders(ps, user)
  {
    if ps != [] {
      HeldByProviders(views, users[..|ps| - 1], ps[..|ps| - 1], user);
    }
  }

  /** When every provider has given all its queues to users, the user queues of all providers are the three
      groupings of the jobs, and together hold each job exactly as often as it was given. */
  lemma AllUsersHold(pgs: seq<Group<string, AccountQueue>>, users: seq<seq<Group<nat, AccountQueue>>>,
                     views: map<AccountQueue, Group<nat, Transaction>>, jobs: seq<(nat, Transaction)>,
                     backend: nat -> string, getAccount: nat -> Lookup<Account>)
    requires forall aq :: aq in views ==> views[aq].key == aq.accountId
    requires MapGroups(Look(views), pgs) == ForProviders(jobs, backend) && |users| == |pgs|
    requires forall i :: 0 <= i < |pgs| ==>
               Given(getAccount, [], pgs[i].members, pgs[i].members, [], users[i])
    ensures forall i :: 0 <= i < |pgs| ==>
              MapGroups(Look(views), users[i]) == ForUsers(ForProviders(jobs, backend)[i], UserMap(getAccount))
    ensures multiset(HeldByAll(views, users)) == multiset(ValuesOf(jobs))
  {
    var ps, user := ForProviders(jobs, backend), UserMap(getAccount);
    forall i | 0 <= i < |pgs| ensures MapGroups(Look(views), users[i]) == ForUsers(ps[i], user) {
      forall aq | aq in pgs[i].members ensures Look(views)(aq).key == aq.accountId {
        QueuesLookedAt(pgs, views, jobs, backend, i, aq);
      }
      ProviderUsers(pgs[i].members, users[i], views, getAccount, ps[i]);
    }
    HeldByProviders(views, users, ps, user);
    AllConserved(jobs, backend, user);
  }

  lemma {:induction false} UserNamed(qs: seq<AccountQueue>, getAccount: nat -> Lookup<Account>, k: nat,
                                     aq: AccountQueue)
    requires (k, aq) in ByUser(qs, getAccount) && HaveUser(qs, getAccount)
    ensures aq in qs && getAccount(aq.accountId).Found? && getAccount(aq.accountId).value.userId == k != 0
  {
    var n := |qs| - 1;
    if (UserOf(getAccount, qs[n].accountId), qs[n]) != (k, aq) {
      UserNamed(qs[..n], getAccount, k, aq);
    }
  }

  lemma GivenRight(qs: seq<AccountQueue>, users: seq<Group<nat, AccountQueue>>, getAccount: nat -> Lookup<Account>,
                   u: Group<nat, AccountQueue>, aq: AccountQueue)
    requires Given(getAccount, [], qs, qs, [], users) && u in users && aq in u.members
    ensures aq in qs && getAccount(aq.accountId).Found? && getAccount(aq.accountId).value.userId == u.key != 0
  {
    var items := ByUser(qs, getAccount);
    MemberGroup(items, u);
    SelectOnly(items, u.key, aq);
    UserNamed(qs, getAccount, u.key, aq);
  }

  /** Every job is in the queue of its account, and that is on the queue of the user that the account names, at the
      provider that its specification names. */
  lemma CommandAtUser(pgs: seq<Group<string, AccountQueue>>, users: seq<seq<Group<nat, AccountQueue>>>,
                      views: map<AccountQueue, Group<nat, Transaction>>, jobs: seq<(nat, Transaction)>,
                      getSpec: nat -> Lookup<AccountSpec>, getAccount: nat -> Lookup<Account>, n: nat)
    returns (i: nat, u: Group<nat, AccountQueue>, aq: AccountQueue)
    requires forall aq :: aq in views ==> views[aq].key == aq.accountId
    requires MapGroups(Look(views), pgs) == ForProviders(jobs, BackendMap(getSpec)) && |users| == |pgs|
    requires forall i :: 0 <= i < |pgs| ==>
               Given(getAccount, [], pgs[i].members, pgs[i].members, [], users[i])
    requires n < |jobs| && getSpec(jobs[n].0).Found?
    ensures i < |pgs| && u in users[i] && aq in u.members && aq in views
    ensures aq.accountId == jobs[n].0 && jobs[n].1 in views[aq].members
    ensures pgs[i].key == getSpec(jobs[n].0).value.backendName
    ensures getAccount(jobs[n].0).Found? && u.key == getAccount(jobs[n].0).value.userId != 0
  {
    var backend, user := BackendMap(getSpec), UserMap(getAccount);
    var ps := ForProviders(jobs, backend);
    AllUsersHold(pgs, users, views, jobs, backend, getAccount);
    var p, u', g := Delivered(jobs, backend, user, n);
    PlacedRight(jobs, backend, user, p, u', g);
    i :| 0 <= i < |ps| && ps[i] == p;
    assert pgs[i].key == MapGroups(Look(views), pgs)[i].key == p.key;
    u, aq := Unlooked(users[i], views, p, user, u', g);
    GivenRight(pgs[i].members, users[i], getAccount, u, aq);
    QueuesLookedAt(pgs, views, jobs, backend, i, aq);
  }

  lemma Unlooked(users: seq<Group<nat, AccountQueue>>, views: map<AccountQueue, Group<nat, Transaction>>,
                 p: Group<string, Group<nat, Transaction>>, user: nat -> nat, u': Group<nat, Group<nat, Transaction>>,
                 g: Group<nat, Transaction>)
    returns (u: Group<nat, AccountQueue>, aq: AccountQueue)
    requires MapGroups(Look(views), users) == ForUsers(p, user) && u' in ForUsers(p, user) && g in u'.members
    ensures u in users && aq in u.members && Look(views)(aq) == g
  {
    var us := ForUsers(p, user);
    var k :| 0 <= k < |us| && us[k] == u';
    var j :| 0 <= j < |u'.members| && u'.members[j] == g;
    u := users[k];
    assert MapGroups(Look(views), users)[k] == u';
    aq := u.members[j];
  }
}
