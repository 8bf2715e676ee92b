/** Using a backend: its settings are read when it starts and written back, under one lock, when it
    ends; the backend object is freed exactly once. */
module Providers {
  import opened ConfigGroups
  import opened ConfigMgr
  import opened Db
  import opened Queues
  import opened Seqs

  const BACKENDS := "backends"

  /** What is done with a backend. */
  datatype Event = Begun(name: string) | Sent(queue: ProviderQueue) | Ended(name: string)

  /** All uses of backends, in order: each begins and ends, and in between the backend may be given queues. */
  class Line {
    var events: seq<Event>

    constructor ()
      ensures events == []
    {
      events := [];
    }
  }

  /** A backend object. Its name can be asked only as long as it is not freed. */
  class Provider {
    const name: string
    var frees: nat

    constructor (name: string)
      ensures this.name == name && frees == 0
    {
      this.name, this.frees := name, 0;
    }

    method GetName() returns (r: string)
      requires frees == 0
      ensures r == name
    {
      r := name;
    }

    /** `AB_Provider_SendCommands`: the queue goes out on the line; what the backend does with it is not
        part of this model. */
    method SendCommands(mgr: ConfigMgr, pq: ProviderQueue, line: Line) returns (rv: int)
      requires frees == 0
      modifies mgr`answers, mgr`errors, line
      ensures line.events == old(line.events) + [Sent(pq)]
      ensures |mgr.errors| >= |old(mgr.errors)|
      ensures old(mgr.answers) == [] ==> mgr.answers == [] && |mgr.errors| == |old(mgr.errors)|
    {
      line.events := line.events + [Sent(pq)];
      rv := mgr.Answer();
    }

    method Free()
      requires frees == 0
      modifies this
      ensures frees == 1
    {
      frees := 1;
    }
  }

  /** What the surroundings contribute: the backends compiled in, and what a backend makes of its
      settings when it ends. */
  datatype Backends = Backends(builtIn: set<string>, fini: (string, Db) -> Db)

  method BeginUseProvider(mgr: ConfigMgr, backends: Backends, modname: string, line: Line) returns (pro: Provider?)
    modifies mgr, line
    ensures line.events == old(line.events) + if pro != null then [Begun(modname)] else []
    ensures mgr.store == old(mgr.store) && mgr.history == old(mgr.history)
    ensures mgr.unlockFailures >= old(mgr.unlockFailures)
    ensures mgr.unlockFailures == old(mgr.unlockFailures) ==> mgr.locks == old(mgr.locks)
    ensures |mgr.errors| >= |old(mgr.errors)|
    ensures pro != null <==> modname in backends.builtIn && |mgr.errors| == |old(mgr.errors)|
    ensures pro != null ==> fresh(pro) && pro.name == modname && pro.frees == 0
    ensures old(mgr.answers) == [] && old(mgr.locks) == {} ==>
              mgr.answers == [] && mgr.locks == {} && |mgr.errors| == |old(mgr.errors)|
  {
    if modname !in backends.builtIn {
      return null;
    }
    var p := new Provider(modname);
    var rv, db := ReadNamedConfigGroup(mgr, BACKENDS, modname, true, true);
    if rv < 0 {
      p.Free();
      return null;
    }
    rv := mgr.Answer();  // the backend's own initialisation
    if rv < 0 {
      p.Free();
      return null;
    }
    line.events := line.events + [Begun(modname)];
    return p;
  }

  /** The settings are locked while the backend ends. When writing them fails, the lock is given back
      once more: a single failed unlock after a successful write does no harm. */
  method EndUseProvider(mgr: ConfigMgr, backends: Backends, pro: Provider, line: Line) returns (rv: int)
    requires pro.frees == 0
    modifies mgr, pro, line
    ensures line.events == old(line.events) + [Ended(pro.name)]
    ensures pro.frees == 1 && rv <= 0
    ensures |mgr.errors| >= |old(mgr.errors)| && (rv == 0 <==> |mgr.errors| == |old(mgr.errors)|)
    ensures old(mgr.answers) == [] && old(mgr.locks) == {} ==>
              mgr.answers == [] && mgr.locks == {} && |mgr.errors| == |old(mgr.errors)|
    ensures var key := ("backends", pro.name);
            var wrote := Write(key, backends.fini(pro.name, Content(old(mgr.store), BACKENDS, pro.name)));
            || (mgr.store == old(mgr.store) && mgr.history == old(mgr.history) && rv < 0)
            || (mgr.store == Apply(old(mgr.store), wrote) && mgr.history == old(mgr.history) + [wrote])
    ensures mgr.unlockFailures >= old(mgr.unlockFailures)
    ensures mgr.unlockFailures == old(mgr.unlockFailures) ==> mgr.locks == old(mgr.locks)
    ensures mgr.history != old(mgr.history) && mgr.unlockFailures <= old(mgr.unlockFailures) + 1
            ==> mgr.locks == old(mgr.locks)
  {
    line.events := line.events + [Ended(pro.name)];
    var name := pro.GetName();
    var db;
    rv, db := ReadNamedConfigGroup(mgr, BACKENDS, name, true, false);
    if rv < 0 {
      pro.Free();
      return;
    }
    rv := mgr.Answer();  // the backend's own shutdown
    if rv < 0 {
      name := pro.GetName();
      var ignored := mgr.UnlockGroup(BACKENDS, name);
      pro.Free();
      return;
    }
    db := backends.fini(name, db);
    name := pro.GetName();
    rv := WriteNamedConfigGroup(mgr, BACKENDS, name, false, true, db);
    if rv < 0 {
      name := pro.GetName();
      var ignored := mgr.UnlockGroup(BACKENDS, name);
      pro.Free();
      return;
    }
    pro.Free();
    return 0;
  }

  /** The queue names a backend that is compiled in. */
  predicate Usable(pq: ProviderQueue, backends: Backends) {
    pq.name != "" && pq.name in backends.builtIn
  }

  // ---------- which ones are used ----------

  /** How many usable ones of the first `n` were not chosen. */
  function Missed<T>(all: seq<T>, n: nat, chosen: seq<bool>, usable: T -> bool): nat
    requires n <= |all| && n <= |chosen|
  {
    if n == 0 then 0
    else Missed(all, n - 1, chosen, usable) + if usable(all[n - 1]) && !chosen[n - 1] then 1 else 0
  }

  function UsableOnes<T>(all: seq<T>, usable: T -> bool): seq<T> {
    if all == [] then []
    else
      var n := |all| - 1;
      UsableOnes(all[..n], usable) + if usable(all[n]) then [all[n]] else []
  }

  /** The chosen ones are usable, and each other usable one was missed for an error of its own. */
  ghost predicate UsedSoFar<T>(all: seq<T>, n: nat, chosen: seq<bool>, usable: T -> bool, errors: int) {
    && n <= |all| && |chosen| == n && Missed(all, n, chosen, usable) <= errors
    && forall i :: 0 <= i < n && chosen[i] ==> usable(all[i])
  }

  lemma {:induction false} MissedAgree<T>(all: seq<T>, n: nat, chosen: seq<bool>, more: seq<bool>, usable: T -> bool)
    requires n <= |all| && n <= |chosen|
    ensures Missed(all, n, chosen + more, usable) == Missed(all, n, chosen, usable)
  {
    if n > 0 {
      MissedAgree(all, n - 1, chosen, more, usable);
      assert (chosen + more)[n - 1] == chosen[n - 1];
    }
  }

  lemma OneMoreUsed<T>(all: seq<T>, n: nat, chosen: seq<bool>, usable: T -> bool, errors: int, c: bool, n': nat,
                       chosen': seq<bool>, errors': int)
    requires UsedSoFar(all, n, chosen, usable, errors) && n < |all| && errors <= errors'
    requires n' == n + 1 && chosen' == chosen + [c]
    requires c ==> usable(all[n])
    requires usable(all[n]) && !c ==> errors < errors'
    ensures UsedSoFar(all, n', chosen', usable, errors')
  {
    MissedAgree(all, n, chosen, [c], usable);
  }

  /** Where no error was left, all usable ones were used. */
  lemma {:induction false} NoneMissed<T>(all: seq<T>, chosen: seq<bool>, usable: T -> bool)
    requires UsedSoFar(all, |all|, chosen, usable, 0)
    ensures Kept(all, chosen) == UsableOnes(all, usable)
  {
    if all != [] {
      var n := |all| - 1;
      assert chosen == chosen[..n] + [chosen[n]];
      MissedAgree(all, n, chosen[..n], [chosen[n]], usable);
      MissedPrefix(all, n, n, chosen[..n], usable);
      NoneMissed(all[..n], chosen[..n], usable);
    }
  }

  lemma {:induction false} MissedPrefix<T>(all: seq<T>, n: nat, m: nat, chosen: seq<bool>, usable: T -> bool)
    requires m <= n <= |all| && m <= |chosen|
    ensures Missed(all[..n], m, chosen, usable) == Missed(all, m, chosen, usable)
  {
    if m > 0 {
      MissedPrefix(all, n, m - 1, chosen, usable);
    }
  }

  lemma {:induction false} UsableAre<T>(all: seq<T>, usable: T -> bool, x: T)
    ensures x in UsableOnes(all, usable) <==> x in all && usable(x)
  {
    if all != [] {
      var n := |all| - 1;
      UsableAre(all[..n], usable, x);
      assert all == all[..n] + [all[n]];
    }
  }

  /** Where a loop over `all` stands: each one used so far left the events `use` on the line. */
  ghost predicate Using<T>(all: seq<T>, n: nat, chosen: seq<bool>, usable: T -> bool, errors: int,
                           use: T -> seq<Event>, out: seq<Event>, events: seq<Event>)
  {
    UsedSoFar(all, n, chosen, usable, errors) && errors >= 0 && events == out + FlatMap(use, Kept(all[..n], chosen))
  }

  lemma UsingStarts<T>(all: seq<T>, usable: T -> bool, use: T -> seq<Event>, out: seq<Event>)
    ensures Using(all, 0, [], usable, 0, use, out, out)
  {
    assert all[..0] == [] && out + [] == out;
  }

  lemma UsingStep<T>(all: seq<T>, n: nat, chosen: seq<bool>, usable: T -> bool, errors: int, use: T -> seq<Event>,
                     out: seq<Event>, events: seq<Event>, c: bool, n': nat, chosen': seq<bool>, errors': int,
                     events': seq<Event>)
    requires Using(all, n, chosen, usable, errors, use, out, events) && n < |all|
    requires n' == n + 1 && chosen' == chosen + [c] && errors <= errors'
    requires (c ==> usable(all[n])) && (usable(all[n]) && !c ==> errors < errors')
    requires events' == events + if c then use(all[n]) else []
    ensures Using(all, n', chosen', usable, errors', use, out, events')
  {
    assert all[..n'] == all[..n] + [all[n]];
    KeptSnoc(all[..n], chosen, all[n], c);
    var kept := Kept(all[..n], chosen);
    if c {
      FlatMapSnoc(use, kept, all[n]);
      assert out + (FlatMap(use, kept) + use(all[n])) == events + use(all[n]);
    } else {
      assert kept + [] == kept;
    }
    OneMoreUsed(all, n, chosen, usable, errors, c, n', chosen', errors');
  }

  lemma UsingDone<T>(all: seq<T>, n: nat, chosen: seq<bool>, usable: T -> bool, errors: int, use: T -> seq<Event>,
                     out: seq<Event>, events: seq<Event>)
    requires Using(all, n, chosen, usable, errors, use, out, events) && n == |all|
    ensures |chosen| == |all| && events == out + FlatMap(use, Kept(all, chosen))
    ensures errors == 0 ==> events == out + FlatMap(use, UsableOnes(all, usable))
  {
    assert all[..n] == all;
    if errors == 0 {
      NoneMissed(all, chosen, usable);
    }
  }

  // ---------- sending ----------

  /** A whole use of a backend: it begins, is given the queue, and ends. */
  function Sending(pq: ProviderQueue): seq<Event> {
    [Begun(pq.name), Sent(pq), Ended(pq.name)]
  }

  function CanSend(backends: Backends): ProviderQueue -> bool {
    (pq: ProviderQueue) => Usable(pq, backends)
  }

  /** What the line holds of each queue that was sent, in order. */
  lemma {:induction false} EventsOfQueue(pqs: seq<ProviderQueue>, i: nat)
    requires i < |pqs|
    ensures |FlatMap(Sending, pqs)| == 3 * |pqs|
    ensures FlatMap(Sending, pqs)[3 * i] == Begun(pqs[i].name)
    ensures FlatMap(Sending, pqs)[3 * i + 1] == Sent(pqs[i])
    ensures FlatMap(Sending, pqs)[3 * i + 2] == Ended(pqs[i].name)
  {
    var n := |pqs| - 1;
    assert pqs == pqs[..n] + [pqs[n]];
    FlatMapSnoc(Sending, pqs[..n], pqs[n]);
    if n > 0 {
      EventsOfQueue(pqs[..n], if i < n then i else 0);
    }
  }

  /** One turn of the loop below: whether the queue was sent. */
  method SendProviderQueue(mgr: ConfigMgr, backends: Backends, pq: ProviderQueue, line: Line) returns (sent: bool)
    modifies mgr, line
    ensures |mgr.errors| >= |old(mgr.errors)|
    ensures sent ==> Usable(pq, backends)
    ensures Usable(pq, backends) && !sent ==> |mgr.errors| > |old(mgr.errors)|
    ensures line.events == old(line.events) + if sent then [Begun(pq.name), Sent(pq), Ended(pq.name)] else []
    ensures mgr.unlockFailures >= old(mgr.unlockFailures)
    ensures mgr.unlockFailures == old(mgr.unlockFailures) ==> mgr.locks == old(mgr.locks)
    ensures old(mgr.answers) == [] && old(mgr.locks) == {} ==>
              mgr.answers == [] && mgr.locks == {} && |mgr.errors| == |old(mgr.errors)|
  {
    sent := false;
    if pq.name != "" {
      var pro := BeginUseProvider(mgr, backends, pq.name, line);
      if pro != null {
        var rv := pro.SendCommands(mgr, pq, line);
        var ignored := EndUseProvider(mgr, backends, pro, line);
        sent := true;
      }
    }
  }

  /** Takes all provider queues off the list and sends, in order, those whose backend can be used; a backend
      that is compiled in is passed over only for an error. */
  method SendProviderQueues(mgr: ConfigMgr, backends: Backends, pql: QueueList<ProviderQueue>, line: Line)
    returns (rv: int, ghost chosen: seq<bool>)
    modifies mgr, pql, line
    ensures rv == 0 && pql.items == []
    ensures |chosen| == |old(pql.items)|
    ensures line.events == old(line.events) + FlatMap(Sending, Kept(old(pql.items), chosen))
    ensures UsedSoFar(old(pql.items), |chosen|, chosen, CanSend(backends), |mgr.errors| - |old(mgr.errors)|)
    ensures |mgr.errors| == |old(mgr.errors)| ==>
              line.events == old(line.events) + FlatMap(Sending, UsableOnes(old(pql.items), CanSend(backends)))
    ensures mgr.unlockFailures >= old(mgr.unlockFailures)
    ensures mgr.unlockFailures == old(mgr.unlockFailures) ==> mgr.locks == old(mgr.locks)
    ensures old(mgr.answers) == [] && old(mgr.locks) == {} ==>
              mgr.answers == [] && mgr.locks == {} && |mgr.errors| == |old(mgr.errors)|
  {
    hide UsedSoFar, FlatMap, UsableOnes, Kept;
    chosen := [];
    ghost var all, n, out, e, usable := pql.items, 0, line.events, |mgr.errors|, CanSend(backends);
    UsingStarts(all, usable, Sending, out);
    while pql.items != []
      invariant Using(all, n, chosen, usable, |mgr.errors| - e, Sending, out, line.events)
      invariant n <= |all| && pql.items == all[n..]
      invariant mgr.unlockFailures >= old(mgr.unlockFailures)
      invariant mgr.unlockFailures == old(mgr.unlockFailures) ==> mgr.locks == old(mgr.locks)
      invariant old(mgr.answers) == [] && old(mgr.locks) == {} ==>
                  mgr.answers == [] && mgr.locks == {} && |mgr.errors| == e
      decreases |pql.items|
    {
      ghost var n0, chosen0, e0, events0 := n, chosen, |mgr.errors| - e, line.events;
      var pq: ProviderQueue := pql.items[0];
      assert pq == all[n] && all[n..][1..] == all[n + 1..];
      pql.DelFirst();
      var sent := SendProviderQueue(mgr, backends, pq, line);
      n, chosen := n + 1, chosen + [sent];
      UsingStep(all, n0, chosen0, usable, e0, Sending, out, events0, sent, n, chosen, |mgr.errors| - e, line.events);
    }
    UsingDone(all, n, chosen, usable, |mgr.errors| - e, Sending, out, line.events);
    return 0, chosen;
  }
}
