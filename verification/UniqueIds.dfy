/** Unique ids: one shared counter, and named counters that may start from it. */
module UniqueIds {
  import opened ConfigMgr
  import opened Db
  import opened Wrappers

  const MAIN := "aqbanking"
  const SHARED := "uniqueId"
  const JOBID := "jobid"

  /** The variable that counts ids of the given name; the empty name is the shared counter. */
  function CounterVar(name: string): string {
    if name == "" then SHARED else "uniqueid-" + name
  }

  function Counter(db: Db, name: string): int {
    GetInt(db, CounterVar(name), 0)
  }

  /** The call draws its id from the shared counter. */
  predicate UsesShared(db: Db, name: string, start: bool) {
    name == "" || (Counter(db, name) == 0 && start)
  }

  function NextId(db: Db, name: string, start: bool): (r: (Db, int)) {
    if name == "" then
      var uid := Counter(db, "") + 1;
      (SetInt(db, SHARED, uid), uid)
    else if UsesShared(db, name, start) then
      var uid := Counter(db, "") + 1;
      (SetInt(SetInt(db, SHARED, uid), CounterVar(name), uid), uid)
    else
      var uid := Counter(db, name) + 1;
      (SetInt(db, CounterVar(name), uid), uid)
  }

  function StoredIds(store: Store): Db {
    if (MAIN, SHARED) in store then store[(MAIN, SHARED)] else map[]
  }

  // ---------- the code ----------

  /** Without an error the call issues the next id; otherwise it hands out the first error there was. A
      failed call can still have advanced the counter, and it leaves the lock behind exactly when the read
      or the unlock failed. */
  method GetNamedUniqueId(mgr: ConfigMgr, idName: string, startAtStdUniqueId: bool) returns (rv: int)
    modifies mgr
    ensures old(mgr.errors) <= mgr.errors
    ensures var (db, id) := NextId(StoredIds(old(mgr.store)), idName, startAtStdUniqueId);
            var stored := old(mgr.store)[(MAIN, SHARED) := db];
            if mgr.errors == old(mgr.errors) then rv == id && mgr.store == stored
            else rv == mgr.errors[|old(mgr.errors)|] < 0 && mgr.store in {old(mgr.store), stored}
    ensures old(mgr.answers) == [] && (MAIN, SHARED) !in old(mgr.locks) ==>
              mgr.errors == old(mgr.errors) && mgr.answers == []
    ensures (MAIN, SHARED) in old(mgr.locks) ==> mgr.errors != old(mgr.errors)
    ensures |old(mgr.answers)| > 0 && old(mgr.answers)[0] < 0 ==>
              rv == old(mgr.answers)[0] && mgr.store == old(mgr.store) && mgr.answers == old(mgr.answers)[1..]
              && mgr.errors != old(mgr.errors)
    ensures mgr.unlockFailures >= old(mgr.unlockFailures) && mgr.readFailures >= old(mgr.readFailures)
    ensures mgr.unlockFailures == old(mgr.unlockFailures) && mgr.readFailures == old(mgr.readFailures)
            ==> mgr.locks == old(mgr.locks)
    ensures mgr.unlockFailures > old(mgr.unlockFailures) || mgr.readFailures > old(mgr.readFailures)
            ==> (MAIN, SHARED) !in old(mgr.locks) && mgr.locks == old(mgr.locks) + {(MAIN, SHARED)}
    ensures mgr.errors == old(mgr.errors) ==> mgr.locks == old(mgr.locks)
  {
    rv := mgr.LockGroup(MAIN, SHARED);
    if rv < 0 {
      return;
    }
    var dbConfig;
    rv, dbConfig := mgr.GetGroup(MAIN, SHARED);
    if rv < 0 {
      return;
    }
    var uid;
    if idName != "" {
      var tbuf := "uniqueid-" + idName;
      uid := GetInt(dbConfig, tbuf, 0);
      if uid == 0 && startAtStdUniqueId {
        uid := GetInt(dbConfig, SHARED, 0);
        uid := uid + 1;
        dbConfig := SetInt(dbConfig, SHARED, uid);
        dbConfig := SetInt(dbConfig, tbuf, uid);
      } else {
        uid := uid + 1;
        dbConfig := SetInt(dbConfig, tbuf, uid);
      }
    } else {
      uid := GetInt(dbConfig, SHARED, 0);
      uid := uid + 1;
      dbConfig := SetInt(dbConfig, SHARED, uid);
    }
    rv := mgr.SetGroup(MAIN, SHARED, dbConfig);
    if rv < 0 {
      var ignored := mgr.UnlockGroup(MAIN, SHARED);
      return;
    }
    rv := mgr.UnlockGroup(MAIN, SHARED);
    if rv < 0 {
      return;
    }
    return uid;
  }

  /** `AB_Banking_ReserveJobId`: an error becomes an id. */
  method ReserveJobId(mgr: ConfigMgr) returns (id: nat)
    modifies mgr
    ensures old(mgr.errors) <= mgr.errors
    ensures var (db, next) := NextId(StoredIds(old(mgr.store)), JOBID, true);
            if mgr.errors == old(mgr.errors) then
              id == next % 0x1_0000_0000 && mgr.store == old(mgr.store)[("aqbanking", "uniqueId") := db]
            else id == mgr.errors[|old(mgr.errors)|] as int % 0x1_0000_0000
    ensures old(mgr.answers) == [] && (MAIN, SHARED) !in old(mgr.locks) ==>
              mgr.errors == old(mgr.errors) && mgr.answers == [] && mgr.locks == old(mgr.locks)
  {
    var rv := GetNamedUniqueId(mgr, JOBID, true);
    id := U32(rv);
  }

  /** What id a call gets and where it is kept. A name has its own variable, and the empty name shares one with names
      that start there: only their first id comes from the shared counter. No other variable is touched. */
  lemma IdIssued(db: Db, name: string, start: bool, v: string)
    requires v == if name == "" then "uniqueId" else "uniqueid-" + name
    ensures var own, shared := GetInt(db, v, 0), GetInt(db, "uniqueId", 0);
            var fromShared := name == "" || (own == 0 && start);
            var (db', id) := NextId(db, name, start);
            && id == (if fromShared then shared else own) + 1 == GetInt(db', v, 0)
            && GetInt(db', "uniqueId", 0) == (if fromShared then id else shared)
            && forall other :: other != v && (other != "uniqueId" || !fromShared) ==>
                 Values(db', other) == Values(db, other)
  {
    assert v == CounterVar(name) && CounterVar("") == SHARED;
    if name != "" {
      CounterVarsDiffer(name, "");
    }
  }

  /** Job ids are counted as "jobid", from the shared counter on. */
  lemma JobIdIssued(db: Db)
    ensures var job, shared := GetInt(db, "uniqueid-jobid", 0), GetInt(db, "uniqueId", 0);
            var (db', id) := NextId(db, JOBID, true);
            id == (if job == 0 then shared else job) + 1 == GetInt(db', "uniqueid-jobid", 0)
  {
    assert "uniqueid-" + JOBID == "uniqueid-jobid";
    IdIssued(db, JOBID, true, "uniqueid-jobid");
  }

  // ---------- runs ----------

  datatype Call = Call(name: string, start: bool)

  /** The counters after a run of calls. */
  function After(db: Db, calls: seq<Call>): Db {
    if calls == [] then db
    else
      var last := calls[|calls| - 1];
      NextId(After(db, calls[..|calls| - 1]), last.name, last.start).0
  }

  /** The id that call number `i` of a run gets. */
  function IdAt(db: Db, calls: seq<Call>, i: nat): int
    requires i < |calls|
  {
    NextId(After(db, calls[..i]), calls[i].name, calls[i].start).1
  }

  /** Call number `i` of a run draws from the shared counter. */
  predicate SharedAt(db: Db, calls: seq<Call>, i: nat)
    requires i < |calls|
  {
    UsesShared(After(db, calls[..i]), calls[i].name, calls[i].start)
  }

  ghost predicate CountersOk(db: Db) {
    forall name :: Counter(db, name) >= 0
  }

  lemma CounterVarsDiffer(a: string, b: string)
    requires a != b
    ensures CounterVar(a) != CounterVar(b)
  {
    if a != "" && b != "" {
      assert CounterVar(a)[9..] == a && CounterVar(b)[9..] == b;
    } else if a != "" {
      assert CounterVar(a)[6] == 'i' && SHARED[6] == 'I';
    } else {
      assert CounterVar(b)[6] == 'i' && SHARED[6] == 'I';
    }
  }

  lemma StepCounters(db: Db, name: string, start: bool, other: string)
    requires Counter(db, "") >= 0
    ensures var (db', id) := NextId(db, name, start);
            && Counter(db', name) == id > Counter(db, name)
            && (UsesShared(db, name, start) ==> Counter(db', "") == id > Counter(db, ""))
            && (!UsesShared(db, name, start) ==> Counter(db', "") == Counter(db, ""))
            && (other != "" && other != name ==> Counter(db', other) == Counter(db, other))
  {
    if name != "" {
      CounterVarsDiffer(name, "");
    }
    if other != "" {
      CounterVarsDiffer(other, "");
    }
    if other != name {
      CounterVarsDiffer(other, name);
    }
  }

  lemma StepOk(db: Db, name: string, start: bool)
    requires CountersOk(db)
    ensures CountersOk(NextId(db, name, start).0)
    ensures NextId(db, name, start).1 > 0
  {
    assert Counter(db, name) >= 0 && Counter(db, "") >= 0;
    forall other ensures Counter(NextId(db, name, start).0, other) >= 0 {
      assert Counter(db, other) >= 0;
      StepCounters(db, name, start, other);
    }
    StepCounters(db, name, start, name);
  }

  lemma {:induction false} RunOk(db: Db, calls: seq<Call>)
    requires CountersOk(db)
    ensures CountersOk(After(db, calls))
  {
    if calls != [] {
      var last := calls[|calls| - 1];
      RunOk(db, calls[..|calls| - 1]);
      StepOk(After(db, calls[..|calls| - 1]), last.name, last.start);
    }
  }

  /** No counter ever falls below an id it has issued. */
  lemma {:induction false} CounterCovers(db: Db, calls: seq<Call>, i: nat, n: nat)
    requires CountersOk(db) && i < n <= |calls|
    ensures Counter(After(db, calls[..n]), calls[i].name) >= IdAt(db, calls, i)
    ensures SharedAt(db, calls, i) ==> Counter(After(db, calls[..n]), "") >= IdAt(db, calls, i)
    decreases n
  {
    var before, last := After(db, calls[..n - 1]), calls[n - 1];
    assert calls[..n][..n - 1] == calls[..n - 1];
    assert After(db, calls[..n]) == NextId(before, last.name, last.start).0;
    RunOk(db, calls[..n - 1]);
    assert Counter(before, "") >= 0;
    StepCounters(before, last.name, last.start, calls[i].name);
    if i < n - 1 {
      CounterCovers(db, calls, i, n - 1);
    }
  }

  /** Over any run, the ids of one name are positive and strictly increasing. */
  lemma IdsIncrease(db: Db, calls: seq<Call>, i: nat, j: nat)
    requires CountersOk(db) && i < j < |calls| && calls[i].name == calls[j].name
    ensures 0 < IdAt(db, calls, i) < IdAt(db, calls, j)
  {
    RunOk(db, calls[..i]);
    StepOk(After(db, calls[..i]), calls[i].name, calls[i].start);
    CounterCovers(db, calls, i, j);
    RunOk(db, calls[..j]);
    var before := After(db, calls[..j]);
    assert Counter(before, "") >= 0;
    StepCounters(before, calls[j].name, calls[j].start, "");
  }

  /** Over any run, the ids drawn from the shared counter are strictly increasing, for whatever names
      they were drawn. */
  lemma SharedIdsIncrease(db: Db, calls: seq<Call>, i: nat, j: nat)
    requires CountersOk(db) && i < j < |calls|
    requires SharedAt(db, calls, i) && SharedAt(db, calls, j)
    ensures IdAt(db, calls, i) < IdAt(db, calls, j)
  {
    CounterCovers(db, calls, i, j);
    RunOk(db, calls[..j]);
    var before := After(db, calls[..j]);
    assert Counter(before, "") >= 0;
    StepCounters(before, calls[j].name, calls[j].start, "");
  }

  /** A name first used with a start at the shared counter gets only ids above all that the shared
      counter had issued until then. */
  lemma LateNameStaysAbove(db: Db, calls: seq<Call>, i: nat, first: nat, j: nat)
    requires CountersOk(db) && i < first <= j < |calls|
    requires SharedAt(db, calls, i)
    requires calls[first].start && Counter(After(db, calls[..first]), calls[first].name) == 0
    requires calls[j].name == calls[first].name
    ensures IdAt(db, calls, i) < IdAt(db, calls, j)
  {
    SharedIdsIncrease(db, calls, i, first);
    if first < j {
      IdsIncrease(db, calls, first, j);
    }
  }
}
