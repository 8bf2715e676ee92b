/** Updating the settings written by older versions: groups get the names derived from their unique ids,
    accounts get new variables for their user and backend. */
module Migration {
  import opened AccountUpdate
  import opened ConfigGroups
  import opened ConfigMgr
  import opened Db
  import opened Providers
  import opened Renaming
  import opened Seqs
  import opened Wrappers

  const ACCOUNTS := "accounts"
  const USERS := "users"
  const ERROR_INTERNAL := -6

  // ---------- groups without an id ----------

  function Filtered(s: Store, group: string, names: seq<string>): seq<Entry> {
    Entries(s, group, names, UNIQUEID, "", "")
  }

  function All(s: Store, group: string, names: seq<string>): seq<Entry> {
    Entries(s, group, names, "", "", "")
  }

  lemma {:induction false} OpsAgree(nm: Naming, pass: Pass, es: seq<Entry>, more: seq<Entry>, k: nat)
    requires k <= |es|
    ensures Ops(nm, pass, es + more, k) == Ops(nm, pass, es, k)
  {
    if k > 0 {
      OpsAgree(nm, pass, es, more, k - 1);
      assert (es + more)[k - 1] == es[k - 1];
    }
  }

  lemma OpsSnoc(nm: Naming, pass: Pass, es: seq<Entry>, e: Entry, es': seq<Entry>)
    requires es' == es + [e]
    ensures Ops(nm, pass, es', |es'|) == Ops(nm, pass, es, |es|) + OpsOf(nm, pass, e)
  {
    OpsAgree(nm, pass, es, [e], |es|);
    OneMoreOp(nm, pass, es', |es|, |es'|);
  }

  lemma OneMoreOp(nm: Naming, pass: Pass, es: seq<Entry>, k: nat, k': nat)
    requires k < |es| && k' == k + 1
    ensures Ops(nm, pass, es, k') == Ops(nm, pass, es, k) + OpsOf(nm, pass, es[k])
  {
  }

  lemma FilteredStep(nm: Naming, pass: Pass, some: seq<Entry>, all: seq<Entry>, e: Entry, some': seq<Entry>,
                     all': seq<Entry>)
    requires Ops(nm, pass, some, |some|) == Ops(nm, pass, all, |all|)
    requires some' == (if GetInt(e.db, UNIQUEID, 0) != 0 then some + [e] else some) && all' == all + [e]
    ensures Ops(nm, pass, some', |some'|) == Ops(nm, pass, all', |all'|)
  {
    OpsSnoc(nm, pass, all, e, all');
    if GetInt(e.db, UNIQUEID, 0) != 0 {
      OpsSnoc(nm, pass, some, e, some');
    }
  }

  /** Groups without an id are left alone by every pass, so reading only those with one is enough. */
  lemma {:induction false} FilteredOps(nm: Naming, pass: Pass, s: Store, names: seq<string>, some: seq<Entry>,
                                       all: seq<Entry>)
    requires some == Filtered(s, nm.group, names) && all == All(s, nm.group, names)
    ensures Ops(nm, pass, some, |some|) == Ops(nm, pass, all, |all|)
  {
    if names != [] {
      var names', name := names[..|names| - 1], names[|names| - 1];
      var some', all' := Filtered(s, nm.group, names'), All(s, nm.group, names');
      FilteredOps(nm, pass, s, names', some', all');
      FilteredStep(nm, pass, some', all', Entry(name, Content(s, nm.group, name)), some, all);
    }
  }

  lemma {:induction false} AllNames(s: Store, group: string, names: seq<string>)
    ensures |All(s, group, names)| == |names|
    ensures forall i :: 0 <= i < |names| ==> All(s, group, names)[i] == Entry(names[i], Content(s, group, names[i]))
  {
    if names != [] {
      AllNames(s, group, names[..|names| - 1]);
    }
  }

  lemma AllListed(nm: Naming, s: Store, names: seq<string>)
    requires Lists(names, nm.group, s)
    ensures Listing(nm, s, All(s, nm.group, names))
  {
    var all := All(s, nm.group, names);
    AllNames(s, nm.group, names);
    forall i | 0 <= i < |all| ensures Has(s, (nm.group, all[i].name), all[i].db) {
      assert names[i] in names;
    }
    forall n | Stored(nm, s, n) ensures exists i :: 0 <= i < |all| && all[i].name == n {
      var i :| 0 <= i < |names| && names[i] == n;
      assert all[i].name == n;
    }
  }

  /** A pass that stops in the middle has done a first part of the changes. */
  lemma PartPrefix(nm: Naming, pass: Pass, es: seq<Entry>, k: nat, part: seq<StoreOp>)
    requires k < |es| && part <= OpsOf(nm, pass, es[k])
    ensures Ops(nm, pass, es, k) + part <= Ops(nm, pass, es, |es|)
  {
    OpsPrefix(nm, pass, es, k + 1, |es|);
  }

  lemma ReadAll(nm: Naming, pass: Pass, s: Store, names: seq<string>)
    requires Lists(names, nm.group, s)
    ensures Listing(nm, s, All(s, nm.group, names))
    ensures var some, all := Filtered(s, nm.group, names), All(s, nm.group, names);
            Ops(nm, pass, some, |some|) == Ops(nm, pass, all, |all|)
  {
    AllListed(nm, s, names);
    FilteredOps(nm, pass, s, names, Filtered(s, nm.group, names), All(s, nm.group, names));
  }

  /** Some group of the kind has an id. */
  ghost predicate SomeId(group: string, s: Store) {
    exists n :: (group, n) in s && GetInt(s[(group, n)], UNIQUEID, 0) != 0
  }

  lemma {:induction false} FilteredSome(s: Store, group: string, names: seq<string>)
    ensures Filtered(s, group, names) != []
       <==> exists n :: n in names && GetInt(Content(s, group, n), UNIQUEID, 0) != 0
  {
    if names != [] {
      FilteredSome(s, group, names[..|names| - 1]);
      assert forall n :: n in names <==> n in names[..|names| - 1] || n == names[|names| - 1];
    }
  }

  lemma FilteredId(s: Store, group: string, names: seq<string>)
    requires Lists(names, group, s)
    ensures Filtered(s, group, names) != [] <==> SomeId(group, s)
  {
    FilteredSome(s, group, names);
    assert forall n :: n in names <==> (group, n) in s;
  }

  // ---------- the passes ----------

  function Kind(mgr: ConfigMgr, group: string): Naming {
    Naming(group, mgr.derive)
  }

  /** `changes` brought the store and its history from the first state to the second. */
  ghost predicate Did(s: Store, h: seq<StoreOp>, changes: seq<StoreOp>, s': Store, h': seq<StoreOp>) {
    s' == ApplyAll(s, changes) && h' == h + changes
  }

  lemma DidMore(s: Store, h: seq<StoreOp>, a: seq<StoreOp>, s': Store, h': seq<StoreOp>, b: seq<StoreOp>, s'': Store,
                h'': seq<StoreOp>)
    requires Did(s, h, a, s', h') && Did(s', h', b, s'', h'')
    ensures Did(s, h, a + b, s'', h'')
  {
    ApplyConcat(s, a, b);
  }

  lemma DidNothing(s: Store, h: seq<StoreOp>)
    ensures Did(s, h, [], s, h)
  {
  }

  lemma DidOne(s: Store, h: seq<StoreOp>, op: StoreOp)
    ensures Did(s, h, [op], Apply(s, op), h + [op])
  {
    ApplySnoc(s, [], op);
    assert [] + [op] == [op];
  }

  /** One turn of the loop in `AB_Banking_UpdateConfList` */
  method RenameGroup(mgr: ConfigMgr, groupName: string, e: Entry) returns (rv: int, ghost changes: seq<StoreOp>)
    modifies mgr
    ensures Did(old(mgr.store), old(mgr.history), changes, mgr.store, mgr.history)
    ensures changes <= MoveOf(Kind(mgr, groupName), e)
    ensures rv >= 0 ==> changes == MoveOf(Kind(mgr, groupName), e)
    ensures mgr.unlockFailures >= old(mgr.unlockFailures)
    ensures mgr.unlockFailures == old(mgr.unlockFailures) ==> mgr.locks == old(mgr.locks)
    ensures |mgr.errors| >= |old(mgr.errors)| && (rv >= 0 <==> |mgr.errors| == |old(mgr.errors)|)
    ensures old(mgr.answers) == [] && old(mgr.locks) == {} ==>
              mgr.answers == [] && mgr.locks == {} && |mgr.errors| == |old(mgr.errors)|
  {
    rv, changes := 0, [];
    DidNothing(mgr.store, mgr.history);
    var subGroupName := e.name;
    var uid := U32(GetInt(e.db, "uniqueId", 0));
    if uid != 0 {
      var idBuf;
      rv, idBuf := mgr.MkUniqueIdFromId(groupName, uid);
      if rv < 0 {
        return;
      }
      if subGroupName != idBuf {
        ghost var w, d := Write((groupName, idBuf), e.db), Delete((groupName, subGroupName));
        DidOne(mgr.store, mgr.history, w);
        rv := WriteConfigGroup(mgr, groupName, uid, e.db);
        if mgr.history != old(mgr.history) {
          changes := [w];
        }
        if rv < 0 {
          return;
        }
        changes := [w];
        DidOne(mgr.store, mgr.history, d);
        ghost var s, h := mgr.store, mgr.history;
        rv := mgr.DeleteGroup(groupName, subGroupName);
        if rv < 0 {
          return;
        }
        DidMore(old(mgr.store), old(mgr.history), [w], s, h, [d], mgr.store, mgr.history);
        changes := [w] + [d];
      }
    }
  }

  /** What a pass over all groups of a kind does when it ends, with whatever error: a first part of the
      changes for the groups `all` of the store, and on success all of them. */
  ghost predicate PassEnds(nm: Naming, pass: Pass, s: Store, rv: int, all: seq<Entry>, changes: seq<StoreOp>) {
    && rv <= 0
    && (changes != [] || rv == 0 ==> Listing(nm, s, all))
    && changes <= Ops(nm, pass, all, |all|)
    && (rv == 0 ==> changes == Ops(nm, pass, all, |all|))
  }

  lemma PassStopped(nm: Naming, pass: Pass, s: Store, rv: int, all: seq<Entry>, some: seq<Entry>, k: nat,
                    part: seq<StoreOp>)
    requires rv < 0 && Listing(nm, s, all) && Ops(nm, pass, some, |some|) == Ops(nm, pass, all, |all|)
    requires k < |some| && part <= OpsOf(nm, pass, some[k])
    ensures PassEnds(nm, pass, s, rv, all, Ops(nm, pass, some, k) + part)
  {
    PartPrefix(nm, pass, some, k, part);
  }

  /** How far a pass has come after `k` groups. */
  ghost predicate Passed(nm: Naming, pass: Pass, some: seq<Entry>, k: nat, changes: seq<StoreOp>, s: Store,
                         h: seq<StoreOp>, s': Store, h': seq<StoreOp>)
  {
    k <= |some| && changes == Ops(nm, pass, some, k) && Did(s, h, changes, s', h')
  }

  lemma PassStarts(nm: Naming, pass: Pass, some: seq<Entry>, s: Store, h: seq<StoreOp>)
    ensures Passed(nm, pass, some, 0, [], s, h, s, h)
  {
  }

  lemma PassGoesOn(nm: Naming, pass: Pass, some: seq<Entry>, k: nat, a: seq<StoreOp>, s: Store, h: seq<StoreOp>,
                   s': Store, h': seq<StoreOp>, b: seq<StoreOp>, s'': Store, h'': seq<StoreOp>, k': nat,
                   ab: seq<StoreOp>)
    requires Passed(nm, pass, some, k, a, s, h, s', h') && Did(s', h', b, s'', h'')
    requires k < |some| && b == OpsOf(nm, pass, some[k]) && k' == k + 1 && ab == a + b
    ensures Passed(nm, pass, some, k', ab, s, h, s'', h'')
  {
    DidMore(s, h, a, s', h', b, s'', h'');
  }

  lemma PassDone(nm: Naming, pass: Pass, s: Store, rv: int, all: seq<Entry>, some: seq<Entry>, changes: seq<StoreOp>,
                 h: seq<StoreOp>, s': Store, h': seq<StoreOp>)
    requires rv == 0 && Listing(nm, s, all) && Ops(nm, pass, some, |some|) == Ops(nm, pass, all, |all|)
    requires Passed(nm, pass, some, |some|, changes, s, h, s', h')
    ensures PassEnds(nm, pass, s, rv, all, changes)
  {
  }

  /** The contents a pass writes keep their id. */
  ghost predicate LeavesIds(pass: Pass) {
    pass.Rename? || forall db: Db :: GetInt(pass.change(db), UNIQUEID, 0) == GetInt(db, UNIQUEID, 0)
  }

  /** A group keeps its id through any pass, or there is another one with an id behind it. */
  lemma IdsPassed(nm: Naming, pass: Pass, s: Store, e: Entry)
    requires LeavesIds(pass) && SomeId(nm.group, s)
    ensures SomeId(nm.group, ApplyAll(s, OpsOf(nm, pass, e)))
  {
    if pass.Rename? {
      ApplyMove(nm, s, e);
      if nm.Misplaced(e) {
        assert Has(Moved(nm, s, e), (nm.group, nm.Name(e.db)), e.db);
      }
    } else if IdOf(e.db) != 0 {
      ApplySnoc(s, [], OpsOf(nm, pass, e)[0]);
      assert [] + [OpsOf(nm, pass, e)[0]] == OpsOf(nm, pass, e);
      assert Has(ApplyAll(s, OpsOf(nm, pass, e)), (nm.group, nm.Name(e.db)), pass.change(e.db));
    }
  }

  lemma {:induction false} IdsLeft(nm: Naming, pass: Pass, s: Store, es: seq<Entry>, k: nat)
    requires LeavesIds(pass) && SomeId(nm.group, s) && k <= |es|
    ensures SomeId(nm.group, ApplyAll(s, Ops(nm, pass, es, k)))
  {
    hide SomeId, LeavesIds, OpsOf;
    if k > 0 {
      IdsLeft(nm, pass, s, es, k - 1);
      ApplyConcat(s, Ops(nm, pass, es, k - 1), OpsOf(nm, pass, es[k - 1]));
      IdsPassed(nm, pass, ApplyAll(s, Ops(nm, pass, es, k - 1)), es[k - 1]);
    }
  }

  lemma {:induction false} OpsKeepOthers(nm: Naming, s: Store, ops: seq<StoreOp>)
    requires forall i :: 0 <= i < |ops| ==> ops[i].key.0 == nm.group
    ensures OthersKept(nm, s, ApplyAll(s, ops))
  {
    if ops != [] {
      OpsKeepOthers(nm, s, ops[..|ops| - 1]);
    }
  }

  lemma {:induction false} OpsInGroup(nm: Naming, pass: Pass, es: seq<Entry>, k: nat)
    requires k <= |es|
    ensures forall i :: 0 <= i < |Ops(nm, pass, es, k)| ==> Ops(nm, pass, es, k)[i].key.0 == nm.group
  {
    if k > 0 {
      OpsInGroup(nm, pass, es, k - 1);
    }
  }

  /** Whether there are groups with an id does not change in a pass that succeeds. */
  lemma PassLeavesIds(nm: Naming, pass: Pass, s: Store, rv: int, all: seq<Entry>, changes: seq<StoreOp>, s': Store)
    requires PassEnds(nm, pass, s, rv, all, changes) && rv == 0 && s' == ApplyAll(s, changes) && LeavesIds(pass)
    ensures SomeId(nm.group, s) ==> SomeId(nm.group, s')
    ensures forall group :: group != nm.group ==> (SomeId(group, s') <==> SomeId(group, s))
  {
    OpsInGroup(nm, pass, all, |all|);
    OpsKeepOthers(nm, s, changes);
    if SomeId(nm.group, s) {
      IdsLeft(nm, pass, s, all, |all|);
    }
    forall group | group != nm.group ensures SomeId(group, s') <==> SomeId(group, s) {
      OtherIds(nm, s, s', group);
    }
  }

  lemma OtherIds(nm: Naming, s: Store, s': Store, group: string)
    requires OthersKept(nm, s, s') && group != nm.group
    ensures SomeId(group, s') <==> SomeId(group, s)
  {
    if n :| (group, n) in s && GetInt(s[(group, n)], UNIQUEID, 0) != 0 {
      assert Has(s', (group, n), s[(group, n)]);
    }
    if n :| (group, n) in s' && GetInt(s'[(group, n)], UNIQUEID, 0) != 0 {
      assert Has(s, (group, n), s'[(group, n)]);
    }
  }

  method UpdateConfList(mgr: ConfigMgr, groupName: string)
    returns (rv: int, ghost all: seq<Entry>, ghost changes: seq<StoreOp>)
    modifies mgr
    ensures Did(old(mgr.store), old(mgr.history), changes, mgr.store, mgr.history)
    ensures PassEnds(Kind(mgr, groupName), Rename, old(mgr.store), rv, all, changes)
    ensures mgr.unlockFailures >= old(mgr.unlockFailures)
    ensures mgr.unlockFailures == old(mgr.unlockFailures) ==> mgr.locks == old(mgr.locks)
    ensures |mgr.errors| >= |old(mgr.errors)| && (rv == 0 ==> SomeId(groupName, old(mgr.store)))
    ensures |mgr.errors| == |old(mgr.errors)| && SomeId(groupName, old(mgr.store)) ==> rv == 0
    ensures old(mgr.answers) == [] && old(mgr.locks) == {} ==>
              mgr.answers == [] && mgr.locks == {} && |mgr.errors| == |old(mgr.errors)|
  {
    ghost var nm, s0, h0 := Kind(mgr, groupName), mgr.store, mgr.history;
    all, changes := [], [];
    DidNothing(s0, h0);
    var dbAll;
    ghost var names;
    rv, dbAll, names := ReadConfigGroups(mgr, groupName, "uniqueId", "", "");
    if Lists(names, groupName, s0) {
      FilteredId(s0, groupName, names);
    }
    if rv < 0 {
      return;
    }
    all := All(s0, groupName, names);
    ReadAll(nm, Rename, s0, names);
    PassStarts(nm, Rename, dbAll, s0, h0);
    var i := 0;
    while i < |dbAll|
      invariant i <= |dbAll| && Passed(nm, Rename, dbAll, i, changes, s0, h0, mgr.store, mgr.history)
      invariant mgr.unlockFailures >= old(mgr.unlockFailures)
      invariant mgr.unlockFailures == old(mgr.unlockFailures) ==> mgr.locks == old(mgr.locks)
      invariant |mgr.errors| >= |old(mgr.errors)|
      invariant old(mgr.answers) == [] && old(mgr.locks) == {} ==>
                  mgr.answers == [] && mgr.locks == {} && |mgr.errors| == |old(mgr.errors)|
    {
      ghost var s, h, part := mgr.store, mgr.history, [];
      rv, part := RenameGroup(mgr, groupName, dbAll[i]);
      if rv < 0 {
        DidMore(s0, h0, changes, s, h, part, mgr.store, mgr.history);
        PassStopped(nm, Rename, s0, rv, all, dbAll, i, part);
        changes := changes + part;
        return;
      }
      ghost var k, before := i, changes;
      i, changes := i + 1, changes + part;
      PassGoesOn(nm, Rename, dbAll, k, before, s0, h0, s, h, part, mgr.store, mgr.history, i, changes);
    }
    rv := 0;
    PassDone(nm, Rename, s0, rv, all, dbAll, changes, h0, mgr.store, mgr.history);
  }

  /** One turn of the loop in `AB_Banking_Update_Account_SetUserId` */
  method SetUserIdOf(mgr: ConfigMgr, e: Entry) returns (rv: int, ghost changes: seq<StoreOp>)
    modifies mgr
    ensures Did(old(mgr.store), old(mgr.history), changes, mgr.store, mgr.history)
    ensures changes <= OpsOf(Kind(mgr, ACCOUNTS), Rewrite(SetUser), e)
    ensures rv >= 0 ==> changes == OpsOf(Kind(mgr, ACCOUNTS), Rewrite(SetUser), e)
    ensures mgr.unlockFailures >= old(mgr.unlockFailures)
    ensures mgr.unlockFailures == old(mgr.unlockFailures) ==> mgr.locks == old(mgr.locks)
    ensures |mgr.errors| >= |old(mgr.errors)| && (rv >= 0 <==> |mgr.errors| == |old(mgr.errors)|)
    ensures old(mgr.answers) == [] && old(mgr.locks) == {} ==>
              mgr.answers == [] && mgr.locks == {} && |mgr.errors| == |old(mgr.errors)|
  {
    rv, changes := 0, [];
    DidNothing(mgr.store, mgr.history);
    var uid := U32(GetInt(e.db, "uniqueId", 0));
    if uid != 0 {
      var db := e.db;
      var d := GetInt(db, "user", 0);
      db := SetInt(db, "userId", d);
      db := DeleteVar(db, "user");
      db := DeleteVar(db, "selectedUser");
      ghost var w := Write((ACCOUNTS, mgr.derive(ACCOUNTS, uid)), db);
      DidOne(mgr.store, mgr.history, w);
      rv := WriteConfigGroup(mgr, ACCOUNTS, uid, db);
      if mgr.history != old(mgr.history) {
        changes := [w];
      }
    }
  }

  method UpdateAccountSetUserId(mgr: ConfigMgr) returns (rv: int, ghost all: seq<Entry>, ghost changes: seq<StoreOp>)
    modifies mgr
    ensures Did(old(mgr.store), old(mgr.history), changes, mgr.store, mgr.history)
    ensures PassEnds(Kind(mgr, ACCOUNTS), Rewrite(SetUser), old(mgr.store), rv, all, changes)
    ensures mgr.unlockFailures >= old(mgr.unlockFailures)
    ensures mgr.unlockFailures == old(mgr.unlockFailures) ==> mgr.locks == old(mgr.locks)
    ensures |mgr.errors| >= |old(mgr.errors)| && (rv == 0 ==> SomeId(ACCOUNTS, old(mgr.store)))
    ensures |mgr.errors| == |old(mgr.errors)| && SomeId(ACCOUNTS, old(mgr.store)) ==> rv == 0
    ensures old(mgr.answers) == [] && old(mgr.locks) == {} ==>
              mgr.answers == [] && mgr.locks == {} && |mgr.errors| == |old(mgr.errors)|
  {
    ghost var nm, pass, s0, h0 := Kind(mgr, ACCOUNTS), Rewrite(SetUser), mgr.store, mgr.history;
    all, changes := [], [];
    DidNothing(s0, h0);
    var dbAll;
    ghost var names;
    rv, dbAll, names := ReadConfigGroups(mgr, ACCOUNTS, "uniqueId", "", "");
    if Lists(names, ACCOUNTS, s0) {
      FilteredId(s0, ACCOUNTS, names);
    }
    if rv < 0 {
      return;
    }
    all := All(s0, ACCOUNTS, names);
    ReadAll(nm, pass, s0, names);
    PassStarts(nm, pass, dbAll, s0, h0);
    var i := 0;
    while i < |dbAll|
      invariant i <= |dbAll| && Passed(nm, pass, dbAll, i, changes, s0, h0, mgr.store, mgr.history)
      invariant mgr.unlockFailures >= old(mgr.unlockFailures)
      invariant mgr.unlockFailures == old(mgr.unlockFailures) ==> mgr.locks == old(mgr.locks)
      invariant |mgr.errors| >= |old(mgr.errors)|
      invariant old(mgr.answers) == [] && old(mgr.locks) == {} ==>
                  mgr.answers == [] && mgr.locks == {} && |mgr.errors| == |old(mgr.errors)|
    {
      ghost var s, h, part := mgr.store, mgr.history, [];
      rv, part := SetUserIdOf(mgr, dbAll[i]);
      if rv < 0 {
        DidMore(s0, h0, changes, s, h, part, mgr.store, mgr.history);
        PassStopped(nm, pass, s0, rv, all, dbAll, i, part);
        changes := changes + part;
        return;
      }
      ghost var k, before := i, changes;
      i, changes := i + 1, changes + part;
      PassGoesOn(nm, pass, dbAll, k, before, s0, h0, s, h, part, mgr.store, mgr.history, i, changes);
    }
    rv := 0;
    PassDone(nm, pass, s0, rv, all, dbAll, changes, h0, mgr.store, mgr.history);
  }

  /** One turn of the loop in `AB_Banking_Update_Account_SetBackendName` */
  method SetBackendNameOf(mgr: ConfigMgr, e: Entry) returns (rv: int, ghost changes: seq<StoreOp>)
    modifies mgr
    ensures Did(old(mgr.store), old(mgr.history), changes, mgr.store, mgr.history)
    ensures changes <= OpsOf(Kind(mgr, ACCOUNTS), Rewrite(SetBackend), e)
    ensures rv >= 0 ==> changes == OpsOf(Kind(mgr, ACCOUNTS), Rewrite(SetBackend), e)
    ensures mgr.unlockFailures >= old(mgr.unlockFailures)
    ensures mgr.unlockFailures == old(mgr.unlockFailures) ==> mgr.locks == old(mgr.locks)
    ensures |mgr.errors| >= |old(mgr.errors)| && (rv >= 0 <==> |mgr.errors| == |old(mgr.errors)|)
    ensures old(mgr.answers) == [] && old(mgr.locks) == {} ==>
              mgr.answers == [] && mgr.locks == {} && |mgr.errors| == |old(mgr.errors)|
  {
    rv, changes := 0, [];
    DidNothing(mgr.store, mgr.history);
    var uid := U32(GetInt(e.db, "uniqueId", 0));
    if uid != 0 {
      var db := e.db;
      var s := GetChar(db, "backendName", 0);
      if s == None {
        s := GetChar(db, "provider", 0);
        if s.Some? && s.value != "" {
          db := SetChar(db, "backendName", s.value);
          db := DeleteVar(db, "provider");
        }
      }
      ghost var w := Write((ACCOUNTS, mgr.derive(ACCOUNTS, uid)), db);
      DidOne(mgr.store, mgr.history, w);
      rv := WriteConfigGroup(mgr, ACCOUNTS, uid, db);
      if mgr.history != old(mgr.history) {
        changes := [w];
      }
    }
  }

  method UpdateAccountSetBackendName(mgr: ConfigMgr)
    returns (rv: int, ghost all: seq<Entry>, ghost changes: seq<StoreOp>)
    modifies mgr
    ensures Did(old(mgr.store), old(mgr.history), changes, mgr.store, mgr.history)
    ensures PassEnds(Kind(mgr, ACCOUNTS), Rewrite(SetBackend), old(mgr.store), rv, all, changes)
    ensures mgr.unlockFailures >= old(mgr.unlockFailures)
    ensures mgr.unlockFailures == old(mgr.unlockFailures) ==> mgr.locks == old(mgr.locks)
    ensures |mgr.errors| >= |old(mgr.errors)| && (rv == 0 ==> SomeId(ACCOUNTS, old(mgr.store)))
    ensures |mgr.errors| == |old(mgr.errors)| && SomeId(ACCOUNTS, old(mgr.store)) ==> rv == 0
    ensures old(mgr.answers) == [] && old(mgr.locks) == {} ==>
              mgr.answers == [] && mgr.locks == {} && |mgr.errors| == |old(mgr.errors)|
  {
    ghost var nm, pass, s0, h0 := Kind(mgr, ACCOUNTS), Rewrite(SetBackend), mgr.store, mgr.history;
    all, changes := [], [];
    DidNothing(s0, h0);
    var dbAll;
    ghost var names;
    rv, dbAll, names := ReadConfigGroups(mgr, ACCOUNTS, "uniqueId", "", "");
    if Lists(names, ACCOUNTS, s0) {
      FilteredId(s0, ACCOUNTS, names);
    }
    if rv < 0 {
      return;
    }
    all := All(s0, ACCOUNTS, names);
    ReadAll(nm, pass, s0, names);
    PassStarts(nm, pass, dbAll, s0, h0);
    var i := 0;
    while i < |dbAll|
      invariant i <= |dbAll| && Passed(nm, pass, dbAll, i, changes, s0, h0, mgr.store, mgr.history)
      invariant mgr.unlockFailures >= old(mgr.unlockFailures)
      invariant mgr.unlockFailures == old(mgr.unlockFailures) ==> mgr.locks == old(mgr.locks)
      invariant |mgr.errors| >= |old(mgr.errors)|
      invariant old(mgr.answers) == [] && old(mgr.locks) == {} ==>
                  mgr.answers == [] && mgr.locks == {} && |mgr.errors| == |old(mgr.errors)|
    {
      ghost var s, h, part := mgr.store, mgr.history, [];
      rv, part := SetBackendNameOf(mgr, dbAll[i]);
      if rv < 0 {
        DidMore(s0, h0, changes, s, h, part, mgr.store, mgr.history);
        PassStopped(nm, pass, s0, rv, all, dbAll, i, part);
        changes := changes + part;
        return;
      }
      ghost var k, before := i, changes;
      i, changes := i + 1, changes + part;
      PassGoesOn(nm, pass, dbAll, k, before, s0, h0, s, h, part, mgr.store, mgr.history, i, changes);
    }
    rv := 0;
    PassDone(nm, pass, s0, rv, all, dbAll, changes, h0, mgr.store, mgr.history);
  }

  /** A use of a backend in which it is given nothing to send */
  function Visit(name: string): seq<Event> {
    [Begun(name), Ended(name)]
  }

  /** What the line holds of each backend that was used, in order. */
  lemma {:induction false} EventsOfBackend(names: seq<string>, i: nat)
    requires i < |names|
    ensures |FlatMap(Visit, names)| == 2 * |names|
    ensures FlatMap(Visit, names)[2 * i] == Begun(names[i]) && FlatMap(Visit, names)[2 * i + 1] == Ended(names[i])
  {
    var n := |names| - 1;
    assert names == names[..n] + [names[n]];
    FlatMapSnoc(Visit, names[..n], names[n]);
    if n > 0 {
      EventsOfBackend(names[..n], if i < n then i else 0);
    }
  }

  function CanVisit(backends: Backends): string -> bool {
    name => name in backends.builtIn
  }

  /** Begins and ends the use of every backend that is listed and compiled in, in order; one is passed over only
      for an error. Only settings of backends can change. */
  method UpdateBackendInitDeinit(mgr: ConfigMgr, backends: Backends, descrs: Option<seq<string>>, line: Line)
    returns (rv: int, ghost chosen: seq<bool>)
    modifies mgr, line
    ensures OthersKept(Kind(mgr, BACKENDS), old(mgr.store), mgr.store)
    ensures rv == if descrs == None then ERROR_INTERNAL else 0
    ensures match descrs
            case None => line.events == old(line.events)
            case Some(names) =>
              && |chosen| == |names| && line.events == old(line.events) + FlatMap(Visit, Kept(names, chosen))
              && UsedSoFar(names, |names|, chosen, CanVisit(backends), |mgr.errors| - |old(mgr.errors)|)
              && (|mgr.errors| == |old(mgr.errors)| ==>
                    line.events == old(line.events) + FlatMap(Visit, UsableOnes(names, CanVisit(backends))))
    ensures |mgr.errors| >= |old(mgr.errors)|
    ensures old(mgr.answers) == [] && old(mgr.locks) == {} ==>
              mgr.answers == [] && mgr.locks == {} && |mgr.errors| == |old(mgr.errors)|
    ensures mgr.unlockFailures >= old(mgr.unlockFailures)
    ensures mgr.unlockFailures == old(mgr.unlockFailures) ==> mgr.locks == old(mgr.locks)
  {
    chosen := [];
    if descrs == None {
      return ERROR_INTERNAL, chosen;
    }
    ghost var out, e, usable := line.events, |mgr.errors|, CanVisit(backends);
    var names, i := descrs.value, 0;
    UsingStarts(names, usable, Visit, out);
    while i < |names|
      invariant OthersKept(Kind(mgr, BACKENDS), old(mgr.store), mgr.store)
      invariant i <= |names| && Using(names, i, chosen, usable, |mgr.errors| - e, Visit, out, line.events)
      invariant |mgr.errors| >= |old(mgr.errors)|
      invariant old(mgr.answers) == [] && old(mgr.locks) == {} ==>
                  mgr.answers == [] && mgr.locks == {} && |mgr.errors| == |old(mgr.errors)|
      invariant mgr.unlockFailures >= old(mgr.unlockFailures)
      invariant mgr.unlockFailures == old(mgr.unlockFailures) ==> mgr.locks == old(mgr.locks)
    {
      ghost var k, chosen0, e0, events0 := i, chosen, |mgr.errors| - e, line.events;
      var pro := BeginUseProvider(mgr, backends, names[i], line);
      ghost var used := pro != null;
      if pro != null {
        var ignored := EndUseProvider(mgr, backends, pro, line);
      }
      i, chosen := i + 1, chosen + [used];
      UsingStep(names, k, chosen0, usable, e0, Visit, out, events0, used, i, chosen, |mgr.errors| - e, line.events);
    }
    UsingDone(names, i, chosen, usable, |mgr.errors| - e, Visit, out, line.events);
    return 0, chosen;
  }
}
