/** `AB_Banking_Update`: all passes of an update, one after the other, stopping at the first error. */
module UpdateRuns {
  import opened AccountUpdate
  import opened ConfigGroups
  import opened ConfigMgr
  import opened Db
  import opened Migration
  import opened Providers
  import opened Renaming
  import opened Rewriting
  import opened Seqs
  import opened Wrappers

  /** Version 5.99.2.0 */
  const LIMIT := 5 * 0x100_0000 + 99 * 0x1_0000 + 2 * 0x100

  /** The two kinds of groups that an update works on. */
  datatype Kinds = Kinds(accounts: Naming, users: Naming) {
    ghost predicate Valid() {
      accounts.group == ACCOUNTS && users.group == USERS
    }
  }

  ghost predicate Elsewhere(s0: Store, s: Store) {
    forall key: Key :: key.0 !in {ACCOUNTS, USERS, BACKENDS} ==>
      (key in s <==> key in s0) && (key in s ==> s[key] == s0[key])
  }

  /** No account and no user is lost, and other settings are untouched. */
  ghost predicate Safely(ks: Kinds, s0: Store, s: Store) {
    AllKept(ks.accounts, s0, s) && AllKept(ks.users, s0, s) && Elsewhere(s0, s)
  }

  /** Between two passes: the accounts have their names and changes so far, the users their old or their
      new names. */
  ghost predicate Stage(ks: Kinds, s0: Store, s: Store, change: Db -> Db, usersRenamed: bool) {
    && Hold(ks.accounts, s0, s, change)
    && (if usersRenamed then Hold(ks.users, s0, s, Same) else SameGroups(ks.users, s0, s))
    && Elsewhere(s0, s)
  }

  ghost predicate StoreReady(ks: Kinds, s0: Store) {
    ks.Valid() && Ready(ks.accounts, s0) && Ready(ks.users, s0)
  }

  // ---------- one pass ----------

  lemma RenamePass(nm: Naming, s0: Store, rv: int, all: seq<Entry>, changes: seq<StoreOp>, s: Store)
    requires Ready(nm, s0) && PassEnds(nm, Rename, s0, rv, all, changes) && s == ApplyAll(s0, changes)
    ensures AllKept(nm, s0, s) && OthersKept(nm, s0, s)
    ensures rv == 0 ==> Renamed(nm, s0, s)
  {
    if changes != [] || rv == 0 {
      ReadyClear(nm, s0, all);
      assert Ops(nm, Rename, all, |all|)[..|changes|] == changes;
      Renaming.NothingLost(nm, s0, all, |changes|);
      KeptWhenSafe(nm, s0, all, s);
      if rv == 0 {
        AfterMoves(nm, s0, all, |all|);
        StateAfter(nm, s0, all, |all|, s);
        RenamedWhenDone(nm, s0, all, s);
      }
    }
  }

  lemma RewritePass(nm: Naming, change: Db -> Db, s0: Store, rv: int, all: seq<Entry>, changes: seq<StoreOp>, s: Store)
    requires AtHomes(nm, s0) && PassEnds(nm, Rewrite(change), s0, rv, all, changes) && s == ApplyAll(s0, changes)
    ensures PartlyRewritten(nm, change, s0, s)
    ensures rv == 0 ==> Rewritten(nm, change, s0, s)
  {
    if changes != [] || rv == 0 {
      RewritingStops(nm, change, s0, all, changes);
    }
  }

  // ---------- the passes in order ----------

  lemma UntouchedKept(nm: Naming, s0: Store, s: Store)
    requires SameGroups(nm, s0, s)
    ensures AllKept(nm, s0, s)
  {
  }

  lemma AccountsRenaming(ks: Kinds, s0: Store, rv: int, all: seq<Entry>, changes: seq<StoreOp>, s: Store)
    requires StoreReady(ks, s0) && PassEnds(ks.accounts, Rename, s0, rv, all, changes) && s == ApplyAll(s0, changes)
    ensures Safely(ks, s0, s)
    ensures rv == 0 ==> Stage(ks, s0, s, Same, false)
  {
    RenamePass(ks.accounts, s0, rv, all, changes, s);
    UntouchedKept(ks.users, s0, s);
    if rv == 0 {
      HoldWhenRenamed(ks.accounts, s0, s);
    }
  }

  lemma ReadyKept(nm: Naming, s0: Store, s: Store)
    requires Ready(nm, s0) && SameGroups(nm, s0, s)
    ensures Ready(nm, s)
  {
  }

  lemma UsersAgain(nm: Naming, s0: Store, s: Store, s': Store)
    requires SameGroups(nm, s0, s)
    ensures AllKept(nm, s, s') ==> AllKept(nm, s0, s')
    ensures Hold(nm, s, s', Same) ==> Hold(nm, s0, s', Same)
  {
    if AllKept(nm, s, s') {
      forall n | Stored(nm, s0, n) ensures StillThere(nm, s', n, s0[(nm.group, n)]) {
        assert StillThere(nm, s', n, s[(nm.group, n)]);
      }
    }
    if Hold(nm, s, s', Same) {
      forall n | Stored(nm, s0, n)
        ensures Has(s', (nm.group, HomeOf(nm, s0, n)), Now(Same, s0[(nm.group, n)]))
      {
        assert Has(s', (nm.group, HomeOf(nm, s, n)), Now(Same, s[(nm.group, n)]));
      }
      forall n | Stored(nm, s', n) ensures exists n0 :: Stored(nm, s0, n0) && n == HomeOf(nm, s0, n0) {
        var n0 :| Stored(nm, s, n0) && n == HomeOf(nm, s, n0);
        assert n == HomeOf(nm, s0, n0);
      }
    }
  }

  lemma UsersRenaming(ks: Kinds, s0: Store, s: Store, rv: int, all: seq<Entry>, changes: seq<StoreOp>, s': Store)
    requires StoreReady(ks, s0) && Stage(ks, s0, s, Same, false)
    requires PassEnds(ks.users, Rename, s, rv, all, changes) && s' == ApplyAll(s, changes)
    ensures Safely(ks, s0, s')
    ensures rv == 0 ==> Stage(ks, s0, s', Same, true)
  {
    ReadyKept(ks.users, s0, s);
    RenamePass(ks.users, s, rv, all, changes, s');
    UsersAgain(ks.users, s0, s, s');
    HoldKept(ks.accounts, s0, s, Same, s');
    KeptWhenHeld(ks.accounts, s0, s', Same);
    if rv == 0 {
      HoldWhenRenamed(ks.users, s, s');
    }
  }

  lemma IdsKept()
    ensures KeepsIds(Same) && KeepsIds(SetUser) && KeepsIds(Updated)
  {
    forall db: Db ensures IdOf(SetUser(db)) == IdOf(db) && IdOf(Updated(db)) == IdOf(db) {
      UpdatedAccount(db);
    }
  }

  lemma AccountsRewriting(ks: Kinds, s0: Store, s: Store, f: Db -> Db, g: Db -> Db, gf: Db -> Db, rv: int,
                          all: seq<Entry>, changes: seq<StoreOp>, s': Store)
    requires ks.Valid() && Stage(ks, s0, s, f, true) && KeepsIds(f) && forall db: Db :: gf(db) == g(f(db))
    requires forall db: Db :: f(db) in {db, SetUser(db), Updated(db)} && gf(db) in {db, SetUser(db), Updated(db)}
    requires PassEnds(ks.accounts, Rewrite(g), s, rv, all, changes) && s' == ApplyAll(s, changes)
    ensures Safely(ks, s0, s')
    ensures rv == 0 ==> Stage(ks, s0, s', gf, true)
  {
    HoldAtHomes(ks.accounts, s0, s, f);
    RewritePass(ks.accounts, g, s, rv, all, changes, s');
    KeptWhenRewriting(ks.accounts, s0, s, f, g, s');
    HoldKept(ks.users, s0, s, Same, s');
    KeptWhenHeld(ks.users, s0, s', Same);
    if rv == 0 {
      HoldRewritten(ks.accounts, s0, s, f, g, gf, s');
    }
  }

  lemma UserIdsSetting(ks: Kinds, s0: Store, s: Store, rv: int, all: seq<Entry>, changes: seq<StoreOp>, s': Store)
    requires ks.Valid() && Stage(ks, s0, s, Same, true)
    requires PassEnds(ks.accounts, Rewrite(SetUser), s, rv, all, changes) && s' == ApplyAll(s, changes)
    ensures Safely(ks, s0, s')
    ensures rv == 0 ==> Stage(ks, s0, s', SetUser, true)
  {
    IdsKept();
    AccountsRewriting(ks, s0, s, Same, SetUser, SetUser, rv, all, changes, s');
  }

  lemma BackendNamesSetting(ks: Kinds, s0: Store, s: Store, rv: int, all: seq<Entry>, changes: seq<StoreOp>, s': Store)
    requires ks.Valid() && Stage(ks, s0, s, SetUser, true)
    requires PassEnds(ks.accounts, Rewrite(SetBackend), s, rv, all, changes) && s' == ApplyAll(s, changes)
    ensures Safely(ks, s0, s')
    ensures rv == 0 ==> Stage(ks, s0, s', Updated, true)
  {
    IdsKept();
    AccountsRewriting(ks, s0, s, SetUser, SetBackend, Updated, rv, all, changes, s');
  }

  lemma BackendsRunning(ks: Kinds, back: Naming, s0: Store, s: Store, s': Store)
    requires ks.Valid() && back.group == BACKENDS
    requires Stage(ks, s0, s, Updated, true) && OthersKept(back, s, s')
    ensures Stage(ks, s0, s', Updated, true)
    ensures Safely(ks, s0, s')
  {
    HoldKept(ks.accounts, s0, s, Updated, s');
    HoldKept(ks.users, s0, s, Same, s');
    KeptWhenHeld(ks.accounts, s0, s', Updated);
    KeptWhenHeld(ks.users, s0, s', Same);
  }

  lemma UidsKept()
    ensures LeavesIds(Rewrite(SetUser)) && LeavesIds(Rewrite(SetBackend))
  {
    forall db: Db
      ensures GetInt(SetUser(db), UNIQUEID, 0) == GetInt(db, UNIQUEID, 0) == GetInt(SetBackend(db), UNIQUEID, 0)
    {
    }
  }

  // ---------- the code ----------

  function KindsOf(mgr: ConfigMgr): Kinds {
    Kinds(Kind(mgr, ACCOUNTS), Kind(mgr, USERS))
  }

  method UpdateUserList(mgr: ConfigMgr) returns (rv: int, ghost all: seq<Entry>, ghost changes: seq<StoreOp>)
    modifies mgr
    ensures mgr.store == ApplyAll(old(mgr.store), changes)
    ensures PassEnds(Kind(mgr, USERS), Rename, old(mgr.store), rv, all, changes)
    ensures mgr.unlockFailures >= old(mgr.unlockFailures)
    ensures mgr.unlockFailures == old(mgr.unlockFailures) ==> mgr.locks == old(mgr.locks)
    ensures |mgr.errors| >= |old(mgr.errors)| && (rv == 0 ==> SomeId(USERS, old(mgr.store)))
    ensures |mgr.errors| == |old(mgr.errors)| && SomeId(USERS, old(mgr.store)) ==> rv == 0
    ensures old(mgr.answers) == [] && old(mgr.locks) == {} ==>
              mgr.answers == [] && mgr.locks == {} && |mgr.errors| == |old(mgr.errors)|
  {
    rv, all, changes := UpdateConfList(mgr, USERS);
  }

  method UpdateAccountList(mgr: ConfigMgr) returns (rv: int, ghost all: seq<Entry>, ghost changes: seq<StoreOp>)
    modifies mgr
    ensures mgr.store == ApplyAll(old(mgr.store), changes)
    ensures PassEnds(Kind(mgr, ACCOUNTS), Rename, old(mgr.store), rv, all, changes)
    ensures mgr.unlockFailures >= old(mgr.unlockFailures)
    ensures mgr.unlockFailures == old(mgr.unlockFailures) ==> mgr.locks == old(mgr.locks)
    ensures |mgr.errors| >= |old(mgr.errors)| && (rv == 0 ==> SomeId(ACCOUNTS, old(mgr.store)))
    ensures |mgr.errors| == |old(mgr.errors)| && SomeId(ACCOUNTS, old(mgr.store)) ==> rv == 0
    ensures old(mgr.answers) == [] && old(mgr.locks) == {} ==>
              mgr.answers == [] && mgr.locks == {} && |mgr.errors| == |old(mgr.errors)|
  {
    rv, all, changes := UpdateConfList(mgr, ACCOUNTS);
  }

  /** The renaming passes of `AB_Banking_Update` */
  method UpdateGroupNames(mgr: ConfigMgr) returns (rv: int)
    modifies mgr
    ensures rv <= 0
    ensures StoreReady(KindsOf(mgr), old(mgr.store)) ==> Safely(KindsOf(mgr), old(mgr.store), mgr.store)
    ensures StoreReady(KindsOf(mgr), old(mgr.store)) && rv == 0
            ==> Stage(KindsOf(mgr), old(mgr.store), mgr.store, Same, true)
    ensures mgr.unlockFailures >= old(mgr.unlockFailures)
    ensures mgr.unlockFailures == old(mgr.unlockFailures) ==> mgr.locks == old(mgr.locks)
    ensures |mgr.errors| >= |old(mgr.errors)|
    ensures rv == 0 ==> SomeId(ACCOUNTS, old(mgr.store)) && SomeId(USERS, old(mgr.store)) && SomeId(ACCOUNTS, mgr.store)
    ensures |mgr.errors| == |old(mgr.errors)| && SomeId(ACCOUNTS, old(mgr.store)) && SomeId(USERS, old(mgr.store))
            ==> rv == 0
    ensures old(mgr.answers) == [] && old(mgr.locks) == {} ==>
              mgr.answers == [] && mgr.locks == {} && |mgr.errors| == |old(mgr.errors)|
  {
    ghost var ks, s0, all, changes := KindsOf(mgr), mgr.store, [], [];
    ghost var ready := StoreReady(ks, s0);
    rv, all, changes := UpdateAccountList(mgr);
    if ready {
      AccountsRenaming(ks, s0, rv, all, changes, mgr.store);
    }
    if rv < 0 {
      return;
    }
    ghost var s := mgr.store;
    PassLeavesIds(ks.accounts, Rename, s0, rv, all, changes, s);
    rv, all, changes := UpdateUserList(mgr);
    if ready {
      UsersRenaming(ks, s0, s, rv, all, changes, mgr.store);
    }
    if rv == 0 {
      PassLeavesIds(ks.users, Rename, s, rv, all, changes, mgr.store);
    }
  }

  /** The rewriting passes of `AB_Banking_Update`, for a store that came from `s0` by renaming */
  method UpdateAccountContents(mgr: ConfigMgr, ghost s0: Store) returns (rv: int)
    modifies mgr
    ensures rv <= 0
    ensures Stage(KindsOf(mgr), s0, old(mgr.store), Same, true) ==> Safely(KindsOf(mgr), s0, mgr.store)
    ensures Stage(KindsOf(mgr), s0, old(mgr.store), Same, true) && rv == 0
            ==> Stage(KindsOf(mgr), s0, mgr.store, Updated, true)
    ensures mgr.unlockFailures >= old(mgr.unlockFailures)
    ensures mgr.unlockFailures == old(mgr.unlockFailures) ==> mgr.locks == old(mgr.locks)
    ensures |mgr.errors| >= |old(mgr.errors)|
    ensures |mgr.errors| == |old(mgr.errors)| && SomeId(ACCOUNTS, old(mgr.store)) ==> rv == 0
    ensures old(mgr.answers) == [] && old(mgr.locks) == {} ==>
              mgr.answers == [] && mgr.locks == {} && |mgr.errors| == |old(mgr.errors)|
  {
    ghost var ks, s, all, changes := KindsOf(mgr), mgr.store, [], [];
    ghost var ready := Stage(ks, s0, s, Same, true);
    rv, all, changes := UpdateAccountSetUserId(mgr);
    if ready {
      UserIdsSetting(ks, s0, s, rv, all, changes, mgr.store);
    }
    if rv < 0 {
      return;
    }
    UidsKept();
    PassLeavesIds(ks.accounts, Rewrite(SetUser), s, rv, all, changes, mgr.store);
    s := mgr.store;
    rv, all, changes := UpdateAccountSetBackendName(mgr);
    if ready {
      BackendNamesSetting(ks, s0, s, rv, all, changes, mgr.store);
    }
  }

  lemma Untouched(ks: Kinds, s: Store)
    requires ks.Valid()
    ensures Safely(ks, s, s)
  {
    UntouchedKept(ks.accounts, s, s);
    UntouchedKept(ks.users, s, s);
  }

  /** Every backend on the list that is compiled in was used once, in order, unless an error of its own stopped it;
      if there was none, all of them were. */
  ghost predicate Visited(out: seq<Event>, events: seq<Event>, names: seq<string>, backends: Backends, errors: int) {
    && (exists chosen :: UsedSoFar(names, |names|, chosen, CanVisit(backends), errors)
                         && events == out + FlatMap(Visit, Kept(names, chosen)))
    && (errors == 0 ==> events == out + FlatMap(Visit, UsableOnes(names, CanVisit(backends))))
  }

  lemma VisitedMore(out: seq<Event>, events: seq<Event>, names: seq<string>, backends: Backends, chosen: seq<bool>,
                    errors: int, errors': int)
    requires UsedSoFar(names, |names|, chosen, CanVisit(backends), errors) && 0 <= errors <= errors'
    requires events == out + FlatMap(Visit, Kept(names, chosen))
    requires errors == 0 ==> events == out + FlatMap(Visit, UsableOnes(names, CanVisit(backends)))
    ensures Visited(out, events, names, backends, errors')
  {
    assert UsedSoFar(names, |names|, chosen, CanVisit(backends), errors');
  }

  /** What a successful update did to one account, in plain terms: it is under its derived name with its new
      variables, and no other name has a group with its id. */
  lemma UpdatedAccountStored(ks: Kinds, s0: Store, s: Store, n: string, db: Db, key: Key)
    requires Stage(ks, s0, s, Updated, true) && Has(s0, (ks.accounts.group, n), db) && IdOf(db) != 0
    requires key == (ks.accounts.group, ks.accounts.Name(db))
    ensures key in s
    ensures GetInt(s[key], "userId", 0) == GetInt(db, "user", 0)
    ensures GetChar(s[key], "backendName", 0) == BackendOf(db)
    ensures "user" !in s[key] && "selectedUser" !in s[key]
    ensures forall name :: name !in TOUCHED ==> Values(s[key], name) == Values(db, name)
    ensures forall m :: Stored(ks.accounts, s, m) && IdOf(s[(ks.accounts.group, m)]) == IdOf(db) ==> m == key.1
  {
    UpdatedAccount(db);
    assert Stored(ks.accounts, s0, n);
    assert Has(s, (ks.accounts.group, HomeOf(ks.accounts, s0, n)), Now(Updated, db));
    forall m | Stored(ks.accounts, s, m) && IdOf(s[(ks.accounts.group, m)]) == IdOf(db) ensures m == key.1 {
      IdAtHome(ks.accounts, s0, s, m);
    }
  }

  lemma IdAtHome(nm: Naming, s0: Store, s: Store, m: string)
    requires Hold(nm, s0, s, Updated) && Stored(nm, s, m) && IdOf(s[(nm.group, m)]) != 0
    ensures m == nm.Name(s[(nm.group, m)])
  {
    var n0 :| Stored(nm, s0, n0) && m == HomeOf(nm, s0, n0);
    assert Has(s, (nm.group, HomeOf(nm, s0, n0)), Now(Updated, s0[(nm.group, n0)]));
    UpdatedAccount(s0[(nm.group, n0)]);
  }

  /** Every account with an id is under the name derived from it, has its old user as userId, names its backend
      by the new variable, and has nothing left of the old ones. Accounts without an id stay as they are. */
  ghost predicate AccountsUpdated(derive: (string, nat) -> string, s0: Store, s: Store) {
    && (forall n :: ("accounts", n) in s0 && U32(GetInt(s0[("accounts", n)], "uniqueId", 0)) == 0 ==>
          ("accounts", n) in s && s[("accounts", n)] == s0[("accounts", n)])
    && (forall n :: ("accounts", n) in s0 && U32(GetInt(s0[("accounts", n)], "uniqueId", 0)) != 0 ==>
          var db := s0[("accounts", n)];
          var key := ("accounts", derive("accounts", U32(GetInt(db, "uniqueId", 0))));
          && key in s && GetInt(s[key], "userId", 0) == GetInt(db, "user", 0)
          && "user" !in s[key] && "selectedUser" !in s[key]
          && GetChar(s[key], "backendName", 0)
             == match (GetChar(db, "backendName", 0), GetChar(db, "provider", 0))
                case (Some(b), _) => Some(b)
                case (None, Some(p)) => if p != "" then Some(p) else None
                case _ => None)
  }

  /** Every user with an id is under the name derived from it, and every other one where it was, with its contents as
      they were. */
  ghost predicate UsersRenamed(derive: (string, nat) -> string, s0: Store, s: Store) {
    forall n :: ("users", n) in s0 ==>
      var id := U32(GetInt(s0[("users", n)], "uniqueId", 0));
      var key := ("users", if id == 0 then n else derive("users", id));
      key in s && s[key] == s0[("users", n)]
  }

  ghost predicate GroupsUpdated(derive: (string, nat) -> string, s0: Store, s: Store) {
    AccountsUpdated(derive, s0, s) && UsersRenamed(derive, s0, s)
  }

  lemma StageRead(ks: Kinds, s0: Store, s: Store)
    requires ks.Valid() && ks.accounts.derive == ks.users.derive && Stage(ks, s0, s, Updated, true)
    ensures GroupsUpdated(ks.accounts.derive, s0, s)
  {
    forall n | ("accounts", n) in s0 && U32(GetInt(s0[("accounts", n)], "uniqueId", 0)) != 0
      ensures var db := s0[("accounts", n)];
              var key := ("accounts", ks.accounts.derive("accounts", U32(GetInt(db, "uniqueId", 0))));
              && key in s && GetInt(s[key], "userId", 0) == GetInt(db, "user", 0)
              && "user" !in s[key] && "selectedUser" !in s[key]
              && GetChar(s[key], "backendName", 0) == BackendOf(db)
    {
      var db := s0[("accounts", n)];
      UpdatedAccountStored(ks, s0, s, n, db, (ks.accounts.group, ks.accounts.Name(db)));
    }
    forall n | ("accounts", n) in s0 && U32(GetInt(s0[("accounts", n)], "uniqueId", 0)) == 0
      ensures ("accounts", n) in s && s[("accounts", n)] == s0[("accounts", n)]
    {
      WithoutId(ks.accounts, s0, s, n);
    }
    UsersRead(ks.users, s0, s);
  }

  lemma WithoutId(nm: Naming, s0: Store, s: Store, n: string)
    requires Hold(nm, s0, s, Updated) && Stored(nm, s0, n) && IdOf(s0[(nm.group, n)]) == 0
    ensures Has(s, (nm.group, n), s0[(nm.group, n)])
  {
    assert Has(s, (nm.group, HomeOf(nm, s0, n)), Now(Updated, s0[(nm.group, n)]));
  }

  lemma UsersRead(nm: Naming, s0: Store, s: Store)
    requires nm.group == USERS && Hold(nm, s0, s, Same)
    ensures UsersRenamed(nm.derive, s0, s)
  {
    forall n | ("users", n) in s0
      ensures var id := U32(GetInt(s0[("users", n)], "uniqueId", 0));
              var key := ("users", if id == 0 then n else nm.derive("users", id));
              key in s && s[key] == s0[("users", n)]
    {
      assert Stored(nm, s0, n);
      assert Has(s, (nm.group, HomeOf(nm, s0, n)), Now(Same, s0[(nm.group, n)]));
    }
  }

  /** The last step of `AB_Banking_Update`, for a store that came from `s0`; there were `errors` at the start. */
  method RunBackends(mgr: ConfigMgr, backends: Backends, descrs: Option<seq<string>>, line: Line, ghost s0: Store,
                     ghost errors: nat)
    returns (rv: int)
    requires errors <= |mgr.errors|
    modifies mgr, line
    ensures rv <= 0 && (rv == 0 <==> descrs.Some?) && |mgr.errors| >= |old(mgr.errors)|
    ensures Stage(KindsOf(mgr), s0, old(mgr.store), Updated, true) ==>
              && Stage(KindsOf(mgr), s0, mgr.store, Updated, true) && Safely(KindsOf(mgr), s0, mgr.store)
              && GroupsUpdated(mgr.derive, s0, mgr.store)
    ensures match descrs
            case None => line.events == old(line.events)
            case Some(names) => Visited(old(line.events), line.events, names, backends, |mgr.errors| - errors)
    ensures old(mgr.answers) == [] && old(mgr.locks) == {} ==>
              mgr.answers == [] && mgr.locks == {} && |mgr.errors| == |old(mgr.errors)|
    ensures mgr.unlockFailures >= old(mgr.unlockFailures)
    ensures mgr.unlockFailures == old(mgr.unlockFailures) ==> mgr.locks == old(mgr.locks)
  {
    hide Safely, Stage, Visited, FlatMap, UsableOnes, OthersKept, UsedSoFar, GroupsUpdated;
    ghost var ks, s, chosen := KindsOf(mgr), mgr.store, [];
    rv, chosen := UpdateBackendInitDeinit(mgr, backends, descrs, line);
    if descrs.Some? {
      VisitedMore(old(line.events), line.events, descrs.value, backends, chosen, |mgr.errors| - |old(mgr.errors)|,
                  |mgr.errors| - errors);
    }
    if Stage(ks, s0, s, Updated, true) {
      BackendsRunning(ks, Kind(mgr, BACKENDS), s0, s, mgr.store);
      StageRead(ks, s0, mgr.store);
    }
  }

  /** There are an account and a user with an id, and the backends can be listed. */
  ghost predicate Updatable(s: Store, descrs: Option<seq<string>>) {
    SomeId(ACCOUNTS, s) && SomeId(USERS, s) && descrs.Some?
  }

  /** Whatever fails, no account and no user is lost. A successful update of an old version leaves every
      account and every user under its derived name, the accounts with all changes made, and nothing
      else besides. Even if nothing fails, it takes at least one account and one user with an id. */
  method Update(mgr: ConfigMgr, backends: Backends, descrs: Option<seq<string>>, lastVersion: nat, line: Line)
    returns (rv: int)
    modifies mgr, line
    ensures rv == 0 && lastVersion < LIMIT ==>
              descrs.Some?
              && Visited(old(line.events), line.events, descrs.value, backends, |mgr.errors| - |old(mgr.errors)|)
    ensures rv < 0 || lastVersion >= LIMIT ==> line.events == old(line.events)
    ensures rv <= 0 && (lastVersion >= LIMIT ==> rv == 0 && mgr.store == old(mgr.store))
    ensures StoreReady(KindsOf(mgr), old(mgr.store)) ==> Safely(KindsOf(mgr), old(mgr.store), mgr.store)
    ensures StoreReady(KindsOf(mgr), old(mgr.store)) && rv == 0 && lastVersion < LIMIT
            ==> && Stage(KindsOf(mgr), old(mgr.store), mgr.store, Updated, true)
                && GroupsUpdated(mgr.derive, old(mgr.store), mgr.store)
    ensures |mgr.errors| >= |old(mgr.errors)|
    ensures rv == 0 && lastVersion < LIMIT ==> Updatable(old(mgr.store), descrs)
    ensures |mgr.errors| == |old(mgr.errors)| && Updatable(old(mgr.store), descrs) ==> rv == 0
    ensures old(mgr.answers) == [] && old(mgr.locks) == {} ==>
              mgr.answers == [] && mgr.locks == {} && |mgr.errors| == |old(mgr.errors)|
    ensures mgr.unlockFailures >= old(mgr.unlockFailures)
    ensures mgr.unlockFailures == old(mgr.unlockFailures) ==> mgr.locks == old(mgr.locks)
  {
    ghost var ks, s0 := KindsOf(mgr), mgr.store;
    Untouched(ks, s0);
    hide Safely, Stage, StoreReady, SomeId, Visited, FlatMap, UsableOnes, OthersKept, GroupsUpdated, KindsOf;
    if lastVersion >= LIMIT {
      return 0;
    }
    rv := UpdateGroupNames(mgr);
    if rv < 0 {
      return;
    }
    rv := UpdateAccountContents(mgr, s0);
    if rv < 0 {
      return;
    }
    rv := RunBackends(mgr, backends, descrs, line, s0, |old(mgr.errors)|);
  }

  // ---------- a second run ----------

  lemma BackendKeepsIds()
    ensures KeepsIds(SetBackend)
  {
  }

  lemma AtHomesReady(nm: Naming, s: Store, s1: Store, change: Db -> Db)
    requires AtHomes(nm, s) && KeepsIds(change)
    requires forall key :: key in s1 <==> key in s
    requires forall key :: key in s ==> s1[key] == s[key] || s1[key] == change(s[key])
    ensures Ready(nm, s1)
  {
    forall n | Stored(nm, s1, n) ensures !nm.Misplaced(EntryOf(nm, s1, n)) {
      assert Stored(nm, s, n) && n == HomeOf(nm, s, n);
      assert IdOf(change(s[(nm.group, n)])) == IdOf(s[(nm.group, n)]);
    }
  }

  /** An update has set the user ids and got to the store `s1`: it stopped while setting backend names, or
      later while it ran the backends, or came to its end. */
  ghost predicate UserIdsWereSet(ks: Kinds, s0: Store, s1: Store) {
    || Stage(ks, s0, s1, Updated, true)
    || exists s: Store :: Stage(ks, s0, s, SetUser, true) && PartlyRewritten(ks.accounts, SetBackend, s, s1)
  }

  /** Its names are in order, so that the next update loses no account and no user either. */
  lemma ReadyAgain(ks: Kinds, s0: Store, s1: Store)
    requires ks.Valid() && UserIdsWereSet(ks, s0, s1)
    ensures StoreReady(ks, s1)
  {
    IdsKept();
    BackendKeepsIds();
    if Stage(ks, s0, s1, Updated, true) {
      HoldAtHomes(ks.accounts, s0, s1, Updated);
      HoldAtHomes(ks.users, s0, s1, Same);
      AtHomesReady(ks.accounts, s1, s1, Same);
      AtHomesReady(ks.users, s1, s1, Same);
    } else {
      var s: Store :| Stage(ks, s0, s, SetUser, true) && PartlyRewritten(ks.accounts, SetBackend, s, s1);
      HoldAtHomes(ks.accounts, s0, s, SetUser);
      HoldAtHomes(ks.users, s0, s, Same);
      AtHomesReady(ks.accounts, s, s1, SetBackend);
      AtHomesReady(ks.users, s, s1, SetBackend);
    }
  }

  lemma UserIdSet(ks: Kinds, s0: Store, s1: Store, n: string, home: string)
    requires UserIdsWereSet(ks, s0, s1)
    requires Stored(ks.accounts, s0, n) && IdOf(s0[(ks.accounts.group, n)]) != 0 && home == HomeOf(ks.accounts, s0, n)
    ensures var db := s0[(ks.accounts.group, n)];
            Has(s1, (ks.accounts.group, home), SetUser(db)) || Has(s1, (ks.accounts.group, home), Updated(db))
  {
    var db, key := s0[(ks.accounts.group, n)], (ks.accounts.group, home);
    UpdatedAccount(db);
    if Stage(ks, s0, s1, Updated, true) {
      assert Has(s1, key, Now(Updated, db));
    } else {
      var s: Store :| Stage(ks, s0, s, SetUser, true) && PartlyRewritten(ks.accounts, SetBackend, s, s1);
      assert Has(s, key, Now(SetUser, db));
    }
  }

  /** When an update has set the user ids, wherever it stopped behind that, and a later one succeeds, all
      accounts have lost their users. */
  lemma RepeatedUpdateForgetsUsers(ks: Kinds, s0: Store, s1: Store, s2: Store, n: string)
    requires UserIdsWereSet(ks, s0, s1)
    requires Stage(ks, s1, s2, Updated, true)
    requires Stored(ks.accounts, s0, n) && IdOf(s0[(ks.accounts.group, n)]) != 0
    ensures var key := (ks.accounts.group, ks.accounts.Name(s0[(ks.accounts.group, n)]));
            key in s2 && GetInt(s2[key], "userId", 0) == 0
  {
    var db := s0[(ks.accounts.group, n)];
    var home := HomeOf(ks.accounts, s0, n);
    var key := (ks.accounts.group, home);
    UpdatedAccount(db);
    UserIdSet(ks, s0, s1, n, home);
    var db1 := s1[key];
    assert GetInt(db1, "user", 0) == 0 && IdOf(db1) == IdOf(db);
    assert Stored(ks.accounts, s1, home) && HomeOf(ks.accounts, s1, home) == home;
    assert Has(s2, key, Now(Updated, db1));
    UpdatedAccount(db1);
  }
}
