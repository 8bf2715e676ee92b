/** What an update makes of the accounts and users of an old store, over all its passes, and what is still
    there when it stops in the middle. */
module AccountUpdate {
  import opened ConfigGroups
  import opened ConfigMgr
  import opened Db
  import opened Renaming
  import opened Rewriting
  import opened Wrappers

  /** `AB_Banking_Update_Account_SetUserId`, for one account */
  function SetUser(db: Db): Db {
    DeleteVar(DeleteVar(SetInt(db, "userId", GetInt(db, "user", 0)), "user"), "selectedUser")
  }

  /** `AB_Banking_Update_Account_SetBackendName`, for one account */
  function SetBackend(db: Db): Db {
    match (GetChar(db, "backendName", 0), GetChar(db, "provider", 0))
    case (None, Some(s)) => if s != "" then DeleteVar(SetChar(db, "backendName", s), "provider") else db
    case _ => db
  }

  function Updated(db: Db): Db {
    SetBackend(SetUser(db))
  }

  function Same(db: Db): Db {
    db
  }

  const TOUCHED := {"userId", "user", "selectedUser", "backendName", "provider"}

  /** The backend an account belongs to: by its new variable, else by the old one. */
  function BackendOf(db: Db): Option<string> {
    match GetChar(db, "backendName", 0)
    case Some(s) => Some(s)
    case None => if GetChar(db, "provider", 0) == Some("") then None else GetChar(db, "provider", 0)
  }

  /** An updated account has its old user and backend under the new names, and otherwise what it had. */
  lemma UpdatedAccount(db: Db)
    ensures var r := Updated(db);
            && GetInt(r, "userId", 0) == GetInt(db, "user", 0)
            && "user" !in r && "selectedUser" !in r
            && GetChar(r, "backendName", 0) == BackendOf(db) == BackendOf(r)
            && (match (GetChar(db, "backendName", 0), GetChar(db, "provider", 0))
                case (None, Some(s)) =>
                  if s != "" then "provider" !in r && Values(r, "backendName") == [CharValue(s)]
                  else Values(r, "provider") == Values(db, "provider")
                       && Values(r, "backendName") == Values(db, "backendName")
                case _ =>
                  Values(r, "provider") == Values(db, "provider")
                  && Values(r, "backendName") == Values(db, "backendName"))
            && (forall name :: name !in TOUCHED ==> Values(r, name) == Values(db, name))
            && IdOf(r) == IdOf(db) == IdOf(SetUser(db))
  {
    var u := SetUser(db);
    assert forall name :: name !in {"userId", "user", "selectedUser"} ==> Values(u, name) == Values(db, name);
  }

  /** Setting the user id again finds no "user" any more: it changes the account unless the user was 0, and
      then the user is forgotten. */
  lemma SecondSetUserForgets(db: Db)
    ensures SetUser(SetUser(db)) == SetUser(db) <==> GetInt(db, "user", 0) == 0
    ensures GetInt(SetUser(SetUser(db)), "userId", 0) == 0
    ensures Updated(Updated(db)) == Updated(db) <==> GetInt(db, "user", 0) == 0
  {
    var u := SetUser(db);
    assert "user" !in u && GetInt(u, "user", 0) == 0;
    assert GetInt(u, "userId", 0) == GetInt(db, "user", 0);
    UpdatedAccount(db);
    UpdatedAccount(Updated(db));
    if GetInt(db, "user", 0) == 0 {
      assert SetUser(u) == u;
      SetUserOfUpdated(db);
      assert SetBackend(Updated(db)) == Updated(db);
    }
  }

  lemma SetUserOfUpdated(db: Db)
    requires GetInt(db, "user", 0) == 0
    ensures SetUser(Updated(db)) == Updated(db)
  {
    var r := Updated(db);
    UpdatedAccount(db);
    assert "userId" in r && r["userId"] == [IntValue(0)];
  }

  // ---------- all groups of a kind ----------

  /** Contents after the passes so far; groups without an id are never touched. */
  function Now(change: Db -> Db, db: Db): Db {
    if IdOf(db) == 0 then db else change(db)
  }

  /** The groups of a kind are those of `s0`, each once, where it belongs and with its contents changed. */
  ghost predicate Hold(nm: Naming, s0: Store, s: Store, change: Db -> Db) {
    && (forall n :: Stored(nm, s0, n) ==> Has(s, (nm.group, HomeOf(nm, s0, n)), Now(change, s0[(nm.group, n)])))
    && (forall n :: Stored(nm, s, n) ==> exists n0 :: Stored(nm, s0, n0) && n == HomeOf(nm, s0, n0))
  }

  ghost predicate SameGroups(nm: Naming, s: Store, s': Store) {
    forall n :: (Stored(nm, s, n) <==> Stored(nm, s', n))
                && (Stored(nm, s, n) ==> s'[(nm.group, n)] == s[(nm.group, n)])
  }

  lemma HoldWhenRenamed(nm: Naming, s0: Store, s: Store)
    requires Renamed(nm, s0, s)
    ensures Hold(nm, s0, s, Same)
  {
  }

  lemma HoldKept(nm: Naming, s0: Store, s: Store, change: Db -> Db, s': Store)
    requires Hold(nm, s0, s, change) && SameGroups(nm, s, s')
    ensures Hold(nm, s0, s', change)
  {
    forall n | Stored(nm, s0, n)
      ensures Has(s', (nm.group, HomeOf(nm, s0, n)), Now(change, s0[(nm.group, n)]))
    {
      assert Has(s, (nm.group, HomeOf(nm, s0, n)), Now(change, s0[(nm.group, n)]));
    }
  }

  ghost predicate KeepsIds(change: Db -> Db) {
    forall db: Db :: IdOf(change(db)) == IdOf(db)
  }

  lemma HoldRewritten(nm: Naming, s0: Store, s: Store, f: Db -> Db, g: Db -> Db, gf: Db -> Db, s': Store)
    requires Hold(nm, s0, s, f) && Rewritten(nm, g, s, s')
    requires KeepsIds(f) && forall db: Db :: gf(db) == g(f(db))
    ensures Hold(nm, s0, s', gf)
  {
    forall n | Stored(nm, s0, n)
      ensures Has(s', (nm.group, HomeOf(nm, s0, n)), Now(gf, s0[(nm.group, n)]))
    {
      assert Has(s, (nm.group, HomeOf(nm, s0, n)), Now(f, s0[(nm.group, n)]));
      assert IdOf(f(s0[(nm.group, n)])) == IdOf(s0[(nm.group, n)]);
    }
    forall n | Stored(nm, s', n) ensures exists n0 :: Stored(nm, s0, n0) && n == HomeOf(nm, s0, n0) {
      assert Stored(nm, s, n);
    }
  }

  lemma HoldAtHomes(nm: Naming, s0: Store, s: Store, f: Db -> Db)
    requires Hold(nm, s0, s, f) && KeepsIds(f)
    ensures AtHomes(nm, s)
  {
    forall n | Stored(nm, s, n) ensures n == HomeOf(nm, s, n) {
      var n0 :| Stored(nm, s0, n0) && n == HomeOf(nm, s0, n0);
      assert Has(s, (nm.group, HomeOf(nm, s0, n0)), Now(f, s0[(nm.group, n0)]));
      assert IdOf(f(s0[(nm.group, n0)])) == IdOf(s0[(nm.group, n0)]);
    }
  }

  // ---------- what is never lost ----------

  /** The group is stored under its old name as it was, or under its new name, possibly changed by the
      passes of an update. */
  ghost predicate StillThere(nm: Naming, s: Store, n: string, db: Db) {
    || Has(s, (nm.group, n), db)
    || (IdOf(db) != 0
        && (var key := (nm.group, nm.Name(db));
            Has(s, key, db) || Has(s, key, SetUser(db)) || Has(s, key, Updated(db))))
  }

  ghost predicate AllKept(nm: Naming, s0: Store, s: Store) {
    forall n :: Stored(nm, s0, n) ==> StillThere(nm, s, n, s0[(nm.group, n)])
  }

  lemma KeptWhenSafe(nm: Naming, s0: Store, es: seq<Entry>, s: Store)
    requires Listing(nm, s0, es) && AllSafe(nm, s, es)
    ensures AllKept(nm, s0, s)
  {
    forall n | Stored(nm, s0, n) ensures StillThere(nm, s, n, s0[(nm.group, n)]) {
      var i :| 0 <= i < |es| && es[i].name == n;
      assert Has(s0, (nm.group, es[i].name), es[i].db) && Safe(nm, s, es[i]);
    }
  }

  lemma KeptWhenHeld(nm: Naming, s0: Store, s: Store, change: Db -> Db)
    requires Hold(nm, s0, s, change)
    requires forall db: Db :: change(db) in {db, SetUser(db), Updated(db)}
    ensures AllKept(nm, s0, s)
  {
    forall n | Stored(nm, s0, n) ensures StillThere(nm, s, n, s0[(nm.group, n)]) {
      var db := s0[(nm.group, n)];
      assert Has(s, (nm.group, HomeOf(nm, s0, n)), Now(change, db));
      assert change(db) in {db, SetUser(db), Updated(db)};
    }
  }

  lemma KeptWhenRewriting(nm: Naming, s0: Store, s: Store, f: Db -> Db, g: Db -> Db, s': Store)
    requires Hold(nm, s0, s, f) && PartlyRewritten(nm, g, s, s') && KeepsIds(f)
    requires forall db: Db :: f(db) in {db, SetUser(db), Updated(db)} && g(f(db)) in {db, SetUser(db), Updated(db)}
    ensures AllKept(nm, s0, s')
  {
    forall n | Stored(nm, s0, n) ensures StillThere(nm, s', n, s0[(nm.group, n)]) {
      var db := s0[(nm.group, n)];
      assert Has(s, (nm.group, HomeOf(nm, s0, n)), Now(f, db));
      assert IdOf(f(db)) == IdOf(db);
      assert f(db) in {db, SetUser(db), Updated(db)} && g(f(db)) in {db, SetUser(db), Updated(db)};
    }
  }
}
