/** Reading and writing settings groups under their locks. */
module ConfigGroups {
  import opened Ascii
  import opened ConfigMgr
  import opened Db
  import opened Seqs
  import opened Wrappers

  const ERROR_NOT_FOUND := -51
  const ERROR_PARTIAL := -52

  function Content(store: Store, group: string, name: string): Db {
    if (group, name) in store then store[(group, name)] else map[]
  }

  /** The locks held after a call that took and gave back the lock of `key` as it was told to. */
  function Relocked(locks: set<Key>, key: Key, doLock: bool, doUnlock: bool): set<Key> {
    var held := if doLock then locks + {key} else locks;
    if doUnlock then held - {key} else held
  }

  /** A failed call leaves the locks as they were, unless a lock it took could not be given back. */
  method ReadNamedConfigGroup(mgr: ConfigMgr, group: string, name: string, doLock: bool, doUnlock: bool)
    returns (rv: int, db: Db)
    modifies mgr
    ensures mgr.store == old(mgr.store) && mgr.history == old(mgr.history)
    ensures mgr.unlockFailures >= old(mgr.unlockFailures)
    ensures |mgr.errors| >= |old(mgr.errors)|
    ensures rv >= 0 <==> |mgr.errors| == |old(mgr.errors)|
    ensures rv >= 0 ==> rv == 0 && db == Content(mgr.store, group, name)
    ensures rv >= 0 ==> mgr.locks == Relocked(old(mgr.locks), (group, name), doLock, doUnlock)
    ensures rv >= 0 ==> mgr.unlockFailures == old(mgr.unlockFailures)
    ensures rv >= 0 && doLock ==> (group, name) !in old(mgr.locks)
    ensures rv < 0 && mgr.unlockFailures == old(mgr.unlockFailures) ==> mgr.locks == old(mgr.locks)
    ensures rv < 0 ==> mgr.locks in {old(mgr.locks), Relocked(old(mgr.locks), (group, name), doLock, false)}
    ensures old(mgr.answers) == [] && !(doLock && (group, name) in old(mgr.locks)) ==>
              rv == 0 && mgr.answers == [] && |mgr.errors| == |old(mgr.errors)|
  {
    db := map[];
    if doLock {
      rv := mgr.LockGroup(group, name);
      if rv < 0 {
        return;
      }
    }
    var loaded;
    rv, loaded := mgr.GetGroup(group, name);
    if rv < 0 {
      if doLock {
        var ignored := mgr.UnlockGroup(group, name);
      }
      return;
    }
    if doUnlock {
      rv := mgr.UnlockGroup(group, name);
      if rv < 0 {
        return;
      }
    }
    return 0, loaded;
  }

  method WriteNamedConfigGroup(mgr: ConfigMgr, group: string, name: string, doLock: bool, doUnlock: bool, db: Db)
    returns (rv: int)
    modifies mgr
    ensures mgr.unlockFailures >= old(mgr.unlockFailures)
    ensures |mgr.errors| >= |old(mgr.errors)|
    ensures rv >= 0 <==> |mgr.errors| == |old(mgr.errors)|
    ensures rv >= 0 ==> rv == 0 && mgr.unlockFailures == old(mgr.unlockFailures)
    ensures rv >= 0 && doLock ==> (group, name) !in old(mgr.locks)
    ensures rv >= 0 ==> mgr.locks == Relocked(old(mgr.locks), (group, name), doLock, doUnlock)
    ensures rv < 0 && mgr.unlockFailures == old(mgr.unlockFailures) ==> mgr.locks == old(mgr.locks)
    ensures rv < 0 ==> mgr.locks in {old(mgr.locks), Relocked(old(mgr.locks), (group, name), doLock, false)}
    ensures var wrote := Write((group, name), db);
            || (mgr.store == Apply(old(mgr.store), wrote) && mgr.history == old(mgr.history) + [wrote])
            || (rv < 0 && mgr.store == old(mgr.store) && mgr.history == old(mgr.history))
    ensures rv < 0 && mgr.history != old(mgr.history) ==>
              mgr.unlockFailures == old(mgr.unlockFailures) + 1
              && mgr.locks == Relocked(old(mgr.locks), (group, name), doLock, false)
    ensures old(mgr.answers) == [] && !(doLock && (group, name) in old(mgr.locks)) ==>
              rv == 0 && mgr.answers == [] && |mgr.errors| == |old(mgr.errors)|
  {
    if doLock {
      rv := mgr.LockGroup(group, name);
      if rv < 0 {
        return;
      }
    }
    rv := mgr.SetGroup(group, name, db);
    if rv < 0 {
      if doLock {
        var ignored := mgr.UnlockGroup(group, name);
      }
      return;
    }
    if doUnlock {
      rv := mgr.UnlockGroup(group, name);
      if rv < 0 {
        return;
      }
    }
    return 0;
  }

  /** `AB_Banking_WriteConfigGroup` with both flags set */
  method WriteConfigGroup(mgr: ConfigMgr, group: string, uid: nat, db: Db) returns (rv: int)
    modifies mgr
    ensures mgr.unlockFailures >= old(mgr.unlockFailures)
    ensures |mgr.errors| >= |old(mgr.errors)|
    ensures rv >= 0 <==> |mgr.errors| == |old(mgr.errors)|
    ensures mgr.unlockFailures == old(mgr.unlockFailures) ==> mgr.locks == old(mgr.locks)
    ensures var wrote := Write((group, mgr.derive(group, uid)), db);
            || (mgr.store == Apply(old(mgr.store), wrote) && mgr.history == old(mgr.history) + [wrote])
            || (rv < 0 && mgr.store == old(mgr.store) && mgr.history == old(mgr.history))
    ensures rv <= 0 && (rv == 0 ==> mgr.unlockFailures == old(mgr.unlockFailures))
    ensures old(mgr.answers) == [] && old(mgr.locks) == {} ==>
              rv == 0 && mgr.answers == [] && |mgr.errors| == |old(mgr.errors)|
  {
    var idBuf;
    rv, idBuf := mgr.MkUniqueIdFromId(group, uid);
    if rv < 0 {
      return;
    }
    rv := WriteNamedConfigGroup(mgr, group, idBuf, true, true, db);
  }

  // ---------- reading all groups of a kind ----------

  datatype Entry = Entry(name: string, db: Db)

  /** Which groups are kept: those with a number in `uidField` and the wanted text in `matchVar`, as
      far as these are asked for. */
  predicate Wanted(db: Db, uidField: string, matchVar: string, matchVal: string) {
    && (uidField != "" ==> GetInt(db, uidField, 0) != 0)
    && (matchVar != "" ==>
          match GetChar(db, matchVar, 0)
          case None => false
          case Some(s) => s != "" && SameText(s, matchVal))
  }

  /** What is asked for, character by character: a number in `uidField` that is not 0, and in `matchVar` a text that
      is not empty and differs from `matchVal` at most in the case of letters. */
  lemma WantedExactly(db: Db, uidField: string, matchVar: string, matchVal: string)
    ensures Wanted(db, uidField, matchVar, matchVal)
       <==> (uidField == "" || GetInt(db, uidField, 0) != 0)
            && (matchVar == ""
                || match GetChar(db, matchVar, 0)
                   case None => false
                   case Some(s) =>
                     s != "" && |s| == |matchVal|
                     && forall i :: 0 <= i < |s| ==> s[i] == matchVal[i] || OtherCase(s[i], matchVal[i]))
  {
    match GetChar(db, matchVar, 0)
    case None =>
    case Some(s) => SameTextExactly(s, matchVal);
  }

  /** The wanted ones of the named groups, with their contents. */
  function Entries(store: Store, group: string, names: seq<string>, uidField: string, matchVar: string,
                   matchVal: string)
    : seq<Entry>
  {
    if names == [] then []
    else
      var name := names[|names| - 1];
      var db := Content(store, group, name);
      Entries(store, group, names[..|names| - 1], uidField, matchVar, matchVal)
      + if Wanted(db, uidField, matchVar, matchVal) then [Entry(name, db)] else []
  }

  lemma EntriesSnoc(store: Store, group: string, names: seq<string>, name: string, uidField: string, matchVar: string,
                    matchVal: string)
    ensures Entries(store, group, names + [name], uidField, matchVar, matchVal)
         == Entries(store, group, names, uidField, matchVar, matchVal)
            + if Wanted(Content(store, group, name), uidField, matchVar, matchVal)
              then [Entry(name, Content(store, group, name))] else []
  {
    assert (names + [name])[..|names|] == names;
  }

  /** `_lockReadUnlockGroup`: a failed unlock is only logged. */
  method LockReadUnlockGroup(mgr: ConfigMgr, group: string, name: string) returns (r: Option<Db>)
    modifies mgr
    ensures mgr.store == old(mgr.store) && mgr.history == old(mgr.history)
    ensures mgr.unlockFailures >= old(mgr.unlockFailures)
    ensures |mgr.errors| >= |old(mgr.errors)|
    ensures r == None ==> |mgr.errors| > |old(mgr.errors)|
    ensures mgr.unlockFailures == old(mgr.unlockFailures) ==> mgr.locks == old(mgr.locks)
    ensures r.Some? ==> r.value == Content(mgr.store, group, name)
    ensures old(mgr.answers) == [] && old(mgr.locks) == {} ==>
              r.Some? && mgr.answers == [] && mgr.locks == {} && |mgr.errors| == |old(mgr.errors)|
  {
    var rv := mgr.LockGroup(group, name);
    if rv < 0 {
      return None;
    }
    var db;
    rv, db := mgr.GetGroup(group, name);
    if rv < 0 {
      rv := mgr.UnlockGroup(group, name);
      return None;
    }
    rv := mgr.UnlockGroup(group, name);
    return Some(db);
  }

  /** Which groups are asked for. */
  datatype Want = Want(group: string, uidField: string, matchVar: string, matchVal: string)

  ghost predicate ReadSoFar(store: Store, want: Want, sl: seq<string>, i: nat, chosen: seq<bool>, ignored: int,
                            root: seq<Entry>)
  {
    && i <= |sl| && |chosen| == i && |Kept(sl[..i], chosen)| == i - ignored
    && root == Entries(store, want.group, Kept(sl[..i], chosen), want.uidField, want.matchVar, want.matchVal)
  }

  lemma OneMoreRead(store: Store, want: Want, sl: seq<string>, i: nat, chosen: seq<bool>, ignored: int,
                    root: seq<Entry>, r: Option<Db>, i': nat, chosen': seq<bool>, ignored': int, root': seq<Entry>)
    requires ReadSoFar(store, want, sl, i, chosen, ignored, root) && i < |sl|
    requires r.Some? ==> r.value == Content(store, want.group, sl[i])
    requires i' == i + 1 && chosen' == chosen + [r.Some?] && ignored' == ignored + if r.Some? then 0 else 1
    requires root' == root + if r.Some? && Wanted(r.value, want.uidField, want.matchVar, want.matchVal)
                             then [Entry(sl[i], r.value)] else []
    ensures ReadSoFar(store, want, sl, i', chosen', ignored', root')
  {
    KeptSnoc(sl[..i], chosen, sl[i], r.Some?);
    assert sl[..i'] == sl[..i] + [sl[i]];
    if r.Some? {
      EntriesSnoc(store, want.group, Kept(sl[..i], chosen), sl[i], want.uidField, want.matchVar, want.matchVal);
    } else {
      assert Kept(sl[..i'], chosen') == Kept(sl[..i], chosen) && root' == root;
    }
  }

  /** `_readGroupsFromStringList`: `chosen` tells which names could be read. Each one that could not has
      left an error. */
  method ReadGroupsFromStringList(mgr: ConfigMgr, sl: seq<string>, group: string, uidField: string, matchVar: string,
                                  matchVal: string)
    returns (rv: int, dbRoot: seq<Entry>, ghost chosen: seq<bool>)
    modifies mgr
    ensures mgr.store == old(mgr.store) && mgr.history == old(mgr.history)
    ensures mgr.unlockFailures >= old(mgr.unlockFailures)
    ensures |chosen| == |sl| && |sl| - |Kept(sl, chosen)| <= |mgr.errors| - |old(mgr.errors)|
    ensures mgr.unlockFailures == old(mgr.unlockFailures) ==> mgr.locks == old(mgr.locks)
    ensures dbRoot == Entries(mgr.store, group, Kept(sl, chosen), uidField, matchVar, matchVal)
    ensures rv == if false in chosen then ERROR_PARTIAL else if dbRoot == [] then ERROR_NOT_FOUND else 0
    ensures old(mgr.answers) == [] && old(mgr.locks) == {} ==>
              false !in chosen && mgr.answers == [] && mgr.locks == {} && |mgr.errors| == |old(mgr.errors)|
  {
    var ignoredGroups, addedGroups, i := 0, 0, 0;
    dbRoot, chosen := [], [];
    ghost var want := Want(group, uidField, matchVar, matchVal);
    while i < |sl|
      invariant 0 <= ignoredGroups <= |mgr.errors| - |old(mgr.errors)|
      invariant ReadSoFar(mgr.store, want, sl, i, chosen, ignoredGroups, dbRoot) && addedGroups == |dbRoot|
      invariant mgr.store == old(mgr.store) && mgr.history == old(mgr.history)
      invariant mgr.unlockFailures >= old(mgr.unlockFailures)
      invariant mgr.unlockFailures == old(mgr.unlockFailures) ==> mgr.locks == old(mgr.locks)
      invariant old(mgr.answers) == [] && old(mgr.locks) == {} ==>
                  ignoredGroups == 0 && mgr.answers == [] && mgr.locks == {} && |mgr.errors| == |old(mgr.errors)|
    {
      ghost var i0, chosen0, ignored0, root0 := i, chosen, ignoredGroups, dbRoot;
      var r := LockReadUnlockGroup(mgr, group, sl[i]);
      if r == None {
        ignoredGroups := ignoredGroups + 1;
      } else if Wanted(r.value, uidField, matchVar, matchVal) {
        dbRoot := dbRoot + [Entry(sl[i], r.value)];
        addedGroups := addedGroups + 1;
      }
      i := i + 1;
      chosen := chosen + [r.Some?];
      OneMoreRead(mgr.store, want, sl, i0, chosen0, ignored0, root0, r, i, chosen, ignoredGroups, dbRoot);
    }
    assert sl[..i] == sl;
    if ignoredGroups != 0 {
      return ERROR_PARTIAL, dbRoot, chosen;
    }
    return if addedGroups != 0 then 0 else ERROR_NOT_FOUND, dbRoot, chosen;
  }

  /** On success all groups of the store were read, in the order `names` in which it lists them. */
  method ReadConfigGroups(mgr: ConfigMgr, group: string, uidField: string, matchVar: string, matchVal: string)
    returns (rv: int, dbAll: seq<Entry>, ghost names: seq<string>)
    modifies mgr
    ensures mgr.store == old(mgr.store) && mgr.history == old(mgr.history)
    ensures mgr.unlockFailures >= old(mgr.unlockFailures)
    ensures |mgr.errors| >= |old(mgr.errors)|
    ensures rv >= 0 || rv == ERROR_NOT_FOUND || |mgr.errors| > |old(mgr.errors)|
    ensures mgr.unlockFailures == old(mgr.unlockFailures) ==> mgr.locks == old(mgr.locks)
    ensures rv >= 0 ==> rv == 0 && dbAll != [] && Lists(names, group, mgr.store)
    ensures rv >= 0 ==> dbAll == Entries(mgr.store, group, names, uidField, matchVar, matchVal)
    ensures |mgr.errors| == |old(mgr.errors)| ==>
              && Lists(names, group, mgr.store)
              && dbAll == Entries(mgr.store, group, names, uidField, matchVar, matchVal)
              && rv == if dbAll == [] then ERROR_NOT_FOUND else 0
    ensures old(mgr.answers) == [] && old(mgr.locks) == {} ==>
              mgr.answers == [] && mgr.locks == {} && |mgr.errors| == |old(mgr.errors)|
  {
    var sl;
    rv, sl := mgr.ListSubGroups(group);
    names, dbAll := sl, [];
    if rv < 0 {
      return;
    }
    if |sl| < 1 {
      return ERROR_NOT_FOUND, dbAll, names;
    }
    ghost var chosen;
    rv, dbAll, chosen := ReadGroupsFromStringList(mgr, sl, group, uidField, matchVar, matchVal);
    if false !in chosen {
      KeptAll(sl, chosen);
    }
  }
}
