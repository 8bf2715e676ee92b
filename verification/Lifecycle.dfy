/** Initialising and ending AB_BANKING objects: each counts its own initialisations, and together they
    share one count of the plugin system, with the lists of importers and bank info plugins. */
module Lifecycle {
  import opened AccountUpdate
  import opened ConfigGroups
  import opened ConfigMgr
  import opened Db
  import opened Migration
  import opened Providers
  import opened UniqueIds
  import opened UpdateRuns
  import opened Wrappers

  const ERROR_INVALID := -1
  const ERROR_GENERIC := -2
  const CONFIG := "config"

  /** The count of the plugin system, and whether the lists exist. */
  datatype Global = Global(count: nat, lists: bool)

  function Opened(g: Global): Global {
    Global(g.count + 1, g.lists || g.count == 0)
  }

  function Closed(g: Global): Global {
    if g.count == 0 then g else Global(g.count - 1, g.lists && g.count != 1)
  }

  predicate Matching(g: Global) {
    g.lists <==> g.count > 0
  }

  /** What a call makes of the plugin system and of the count of its own object. */
  function AfterInit(g: Global, n: nat, ok: bool): (Global, nat) {
    if ok then (Opened(g), n + 1) else (g, n)
  }

  function AfterFini(g: Global, n: nat, ok: bool): (Global, nat) {
    if n == 0 then (g, n) else (if ok then Closed(g) else g, n - 1)
  }

  // ---------- the code ----------

  class PluginSystem {
    var initCount: nat
    var imexporters: bool
    var bankInfoPlugins: bool

    function State(): Global
      reads this
    {
      Global(initCount, imexporters && bankInfoPlugins)
    }

    ghost predicate Valid()
      reads this
    {
      imexporters == bankInfoPlugins && Matching(State())
    }

    constructor ()
      ensures Valid() && State() == Global(0, false)
    {
      initCount, imexporters, bankInfoPlugins := 0, false, false;
    }

    /** The parameters are the results of the calls it makes. */
    method Init(gwenInit: int, managers: int, paths: int) returns (rv: int)
      requires Valid()
      modifies this
      ensures Valid() && State() == if rv == 0 then Opened(old(State())) else old(State())
      ensures rv == 0 <==> old(initCount) > 0 || (gwenInit == 0 && managers >= 0 && paths >= 0)
    {
      if initCount == 0 {
        if gwenInit != 0 {
          return gwenInit;
        }
        if managers < 0 {
          return managers;
        }
        if paths < 0 {
          return paths;
        }
        imexporters := true;
        bankInfoPlugins := true;
      }
      initCount := initCount + 1;
      return 0;
    }

    method Fini() returns (rv: int)
      requires Valid()
      modifies this
      ensures rv == 0 && Valid() && State() == Closed(old(State()))
    {
      if initCount > 0 {
        initCount := initCount - 1;
        if initCount == 0 {
          bankInfoPlugins := false;
          imexporters := false;
        }
      }
      return 0;
    }
  }

  /** The version that wrote the settings, 0 if that is not known. */
  function LastVersion(s: Store): nat {
    U32(GetInt(Content(s, "aqbanking", "config"), "lastVersion", 0))
  }

  /** The settings were written by an earlier version, from before the latest change of their form in 5.99.2.0. */
  predicate UpdateDue(s: Store, currentVersion: nat) {
    0 < LastVersion(s) < currentVersion && LastVersion(s) < 0x0563_0200
  }

  class Banking {
    var initCount: nat
    var lastVersion: nat
    const configMgr: ConfigMgr?

    constructor (configMgr: ConfigMgr?)
      ensures initCount == 0 && this.configMgr == configMgr
    {
      initCount, lastVersion, this.configMgr := 0, 0, configMgr;
    }

    function Managers(): set<object> {
      if configMgr == null then {} else {configMgr}
    }

    method ReadVersion(mgr: ConfigMgr) returns (rv: int)
      modifies this`lastVersion, mgr`answers, mgr`errors, mgr`readFailures
      ensures rv < 0 ==> |mgr.errors| > |old(mgr.errors)|
      ensures rv >= 0 ==> mgr.errors == old(mgr.errors) && lastVersion == LastVersion(mgr.store)
    {
      var db;
      rv, db := mgr.GetGroup(MAIN, CONFIG);
      if rv >= 0 {
        lastVersion := U32(GetInt(db, "lastVersion", 0));
      }
    }

    /** What the first call does: it reads the version last used and makes an update when one is due. */
    method Start(currentVersion: nat, backends: Backends, descrs: Option<seq<string>>, line: Line) returns (rv: int)
      modifies this`lastVersion, Managers(), line
      ensures rv == 0 ==>
                && configMgr != null && lastVersion == LastVersion(old(configMgr.store))
                && (UpdateDue(old(configMgr.store), currentVersion) ==> Updatable(old(configMgr.store), descrs))
      ensures rv != 0 ==>
                configMgr == null || |configMgr.errors| > |old(configMgr.errors)|
                || (UpdateDue(old(configMgr.store), currentVersion) && !Updatable(old(configMgr.store), descrs))
      ensures configMgr != null && !UpdateDue(old(configMgr.store), currentVersion) ==>
                configMgr.store == old(configMgr.store)
      ensures configMgr != null && StoreReady(KindsOf(configMgr), old(configMgr.store)) ==>
                Safely(KindsOf(configMgr), old(configMgr.store), configMgr.store)
      ensures rv == 0 && UpdateDue(old(configMgr.store), currentVersion) ==>
                && Visited(old(line.events), line.events, descrs.value, backends,
                           |configMgr.errors| - |old(configMgr.errors)|)
                && (StoreReady(KindsOf(configMgr), old(configMgr.store)) ==>
                      && Stage(KindsOf(configMgr), old(configMgr.store), configMgr.store, Updated, true)
                      && GroupsUpdated(configMgr.derive, old(configMgr.store), configMgr.store))
    {
      if configMgr != null {
        Untouched(KindsOf(configMgr), configMgr.store);
      }
      hide Safely, StoreReady, Stage, GroupsUpdated, Visited, Updatable, KindsOf, LastVersion;
      if configMgr == null {
        return ERROR_GENERIC;
      }
      rv := ReadVersion(configMgr);
      if rv < 0 {
        return;
      }
      if lastVersion > 0 && lastVersion < currentVersion {
        rv := Update(configMgr, backends, descrs, lastVersion, line);
        if rv < 0 {
          return;
        }
      }
      return 0;
    }

    /** A failed call has no lasting effect on the counts, although an update may have been begun. */
    method Init(ps: PluginSystem, gwenInit: int, managers: int, paths: int, currentVersion: nat, backends: Backends,
                descrs: Option<seq<string>>, line: Line)
      returns (rv: int)
      requires ps.Valid()
      modifies ps, this, Managers(), line
      ensures ps.Valid() && (ps.State(), initCount) == AfterInit(old(ps.State()), old(initCount), rv == 0)
      ensures rv == 0 ==> old(ps.initCount) > 0 || (gwenInit == 0 && managers >= 0 && paths >= 0)
      ensures rv == 0 && old(initCount) == 0 ==>
                && configMgr != null && lastVersion == LastVersion(old(configMgr.store))
                && (UpdateDue(old(configMgr.store), currentVersion) ==> Updatable(old(configMgr.store), descrs))
      ensures rv != 0 && (old(ps.initCount) > 0 || (gwenInit == 0 && managers >= 0 && paths >= 0)) ==>
                && old(initCount) == 0
                && (configMgr == null || |configMgr.errors| > |old(configMgr.errors)|
                    || (UpdateDue(old(configMgr.store), currentVersion) && !Updatable(old(configMgr.store), descrs)))
      ensures configMgr != null && (old(initCount) > 0 || !UpdateDue(old(configMgr.store), currentVersion)) ==>
                configMgr.store == old(configMgr.store)
      ensures configMgr != null && old(initCount) == 0 && StoreReady(KindsOf(configMgr), old(configMgr.store)) ==>
                Safely(KindsOf(configMgr), old(configMgr.store), configMgr.store)
      ensures rv == 0 && old(initCount) == 0 && UpdateDue(old(configMgr.store), currentVersion) ==>
                && Visited(old(line.events), line.events, descrs.value, backends,
                           |configMgr.errors| - |old(configMgr.errors)|)
                && (StoreReady(KindsOf(configMgr), old(configMgr.store)) ==>
                      && Stage(KindsOf(configMgr), old(configMgr.store), configMgr.store, Updated, true)
                      && GroupsUpdated(configMgr.derive, old(configMgr.store), configMgr.store))
    {
      if configMgr != null {
        Untouched(KindsOf(configMgr), configMgr.store);
      }
      hide Safely, StoreReady, Stage, GroupsUpdated, Visited, Updatable, LastVersion, UpdateDue, KindsOf;
      rv := ps.Init(gwenInit, managers, paths);
      if rv != 0 {
        var ignored := ps.Fini();
        return;
      }
      if initCount == 0 {
        rv := Start(currentVersion, backends, descrs, line);
        if rv != 0 {
          var ignored := ps.Fini();
          return;
        }
      }
      initCount := initCount + 1;
      return 0;
    }

    /** A call that fails after it has counted down leaves the plugin system open. */
    method Fini(ps: PluginSystem, currentVersion: nat) returns (rv: int)
      requires ps.Valid()
      modifies ps, this, Managers()
      ensures ps.Valid() && (ps.State(), initCount) == AfterFini(old(ps.State()), old(initCount), rv == 0)
      ensures rv == 0 <==>
                old(initCount) > 1
                || (old(initCount) == 1 && configMgr != null && |configMgr.errors| == |old(configMgr.errors)|)
      ensures configMgr != null && old(initCount) != 1 ==> configMgr.store == old(configMgr.store)
      ensures configMgr != null && old(initCount) == 1 ==>
                var was := Content(old(configMgr.store), "aqbanking", "config");
                var wrote := Write(("aqbanking", "config"), was["lastVersion" := [IntValue(currentVersion)]]);
                || configMgr.store == Apply(old(configMgr.store), wrote)
                || (rv < 0 && configMgr.store == old(configMgr.store))
    {
      if initCount < 1 {
        return ERROR_INVALID;
      }
      initCount := initCount - 1;
      if initCount == 0 {
        if configMgr == null {
          return ERROR_GENERIC;
        }
        rv := configMgr.LockGroup(MAIN, CONFIG);
        if rv < 0 {
          return;
        }
        var db;
        rv, db := configMgr.GetGroup(MAIN, CONFIG);
        if rv < 0 {
          var ignored := configMgr.UnlockGroup(MAIN, CONFIG);
          return;
        }
        db := SetInt(db, "lastVersion", currentVersion);
        rv := configMgr.SetGroup(MAIN, CONFIG, db);
        if rv < 0 {
          var ignored := configMgr.UnlockGroup(MAIN, CONFIG);
          return;
        }
        rv := configMgr.UnlockGroup(MAIN, CONFIG);
        if rv < 0 {
          return;
        }
      }
      rv := ps.Fini();
      return 0;
    }
  }

  // ---------- runs ----------

  /** A call on the object of the given number. */
  datatype Call = InitCall(i: nat, ok: bool) | FiniCall(i: nat, ok: bool)

  /** All objects, and how many calls of Fini failed after they had counted down. */
  datatype World = World(global: Global, inits: seq<nat>, stuck: nat)

  function Step(w: World, c: Call): World
    requires c.i < |w.inits|
  {
    var n := w.inits[c.i];
    match c
    case InitCall(i, ok) =>
      var (g, n') := AfterInit(w.global, n, ok);
      World(g, w.inits[i := n'], w.stuck)
    case FiniCall(i, ok) =>
      var (g, n') := AfterFini(w.global, n, ok);
      World(g, w.inits[i := n'], if n > 0 && !ok then w.stuck + 1 else w.stuck)
  }

  function Run(w: World, calls: seq<Call>, k: nat): (w': World)
    requires k <= |calls| && forall j :: 0 <= j < |calls| ==> calls[j].i < |w.inits|
    ensures |w'.inits| == |w.inits|
  {
    if k == 0 then w else Step(Run(w, calls, k - 1), calls[k - 1])
  }

  function Total(inits: seq<nat>): nat {
    if inits == [] then 0 else Total(inits[..|inits| - 1]) + inits[|inits| - 1]
  }

  ghost predicate Good(w: World) {
    Matching(w.global) && w.global.count == Total(w.inits) + w.stuck
  }

  lemma {:induction false} TotalUpdate(inits: seq<nat>, i: nat, n: nat)
    requires i < |inits|
    ensures Total(inits[i := n]) == Total(inits) - inits[i] + n
  {
    var last := |inits| - 1;
    if i < last {
      TotalUpdate(inits[..last], i, n);
      assert inits[i := n][..last] == inits[..last][i := n];
    } else {
      assert inits[i := n][..last] == inits[..last];
    }
  }

  lemma {:induction false} TotalCovers(inits: seq<nat>, i: nat)
    requires i < |inits|
    ensures Total(inits) >= inits[i]
  {
    if i < |inits| - 1 {
      TotalCovers(inits[..|inits| - 1], i);
    }
  }

  lemma StepGood(w: World, c: Call)
    requires Good(w) && c.i < |w.inits|
    ensures Good(Step(w, c))
  {
    TotalUpdate(w.inits, c.i, Step(w, c).inits[c.i]);
    TotalCovers(w.inits, c.i);
  }

  /** Whatever is called in whatever order, and whatever fails: the plugin system counts all
      initialisations that were not ended, and the calls that failed to end it. So it is open as long as
      any object is initialised. */
  lemma {:induction false} RunGood(w: World, calls: seq<Call>, k: nat)
    requires Good(w) && k <= |calls| && forall j :: 0 <= j < |calls| ==> calls[j].i < |w.inits|
    ensures Good(Run(w, calls, k))
    ensures forall i :: 0 <= i < |w.inits| && Run(w, calls, k).inits[i] > 0 ==> Run(w, calls, k).global.lists
  {
    if k > 0 {
      RunGood(w, calls, k - 1);
      StepGood(Run(w, calls, k - 1), calls[k - 1]);
    }
    forall i | 0 <= i < |w.inits| && Run(w, calls, k).inits[i] > 0 ensures Run(w, calls, k).global.lists {
      TotalCovers(Run(w, calls, k).inits, i);
    }
  }

  /** No call has failed to end the plugin system. */
  ghost predicate NoneStuck(w: World, calls: seq<Call>, k: nat)
    requires k <= |calls| && forall j :: 0 <= j < |calls| ==> calls[j].i < |w.inits|
  {
    forall j :: 0 <= j < k && calls[j].FiniCall? && !calls[j].ok ==> Run(w, calls, j).inits[calls[j].i] == 0
  }

  /** The counts agree exactly as long as no call of Fini has failed after counting down. */
  lemma {:induction false} CountsAgree(w: World, calls: seq<Call>, k: nat)
    requires Good(w) && w.stuck == 0 && k <= |calls| && forall j :: 0 <= j < |calls| ==> calls[j].i < |w.inits|
    ensures Run(w, calls, k).global.count == Total(Run(w, calls, k).inits) <==> NoneStuck(w, calls, k)
  {
    RunGood(w, calls, k);
    StuckWhen(w, calls, k);
  }

  lemma {:induction false} StuckWhen(w: World, calls: seq<Call>, k: nat)
    requires w.stuck == 0 && k <= |calls| && forall j :: 0 <= j < |calls| ==> calls[j].i < |w.inits|
    ensures Run(w, calls, k).stuck == 0 <==> NoneStuck(w, calls, k)
  {
    if k > 0 {
      StuckWhen(w, calls, k - 1);
    }
  }
}
