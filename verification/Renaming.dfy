/** Renaming settings groups to the names derived from their unique ids, by writing each under its new
    name and then deleting the old one. */
module Renaming {
  import opened ConfigGroups
  import opened ConfigMgr
  import opened Db
  import opened Wrappers

  const UNIQUEID := "uniqueId"

  function IdOf(db: Db): nat {
    U32(GetInt(db, UNIQUEID, 0))
  }

  /** How groups of one kind are named after their ids. */
  datatype Naming = Naming(group: string, derive: (string, nat) -> string) {
    function Name(db: Db): string {
      derive(group, IdOf(db))
    }

    /** The group has an id but not the name that goes with it. */
    predicate Misplaced(e: Entry) {
      IdOf(e.db) != 0 && e.name != Name(e.db)
    }

    ghost predicate Injective() {
      forall a: nat, b: nat :: derive(group, a) == derive(group, b) ==> a == b
    }
  }

  function MoveOf(nm: Naming, e: Entry): seq<StoreOp> {
    if nm.Misplaced(e) then [Write((nm.group, nm.Name(e.db)), e.db), Delete((nm.group, e.name))] else []
  }

  /** What is done to each group of a kind: it gets its right name, or it gets changed contents, to be
      written under the right name. */
  datatype Pass = Rename | Rewrite(change: Db -> Db)

  function OpsOf(nm: Naming, pass: Pass, e: Entry): seq<StoreOp> {
    match pass
    case Rename => MoveOf(nm, e)
    case Rewrite(change) =>
      if IdOf(e.db) != 0 then [Write((nm.group, nm.Name(e.db)), change(e.db))] else []
  }

  /** The changes to the store that it takes to deal with the first `k` groups. */
  function Ops(nm: Naming, pass: Pass, es: seq<Entry>, k: nat): seq<StoreOp>
    requires k <= |es|
  {
    if k == 0 then [] else Ops(nm, pass, es, k - 1) + OpsOf(nm, pass, es[k - 1])
  }

  // ---------- what it must achieve ----------

  ghost predicate Has(s: Store, key: Key, db: Db) {
    key in s && s[key] == db
  }

  /** The store has a group of this kind with that name. */
  ghost predicate Stored(nm: Naming, s: Store, n: string) {
    (nm.group, n) in s
  }

  /** `es` are all groups of this kind in the store, each once. */
  ghost predicate Listing(nm: Naming, s: Store, es: seq<Entry>) {
    && (forall i :: 0 <= i < |es| ==> Has(s, (nm.group, es[i].name), es[i].db))
    && (forall n :: Stored(nm, s, n) ==> exists i :: 0 <= i < |es| && es[i].name == n)
    && NamesDiffer(es)
  }

  ghost predicate DistinctIds(es: seq<Entry>) {
    forall i, j :: 0 <= i < j < |es| && IdOf(es[i].db) != 0 ==> IdOf(es[i].db) != IdOf(es[j].db)
  }

  /** The group is stored with its full contents, under its old name or the one it is to get. */
  ghost predicate Safe(nm: Naming, s: Store, e: Entry) {
    Has(s, (nm.group, e.name), e.db) || (IdOf(e.db) != 0 && Has(s, (nm.group, nm.Name(e.db)), e.db))
  }

  /** Where the group belongs: groups without an id stay where they are. */
  function Home(nm: Naming, e: Entry): string {
    if IdOf(e.db) == 0 then e.name else nm.Name(e.db)
  }

  ghost predicate Complete(nm: Naming, s: Store, es: seq<Entry>) {
    forall i :: 0 <= i < |es| ==> Has(s, (nm.group, Home(nm, es[i])), es[i].db)
  }

  // ---------- when it goes wrong ----------

  /** Two groups with different contents are to be stored under one name, which the first one moves to. */
  ghost predicate Clash(nm: Naming, i: Entry, j: Entry) {
    nm.Misplaced(i) && Home(nm, j) == nm.Name(i.db) && j.db != i.db
  }

  /** The second group leaves the name that the first one moves to. */
  ghost predicate Leaves(nm: Naming, i: Entry, j: Entry) {
    nm.Misplaced(i) && nm.Misplaced(j) && j.name == nm.Name(i.db)
  }

  /** No two groups clash, and no group leaves the name of another after that one has moved there, taking
      it along. */
  ghost predicate Clear(nm: Naming, es: seq<Entry>) {
    && (forall i, j :: 0 <= i < |es| && 0 <= j < |es| ==> !Clash(nm, es[i], es[j]))
    && (forall i, j :: 0 <= i < j < |es| ==> !Leaves(nm, es[i], es[j]))
  }

  /** Some group behind number `j` moves to that name. */
  ghost predicate MovedLater(nm: Naming, es: seq<Entry>, name: string, j: nat) {
    exists k :: j < k < |es| && nm.Misplaced(es[k]) && nm.Name(es[k].db) == name
  }

  /** No two groups clash, and after a group has left the name of another some group still moves there. */
  ghost predicate Restored(nm: Naming, es: seq<Entry>) {
    && (forall i, j :: 0 <= i < |es| && 0 <= j < |es| ==> !Clash(nm, es[i], es[j]))
    && (forall i, j :: 0 <= i < |es| && 0 <= j < |es| && Leaves(nm, es[i], es[j]) ==>
          MovedLater(nm, es, nm.Name(es[i].db), j))
  }

  // ---------- one step ----------

  /** Where a group is kept, before and after its turn. */
  function Place(nm: Naming, e: Entry, moved: bool): string {
    if moved then Home(nm, e) else e.name
  }

  /** The store after the first `k` groups had their turn. */
  ghost predicate State(nm: Naming, s0: Store, es: seq<Entry>, k: nat, s: Store) {
    InPlace(nm, es, k, s) && NoOthers(nm, es, k, s) && OthersKept(nm, s0, s)
  }

  ghost predicate InPlace(nm: Naming, es: seq<Entry>, k: nat, s: Store) {
    forall j :: 0 <= j < |es| ==> Has(s, (nm.group, Place(nm, es[j], j < k)), es[j].db)
  }

  ghost predicate NoOthers(nm: Naming, es: seq<Entry>, k: nat, s: Store) {
    forall n :: Stored(nm, s, n) ==> exists j :: 0 <= j < |es| && n == Place(nm, es[j], j < k)
  }

  /** Groups of other kinds are untouched. */
  ghost predicate OthersKept(nm: Naming, s0: Store, s: Store) {
    forall key: Key :: key.0 != nm.group ==> (key in s <==> key in s0) && (key in s ==> s[key] == s0[key])
  }

  ghost predicate NamesDiffer(es: seq<Entry>) {
    forall i, j :: 0 <= i < j < |es| ==> es[i].name != es[j].name
  }

  /** The old name of the group that moves is not the place of another one, and its new name only of one
      with the same contents. */
  lemma Apart(nm: Naming, es: seq<Entry>, k: nat, j: nat)
    requires Clear(nm, es) && NamesDiffer(es)
    requires k < |es| && j < |es| && j != k && nm.Misplaced(es[k])
    ensures Place(nm, es[j], j < k) == nm.Name(es[k].db) ==> es[j].db == es[k].db
    ensures Place(nm, es[j], j < k) != es[k].name
  {
    assert !Clash(nm, es[k], es[j]);
    if j < k {
      assert !Leaves(nm, es[j], es[k]);
    } else {
      assert !Leaves(nm, es[k], es[j]);
    }
  }

  lemma StepSafe(nm: Naming, s0: Store, es: seq<Entry>, k: nat, s: Store, j: nat)
    requires Clear(nm, es) && NamesDiffer(es)
    requires k < |es| && j < |es| && nm.Misplaced(es[k]) && State(nm, s0, es, k, s)
    ensures Safe(nm, Apply(s, Write((nm.group, nm.Name(es[k].db)), es[k].db)), es[j])
  {
    if j != k {
      Apart(nm, es, k, j);
    }
  }

  /** The store after a group was written under its new name and deleted under its old one. */
  function Moved(nm: Naming, s: Store, e: Entry): Store {
    if nm.Misplaced(e) then
      Apply(Apply(s, Write((nm.group, nm.Name(e.db)), e.db)), Delete((nm.group, e.name)))
    else s
  }

  lemma ApplyMove(nm: Naming, s: Store, e: Entry)
    ensures ApplyAll(s, MoveOf(nm, e)) == Moved(nm, s, e)
  {
    if nm.Misplaced(e) {
      var w, d := Write((nm.group, nm.Name(e.db)), e.db), Delete((nm.group, e.name));
      ApplySnoc(s, [w], d);
      ApplySnoc(s, [], w);
      assert [w] + [d] == MoveOf(nm, e) && [] + [w] == [w];
    }
  }

  lemma PlacesStep(nm: Naming, es: seq<Entry>, k: nat, s: Store)
    requires Clear(nm, es) && NamesDiffer(es)
    requires k < |es| && InPlace(nm, es, k, s)
    ensures InPlace(nm, es, k + 1, Moved(nm, s, es[k]))
  {
    forall j | 0 <= j < |es| ensures Has(Moved(nm, s, es[k]), (nm.group, Place(nm, es[j], j < k + 1)), es[j].db) {
      if j != k && nm.Misplaced(es[k]) {
        Apart(nm, es, k, j);
      }
    }
  }

  lemma NoOthersStep(nm: Naming, es: seq<Entry>, k: nat, s: Store)
    requires k < |es| && NoOthers(nm, es, k, s)
    ensures NoOthers(nm, es, k + 1, Moved(nm, s, es[k]))
  {
    forall n | Stored(nm, Moved(nm, s, es[k]), n)
      ensures exists j :: 0 <= j < |es| && n == Place(nm, es[j], j < k + 1)
    {
      if nm.Misplaced(es[k]) && n == nm.Name(es[k].db) {
        assert n == Place(nm, es[k], k < k + 1);
      } else {
        assert Stored(nm, s, n);
        var j :| 0 <= j < |es| && n == Place(nm, es[j], j < k);
        assert n == Place(nm, es[j], j < k + 1);
      }
    }
  }

  lemma OthersStep(nm: Naming, s0: Store, s: Store, e: Entry)
    requires OthersKept(nm, s0, s)
    ensures OthersKept(nm, s0, Moved(nm, s, e))
  {
    var s' := Moved(nm, s, e);
    forall key: Key | key.0 != nm.group ensures (key in s' <==> key in s0) && (key in s' ==> s'[key] == s0[key]) {
      assert key != (nm.group, e.name) && key != (nm.group, nm.Name(e.db));
      assert (key in s <==> key in s0) && (key in s ==> s[key] == s0[key]);
    }
  }

  lemma StepKeeps(nm: Naming, s0: Store, es: seq<Entry>, k: nat, s: Store, k': nat, s': Store)
    requires Clear(nm, es) && NamesDiffer(es)
    requires k < |es| && State(nm, s0, es, k, s)
    requires k' == k + 1 && s' == Moved(nm, s, es[k])
    ensures State(nm, s0, es, k', s')
  {
    PlacesStep(nm, es, k, s);
    NoOthersStep(nm, es, k, s);
    OthersStep(nm, s0, s, es[k]);
  }

  // ---------- whole runs ----------

  ghost predicate AllSafe(nm: Naming, s: Store, es: seq<Entry>) {
    forall j :: 0 <= j < |es| ==> Safe(nm, s, es[j])
  }

  /** The store after the first `k` groups were dealt with. */
  function After(nm: Naming, s: Store, es: seq<Entry>, k: nat): Store
    requires k <= |es|
  {
    if k == 0 then s else Moved(nm, After(nm, s, es, k - 1), es[k - 1])
  }

  lemma OneMoreMove(nm: Naming, s: Store, ops: seq<StoreOp>, ops': seq<StoreOp>, s': Store, s'': Store, e: Entry)
    requires ApplyAll(s, ops) == s' && ops' == ops + MoveOf(nm, e) && s'' == Moved(nm, s', e)
    ensures ApplyAll(s, ops') == s''
  {
    ApplyConcat(s, ops, MoveOf(nm, e));
    ApplyMove(nm, s', e);
  }

  lemma {:induction false} AfterMoves(nm: Naming, s: Store, es: seq<Entry>, k: nat)
    requires k <= |es|
    ensures ApplyAll(s, Ops(nm, Rename, es, k)) == After(nm, s, es, k)
  {
    if k > 0 {
      hide ApplyAll, Moved, MoveOf;
      AfterMoves(nm, s, es, k - 1);
      var ops, before := Ops(nm, Rename, es, k - 1), After(nm, s, es, k - 1);
      OneMoreMove(nm, s, ops, Ops(nm, Rename, es, k), before, After(nm, s, es, k), es[k - 1]);
    }
  }

  lemma StartState(nm: Naming, s: Store, es: seq<Entry>)
    requires Listing(nm, s, es)
    ensures State(nm, s, es, 0, s)
  {
    assert forall j :: 0 <= j < |es| ==> Place(nm, es[j], j < 0) == es[j].name;
    forall n | Stored(nm, s, n) ensures exists j :: 0 <= j < |es| && n == Place(nm, es[j], j < 0) {
      var j :| 0 <= j < |es| && es[j].name == n;
      assert n == Place(nm, es[j], j < 0);
    }
  }

  lemma {:induction false} StateFrom(nm: Naming, s: Store, es: seq<Entry>, k: nat, s': Store)
    requires Clear(nm, es) && NamesDiffer(es)
    requires State(nm, s, es, 0, s) && k <= |es| && s' == After(nm, s, es, k)
    ensures State(nm, s, es, k, s')
  {
    if k > 0 {
      hide State, Clear, NamesDiffer;
      var before := After(nm, s, es, k - 1);
      StateFrom(nm, s, es, k - 1, before);
      StepKeeps(nm, s, es, k - 1, before, k, s');
    }
  }

  lemma StateAfter(nm: Naming, s: Store, es: seq<Entry>, k: nat, s': Store)
    requires Listing(nm, s, es) && Clear(nm, es) && k <= |es| && s' == After(nm, s, es, k)
    ensures State(nm, s, es, k, s')
  {
    StartState(nm, s, es);
    StateFrom(nm, s, es, k, s');
  }

  lemma StateSafe(nm: Naming, s0: Store, es: seq<Entry>, k: nat, s: Store)
    requires State(nm, s0, es, k, s)
    ensures AllSafe(nm, s, es)
  {
    forall j | 0 <= j < |es| ensures Safe(nm, s, es[j]) {
      assert Has(s, (nm.group, Place(nm, es[j], j < k)), es[j].db);
    }
  }

  /** While a group is stored under both its names. */
  lemma HalfwaySafe(nm: Naming, s0: Store, es: seq<Entry>, k: nat, s: Store, s': Store)
    requires Clear(nm, es) && NamesDiffer(es)
    requires k < |es| && nm.Misplaced(es[k]) && State(nm, s0, es, k, s)
    requires s' == Apply(s, Write((nm.group, nm.Name(es[k].db)), es[k].db))
    ensures AllSafe(nm, s', es) && OthersKept(nm, s0, s')
  {
    forall j | 0 <= j < |es| ensures Safe(nm, s', es[j]) {
      StepSafe(nm, s0, es, k, s, j);
    }
    forall key: Key | key.0 != nm.group ensures (key in s' <==> key in s0) && (key in s' ==> s'[key] == s0[key]) {
      assert key != (nm.group, nm.Name(es[k].db));
    }
  }

  /** The changes made when renaming stops after the first `k` groups, or halfway through one more. */
  function StoppedAt(nm: Naming, es: seq<Entry>, k: nat, halfway: bool): seq<StoreOp>
    requires k <= |es| && (halfway ==> k < |es| && nm.Misplaced(es[k]))
  {
    Ops(nm, Rename, es, k) + if halfway then [MoveOf(nm, es[k])[0]] else []
  }

  lemma {:induction false} PrefixStopped(nm: Naming, es: seq<Entry>, k: nat, n: nat) returns (m: nat, halfway: bool)
    requires k <= |es| && n <= |Ops(nm, Rename, es, k)|
    ensures m <= k && (halfway ==> m < k && nm.Misplaced(es[m]))
    ensures Ops(nm, Rename, es, k)[..n] == StoppedAt(nm, es, m, halfway)
  {
    var all := Ops(nm, Rename, es, k);
    if n == |all| {
      m, halfway := k, false;
      assert all[..n] == all;
    } else if n <= |Ops(nm, Rename, es, k - 1)| {
      m, halfway := PrefixStopped(nm, es, k - 1, n);
      assert all[..n] == Ops(nm, Rename, es, k - 1)[..n];
    } else {
      m, halfway := k - 1, true;
    }
  }

  lemma StoppedSafe(nm: Naming, s: Store, es: seq<Entry>, k: nat, halfway: bool, before: Store, s': Store)
    requires Clear(nm, es) && NamesDiffer(es)
    requires k <= |es| && (halfway ==> k < |es| && nm.Misplaced(es[k]))
    requires before == ApplyAll(s, Ops(nm, Rename, es, k)) && State(nm, s, es, k, before)
    requires s' == ApplyAll(s, StoppedAt(nm, es, k, halfway))
    ensures AllSafe(nm, s', es) && OthersKept(nm, s, s')
  {
    if halfway {
      ApplySnoc(s, Ops(nm, Rename, es, k), MoveOf(nm, es[k])[0]);
      HalfwaySafe(nm, s, es, k, before, s');
    } else {
      assert StoppedAt(nm, es, k, halfway) == Ops(nm, Rename, es, k);
      StateSafe(nm, s, es, k, before);
    }
  }

  /** Wherever the renaming stops, no group is lost. */
  lemma NothingLost(nm: Naming, s: Store, es: seq<Entry>, n: nat)
    requires Listing(nm, s, es) && Clear(nm, es) && n <= |Ops(nm, Rename, es, |es|)|
    ensures AllSafe(nm, ApplyAll(s, Ops(nm, Rename, es, |es|)[..n]), es)
    ensures OthersKept(nm, s, ApplyAll(s, Ops(nm, Rename, es, |es|)[..n]))
  {
    var k, halfway := PrefixStopped(nm, es, |es|, n);
    var before := After(nm, s, es, k);
    AfterMoves(nm, s, es, k);
    StateAfter(nm, s, es, k, before);
    StoppedSafe(nm, s, es, k, halfway, before, ApplyAll(s, Ops(nm, Rename, es, |es|)[..n]));
  }

  /** Contents that are not stored under a name come there only with a group that moves to it. */
  lemma {:induction false} NeverBack(nm: Naming, s: Store, es: seq<Entry>, k: nat, n: nat, name: string, db: Db)
    requires k <= n <= |es| && !Has(After(nm, s, es, k), (nm.group, name), db)
    requires forall m :: k <= m < n && nm.Misplaced(es[m]) && nm.Name(es[m].db) == name ==> es[m].db != db
    ensures !Has(After(nm, s, es, n), (nm.group, name), db)
    decreases n
  {
    if k < n {
      NeverBack(nm, s, es, k, n - 1, name, db);
    }
  }

  /** Contents stay under a name that no group leaves and no other contents move to. */
  lemma {:induction false} Stays(nm: Naming, s: Store, es: seq<Entry>, k: nat, n: nat, name: string, db: Db)
    requires k <= n <= |es| && Has(After(nm, s, es, k), (nm.group, name), db)
    requires forall m :: k <= m < n && nm.Misplaced(es[m]) ==> nm.Name(es[m].db) != name && es[m].name != name
    ensures Has(After(nm, s, es, n), (nm.group, name), db)
    decreases n
  {
    if k < n {
      Stays(nm, s, es, k, n - 1, name, db);
    }
  }

  /** A group that has moved is not under its old name any more. */
  lemma NotThereAgain(nm: Naming, s: Store, es: seq<Entry>, i: nat, n: nat)
    requires i < n <= |es| && nm.Misplaced(es[i])
    ensures !Has(After(nm, s, es, n), (nm.group, es[i].name), es[i].db)
  {
    NeverBack(nm, s, es, i + 1, n, es[i].name, es[i].db);
  }

  /** The last group that moves to a name. */
  lemma {:induction false} LastMove(nm: Naming, es: seq<Entry>, name: string, n: nat) returns (m: nat)
    requires n <= |es| && exists k :: 0 <= k < n && nm.Misplaced(es[k]) && nm.Name(es[k].db) == name
    ensures m < n && nm.Misplaced(es[m]) && nm.Name(es[m].db) == name
    ensures forall k :: m < k < n && nm.Misplaced(es[k]) ==> nm.Name(es[k].db) != name
  {
    if nm.Misplaced(es[n - 1]) && nm.Name(es[n - 1].db) == name {
      m := n - 1;
    } else {
      m := LastMove(nm, es, name, n - 1);
    }
  }

  lemma MovedHome(nm: Naming, s: Store, es: seq<Entry>, i: nat, m: nat)
    requires Restored(nm, es) && i < |es| && m < |es|
    requires nm.Misplaced(es[m]) && nm.Name(es[m].db) == Home(nm, es[i])
    requires forall k :: m < k < |es| && nm.Misplaced(es[k]) ==> nm.Name(es[k].db) != Home(nm, es[i])
    ensures Has(After(nm, s, es, |es|), (nm.group, Home(nm, es[i])), es[i].db)
  {
    var name := Home(nm, es[i]);
    assert !Clash(nm, es[m], es[i]);
    forall k | m < k < |es| && nm.Misplaced(es[k]) ensures es[k].name != name {
      assert Leaves(nm, es[m], es[k]) ==> MovedLater(nm, es, name, k);
    }
    Stays(nm, s, es, m + 1, |es|, name, es[m].db);
  }

  lemma StayedHome(nm: Naming, s: Store, es: seq<Entry>, i: nat)
    requires Listing(nm, s, es) && i < |es| && !nm.Misplaced(es[i])
    requires forall k :: 0 <= k < |es| && nm.Misplaced(es[k]) ==> nm.Name(es[k].db) != es[i].name
    ensures Has(After(nm, s, es, |es|), (nm.group, es[i].name), es[i].db)
  {
    assert Has(s, (nm.group, es[i].name), es[i].db);
    Stays(nm, s, es, 0, |es|, es[i].name, es[i].db);
  }

  lemma EndsAtHome(nm: Naming, s: Store, es: seq<Entry>, i: nat)
    requires Listing(nm, s, es) && Restored(nm, es) && i < |es|
    ensures Has(After(nm, s, es, |es|), (nm.group, Home(nm, es[i])), es[i].db)
  {
    var name := Home(nm, es[i]);
    if exists k :: 0 <= k < |es| && nm.Misplaced(es[k]) && nm.Name(es[k].db) == name {
      var m := LastMove(nm, es, name, |es|);
      MovedHome(nm, s, es, i, m);
    } else {
      StayedHome(nm, s, es, i);
    }
  }

  lemma CompleteRestored(nm: Naming, s: Store, es: seq<Entry>)
    requires Complete(nm, After(nm, s, es, |es|), es)
    ensures Restored(nm, es)
  {
    var last := After(nm, s, es, |es|);
    forall i, j | 0 <= i < |es| && 0 <= j < |es| ensures !Clash(nm, es[i], es[j]) {
      assert Has(last, (nm.group, Home(nm, es[i])), es[i].db) && Has(last, (nm.group, Home(nm, es[j])), es[j].db);
    }
    forall i, j | 0 <= i < |es| && 0 <= j < |es| && Leaves(nm, es[i], es[j])
      ensures MovedLater(nm, es, nm.Name(es[i].db), j)
    {
      assert Has(last, (nm.group, Home(nm, es[i])), es[i].db);
      if !MovedLater(nm, es, nm.Name(es[i].db), j) {
        NeverBack(nm, s, es, j + 1, |es|, es[j].name, es[i].db);
      }
    }
  }

  lemma SafeAtEnd(nm: Naming, s: Store, es: seq<Entry>)
    ensures AllSafe(nm, After(nm, s, es, |es|), es) <==> Complete(nm, After(nm, s, es, |es|), es)
  {
    var last := After(nm, s, es, |es|);
    forall i | 0 <= i < |es| ensures Safe(nm, last, es[i]) <==> Has(last, (nm.group, Home(nm, es[i])), es[i].db) {
      if nm.Misplaced(es[i]) {
        NotThereAgain(nm, s, es, i, |es|);
      }
    }
  }

  /** In the end all groups are where they belong, and none is lost, exactly when no two clash and each name
      that a group leaves is moved to again. */
  lemma RenamingWorksWhenRestored(nm: Naming, s: Store, es: seq<Entry>)
    requires Listing(nm, s, es)
    ensures var last := ApplyAll(s, Ops(nm, Rename, es, |es|));
            && (Complete(nm, last, es) <==> Restored(nm, es))
            && (AllSafe(nm, last, es) <==> Restored(nm, es))
  {
    AfterMoves(nm, s, es, |es|);
    SafeAtEnd(nm, s, es);
    if Restored(nm, es) {
      forall i | 0 <= i < |es| ensures Has(After(nm, s, es, |es|), (nm.group, Home(nm, es[i])), es[i].db) {
        EndsAtHome(nm, s, es, i);
      }
    } else if Complete(nm, After(nm, s, es, |es|), es) {
      CompleteRestored(nm, s, es);
    }
  }

  // ---------- at every step ----------

  lemma {:induction false} OpsPrefix(nm: Naming, pass: Pass, es: seq<Entry>, k: nat, n: nat)
    requires k <= n <= |es|
    ensures Ops(nm, pass, es, k) <= Ops(nm, pass, es, n)
    decreases n
  {
    if k < n {
      OpsPrefix(nm, pass, es, k, n - 1);
    }
  }

  /** No group is lost, wherever the renaming stops. */
  ghost predicate AlwaysSafe(nm: Naming, s: Store, es: seq<Entry>) {
    forall n :: 0 <= n <= |Ops(nm, Rename, es, |es|)| ==> AllSafe(nm, ApplyAll(s, Ops(nm, Rename, es, |es|)[..n]), es)
  }

  lemma TakenAlong(nm: Naming, s: Store, es: seq<Entry>, i: nat, j: nat)
    requires i < j < |es| && Leaves(nm, es[i], es[j])
    ensures !AllSafe(nm, After(nm, s, es, j + 1), es)
  {
    NotThereAgain(nm, s, es, i, j + 1);
    assert !Safe(nm, After(nm, s, es, j + 1), es[i]);
  }

  lemma SafeAfter(nm: Naming, s: Store, es: seq<Entry>, k: nat)
    requires AlwaysSafe(nm, s, es) && k <= |es|
    ensures AllSafe(nm, After(nm, s, es, k), es)
  {
    var all, ops := Ops(nm, Rename, es, |es|), Ops(nm, Rename, es, k);
    OpsPrefix(nm, Rename, es, k, |es|);
    assert all[..|ops|] == ops;
    AfterMoves(nm, s, es, k);
  }

  lemma AlwaysSafeClear(nm: Naming, s: Store, es: seq<Entry>)
    requires AlwaysSafe(nm, s, es)
    ensures Clear(nm, es)
  {
    SafeAfter(nm, s, es, |es|);
    SafeAtEnd(nm, s, es);
    CompleteRestored(nm, s, es);
    forall i, j | 0 <= i < j < |es| ensures !Leaves(nm, es[i], es[j]) {
      SafeAfter(nm, s, es, j + 1);
      if Leaves(nm, es[i], es[j]) {
        TakenAlong(nm, s, es, i, j);
      }
    }
  }

  /** No group is lost at any step exactly when none stands in the way of another. */
  lemma SafeExactlyWhenClear(nm: Naming, s: Store, es: seq<Entry>)
    requires Listing(nm, s, es)
    ensures AlwaysSafe(nm, s, es) <==> Clear(nm, es)
  {
    if Clear(nm, es) {
      forall n | 0 <= n <= |Ops(nm, Rename, es, |es|)|
        ensures AllSafe(nm, ApplyAll(s, Ops(nm, Rename, es, |es|)[..n]), es)
      {
        NothingLost(nm, s, es, n);
      }
    } else if AlwaysSafe(nm, s, es) {
      AlwaysSafeClear(nm, s, es);
    }
  }

  // ---------- afterwards ----------

  lemma {:induction false} NoOthersFrom(nm: Naming, s: Store, es: seq<Entry>, k: nat, s': Store)
    requires Listing(nm, s, es) && k <= |es| && s' == After(nm, s, es, k)
    ensures NoOthers(nm, es, k, s') && OthersKept(nm, s, s')
  {
    if k > 0 {
      var before := After(nm, s, es, k - 1);
      NoOthersFrom(nm, s, es, k - 1, before);
      NoOthersStep(nm, es, k - 1, before);
      OthersStep(nm, s, before, es[k - 1]);
    } else {
      StartState(nm, s, es);
    }
  }

  /** All groups are where they belong, and there are no others. */
  lemma EndState(nm: Naming, s: Store, es: seq<Entry>, last: Store)
    requires Listing(nm, s, es) && Restored(nm, es) && last == After(nm, s, es, |es|)
    ensures State(nm, s, es, |es|, last)
  {
    NoOthersFrom(nm, s, es, |es|, last);
    forall j | 0 <= j < |es| ensures Has(last, (nm.group, Place(nm, es[j], j < |es|)), es[j].db) {
      EndsAtHome(nm, s, es, j);
    }
  }

  lemma AtHome(nm: Naming, s0: Store, es: seq<Entry>, s: Store, e: Entry)
    requires State(nm, s0, es, |es|, s) && Has(s, (nm.group, e.name), e.db)
    ensures !nm.Misplaced(e)
  {
    assert Stored(nm, s, e.name);
    var j :| 0 <= j < |es| && e.name == Place(nm, es[j], j < |es|);
    assert Has(s, (nm.group, Place(nm, es[j], j < |es|)), es[j].db);
  }

  lemma {:induction false} HomesIdle(nm: Naming, es: seq<Entry>, k: nat)
    requires k <= |es| && forall i :: 0 <= i < |es| ==> !nm.Misplaced(es[i])
    ensures |Ops(nm, Rename, es, k)| == 0
  {
    if k > 0 {
      HomesIdle(nm, es, k - 1);
      assert |OpsOf(nm, Rename, es[k - 1])| == 0;
    }
  }

  /** After a renaming that worked there is nothing left to rename. */
  lemma SecondRunIdle(nm: Naming, s: Store, es: seq<Entry>, es': seq<Entry>)
    requires Listing(nm, s, es) && Restored(nm, es)
    requires Listing(nm, ApplyAll(s, Ops(nm, Rename, es, |es|)), es')
    ensures Ops(nm, Rename, es', |es'|) == []
  {
    var last := After(nm, s, es, |es|);
    AfterMoves(nm, s, es, |es|);
    EndState(nm, s, es, last);
    forall i | 0 <= i < |es'| ensures !nm.Misplaced(es'[i]) {
      AtHome(nm, s, es, last, es'[i]);
    }
    HomesIdle(nm, es', |es'|);
  }

  /** A name of derived form belongs to its own id. */
  ghost predicate OwnNames(nm: Naming, es: seq<Entry>) {
    forall i, a: nat :: 0 <= i < |es| && es[i].name == nm.derive(nm.group, a) ==> a == IdOf(es[i].db)
  }

  /** With ids that are not shared, names that tell them apart, and names of derived form only for their own
      ids no group is in the way, in whatever order they are listed. */
  lemma OwnNamesClear(nm: Naming, es: seq<Entry>)
    requires nm.Injective() && DistinctIds(es) && OwnNames(nm, es)
    ensures Clear(nm, es)
  {
    forall i, j | 0 <= i < |es| && 0 <= j < |es| && nm.Misplaced(es[i]) && i != j
      ensures Home(nm, es[j]) != nm.Name(es[i].db) && es[j].name != nm.Name(es[i].db)
    {
      assert nm.derive(nm.group, IdOf(es[i].db)) == nm.Name(es[i].db);
      assert nm.derive(nm.group, IdOf(es[j].db)) == nm.Name(es[j].db);
    }
  }
}
