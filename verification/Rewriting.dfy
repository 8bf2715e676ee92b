/** Changing the contents of all groups of a kind, and what the passes of an update do together. */
module Rewriting {
  import opened ConfigGroups
  import opened ConfigMgr
  import opened Db
  import opened Renaming

  // ---------- conditions that do not depend on the order of groups ----------

  function EntryOf(nm: Naming, s: Store, n: string): Entry
    requires (nm.group, n) in s
  {
    Entry(n, s[(nm.group, n)])
  }

  /** No two groups clash, and none has the name that another one moves to. */
  ghost predicate Ready(nm: Naming, s: Store) {
    forall n, m :: Stored(nm, s, n) && Stored(nm, s, m) ==>
      !Clash(nm, EntryOf(nm, s, n), EntryOf(nm, s, m)) && !Leaves(nm, EntryOf(nm, s, n), EntryOf(nm, s, m))
  }

  lemma ReadyClear(nm: Naming, s: Store, es: seq<Entry>)
    requires Ready(nm, s) && Listing(nm, s, es)
    ensures Clear(nm, es)
  {
    forall i | 0 <= i < |es| ensures Stored(nm, s, es[i].name) && EntryOf(nm, s, es[i].name) == es[i] {
      assert Has(s, (nm.group, es[i].name), es[i].db);
    }
  }

  /** The same list with two entries exchanged. */
  function Exchanged(es: seq<Entry>, i: nat, j: nat): (r: seq<Entry>)
    requires i < |es| && j < |es|
    ensures |r| == |es| && r[i] == es[j] && r[j] == es[i]
  {
    es[i := es[j]][j := es[i]]
  }

  lemma ExchangedListing(nm: Naming, s: Store, es: seq<Entry>, i: nat, j: nat)
    requires Listing(nm, s, es) && j < i < |es|
    ensures Listing(nm, s, Exchanged(es, i, j))
  {
    var r := Exchanged(es, i, j);
    forall k | 0 <= k < |r| ensures Has(s, (nm.group, r[k].name), r[k].db) {
      assert Has(s, (nm.group, es[k].name), es[k].db);
      assert Has(s, (nm.group, es[i].name), es[i].db) && Has(s, (nm.group, es[j].name), es[j].db);
    }
    forall n | Stored(nm, s, n) ensures exists k :: 0 <= k < |r| && r[k].name == n {
      var k :| 0 <= k < |es| && es[k].name == n;
      assert r[if k == i then j else if k == j then i else k].name == n;
    }
  }

  /** Otherwise there is an order of the groups in which one is lost at some step. */
  lemma NotReadyLoses(nm: Naming, s: Store, es: seq<Entry>) returns (es': seq<Entry>)
    requires Listing(nm, s, es) && !Ready(nm, s)
    ensures Listing(nm, s, es') && !AlwaysSafe(nm, s, es')
  {
    var n, m :| Stored(nm, s, n) && Stored(nm, s, m)
      && (Clash(nm, EntryOf(nm, s, n), EntryOf(nm, s, m)) || Leaves(nm, EntryOf(nm, s, n), EntryOf(nm, s, m)));
    var i :| 0 <= i < |es| && es[i].name == n;
    var j :| 0 <= j < |es| && es[j].name == m;
    assert Has(s, (nm.group, es[i].name), es[i].db) && Has(s, (nm.group, es[j].name), es[j].db);
    assert es[i] == EntryOf(nm, s, n) && es[j] == EntryOf(nm, s, m);
    es' := es;
    if j < i {
      es' := Exchanged(es, i, j);
      ExchangedListing(nm, s, es, i, j);
      assert es'[j] == es[i] && es'[i] == es[j];
    }
    SafeExactlyWhenClear(nm, s, es');
  }

  // ---------- renaming, seen from the store ----------

  function HomeOf(nm: Naming, s: Store, n: string): string
    requires (nm.group, n) in s
  {
    Home(nm, Entry(n, s[(nm.group, n)]))
  }

  /** Every group has the name that goes with its id. */
  ghost predicate AtHomes(nm: Naming, s: Store) {
    forall n :: Stored(nm, s, n) ==> n == HomeOf(nm, s, n)
  }

  /** All groups of the kind, and only they, are stored where they belong. */
  ghost predicate Renamed(nm: Naming, s: Store, s': Store) {
    && (forall n :: Stored(nm, s, n) ==> Has(s', (nm.group, HomeOf(nm, s, n)), s[(nm.group, n)]))
    && (forall n :: Stored(nm, s', n) ==> exists n0 :: Stored(nm, s, n0) && n == HomeOf(nm, s, n0))
    && OthersKept(nm, s, s')
  }

  lemma RenamedWhenDone(nm: Naming, s: Store, es: seq<Entry>, s': Store)
    requires Listing(nm, s, es) && State(nm, s, es, |es|, s')
    ensures Renamed(nm, s, s')
  {
    forall n | Stored(nm, s, n) ensures Has(s', (nm.group, HomeOf(nm, s, n)), s[(nm.group, n)]) {
      var i :| 0 <= i < |es| && es[i].name == n;
      assert Has(s, (nm.group, es[i].name), es[i].db);
      assert Has(s', (nm.group, Place(nm, es[i], i < |es|)), es[i].db);
    }
    forall n | Stored(nm, s', n) ensures exists n0 :: Stored(nm, s, n0) && n == HomeOf(nm, s, n0) {
      var j :| 0 <= j < |es| && n == Place(nm, es[j], j < |es|);
      assert Has(s, (nm.group, es[j].name), es[j].db);
      assert Stored(nm, s, es[j].name) && n == HomeOf(nm, s, es[j].name);
    }
  }

  // ---------- rewriting ----------

  /** The operation changes a stored group with an id in place. */
  ghost predicate InPlaceWrite(nm: Naming, change: Db -> Db, s: Store, op: StoreOp) {
    && op.Write? && op.key.0 == nm.group && op.key in s
    && IdOf(s[op.key]) != 0 && op.db == change(s[op.key])
  }

  /** Some groups of the kind that have ids have changed contents; all else is as before. */
  ghost predicate PartlyRewritten(nm: Naming, change: Db -> Db, s: Store, s': Store) {
    && (forall key :: key in s' <==> key in s)
    && (forall key :: key in s ==>
          s'[key] == s[key] || (key.0 == nm.group && IdOf(s[key]) != 0 && s'[key] == change(s[key])))
  }

  ghost predicate Rewritten(nm: Naming, change: Db -> Db, s: Store, s': Store) {
    && PartlyRewritten(nm, change, s, s')
    && (forall key :: key in s && key.0 == nm.group && IdOf(s[key]) != 0 ==> s'[key] == change(s[key]))
  }

  lemma {:induction false} ApplyWrites(nm: Naming, change: Db -> Db, s: Store, ops: seq<StoreOp>)
    requires forall op :: op in ops ==> InPlaceWrite(nm, change, s, op)
    ensures PartlyRewritten(nm, change, s, ApplyAll(s, ops))
    ensures forall op :: op in ops ==> op.key in s && ApplyAll(s, ops)[op.key] == change(s[op.key])
  {
    if ops != [] {
      var ops', last := ops[..|ops| - 1], ops[|ops| - 1];
      assert forall op :: op in ops ==> op in ops' || op == last;
      ApplyWrites(nm, change, s, ops');
      assert InPlaceWrite(nm, change, s, last);
    }
  }

  lemma {:induction false} WritesInPlace(nm: Naming, change: Db -> Db, s: Store, es: seq<Entry>, k: nat)
    requires AtHomes(nm, s) && Listing(nm, s, es) && k <= |es|
    ensures forall op :: op in Ops(nm, Rewrite(change), es, k) ==> InPlaceWrite(nm, change, s, op)
  {
    if k > 0 {
      WritesInPlace(nm, change, s, es, k - 1);
      assert Has(s, (nm.group, es[k - 1].name), es[k - 1].db);
      assert Stored(nm, s, es[k - 1].name) && es[k - 1].name == HomeOf(nm, s, es[k - 1].name);
    }
  }

  lemma {:induction false} WriteListed(nm: Naming, change: Db -> Db, es: seq<Entry>, k: nat, i: nat)
    requires i < k <= |es| && IdOf(es[i].db) != 0
    ensures Write((nm.group, nm.Name(es[i].db)), change(es[i].db)) in Ops(nm, Rewrite(change), es, k)
  {
    if i < k - 1 {
      WriteListed(nm, change, es, k - 1, i);
    } else {
      assert OpsOf(nm, Rewrite(change), es[i])[0] in OpsOf(nm, Rewrite(change), es[i]);
    }
  }

  /** Wherever a rewriting pass stops, no group has lost its place or changed in any other way. */
  lemma RewritingStops(nm: Naming, change: Db -> Db, s: Store, es: seq<Entry>, changes: seq<StoreOp>)
    requires AtHomes(nm, s) && Listing(nm, s, es) && changes <= Ops(nm, Rewrite(change), es, |es|)
    ensures PartlyRewritten(nm, change, s, ApplyAll(s, changes))
    ensures changes == Ops(nm, Rewrite(change), es, |es|) ==> Rewritten(nm, change, s, ApplyAll(s, changes))
  {
    WritesInPlace(nm, change, s, es, |es|);
    ApplyWrites(nm, change, s, changes);
    if changes == Ops(nm, Rewrite(change), es, |es|) {
      forall key: Key | key in s && key.0 == nm.group && IdOf(s[key]) != 0
        ensures ApplyAll(s, changes)[key] == change(s[key])
      {
        assert Stored(nm, s, key.1);
        var i :| 0 <= i < |es| && es[i].name == key.1;
        assert Has(s, (nm.group, es[i].name), es[i].db) && key.1 == HomeOf(nm, s, key.1);
        WriteListed(nm, change, es, |es|, i);
        assert Write(key, change(s[key])) in changes;
      }
    }
  }
}
