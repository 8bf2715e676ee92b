/** Grouping a list by key: what the queue-sorting loops are meant to compute. */
module Grouping {
  import opened Seqs

  datatype Group<K, V> = Group(key: K, members: seq<V>)

  /** The index of the first group with that key, or the number of groups. */
  function Find<K(==), V>(gs: seq<Group<K, V>>, k: K): (i: nat)
    ensures i <= |gs| && (i < |gs| ==> gs[i].key == k)
  {
    FindFrom(gs, k, 0)
  }

  function FindFrom<K(==), V>(gs: seq<Group<K, V>>, k: K, from: nat): (i: nat)
    requires from <= |gs|
    ensures from <= i <= |gs| && (i < |gs| ==> gs[i].key == k)
    decreases |gs| - from
  {
    if from == |gs| || gs[from].key == k then from else FindFrom(gs, k, from + 1)
  }

  lemma {:induction false} FindFromFirst<K, V>(gs: seq<Group<K, V>>, k: K, from: nat, i: nat)
    requires from <= i <= |gs| && (i < |gs| ==> gs[i].key == k)
    requires forall j :: from <= j < i ==> gs[j].key != k
    ensures FindFrom(gs, k, from) == i
    decreases i - from
  {
    if from < i {
      FindFromFirst(gs, k, from + 1, i);
    }
  }

  lemma {:induction false} FindFromMisses<K, V>(gs: seq<Group<K, V>>, k: K, from: nat)
    requires from <= |gs|
    ensures forall j :: from <= j < FindFrom(gs, k, from) ==> gs[j].key != k
    decreases |gs| - from
  {
    if from < |gs| && gs[from].key != k {
      FindFromMisses(gs, k, from + 1);
    }
  }

  /** Appends `v` to the group of `k`, which is created at the end when there is none. */
  function Enqueue<K(==), V>(gs: seq<Group<K, V>>, k: K, v: V): seq<Group<K, V>> {
    var i := Find(gs, k);
    if i < |gs| then gs[i := Group(k, gs[i].members + [v])] else gs + [Group(k, [v])]
  }

  /** The groups with an empty one added for the key, unless there is one already. */
  function WithGroup<K(==), V>(gs: seq<Group<K, V>>, k: K): seq<Group<K, V>> {
    if Find(gs, k) < |gs| then gs else gs + [Group(k, [])]
  }

  lemma GroupFound<K, V>(gs: seq<Group<K, V>>, k: K)
    requires Find(gs, k) < |gs|
    ensures WithGroup(gs, k) == gs
  {
  }

  lemma GroupAdded<K, V>(gs: seq<Group<K, V>>, k: K, hs: seq<Group<K, V>>)
    requires Find(gs, k) == |gs| && |hs| == |gs| + 1
    requires (forall i :: 0 <= i < |gs| ==> hs[i] == gs[i]) && hs[|gs|] == Group(k, [])
    ensures hs == WithGroup(gs, k)
  {
  }

  lemma EnqueuedAt<K, V>(gs: seq<Group<K, V>>, k: K, v: V, mid: seq<Group<K, V>>, hs: seq<Group<K, V>>)
    requires mid == WithGroup(gs, k) && |hs| == |mid|
    requires forall j :: 0 <= j < |mid| && j != Find(gs, k) ==> hs[j] == mid[j]
    requires hs[Find(gs, k)] == Group(k, mid[Find(gs, k)].members + [v])
    ensures hs == Enqueue(gs, k, v)
  {
    var i := Find(gs, k);
    if i < |gs| {
      assert hs == gs[i := Group(k, gs[i].members + [v])];
    } else {
      assert mid[i].members + [v] == [v];
      assert hs == gs + [Group(k, [v])];
    }
  }

  function EnqueueAll<K(==), V>(gs: seq<Group<K, V>>, items: seq<(K, V)>): seq<Group<K, V>> {
    if items == [] then gs
    else
      var (k, v) := items[|items| - 1];
      Enqueue(EnqueueAll(gs, items[..|items| - 1]), k, v)
  }

  ghost predicate KeysDistinct<K, V>(gs: seq<Group<K, V>>) {
    forall i, j :: 0 <= i < j < |gs| ==> gs[i].key != gs[j].key
  }

  function Members<K(==), V>(gs: seq<Group<K, V>>, k: K): seq<V> {
    var i := Find(gs, k);
    if i < |gs| then gs[i].members else []
  }

  /** The values that belong to one key, in their order. */
  function Select<K(==), V>(items: seq<(K, V)>, k: K): seq<V> {
    if items == [] then []
    else
      var (k', v) := items[|items| - 1];
      Select(items[..|items| - 1], k) + if k' == k then [v] else []
  }

  /** All members of all groups. */
  function Flat<K, V>(gs: seq<Group<K, V>>): seq<V> {
    FlatMap((g: Group<K, V>) => g.members, gs)
  }

  function ValuesOf<K, V>(items: seq<(K, V)>): (vs: seq<V>)
    ensures |vs| == |items| && forall i :: 0 <= i < |items| ==> vs[i] == items[i].1
  {
    seq(|items|, i requires 0 <= i < |items| => items[i].1)
  }

  // ---------- laws of one step ----------

  lemma FindUnique<K, V>(gs: seq<Group<K, V>>, i: nat)
    requires KeysDistinct(gs) && i < |gs|
    ensures Find(gs, gs[i].key) == i
  {
    FindFromFirst(gs, gs[i].key, 0, i);
  }

  lemma EnqueueKeys<K, V>(gs: seq<Group<K, V>>, k: K, v: V)
    requires KeysDistinct(gs)
    ensures KeysDistinct(Enqueue(gs, k, v))
  {
    FindFromMisses(gs, k, 0);
  }

  lemma EnqueueMembers<K, V>(gs: seq<Group<K, V>>, k: K, v: V, k': K)
    requires KeysDistinct(gs)
    ensures Members(Enqueue(gs, k, v), k') == Members(gs, k') + if k' == k then [v] else []
  {
    EnqueueKeys(gs, k, v);
    var hs, i, i' := Enqueue(gs, k, v), Find(gs, k), Find(gs, k');
    if k' == k {
      FindUnique(hs, i);
    } else if i' < |gs| {
      FindUnique(hs, i');
    } else {
      FindFromMisses(gs, k', 0);
      FindFromFirst(hs, k', 0, |hs|);
    }
  }

  lemma FlatUpdate<K, V>(gs: seq<Group<K, V>>, i: nat, g: Group<K, V>, v: V)
    requires i < |gs| && g.members == gs[i].members + [v]
    ensures multiset(Flat(gs[i := g])) == multiset(Flat(gs)) + multiset{v}
  {
    var f := (g: Group<K, V>) => g.members;
    var a, b := gs[..i], gs[i + 1..];
    assert gs == a + ([gs[i]] + b);
    assert gs[i := g] == a + ([g] + b);
    FlatMapConcat(f, a, [gs[i]] + b);
    FlatMapConcat(f, a, [g] + b);
    FlatMapCons(f, gs[i], b);
    FlatMapCons(f, g, b);
  }

  lemma EnqueueFlat<K, V>(gs: seq<Group<K, V>>, k: K, v: V)
    ensures multiset(Flat(Enqueue(gs, k, v))) == multiset(Flat(gs)) + multiset{v}
  {
    var i := Find(gs, k);
    if i < |gs| {
      FlatUpdate(gs, i, Group(k, gs[i].members + [v]), v);
    } else {
      FlatMapSnoc((g: Group<K, V>) => g.members, gs, Group(k, [v]));
    }
  }

  // ---------- laws of the whole ----------

  lemma EnqueueAllSnoc<K, V>(gs: seq<Group<K, V>>, items: seq<(K, V)>, item: (K, V))
    ensures EnqueueAll(gs, items + [item]) == Enqueue(EnqueueAll(gs, items), item.0, item.1)
  {
    assert (items + [item])[..|items|] == items;
  }

  lemma {:induction false} GroupKeys<K, V>(gs: seq<Group<K, V>>, items: seq<(K, V)>)
    requires KeysDistinct(gs)
    ensures KeysDistinct(EnqueueAll(gs, items))
  {
    if items != [] {
      var (k, v) := items[|items| - 1];
      GroupKeys(gs, items[..|items| - 1]);
      EnqueueKeys(EnqueueAll(gs, items[..|items| - 1]), k, v);
    }
  }

  /** Every group holds exactly the values of its key, in the order they came. */
  lemma {:induction false} GroupMembers<K, V>(gs: seq<Group<K, V>>, items: seq<(K, V)>, k: K)
    requires KeysDistinct(gs)
    ensures Members(EnqueueAll(gs, items), k) == Members(gs, k) + Select(items, k)
  {
    if items != [] {
      var (k', v) := items[|items| - 1];
      var front := items[..|items| - 1];
      GroupMembers(gs, front, k);
      GroupKeys(gs, front);
      EnqueueMembers(EnqueueAll(gs, front), k', v, k);
    }
  }

  /** Nothing is lost and nothing is doubled. */
  lemma {:induction false} GroupConserves<K, V>(gs: seq<Group<K, V>>, items: seq<(K, V)>)
    ensures multiset(Flat(EnqueueAll(gs, items))) == multiset(Flat(gs)) + multiset(ValuesOf(items))
  {
    if items == [] {
      assert ValuesOf(items) == [];
    } else {
      var (k, v) := items[|items| - 1];
      var front := items[..|items| - 1];
      GroupConserves(gs, front);
      EnqueueFlat(EnqueueAll(gs, front), k, v);
      assert ValuesOf(items) == ValuesOf(front) + [v];
    }
  }

  lemma EnqueueKeeps<K, V>(gs: seq<Group<K, V>>, k: K, v: V, j: nat)
    requires j < |gs|
    ensures j < |Enqueue(gs, k, v)| && Enqueue(gs, k, v)[j].key == gs[j].key
    ensures forall x :: x in gs[j].members ==> x in Enqueue(gs, k, v)[j].members
  {
  }

  /** Every value is in a group of its key. */
  lemma {:induction false} Grouped<K, V>(gs: seq<Group<K, V>>, items: seq<(K, V)>, i: nat) returns (j: nat)
    requires i < |items|
    ensures j < |EnqueueAll(gs, items)|
    ensures EnqueueAll(gs, items)[j].key == items[i].0 && items[i].1 in EnqueueAll(gs, items)[j].members
  {
    var n := |items| - 1;
    var before := EnqueueAll(gs, items[..n]);
    if i == n {
      j := Find(before, items[n].0);
    } else {
      j := Grouped(gs, items[..n], i);
      EnqueueKeeps(before, items[n].0, items[n].1, j);
    }
  }

  lemma EnqueueOnly<K, V>(gs: seq<Group<K, V>>, k: K, x: V, j: nat, v: V)
    requires j < |Enqueue(gs, k, x)| && v in Enqueue(gs, k, x)[j].members
    ensures (Enqueue(gs, k, x)[j].key == k && v == x)
         || (j < |gs| && v in gs[j].members && gs[j].key == Enqueue(gs, k, x)[j].key)
  {
  }

  /** And nothing else is in a group that was not there before. */
  lemma {:induction false} OnlyGrouped<K, V>(gs: seq<Group<K, V>>, items: seq<(K, V)>, j: nat, v: V)
    requires j < |EnqueueAll(gs, items)| && v in EnqueueAll(gs, items)[j].members
    ensures (EnqueueAll(gs, items)[j].key, v) in items || (j < |gs| && v in gs[j].members)
  {
    hide Enqueue;
    if items != [] {
      var n := |items| - 1;
      var (k, x) := items[n];
      assert items == items[..n] + [(k, x)];
      EnqueueOnly(EnqueueAll(gs, items[..n]), k, x, j, v);
      if j < |EnqueueAll(gs, items[..n])| && v in EnqueueAll(gs, items[..n])[j].members {
        OnlyGrouped(gs, items[..n], j, v);
      }
    }
  }

  /** Groups exist only for keys that occur. */
  lemma {:induction false} GroupsNotEmpty<K, V>(items: seq<(K, V)>)
    ensures forall g :: g in EnqueueAll([], items) ==> g.members != []
  {
    if items != [] {
      GroupsNotEmpty(items[..|items| - 1]);
    }
  }

  /** The value at hand lies in the group of its key. */
  lemma {:induction false} SelectHas<K, V>(items: seq<(K, V)>, i: nat)
    requires i < |items|
    ensures items[i].1 in Select(items, items[i].0)
  {
    if i < |items| - 1 {
      SelectHas(items[..|items| - 1], i);
    }
  }

  lemma {:induction false} SelectOnly<K, V>(items: seq<(K, V)>, k: K, v: V)
    requires v in Select(items, k)
    ensures exists i :: 0 <= i < |items| && items[i] == (k, v)
  {
    var n := |items| - 1;
    if items[n] != (k, v) {
      SelectOnly(items[..n], k, v);
      var i :| 0 <= i < n && items[..n][i] == (k, v);
      assert items[i] == (k, v);
    }
  }

  /** A group holds all the values of its key in the order they came, and at least one. */
  lemma MemberGroup<K, V>(items: seq<(K, V)>, g: Group<K, V>)
    requires g in EnqueueAll([], items)
    ensures g.members == Select(items, g.key) != []
  {
    var gs := EnqueueAll<K, V>([], items);
    assert KeysDistinct<K, V>([]);
    GroupKeys<K, V>([], items);
    GroupMembers<K, V>([], items, g.key);
    GroupsNotEmpty(items);
    var i :| 0 <= i < |gs| && gs[i] == g;
    FindUnique(gs, i);
  }
}
