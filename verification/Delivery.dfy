/** Where every command ends up: the three groupings together. */
module Delivery {
  import opened Grouping
  import opened Seqs

  /** The account groups, each with what `key` says of its account. */
  function Keyed<K, T>(gs: seq<Group<nat, T>>, key: nat -> K): (items: seq<(K, Group<nat, T>)>)
    ensures |items| == |gs|
    ensures forall i :: 0 <= i < |gs| ==> items[i] == (key(gs[i].key), gs[i])
  {
    seq(|gs|, i requires 0 <= i < |gs| => (key(gs[i].key), gs[i]))
  }

  /** Commands grouped by account, and the account groups grouped by backend. */
  function ForProviders<T>(jobs: seq<(nat, T)>, backend: nat -> string): seq<Group<string, Group<nat, T>>> {
    EnqueueAll([], Keyed(EnqueueAll([], jobs), backend))
  }

  /** The account groups of one provider grouped by user. */
  function ForUsers<T>(p: Group<string, Group<nat, T>>, user: nat -> nat): seq<Group<nat, Group<nat, T>>> {
    EnqueueAll([], Keyed(p.members, user))
  }

  // ---------- everything lies where it belongs ----------

  lemma {:induction false} SelectKeyed<K, T>(gs: seq<Group<nat, T>>, key: nat -> K, k: K, g: Group<nat, T>)
    requires g in Select(Keyed(gs, key), k)
    ensures g in gs && key(g.key) == k
  {
    var items := Keyed(gs, key);
    SelectOnly(items, k, g);
    var i :| 0 <= i < |items| && items[i] == (k, g);
    assert gs[i] == g;
  }

  /** Every account queue found anywhere in the result is at its own backend and its own user, and holds
      exactly the commands of its account, in the order they were given. */
  lemma PlacedRight<T>(jobs: seq<(nat, T)>, backend: nat -> string, user: nat -> nat,
                       p: Group<string, Group<nat, T>>, u: Group<nat, Group<nat, T>>, g: Group<nat, T>)
    requires p in ForProviders(jobs, backend) && u in ForUsers(p, user) && g in u.members
    ensures p.key == backend(g.key) && u.key == user(g.key)
    ensures g.members == Select(jobs, g.key) != []
  {
    MemberGroup(Keyed(p.members, user), u);
    SelectKeyed(p.members, user, u.key, g);
    MemberGroup(Keyed(EnqueueAll([], jobs), backend), p);
    SelectKeyed(EnqueueAll([], jobs), backend, p.key, g);
    MemberGroup(jobs, g);
  }

  /** No two provider queues share a name, and no two user queues of a provider share a user. */
  lemma OneQueuePerKey<T>(jobs: seq<(nat, T)>, backend: nat -> string, user: nat -> nat)
    ensures KeysDistinct(ForProviders(jobs, backend))
    ensures forall p :: p in ForProviders(jobs, backend) ==> KeysDistinct(ForUsers(p, user))
  {
    GroupKeys<string, Group<nat, T>>([], Keyed(EnqueueAll([], jobs), backend));
    forall p | p in ForProviders(jobs, backend) ensures KeysDistinct(ForUsers(p, user)) {
      GroupKeys<nat, Group<nat, T>>([], Keyed(p.members, user));
    }
  }

  lemma {:induction false} GroupOfKey<K, V>(items: seq<(K, V)>, i: nat) returns (g: Group<K, V>)
    requires i < |items|
    ensures g in EnqueueAll([], items) && g.key == items[i].0 && items[i].1 in g.members
  {
    var gs := EnqueueAll<K, V>([], items);
    var k := items[i].0;
    assert KeysDistinct<K, V>([]);
    GroupMembers<K, V>([], items, k);
    SelectHas(items, i);
    g := gs[Find(gs, k)];
  }

  /** Every command is delivered: its account's queue lies at the account's user at the account's
      backend. */
  lemma Delivered<T>(jobs: seq<(nat, T)>, backend: nat -> string, user: nat -> nat, i: nat)
    returns (p: Group<string, Group<nat, T>>, u: Group<nat, Group<nat, T>>, g: Group<nat, T>)
    requires i < |jobs|
    ensures p in ForProviders(jobs, backend) && u in ForUsers(p, user) && g in u.members
    ensures g.key == jobs[i].0 && jobs[i].1 in g.members
  {
    g := GroupOfKey(jobs, i);
    var gs := EnqueueAll<nat, T>([], jobs);
    var j :| 0 <= j < |gs| && gs[j] == g;
    p := GroupOfKey(Keyed(gs, backend), j);
    var k :| 0 <= k < |p.members| && p.members[k] == g;
    u := GroupOfKey(Keyed(p.members, user), k);
  }

  // ---------- nothing is lost and nothing is doubled ----------

  lemma CancelOne<A>(a: multiset<A>, b: multiset<A>, x: A)
    requires a + multiset{x} == b + multiset{x}
    ensures a == b
  {
    assert a == a + multiset{x} - multiset{x};
    assert b == b + multiset{x} - multiset{x};
  }

  lemma {:induction false} FlatMapPermuted<A, B>(f: A -> seq<B>, a: seq<A>, b: seq<A>)
    requires multiset(a) == multiset(b)
    ensures multiset(FlatMap(f, a)) == multiset(FlatMap(f, b))
  {
    if a == [] {
      assert |b| == |multiset(b)| == |multiset(a)|;
    } else {
      var a', x := a[..|a| - 1], a[|a| - 1];
      assert a == a' + [x];
      assert x in multiset(a);
      var i :| 0 <= i < |b| && b[i] == x;
      var l, r := b[..i], b[i + 1..];
      assert b == l + ([x] + r);
      CancelOne(multiset(l + r), multiset(a'), x);
      FlatMapPermuted(f, a', l + r);
      FlatMapConcat(f, l, [x] + r);
      FlatMapCons(f, x, r);
      FlatMapConcat(f, l, r);
    }
  }

  /** All commands held by the user queues of one provider. */
  function AtUsers<T>(p: Group<string, Group<nat, T>>, user: nat -> nat): seq<T> {
    FlatMap((g: Group<nat, T>) => g.members, Flat(ForUsers(p, user)))
  }

  function AtProviders<T>(ps: seq<Group<string, Group<nat, T>>>, user: nat -> nat): seq<T> {
    FlatMap((p: Group<string, Group<nat, T>>) => AtUsers(p, user), ps)
  }

  lemma KeyedValues<K, T>(gs: seq<Group<nat, T>>, key: nat -> K)
    ensures ValuesOf(Keyed(gs, key)) == gs
  {
  }

  lemma UsersKeepAll<T>(p: Group<string, Group<nat, T>>, user: nat -> nat)
    ensures multiset(AtUsers(p, user)) == multiset(Flat(p.members))
  {
    GroupConserves<nat, Group<nat, T>>([], Keyed(p.members, user));
    KeyedValues(p.members, user);
    FlatMapPermuted((g: Group<nat, T>) => g.members, Flat(ForUsers(p, user)), p.members);
  }

  lemma {:induction false} ProvidersKeepAll<T>(ps: seq<Group<string, Group<nat, T>>>, user: nat -> nat)
    ensures multiset(AtProviders(ps, user)) == multiset(Flat(Flat(ps)))
  {
    if ps != [] {
      var ps', p := ps[..|ps| - 1], ps[|ps| - 1];
      ProvidersKeepAll(ps', user);
      UsersKeepAll(p, user);
      FlatMapConcat((g: Group<nat, T>) => g.members, Flat(ps'), p.members);
    }
  }

  /** The user queues together hold every command just as often as it was given. */
  lemma AllConserved<T>(jobs: seq<(nat, T)>, backend: nat -> string, user: nat -> nat)
    ensures multiset(AtProviders(ForProviders(jobs, backend), user)) == multiset(ValuesOf(jobs))
  {
    var gs := EnqueueAll<nat, T>([], jobs);
    GroupConserves<nat, T>([], jobs);
    GroupConserves<string, Group<nat, T>>([], Keyed(gs, backend));
    KeyedValues(gs, backend);
    FlatMapPermuted((g: Group<nat, T>) => g.members, Flat(ForProviders(jobs, backend)), gs);
    ProvidersKeepAll(ForProviders(jobs, backend), user);
  }
}
