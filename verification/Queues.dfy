/** Commands and the queues they pass through. */
module Queues {
  import opened Grouping
  import opened Wrappers

  datatype Status = StatusUnknown | StatusNone | StatusEnqueued | StatusOther(code: int)

  /** A command (AB_TRANSACTION), as far as dispatching uses it. */
  class Transaction {
    var status: Status
    const accountId: nat
    var uniqueId: nat
    var refUniqueId: nat

    constructor (status: Status, accountId: nat, uniqueId: nat)
      ensures this.status == status && this.accountId == accountId && this.uniqueId == uniqueId
    {
      this.status, this.accountId, this.uniqueId, this.refUniqueId := status, accountId, uniqueId, 0;
    }
  }

  datatype AccountSpec = AccountSpec(backendName: string)

  datatype Account = Account(userId: nat)

  /** The ids and names of the queues below are set once, when a queue is made. */
  class AccountQueue {
    const accountId: nat
    var spec: Option<AccountSpec>
    var account: Option<Account>
    var transactions: seq<Transaction>

    constructor (accountId: nat)
      ensures this.accountId == accountId && transactions == []
    {
      this.accountId, spec, account, transactions := accountId, None, None, [];
    }

    method AddTransaction(t: Transaction)
      modifies this`transactions
      ensures transactions == old(transactions) + [t]
    {
      transactions := transactions + [t];
    }
  }

  class ProviderQueue {
    const name: string
    var queues: seq<AccountQueue>

    constructor (name: string)
      ensures this.name == name && queues == []
    {
      this.name, queues := name, [];
    }

    method AddAccountQueue(aq: AccountQueue)
      modifies this`queues
      ensures queues == old(queues) + [aq]
    {
      queues := queues + [aq];
    }

    /** Takes the first account queue out. */
    method DelFirst()
      requires queues != []
      modifies this`queues
      ensures old(queues) == [old(queues)[0]] + queues
    {
      queues := queues[1..];
    }
  }

  class UserQueue {
    const userId: nat
    var queues: seq<AccountQueue>

    constructor (userId: nat)
      ensures this.userId == userId && queues == []
    {
      this.userId, queues := userId, [];
    }

    method AddAccountQueue(aq: AccountQueue)
      modifies this`queues
      ensures queues == old(queues) + [aq]
    {
      queues := queues + [aq];
    }
  }

  /** A list of queues (the LIST1 types): a queue is on it at most once. */
  class QueueList<T(==)> {
    var items: seq<T>

    constructor ()
      ensures items == []
    {
      items := [];
    }

    method Add(x: T)
      modifies this
      ensures items == old(items) + [x]
    {
      items := items + [x];
    }

    /** Takes the first queue off the list. */
    method DelFirst()
      requires items != []
      modifies this
      ensures old(items) == [old(items)[0]] + items
    {
      items := items[1..];
    }
  }

  /** No queue stands on the list twice. */
  ghost predicate Distinct<T>(qs: seq<T>) {
    qs == [] || (qs[|qs| - 1] !in qs[..|qs| - 1] && Distinct(qs[..|qs| - 1]))
  }

  lemma {:induction false} DistinctPairs<T>(qs: seq<T>)
    requires Distinct(qs)
    ensures forall i, j :: 0 <= i < j < |qs| ==> qs[i] != qs[j]
  {
    if qs != [] {
      DistinctPairs(qs[..|qs| - 1]);
    }
  }

  lemma DistinctAdd<T>(qs: seq<T>, q: T)
    requires Distinct(qs) && q !in qs
    ensures Distinct(qs + [q])
  {
    assert (qs + [q])[..|qs|] == qs;
  }

  ghost function Objs<T>(s: seq<T>): set<T> {
    set x | x in s
  }

  // ---------- queues seen as groups ----------

  ghost function AccountGroups(qs: seq<AccountQueue>): (gs: seq<Group<nat, Transaction>>)
    reads qs
    ensures |gs| == |qs|
    ensures forall i :: 0 <= i < |qs| ==> gs[i] == Group(qs[i].accountId, qs[i].transactions)
  {
    seq(|qs|, i requires 0 <= i < |qs| reads qs => Group(qs[i].accountId, qs[i].transactions))
  }

  ghost function ProviderGroups(qs: seq<ProviderQueue>): (gs: seq<Group<string, AccountQueue>>)
    reads qs
    ensures |gs| == |qs|
    ensures forall i :: 0 <= i < |qs| ==> gs[i] == Group(qs[i].name, qs[i].queues)
  {
    seq(|qs|, i requires 0 <= i < |qs| reads qs => Group(qs[i].name, qs[i].queues))
  }

  ghost function UserGroups(qs: seq<UserQueue>): (gs: seq<Group<nat, AccountQueue>>)
    reads qs
    ensures |gs| == |qs|
    ensures forall i :: 0 <= i < |qs| ==> gs[i] == Group(qs[i].userId, qs[i].queues)
  {
    seq(|qs|, i requires 0 <= i < |qs| reads qs => Group(qs[i].userId, qs[i].queues))
  }

  // ---------- lookups by key ----------

  /** `AB_AccountQueue_List_GetByAccountId` */
  method GetByAccountId(aql: QueueList<AccountQueue>, uid: nat) returns (aq: AccountQueue?)
    ensures var i := Find(AccountGroups(aql.items), uid);
            aq == if i < |aql.items| then aql.items[i] else null
  {
    var i := 0;
    while i < |aql.items|
      invariant i <= |aql.items|
      invariant forall j :: 0 <= j < i ==> aql.items[j].accountId != uid
    {
      if aql.items[i].accountId == uid {
        FindFromFirst(AccountGroups(aql.items), uid, 0, i);
        return aql.items[i];
      }
      i := i + 1;
    }
    FindFromFirst(AccountGroups(aql.items), uid, 0, i);
    return null;
  }

  /** `AB_ProviderQueue_List_GetByProviderName` */
  method GetByProviderName(pql: QueueList<ProviderQueue>, name: string) returns (pq: ProviderQueue?)
    ensures var i := Find(ProviderGroups(pql.items), name);
            pq == if i < |pql.items| then pql.items[i] else null
  {
    var i := 0;
    while i < |pql.items|
      invariant i <= |pql.items|
      invariant forall j :: 0 <= j < i ==> pql.items[j].name != name
    {
      if pql.items[i].name == name {
        FindFromFirst(ProviderGroups(pql.items), name, 0, i);
        return pql.items[i];
      }
      i := i + 1;
    }
    FindFromFirst(ProviderGroups(pql.items), name, 0, i);
    return null;
  }

  /** `AB_UserQueue_List_GetByUserId` */
  method GetByUserId(uql: QueueList<UserQueue>, uid: nat) returns (uq: UserQueue?)
    ensures var i := Find(UserGroups(uql.items), uid);
            uq == if i < |uql.items| then uql.items[i] else null
  {
    var i := 0;
    while i < |uql.items|
      invariant i <= |uql.items|
      invariant forall j :: 0 <= j < i ==> uql.items[j].userId != uid
    {
      if uql.items[i].userId == uid {
        FindFromFirst(UserGroups(uql.items), uid, 0, i);
        return uql.items[i];
      }
      i := i + 1;
    }
    FindFromFirst(UserGroups(uql.items), uid, 0, i);
    return null;
  }
}
