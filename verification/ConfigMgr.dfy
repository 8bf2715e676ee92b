/** The store of named settings groups (GWEN_CONFIGMGR): reading, writing, deleting and locking, any of
    which may fail. */
module ConfigMgr {
  import opened Db

  type Key = (string, string)

  datatype StoreOp = Write(key: Key, db: Db) | Delete(key: Key)

  type Store = map<Key, Db>

  function Apply(store: Store, op: StoreOp): Store {
    match op
    case Write(key, db) => store[key := db]
    case Delete(key) => store - {key}
  }

  function ApplyAll(store: Store, ops: seq<StoreOp>): Store {
    if ops == [] then store else Apply(ApplyAll(store, ops[..|ops| - 1]), ops[|ops| - 1])
  }

  lemma ApplySnoc(store: Store, ops: seq<StoreOp>, op: StoreOp)
    ensures ApplyAll(store, ops + [op]) == Apply(ApplyAll(store, ops), op)
  {
    assert (ops + [op])[..|ops|] == ops;
  }

  lemma {:induction false} ApplyConcat(store: Store, a: seq<StoreOp>, b: seq<StoreOp>)
    ensures ApplyAll(store, a + b) == ApplyAll(ApplyAll(store, a), b)
  {
    if b == [] {
      assert a + b == a;
    } else {
      ApplyConcat(store, a, b[..|b| - 1]);
      assert (a + b)[..|a + b| - 1] == a + b[..|b| - 1];
    }
  }

  /** An `int` of the program. */
  type CInt = x: int | -0x8000_0000 <= x < 0x8000_0000

  /** What the surroundings answer to calls that may fail is fixed in advance, call by call, in
      `answers`; a negative answer makes the call fail without effect. */
  class ConfigMgr {
    var store: Store
    var locks: set<Key>
    var answers: seq<CInt>
    var readFailures: nat
    var unlockFailures: nat
    /** All changes made to the store so far, in order. */
    ghost var history: seq<StoreOp>
    /** All negative results handed out so far, in order. */
    ghost var errors: seq<CInt>
    /** The name MkUniqueIdFromId derives from a unique id. */
    const derive: (string, nat) -> string

    constructor (store: Store, answers: seq<CInt>, derive: (string, nat) -> string)
      ensures this.store == store && this.answers == answers && this.derive == derive
      ensures locks == {} && history == [] && errors == [] && readFailures == unlockFailures == 0
    {
      this.store, this.answers, this.derive := store, answers, derive;
      locks, readFailures, unlockFailures, history, errors := {}, 0, 0, [], [];
    }

    /** The answer to the next call. */
    method Answer() returns (rv: CInt)
      modifies this`answers, this`errors
      ensures rv == if old(answers) == [] then 0 else old(answers)[0]
      ensures answers == if old(answers) == [] then [] else old(answers)[1..]
      ensures errors == if rv < 0 then old(errors) + [rv] else old(errors)
    {
      rv := 0;
      if answers != [] {
        rv, answers := answers[0], answers[1..];
      }
      if rv < 0 {
        errors := errors + [rv];
      }
    }

    /** A lock is taken only when nobody holds it. */
    method LockGroup(group: string, name: string) returns (rv: CInt)
      modifies this`answers, this`errors, this`locks
      ensures errors == if rv < 0 then old(errors) + [rv] else old(errors)
      ensures old(answers) == [] ==> answers == []
      ensures old(answers) == [] || old(answers)[0] >= 0 ==> (rv >= 0 <==> (group, name) !in old(locks))
      ensures |old(answers)| > 0 && old(answers)[0] < 0 ==> rv == old(answers)[0] && answers == old(answers)[1..]
      ensures rv < 0 ==> locks == old(locks)
      ensures rv >= 0 ==> (group, name) !in old(locks) && locks == old(locks) + {(group, name)}
    {
      rv := Answer();
      if rv >= 0 {
        if (group, name) in locks {
          errors := errors + [-1];
          return -1;
        }
        locks := locks + {(group, name)};
      }
    }

    method UnlockGroup(group: string, name: string) returns (rv: CInt)
      modifies this`answers, this`errors, this`locks, this`unlockFailures
      ensures errors == if rv < 0 then old(errors) + [rv] else old(errors)
      ensures old(answers) == [] ==> answers == [] && rv >= 0
      ensures rv < 0 ==> locks == old(locks) && unlockFailures == old(unlockFailures) + 1
      ensures rv >= 0 ==> locks == old(locks) - {(group, name)} && unlockFailures == old(unlockFailures)
    {
      rv := Answer();
      if rv < 0 {
        unlockFailures := unlockFailures + 1;
      } else {
        locks := locks - {(group, name)};
      }
    }

    /** Reading a group that does not exist gives an empty one. */
    method GetGroup(group: string, name: string) returns (rv: CInt, db: Db)
      modifies this`answers, this`errors, this`readFailures
      ensures errors == if rv < 0 then old(errors) + [rv] else old(errors)
      ensures old(answers) == [] ==> answers == [] && rv >= 0
      ensures rv < 0 ==> readFailures == old(readFailures) + 1
      ensures rv >= 0 ==> readFailures == old(readFailures)
      ensures rv >= 0 ==> db == if (group, name) in store then store[(group, name)] else map[]
    {
      rv := Answer();
      db := map[];
      if rv < 0 {
        readFailures := readFailures + 1;
      } else if (group, name) in store {
        db := store[(group, name)];
      }
    }

    method SetGroup(group: string, name: string, db: Db) returns (rv: CInt)
      modifies this`answers, this`errors, this`store, this`history
      ensures errors == if rv < 0 then old(errors) + [rv] else old(errors)
      ensures old(answers) == [] ==> answers == [] && rv >= 0
      ensures rv < 0 ==> store == old(store) && history == old(history)
      ensures rv >= 0 ==> store == Apply(old(store), Write((group, name), db))
      ensures rv >= 0 ==> history == old(history) + [Write((group, name), db)]
    {
      rv := Answer();
      if rv >= 0 {
        store, history := store[(group, name) := db], history + [Write((group, name), db)];
      }
    }

    method DeleteGroup(group: string, name: string) returns (rv: CInt)
      modifies this`answers, this`errors, this`store, this`history
      ensures errors == if rv < 0 then old(errors) + [rv] else old(errors)
      ensures old(answers) == [] ==> answers == [] && rv >= 0
      ensures rv < 0 ==> store == old(store) && history == old(history)
      ensures rv >= 0 ==> store == Apply(old(store), Delete((group, name)))
      ensures rv >= 0 ==> history == old(history) + [Delete((group, name))]
    {
      rv := Answer();
      if rv >= 0 {
        store, history := store - {(group, name)}, history + [Delete((group, name))];
      }
    }

    method MkUniqueIdFromId(group: string, uid: nat) returns (rv: CInt, id: string)
      modifies this`answers, this`errors
      ensures errors == if rv < 0 then old(errors) + [rv] else old(errors)
      ensures old(answers) == [] ==> answers == [] && rv >= 0
      ensures rv >= 0 ==> id == derive(group, uid)
    {
      rv := Answer();
      id := derive(group, uid);
    }

    /** The names of all groups below `group`, in whatever order the store lists them. */
    method ListSubGroups(group: string) returns (rv: CInt, names: seq<string>)
      modifies this`answers, this`errors
      ensures errors == if rv < 0 then old(errors) + [rv] else old(errors)
      ensures old(answers) == [] ==> answers == [] && rv >= 0
      ensures rv >= 0 ==> Lists(names, group, store)
    {
      rv := Answer();
      names := [];
      var left := set key | key in store && key.0 == group :: key.1;
      while left != {}
        invariant forall i, j :: 0 <= i < j < |names| ==> names[i] != names[j]
        invariant forall n :: n in names ==> n !in left
        invariant forall n :: (group, n) in store <==> n in left || n in names
        decreases left
      {
        var n :| n in left;
        left, names := left - {n}, names + [n];
      }
    }
  }

  /** `names` are the subgroups of `group`, each listed once. */
  ghost predicate Lists(names: seq<string>, group: string, store: Store) {
    && (forall i, j :: 0 <= i < j < |names| ==> names[i] != names[j])
    && (forall n :: n in names <==> (group, n) in store)
  }
}
