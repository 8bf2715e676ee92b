/** Settings groups (GWEN_DB): named variables, each with a list of values. Subgroups are not modelled. */
module Db {
  import opened Wrappers

  datatype DbValue = IntValue(n: int) | CharValue(s: string)

  type Db = map<string, seq<DbValue>>

  function Values(db: Db, name: string): seq<DbValue> {
    if name in db then db[name] else []
  }

  /** The number at the given place of a variable, 0 when there is none. */
  function GetInt(db: Db, name: string, idx: nat): int {
    var vs := Values(db, name);
    if idx < |vs| && vs[idx].IntValue? then vs[idx].n else 0
  }

  function GetChar(db: Db, name: string, idx: nat): Option<string> {
    var vs := Values(db, name);
    if idx < |vs| && vs[idx].CharValue? then Some(vs[idx].s) else None
  }

  /** Setting with GWEN_DB_FLAGS_OVERWRITE_VARS */
  function SetInt(db: Db, name: string, n: int): Db {
    db[name := [IntValue(n)]]
  }

  /** Setting with GWEN_DB_FLAGS_OVERWRITE_VARS */
  function SetChar(db: Db, name: string, s: string): Db {
    db[name := [CharValue(s)]]
  }

  /** Setting with GWEN_DB_FLAGS_DEFAULT */
  function AddChar(db: Db, name: string, s: string): Db {
    db[name := Values(db, name) + [CharValue(s)]]
  }

  function DeleteVar(db: Db, name: string): Db {
    db - {name}
  }
}
