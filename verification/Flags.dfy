/** Sets of flags, stored as lists of names. A 32-bit word of flags is the set of its one bits. */
module Flags {
  import opened Ascii
  import opened Db
  import opened Wrappers

  type Bits = set<nat>

  datatype FlagDef = FlagDef(flagString: string, flagValue: Bits)

  /** A table is given without the entry of value 0 that ends it. */
  predicate Table(defs: seq<FlagDef>) {
    forall i :: 0 <= i < |defs| ==> defs[i].flagValue != {}
  }

  /** The value of the first entry with the given name from place `k` on, 0 if there is none. */
  function ValueOf(defs: seq<FlagDef>, s: string, k: nat): Bits
    requires k <= |defs|
    decreases |defs| - k
  {
    if k == |defs| then {} else if SameText(defs[k].flagString, s) then defs[k].flagValue else ValueOf(defs, s, k + 1)
  }

  /** What the first `k` entries of the table make of the variable. */
  function ToDb(db: Db, defs: seq<FlagDef>, name: string, flags: Bits, k: nat): Db
    requires k <= |defs|
  {
    if k == 0 then DeleteVar(db, name)
    else if flags * defs[k - 1].flagValue != {} then
      AddChar(ToDb(db, defs, name, flags, k - 1), name, defs[k - 1].flagString)
    else ToDb(db, defs, name, flags, k - 1)
  }

  /** The name at place `i` of the variable, empty if there is none. */
  function NameAt(db: Db, name: string, i: nat): string {
    match GetChar(db, name, i)
    case None => ""
    case Some(s) => s
  }

  /** All flags that the first `n` names stand for. */
  function FromDb(db: Db, defs: seq<FlagDef>, name: string, n: nat): Bits {
    if n == 0 then {} else FromDb(db, defs, name, n - 1) + ValueOf(defs, NameAt(db, name, n - 1), 0)
  }

  /** The variable holds exactly `n` names before the first place that holds none. */
  ghost predicate Names(db: Db, name: string, n: nat) {
    (forall i :: 0 <= i < n ==> NameAt(db, name, i) != "") && NameAt(db, name, n) == ""
  }

  /** The first place from `i` on that holds no name. */
  function EndOfNames(db: Db, name: string, i: nat): (n: nat)
    ensures n >= i && NameAt(db, name, n) == "" && forall k :: i <= k < n ==> NameAt(db, name, k) != ""
    decreases |Values(db, name)| - i
  {
    if NameAt(db, name, i) == "" then i else EndOfNames(db, name, i + 1)
  }

  // ---------- the code ----------

  /** The entry at place `k` is the first with the given name. */
  ghost predicate FirstNamed(defs: seq<FlagDef>, s: string, k: nat) {
    k < |defs| && SameText(defs[k].flagString, s) && forall i :: 0 <= i < k ==> !SameText(defs[i].flagString, s)
  }

  method FindFlagDefByString(defs: seq<FlagDef>, s: string) returns (def: Option<FlagDef>)
    requires Table(defs)
    ensures match def
            case None => ValueOf(defs, s, 0) == {} && forall i :: 0 <= i < |defs| ==> !SameText(defs[i].flagString, s)
            case Some(d) =>
              ValueOf(defs, s, 0) == d.flagValue && exists k: nat :: FirstNamed(defs, s, k) && d == defs[k]
  {
    var k := 0;
    while k < |defs|
      invariant k <= |defs| && ValueOf(defs, s, 0) == ValueOf(defs, s, k)
      invariant forall i :: 0 <= i < k ==> !SameText(defs[i].flagString, s)
    {
      if SameText(defs[k].flagString, s) {
        assert FirstNamed(defs, s, k);
        return Some(defs[k]);
      }
      k := k + 1;
    }
    return None;
  }

  method FlagsFromDb(db: Db, defs: seq<FlagDef>, sVarName: string) returns (flags: Bits)
    requires Table(defs)
    ensures flags == FromDb(db, defs, sVarName, EndOfNames(db, sVarName, 0))
  {
    flags := {};
    var i := 0;
    while NameAt(db, sVarName, i) != ""
      invariant EndOfNames(db, sVarName, i) == EndOfNames(db, sVarName, 0)
      invariant flags == FromDb(db, defs, sVarName, i)
      decreases |Values(db, sVarName)| - i
    {
      var currDef := FindFlagDefByString(defs, NameAt(db, sVarName, i));
      if currDef.Some? {
        flags := flags + currDef.value.flagValue;
      }
      i := i + 1;
    }
  }

  method FlagsToDb(db0: Db, defs: seq<FlagDef>, sVarName: string, flags: Bits) returns (db: Db)
    requires Table(defs)
    ensures db == ToDb(db0, defs, sVarName, flags, |defs|)
  {
    db := DeleteVar(db0, sVarName);
    var k := 0;
    while k < |defs|
      invariant k <= |defs| && db == ToDb(db0, defs, sVarName, flags, k)
    {
      if flags * defs[k].flagValue != {} {
        db := AddChar(db, sVarName, defs[k].flagString);
      }
      k := k + 1;
    }
  }

  // ---------- what is stored and what is read ----------

  ghost predicate Common(a: Bits, b: Bits) {
    exists bit :: bit in a && bit in b
  }

  lemma CommonBits(a: Bits, b: Bits)
    ensures a * b != {} <==> Common(a, b)
  {
    if bit :| bit in a * b {
      assert bit in a && bit in b;
    }
    if bit :| bit in a && bit in b {
      assert bit in a * b;
    }
  }

  /** The variable holds the names of all entries that have a flag in common with those given, and nothing else; no
      other variable is touched. */
  lemma {:induction false} NamesStored(db: Db, defs: seq<FlagDef>, name: string, flags: Bits, k: nat, s: string,
                                       other: string)
    requires k <= |defs| && other != name
    ensures var db' := ToDb(db, defs, name, flags, k);
            && (CharValue(s) in Values(db', name)
                <==> exists i :: 0 <= i < k && defs[i].flagString == s && Common(flags, defs[i].flagValue))
            && (forall v :: v in Values(db', name) ==> v.CharValue?)
            && Values(db', other) == Values(db, other)
  {
    if k > 0 {
      NamesStored(db, defs, name, flags, k - 1, s, other);
      var v, was := defs[k - 1].flagValue, Values(ToDb(db, defs, name, flags, k - 1), name);
      CommonBits(flags, v);
      assert flags * v != {} ==>
          Values(ToDb(db, defs, name, flags, k), name) == was + [CharValue(defs[k - 1].flagString)];
    }
  }

  /** A flag is read exactly if it belongs to the entry of one of the names. */
  lemma {:induction false} FlagsRead(db: Db, defs: seq<FlagDef>, name: string, n: nat, b: nat)
    ensures b in FromDb(db, defs, name, n)
       <==> exists i, k :: 0 <= i < n && 0 <= k < |defs| && FirstNamed(defs, NameAt(db, name, i), k)
                           && b in defs[k].flagValue
  {
    hide SameText, NameAt, FirstNamed, ValueOf;
    if n > 0 {
      FlagsRead(db, defs, name, n - 1, b);
      FirstValue(defs, NameAt(db, name, n - 1), 0, b);
    }
  }

  lemma {:induction false} FirstValue(defs: seq<FlagDef>, s: string, from: nat, b: nat)
    requires from <= |defs| && forall i :: 0 <= i < from ==> !SameText(defs[i].flagString, s)
    ensures b in ValueOf(defs, s, from)
       <==> exists k :: 0 <= k < |defs| && FirstNamed(defs, s, k) && b in defs[k].flagValue
    decreases |defs| - from
  {
    hide SameText;
    if from < |defs| {
      if SameText(defs[from].flagString, s) {
        assert FirstNamed(defs, s, from);
      } else {
        FirstValue(defs, s, from + 1, b);
      }
    }
  }

  // ---------- round trips ----------

  /** The values of the selected entries, all together. */
  function Selected(defs: seq<FlagDef>, flags: Bits, k: nat): Bits
    requires k <= |defs|
  {
    if k == 0 then {}
    else if flags * defs[k - 1].flagValue != {} then Selected(defs, flags, k - 1) + defs[k - 1].flagValue
    else Selected(defs, flags, k - 1)
  }

  function Mask(defs: seq<FlagDef>, k: nat): Bits
    requires k <= |defs|
  {
    if k == 0 then {} else Mask(defs, k - 1) + defs[k - 1].flagValue
  }

  ghost predicate GoodNames(defs: seq<FlagDef>) {
    && (forall i :: 0 <= i < |defs| ==> defs[i].flagString != "")
    && (forall i, j :: 0 <= i < j < |defs| ==> !SameText(defs[i].flagString, defs[j].flagString))
  }

  lemma {:induction false} ValueOfOwn(defs: seq<FlagDef>, j: nat, k: nat)
    requires GoodNames(defs) && k <= j < |defs|
    ensures ValueOf(defs, defs[j].flagString, k) == defs[j].flagValue
    decreases j - k
  {
    if k < j {
      ValueOfOwn(defs, j, k + 1);
    }
  }

  lemma {:induction false} FromDbAgrees(db: Db, db': Db, defs: seq<FlagDef>, name: string, n: nat)
    requires forall i :: 0 <= i < n ==> NameAt(db', name, i) == NameAt(db, name, i)
    ensures FromDb(db', defs, name, n) == FromDb(db, defs, name, n)
  {
    if n > 0 {
      FromDbAgrees(db, db', defs, name, n - 1);
    }
  }

  lemma NameAdded(db: Db, name: string, s: string, db': Db, n: nat)
    requires n == |Values(db, name)| && Names(db, name, n) && s != "" && db' == AddChar(db, name, s)
    ensures |Values(db', name)| == n + 1 && Names(db', name, n + 1) && NameAt(db', name, n) == s
    ensures forall i :: 0 <= i < n ==> NameAt(db', name, i) == NameAt(db, name, i)
  {
    assert Values(db', name) == Values(db, name) + [CharValue(s)];
    forall i | 0 <= i < n ensures NameAt(db', name, i) == NameAt(db, name, i) {
    }
  }

  /** Every flag that was set comes back with the whole value of its entry, whatever was stored before. */
  lemma {:induction false} FlagsBack(db: Db, defs: seq<FlagDef>, name: string, flags: Bits, k: nat, db': Db)
    requires GoodNames(defs) && k <= |defs| && db' == ToDb(db, defs, name, flags, k)
    ensures Names(db', name, |Values(db', name)|)
    ensures FromDb(db', defs, name, |Values(db', name)|) == Selected(defs, flags, k)
  {
    if k > 0 {
      var before := ToDb(db, defs, name, flags, k - 1);
      FlagsBack(db, defs, name, flags, k - 1, before);
      if flags * defs[k - 1].flagValue != {} {
        var n := |Values(before, name)|;
        NameAdded(before, name, defs[k - 1].flagString, db', n);
        FromDbAgrees(before, db', defs, name, n);
        ValueOfOwn(defs, k - 1, 0);
      }
    }
  }

  /** Each entry's bits are all set or all clear. */
  ghost predicate WholeEntries(defs: seq<FlagDef>, flags: Bits, k: nat)
    requires k <= |defs|
  {
    forall i :: 0 <= i < k ==> flags * defs[i].flagValue == {} || defs[i].flagValue <= flags
  }

  lemma {:induction false} SelectedWhole(defs: seq<FlagDef>, flags: Bits, k: nat)
    requires k <= |defs|
    ensures Selected(defs, flags, k) * flags == Mask(defs, k) * flags
    ensures Selected(defs, flags, k) <= flags <==> WholeEntries(defs, flags, k)
  {
    if k > 0 {
      SelectedWhole(defs, flags, k - 1);
      var v, was := defs[k - 1].flagValue, Selected(defs, flags, k - 1);
      if flags * v != {} {
        assert (was + v) * flags == was * flags + v * flags;
      }
      assert (Mask(defs, k - 1) + v) * flags == Mask(defs, k - 1) * flags + v * flags;
      assert flags * v == v * flags;
    }
  }

  /** Stored and read again, flags are restricted to those of the table, exactly if each entry's bits are
      all set or all clear; entries of a single bit are always so. */
  lemma FlagsRoundTrip(db: Db, defs: seq<FlagDef>, name: string, flags: Bits, db': Db)
    requires GoodNames(defs) && db' == ToDb(db, defs, name, flags, |defs|)
    ensures FromDb(db', defs, name, EndOfNames(db', name, 0)) == flags * Mask(defs, |defs|)
       <==> WholeEntries(defs, flags, |defs|)
    ensures (forall i :: 0 <= i < |defs| ==> |defs[i].flagValue| == 1) ==> WholeEntries(defs, flags, |defs|)
  {
    FlagsBack(db, defs, name, flags, |defs|, db');
    assert EndOfNames(db', name, 0) == |Values(db', name)|;
    SelectedWhole(defs, flags, |defs|);
    var s, m := Selected(defs, flags, |defs|), Mask(defs, |defs|);
    assert s <= flags <==> s * flags == s;
    assert m * flags == flags * m;
    if forall i :: 0 <= i < |defs| ==> |defs[i].flagValue| == 1 {
      forall i | 0 <= i < |defs| && flags * defs[i].flagValue != {} ensures defs[i].flagValue <= flags {
        OneBit(defs[i].flagValue, flags);
      }
    }
  }

  lemma OneBit(v: Bits, flags: Bits)
    requires |v| == 1 && flags * v != {}
    ensures v <= flags
  {
    var b :| b in flags * v;
    assert |v - {b}| == 0;
    assert v == {b};
  }
}
