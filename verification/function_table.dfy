/** The function table of an execution context: `getFunctionByName`,
    `initFunction`, `registerFunction`. Entry names are string objects;
    lookups are made with symbol objects and compare bytes only. The
    `userfunction` slot of an entry is never filled and is not modelled. */
module FunctionTable {
  import opened Wrappers
  import opened Objects

  /** The callback slot of an entry: one of the two built-ins, or NULL. */
  datatype Callback = MathBuiltin | DupBuiltin | NoCallback

  datatype Entry = Entry(name: Text, callback: Callback)

  type Table = seq<Entry>

  /** The entry names, as bytes, in table order. */
  function Names(t: Table): (ns: seq<string>)
    ensures |ns| == |t|
    ensures forall i :: 0 <= i < |t| ==> ns[i] == t[i].name.bytes
  {
    seq(|t|, i requires 0 <= i < |t| => t[i].name.bytes)
  }

  /** No two entries carry the same name. */
  predicate DistinctNames(t: Table)
  {
    forall i, j :: 0 <= i < j < |t| ==> t[i].name.bytes != t[j].name.bytes
  }

  /** The `for` loop of `getFunctionByName`, from index `from` on. */
  function FindFrom(t: Table, o: Text, from: nat): (r: Option<nat>)
    requires from <= |t|
    ensures r.Some? ==> from <= r.value < |t| && t[r.value].name.bytes == o.bytes
    ensures r.Some? ==> forall j :: from <= j < r.value ==> t[j].name.bytes != o.bytes
    ensures r.None? ==> forall j :: from <= j < |t| ==> t[j].name.bytes != o.bytes
    decreases |t| - from
  {
    if from == |t| then None
    else if CompareStringObjects(t[from].name, o) == 0 then Some(from)
    else FindFrom(t, o, from + 1)
  }

  /** `getFunctionByName`: the index of the first entry named like `o`, or
      `None` (NULL) when there is none. */
  function GetFunctionByName(t: Table, o: Text): (r: Option<nat>)
    ensures r.Some? ==> r.value < |t| && t[r.value].name.bytes == o.bytes
    ensures r.Some? ==> forall j :: 0 <= j < r.value ==> t[j].name.bytes != o.bytes
    ensures r.None? <==> o.bytes !in Names(t)
  {
    FindFrom(t, o, 0)
  }

  /** `initFunction`: append a fresh entry with the given name and no callback. */
  function InitFunction(t: Table, o: Text): (r: Table)
    ensures |r| == |t| + 1 && r[..|t|] == t
    ensures r[|t|] == Entry(o, NoCallback)
  {
    ListPush(t, Entry(o, NoCallback))
  }

  /** `registerFunction`: replace the callback of the entry already named
      `name`, in place, or append a new entry when there is none. */
  function RegisterFunction(t: Table, name: string, cb: Callback): (r: Table)
    ensures name in Names(t) ==> |r| == |t|
    ensures name in Names(t) ==>
              forall j :: 0 <= j < |t| ==>
                && r[j].name == t[j].name
                && (t[j].name.bytes != name ==> r[j] == t[j])
    ensures name in Names(t) ==>
              var i := GetFunctionByName(t, Text(Str, name)).value;
              && r[i] == t[i].(callback := cb)
              && forall j :: 0 <= j < |t| && j != i ==> r[j] == t[j]
    ensures name !in Names(t) ==> r == t + [Entry(Text(Str, name), cb)]
    ensures DistinctNames(t) ==> DistinctNames(r)
  {
    var o2 := Text(Str, name);
    match GetFunctionByName(t, o2)
    case None =>
      var t' := InitFunction(t, o2);
      t'[|t| := t'[|t|].(callback := cb)]
    case Some(i) =>
      t[i := t[i].(callback := cb)]
  }

  /** After registration, looking the name up finds the new callback. */
  lemma LookupAfterRegister(t: Table, name: string, cb: Callback, kind: TextKind)
    ensures GetFunctionByName(RegisterFunction(t, name, cb), Text(kind, name)).Some?
    ensures var r := RegisterFunction(t, name, cb);
            r[GetFunctionByName(r, Text(kind, name)).value].callback == cb
  {
    var r := RegisterFunction(t, name, cb);
    assert name in Names(r) by {
      if name in Names(t) {
        var k :| 0 <= k < |t| && Names(t)[k] == name;
        assert Names(r)[k] == name;
      } else {
        assert Names(r)[|t|] == name;
      }
    }
  }

  /** Registration leaves the lookup of every other name unchanged. */
  lemma LookupOtherAfterRegister(t: Table, name: string, cb: Callback, o: Text)
    requires o.bytes != name
    ensures var r := RegisterFunction(t, name, cb);
            && GetFunctionByName(r, o).Some? == GetFunctionByName(t, o).Some?
            && (GetFunctionByName(t, o).Some? ==>
                  r[GetFunctionByName(r, o).value] == t[GetFunctionByName(t, o).value])
  {
  }

  /** A run of `registerFunction` calls, in order. */
  function RegisterAll(t: Table, regs: seq<(string, Callback)>): Table
    decreases |regs|
  {
    if |regs| == 0 then t
    else RegisterAll(RegisterFunction(t, regs[0].0, regs[0].1), regs[1..])
  }

  /** The set of names carried by a table. */
  function NameSet(t: Table): set<string>
  {
    set i | 0 <= i < |t| :: t[i].name.bytes
  }

  /** The set of names a run of registrations installs. */
  function RegisteredNames(regs: seq<(string, Callback)>): set<string>
  {
    set i | 0 <= i < |regs| :: regs[i].0
  }

  /** One registration adds its name to the table's names and removes none. */
  lemma RegisterNameSet(t: Table, name: string, cb: Callback)
    ensures NameSet(RegisterFunction(t, name, cb)) == NameSet(t) + {name}
  {
    var r := RegisterFunction(t, name, cb);
    if name in Names(t) {
      var k :| 0 <= k < |t| && Names(t)[k] == name;
      forall x | x in NameSet(r) ensures x in NameSet(t) + {name} {
        var i :| 0 <= i < |r| && r[i].name.bytes == x;
        assert r[i].name == t[i].name;
      }
      forall x | x in NameSet(t) + {name} ensures x in NameSet(r) {
        if x == name {
          assert r[k].name == t[k].name;
        } else {
          var i :| 0 <= i < |t| && t[i].name.bytes == x;
          assert r[i].name == t[i].name;
        }
      }
    } else {
      assert r[|t|].name.bytes == name;
      forall x | x in NameSet(r) ensures x in NameSet(t) + {name} {
        var i :| 0 <= i < |r| && r[i].name.bytes == x;
        if i < |t| { assert r[i] == t[i]; }
      }
      forall x | x in NameSet(t) ensures x in NameSet(r) {
        var i :| 0 <= i < |t| && t[i].name.bytes == x;
        assert r[i] == t[i];
      }
    }
  }

  /** Whatever the registrations, a table that starts without duplicate names
      keeps none, and it carries exactly the names it had plus the names
      registered. */
  lemma {:induction false} RegisterAllKeepsNamesDistinct(t: Table, regs: seq<(string, Callback)>)
    requires DistinctNames(t)
    ensures DistinctNames(RegisterAll(t, regs))
    ensures NameSet(RegisterAll(t, regs)) == NameSet(t) + RegisteredNames(regs)
    decreases |regs|
  {
    if |regs| > 0 {
      var t' := RegisterFunction(t, regs[0].0, regs[0].1);
      RegisterNameSet(t, regs[0].0, regs[0].1);
      RegisterAllKeepsNamesDistinct(t', regs[1..]);
      assert RegisteredNames(regs) == {regs[0].0} + RegisteredNames(regs[1..]) by {
        forall x | x in RegisteredNames(regs) ensures x in {regs[0].0} + RegisteredNames(regs[1..]) {
          var i :| 0 <= i < |regs| && regs[i].0 == x;
          if i > 0 { assert regs[1..][i - 1].0 == x; }
        }
      }
    }
  }

  /** A table without duplicate names has one entry per name. */
  lemma {:induction false} DistinctNamesCard(t: Table)
    requires DistinctNames(t)
    ensures |t| == |NameSet(t)|
    decreases |t|
  {
    if |t| > 0 {
      var init := t[..|t| - 1];
      DistinctNamesCard(init);
      assert NameSet(t) == NameSet(init) + {t[|t| - 1].name.bytes};
      assert t[|t| - 1].name.bytes !in NameSet(init);
    }
  }

  /** Starting from an empty table, registrations yield one entry per distinct name. */
  lemma RegisterAllSize(regs: seq<(string, Callback)>)
    ensures DistinctNames(RegisterAll([], regs))
    ensures |RegisterAll([], regs)| == |RegisteredNames(regs)|
  {
    RegisterAllKeepsNamesDistinct([], regs);
    DistinctNamesCard(RegisterAll([], regs));
    assert NameSet([]) == {};
  }
}
