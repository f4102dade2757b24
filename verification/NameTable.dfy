/**
 The registered names of a node, indexed both ways. `byPid` lists a process's names in
 binding order; the two maps change together, so each is always the other's inverse.
 */
module NameTable {
  import opened Wrappers

  /** The two indexes, as a value. */
  datatype Names = Names(byName: map<string, nat>, byPid: map<nat, seq<string>>)

  ghost predicate Distinct(names: seq<string>) {
    forall i, j :: 0 <= i < j < |names| ==> names[i] != names[j]
  }

  /** Exact inverses: no empty list, no name twice, and the same bindings in both. */
  ghost predicate Valid(t: Names) {
    && (forall pid :: pid in t.byPid ==> t.byPid[pid] != [] && Distinct(t.byPid[pid]))
    && (forall pid, name :: pid in t.byPid && name in t.byPid[pid] ==> name in t.byName && t.byName[name] == pid)
    && (forall name :: name in t.byName ==> t.byName[name] in t.byPid && name in t.byPid[t.byName[name]])
  }

  function Lookup(t: Names, name: string): Option<nat> {
    if name in t.byName then Some(t.byName[name]) else None
  }

  /** The names bound to `pid`, in binding order. */
  function NamesOf(byPid: map<nat, seq<string>>, pid: nat): seq<string> {
    if pid in byPid then byPid[pid] else []
  }

  /** `names` without `name`, in order. */
  function Without(names: seq<string>, name: string): (kept: seq<string>)
    ensures forall n :: n in kept <==> n in names && n != name
  {
    if names == [] then []
    else if names[0] == name then Without(names[1..], name)
    else [names[0]] + Without(names[1..], name)
  }

  lemma WithoutDistinct(names: seq<string>, name: string)
    requires Distinct(names)
    ensures Distinct(Without(names, name))
  {
    if names != [] {
      var rest := Without(names[1..], name);
      WithoutDistinct(names[1..], name);
      assert forall j :: 0 <= j < |rest| ==> rest[j] in names[1..];
    }
  }

  lemma WithoutAppend(names: seq<string>, last: string, name: string)
    ensures Without(names + [last], name) == Without(names, name) + (if last == name then [] else [last])
  {
    if names == [] {
      assert names + [last] == [last];
    } else {
      WithoutAppend(names[1..], last, name);
      assert (names + [last])[1..] == names[1..] + [last];
    }
  }

  // ----- the four changes, on values ------------------------------------------------------

  /** The reverse index with `name` taken off `pid`'s entry; an emptied entry goes with it. */
  function Forget(byPid: map<nat, seq<string>>, pid: nat, name: string): map<nat, seq<string>> {
    var kept := Without(NamesOf(byPid, pid), name);
    if kept == [] then byPid - {pid} else byPid[pid := kept]
  }

  function Bind(t: Names, name: string, pid: nat): Names {
    var byName := t.byName[name := pid];
    if Lookup(t, name) == Some(pid) then Names(byName, t.byPid)
    else
      var byPid := if name in t.byName then Forget(t.byPid, t.byName[name], name) else t.byPid;
      Names(byName, byPid[pid := NamesOf(byPid, pid) + [name]])
  }

  function Unbind(t: Names, name: string): Names {
    if name in t.byName then Names(t.byName - {name}, Forget(t.byPid, t.byName[name], name)) else t
  }

  function UnbindPid(t: Names, pid: nat): Names {
    Names(map n | n in t.byName && n !in NamesOf(t.byPid, pid) :: t.byName[n], t.byPid - {pid})
  }

  // ----- what they mean -----------------------------------------------------------------------

  lemma UnbindLists(t: Names, name: string, pid: nat)
    requires Valid(t)
    ensures NamesOf(Unbind(t, name).byPid, pid) == Without(NamesOf(t.byPid, pid), name)
  {
    if Lookup(t, name) != Some(pid) {
      WithoutAbsent(NamesOf(t.byPid, pid), name);
    }
  }

  lemma UnbindKeepsValid(t: Names, name: string)
    requires Valid(t)
    ensures Valid(Unbind(t, name))
  {
    if name in t.byName {
      WithoutDistinct(t.byPid[t.byName[name]], name);
    }
  }

  /** `t` with one name's binding dropped keeps both indexes inverse, and every other binding. */
  lemma UnbindIsExact(t: Names, name: string)
    requires Valid(t)
    ensures Valid(Unbind(t, name))
    ensures Lookup(Unbind(t, name), name).None?
    ensures forall n :: n != name ==> Lookup(Unbind(t, name), n) == Lookup(t, n)
    ensures forall pid: nat :: NamesOf(Unbind(t, name).byPid, pid) == Without(NamesOf(t.byPid, pid), name)
  {
    UnbindKeepsValid(t, name);
    forall pid: nat ensures NamesOf(Unbind(t, name).byPid, pid) == Without(NamesOf(t.byPid, pid), name) {
      UnbindLists(t, name, pid);
    }
  }

  lemma WithoutAbsent(names: seq<string>, name: string)
    requires name !in names
    ensures Without(names, name) == names
  {}

  /** Binding a name nobody holds: the newest of its process's names. */
  function BindFree(t: Names, name: string, pid: nat): Names {
    Names(t.byName[name := pid], t.byPid[pid := NamesOf(t.byPid, pid) + [name]])
  }

  /** Binding a free name appends it to its process's list and touches nothing else. */
  lemma BindFreeIsExact(t: Names, name: string, pid: nat)
    requires Valid(t) && name !in t.byName
    ensures Valid(BindFree(t, name, pid))
  {
    var names := NamesOf(t.byPid, pid);
    assert name !in names;
    assert Distinct(names + [name]);
    var t' := BindFree(t, name, pid);
    forall n | n in t'.byName ensures t'.byName[n] in t'.byPid && n in t'.byPid[t'.byName[n]] {
      assert name in names + [name];
    }
  }

  lemma BindUnbindsFirst(t: Names, name: string, pid: nat)
    requires Lookup(t, name) != Some(pid)
    ensures Bind(t, name, pid) == BindFree(Unbind(t, name), name, pid)
  {
    assert Unbind(t, name).byName[name := pid] == t.byName[name := pid];
  }

  lemma BindLists(t: Names, name: string, pid: nat, p: nat)
    requires Valid(t) && Lookup(t, name) != Some(pid)
    ensures NamesOf(Bind(t, name, pid).byPid, p) == Without(NamesOf(t.byPid, p), name) + if p == pid then [name] else []
  {
    BindUnbindsFirst(t, name, pid);
    UnbindLists(t, name, p);
  }

  lemma BindKeepsValid(t: Names, name: string, pid: nat)
    requires Valid(t)
    ensures Valid(Bind(t, name, pid))
  {
    if Lookup(t, name) == Some(pid) {
      assert Bind(t, name, pid) == t;
    } else {
      UnbindKeepsValid(t, name);
      BindFreeIsExact(Unbind(t, name), name, pid);
      BindUnbindsFirst(t, name, pid);
    }
  }

  /**
   Binding takes the name from any previous holder: the name now names `pid` and is the
   newest of its names, unless it named it already; no other name's binding changes.
   */
  lemma BindIsExact(t: Names, name: string, pid: nat)
    requires Valid(t)
    ensures Valid(Bind(t, name, pid))
    ensures Lookup(Bind(t, name, pid), name) == Some(pid)
    ensures forall n :: n != name ==> Lookup(Bind(t, name, pid), n) == Lookup(t, n)
    ensures forall p: nat :: NamesOf(Bind(t, name, pid).byPid, p) ==
                             if Lookup(t, name) == Some(pid) then NamesOf(t.byPid, p)
                             else Without(NamesOf(t.byPid, p), name) + if p == pid then [name] else []
  {
    BindKeepsValid(t, name, pid);
    if Lookup(t, name) != Some(pid) {
      forall p: nat ensures NamesOf(Bind(t, name, pid).byPid, p) == Without(NamesOf(t.byPid, p), name) + if p == pid then [name] else [] {
        BindLists(t, name, pid, p);
      }
    }
  }

  /** Unbinding a process drops exactly the names bound to it. */
  lemma UnbindPidIsExact(t: Names, pid: nat)
    requires Valid(t)
    ensures Valid(UnbindPid(t, pid))
    ensures forall n :: Lookup(UnbindPid(t, pid), n) == if Lookup(t, n) == Some(pid) then None else Lookup(t, n)
    ensures forall p: nat :: p != pid ==> NamesOf(UnbindPid(t, pid).byPid, p) == NamesOf(t.byPid, p)
  {
    var t' := UnbindPid(t, pid);
    forall n | n in t.byName ensures n in NamesOf(t.byPid, pid) <==> t.byName[n] == pid {}
  }

  // ----- the table, changed in place ----------------------------------------------------------

  class Table {
    var byName: map<string, nat>
    var byPid: map<nat, seq<string>>

    ghost function Contents(): Names
      reads this
    {
      Names(byName, byPid)
    }

    constructor ()
      ensures Contents() == Names(map[], map[])
    {
      byName, byPid := map[], map[];
    }

    method Get(name: string) returns (pid: Option<nat>)
      ensures pid == Lookup(Contents(), name)
    {
      pid := if name in byName then Some(byName[name]) else None;
    }

    method ForgetNameOf(pid: nat, name: string)
      requires pid in byPid
      modifies this`byPid
      ensures byPid == Forget(old(byPid), pid, name)
    {
      var kept := Retain(byPid[pid], name);
      byPid := byPid[pid := kept];
      if kept == [] {
        byPid := byPid - {pid};
      }
    }

    method Rebind(name: string, pid: nat)
      requires Valid(Contents())
      modifies this
      ensures Valid(Contents())
      ensures Contents() == Bind(old(Contents()), name, pid)
    {
      BindIsExact(Contents(), name, pid);
      var previous := Get(name);
      byName := byName[name := pid];
      if previous == Some(pid) {
        return;
      }
      if previous.Some? {
        ForgetNameOf(previous.value, name);
      }
      byPid := byPid[pid := (if pid in byPid then byPid[pid] else []) + [name]];
    }

    method Release(name: string) returns (pid: Option<nat>)
      requires Valid(Contents())
      modifies this
      ensures Valid(Contents())
      ensures pid == Lookup(old(Contents()), name)
      ensures Contents() == Unbind(old(Contents()), name)
    {
      UnbindIsExact(Contents(), name);
      pid := Get(name);
      if pid.Some? {
        byName := byName - {name};
        ForgetNameOf(pid.value, name);
      }
    }

    method ReleasePid(pid: nat)
      requires Valid(Contents())
      modifies this
      ensures Valid(Contents())
      ensures Contents() == UnbindPid(old(Contents()), pid)
    {
      UnbindPidIsExact(Contents(), pid);
      var names := if pid in byPid then byPid[pid] else [];
      byPid := byPid - {pid};
      for i := 0 to |names|
        invariant byPid == old(byPid) - {pid}
        invariant byName == map n | n in old(byName) && n !in names[..i] :: old(byName)[n]
      {
        byName := byName - {names[i]};
        assert names[..i + 1] == names[..i] + [names[i]];
      }
      assert names[..|names|] == names;
    }

    /** Whether any name is bound to `pid`. */
    method HoldsAny(pid: nat) returns (holds: bool)
      requires Valid(Contents())
      ensures holds <==> exists name :: Lookup(Contents(), name) == Some(pid)
    {
      holds := pid in byPid;
      if holds {
        assert byPid[pid][0] in byPid[pid];
        assert Lookup(Contents(), byPid[pid][0]) == Some(pid);
      }
    }

    /** The name longest bound to `pid`. */
    method FirstNameOf(pid: nat) returns (name: Option<string>)
      requires Valid(Contents())
      ensures name.None? <==> forall n :: Lookup(Contents(), n) != Some(pid)
      ensures name.Some? ==> Lookup(Contents(), name.value) == Some(pid)
      ensures name.Some? ==> name.value == NamesOf(byPid, pid)[0]
    {
      name := None;
      if pid in byPid && byPid[pid] != [] {
        assert byPid[pid][0] in byPid[pid];
        name := Some(byPid[pid][0]);
        assert Lookup(Contents(), name.value) == Some(pid);
      }
    }
  }

  /** The filter the reverse entry is rewritten with. */
  method Retain(names: seq<string>, name: string) returns (kept: seq<string>)
    ensures kept == Without(names, name)
  {
    kept := [];
    for i := 0 to |names|
      invariant kept == Without(names[..i], name)
    {
      WithoutAppend(names[..i], names[i], name);
      assert names[..i + 1] == names[..i] + [names[i]];
      if names[i] != name {
        kept := kept + [names[i]];
      }
    }
    assert names[..|names|] == names;
  }
}
