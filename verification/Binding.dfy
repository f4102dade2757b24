/**
 Calling a function: the first clause that takes the argument count is chosen, and its
 parameters are defined one after the other in a fresh frame. Defaults that are owed are left
 to the caller, who evaluates them in the frame.
 */
module Binding {
  import opened Wrappers
  import opened Params

  datatype Val = Num(n: int) | List(items: seq<Val>)

  datatype Arm = Arm(spec: Spec, body: seq<Form>)

  predicate Accepts(spec: Spec, argc: nat) {
    argc >= |spec.required| && (spec.rest.Some? || argc <= |spec.required| + |spec.optionals|)
  }

  /** The first clause, in order, that takes `argc` arguments. */
  method SelectArm(arms: seq<Arm>, argc: nat) returns (k: Option<nat>)
    ensures k.Some? ==> k.value < |arms| && Accepts(arms[k.value].spec, argc)
    ensures forall j :: 0 <= j < (if k.Some? then k.value else |arms|) ==> !Accepts(arms[j].spec, argc)
  {
    if |arms| == 1 {
      return if Accepts(arms[0].spec, argc) then Some(0) else None;
    }
    for i := 0 to |arms|
      invariant forall j :: 0 <= j < i ==> !Accepts(arms[j].spec, argc)
    {
      if Accepts(arms[i].spec, argc) {
        return Some(i);
      }
    }
    k := None;
  }

  // ----- what a call defines ----------------------------------------------------------------------------

  /** How many optional parameters the arguments reach. */
  function Supplied(spec: Spec, argc: nat): (n: nat)
    requires argc >= |spec.required|
    ensures n <= |spec.optionals| && |spec.required| + n <= argc
  {
    if argc - |spec.required| < |spec.optionals| then argc - |spec.required| else |spec.optionals|
  }

  /** The defaults the arguments leave to be evaluated. */
  function Owed(spec: Spec, argc: nat): seq<(string, Form)>
    requires argc >= |spec.required|
  {
    spec.optionals[Supplied(spec, argc)..]
  }

  function LeftOver(spec: Spec, argv: seq<Val>): seq<Val>
    requires |argv| >= |spec.required|
  {
    argv[|spec.required| + Supplied(spec, |argv|)..]
  }

  /** Required names, then the optional ones. */
  function Positional(spec: Spec): seq<string> {
    spec.required + seq(|spec.optionals|, i requires 0 <= i < |spec.optionals| => spec.optionals[i].0)
  }

  /** The definitions a call makes, in order. */
  function Defs(spec: Spec, argv: seq<Val>): seq<(string, Val)>
    requires |argv| >= |spec.required|
  {
    var n := |spec.required| + Supplied(spec, |argv|);
    seq(n, i requires 0 <= i < n => (Positional(spec)[i], argv[i])) +
    if spec.rest.Some? && Owed(spec, |argv|) == [] then [(spec.rest.value, List(LeftOver(spec, argv)))] else []
  }

  /** The frame after these definitions: a later one replaces an earlier one of the same name. */
  function Frame(defs: seq<(string, Val)>): map<string, Val> {
    if defs == [] then map[]
    else
      var last := defs[|defs| - 1];
      Frame(defs[..|defs| - 1])[last.0 := last.1]
  }

  class Scope {
    var vars: map<string, Val>

    constructor ()
      ensures vars == map[]
    {
      vars := map[];
    }

    method Define(name: string, v: Val)
      modifies this
      ensures vars == old(vars)[name := v]
    {
      vars := vars[name := v];
    }
  }

  datatype Bound = Bound(scope: Scope, body: seq<Form>, defaults: seq<(string, Form)>, rest: Option<string>) | ArityError

  lemma FrameNext(defs: seq<(string, Val)>, i: nat)
    requires i < |defs|
    ensures Frame(defs[..i + 1]) == Frame(defs[..i])[defs[i].0 := defs[i].1]
  {
    assert defs[..i + 1][..i] == defs[..i];
  }

  /** Binds the chosen clause, or says that no clause takes this many arguments. */
  method BindParams(arms: seq<Arm>, argv: seq<Val>) returns (bound: Bound)
    ensures bound.ArityError? <==> forall j :: 0 <= j < |arms| ==> !Accepts(arms[j].spec, |argv|)
    ensures bound.Bound? ==>
              exists k :: 0 <= k < |arms| && BoundTo(bound, arms[k], argv) && forall j :: 0 <= j < k ==> !Accepts(arms[j].spec, |argv|)
    ensures bound.Bound? ==> fresh(bound.scope)
  {
    var k := SelectArm(arms, |argv|);
    if k.None? {
      return ArityError;
    }
    bound := BindArm(arms[k.value], argv);
  }

  /** The frame holds what the clause defines, and the owed defaults are handed on, with the rest parameter if there are any. */
  ghost predicate BoundTo(bound: Bound, arm: Arm, argv: seq<Val>)
    requires bound.Bound?
    reads bound.scope
  {
    && Accepts(arm.spec, |argv|) && bound.body == arm.body
    && bound.scope.vars == Frame(Defs(arm.spec, argv))
    && bound.defaults == Owed(arm.spec, |argv|)
    && bound.rest == if bound.defaults == [] then None else arm.spec.rest
  }

  lemma DefAt(spec: Spec, argv: seq<Val>, i: nat)
    requires |argv| >= |spec.required| && i < |spec.required| + Supplied(spec, |argv|)
    ensures i < |Defs(spec, argv)|
    ensures Defs(spec, argv)[i] == (if i < |spec.required| then spec.required[i] else spec.optionals[i - |spec.required|].0, argv[i])
  {
    PositionalAt(spec, i);
  }

  lemma PositionalAt(spec: Spec, i: nat)
    requires i < |Positional(spec)|
    ensures Positional(spec)[i] == if i < |spec.required| then spec.required[i] else spec.optionals[i - |spec.required|].0
  {
  }

  lemma DefsEnd(spec: Spec, argv: seq<Val>)
    requires |argv| >= |spec.required|
    ensures var n := |spec.required| + Supplied(spec, |argv|);
            if spec.rest.Some? && Owed(spec, |argv|) == []
            then |Defs(spec, argv)| == n + 1 && Defs(spec, argv)[n] == (spec.rest.value, List(LeftOver(spec, argv)))
            else |Defs(spec, argv)| == n
  {
  }

  method BindRequired(scope: Scope, spec: Spec, argv: seq<Val>)
    requires |argv| >= |spec.required| && scope.vars == map[]
    modifies scope
    ensures |spec.required| <= |Defs(spec, argv)| && scope.vars == Frame(Defs(spec, argv)[..|spec.required|])
  {
    ghost var defs := Defs(spec, argv);
    DefsEnd(spec, argv);
    for i := 0 to |spec.required|
      invariant scope.vars == Frame(defs[..i])
    {
      DefAt(spec, argv, i);
      FrameNext(defs, i);
      scope.Define(spec.required[i], argv[i]);
    }
  }

  /** After the required names, `defs` gives the first `n` optional names their arguments. */
  ghost predicate DefinesOptionals(defs: seq<(string, Val)>, spec: Spec, argv: seq<Val>, n: nat) {
    && n <= |spec.optionals| && |spec.required| + n <= |argv| && |spec.required| + n <= |defs|
    && forall i :: 0 <= i < n ==> defs[|spec.required| + i] == (spec.optionals[i].0, argv[|spec.required| + i])
  }

  lemma CallDefinesOptionals(spec: Spec, argv: seq<Val>)
    requires |argv| >= |spec.required|
    ensures DefinesOptionals(Defs(spec, argv), spec, argv, Supplied(spec, |argv|))
  {
    forall i | 0 <= i < Supplied(spec, |argv|)
      ensures Defs(spec, argv)[|spec.required| + i] == (spec.optionals[i].0, argv[|spec.required| + i])
    {
      DefAt(spec, argv, |spec.required| + i);
    }
  }

  method BindOptionals(scope: Scope, spec: Spec, argv: seq<Val>, ghost defs: seq<(string, Val)>)
    returns (idx: nat, defaults: seq<(string, Form)>)
    requires |argv| >= |spec.required| && DefinesOptionals(defs, spec, argv, Supplied(spec, |argv|))
    requires scope.vars == Frame(defs[..|spec.required|])
    modifies scope
    ensures idx == |spec.required| + Supplied(spec, |argv|) && defaults == Owed(spec, |argv|)
    ensures scope.vars == Frame(defs[..idx])
  {
    ghost var n := Supplied(spec, |argv|);
    idx, defaults := |spec.required|, [];
    for i := 0 to |spec.optionals|
      invariant idx == |spec.required| + (if i < n then i else n)
      invariant scope.vars == Frame(defs[..idx])
      invariant defaults == if i < n then [] else spec.optionals[n..i]
    {
      if idx < |argv| {
        FrameNext(defs, idx);
        scope.Define(spec.optionals[i].0, argv[idx]);
        idx := idx + 1;
      } else {
        assert spec.optionals[n..i] + [spec.optionals[i]] == spec.optionals[n..i + 1];
        defaults := defaults + [spec.optionals[i]];
      }
    }
    assert spec.optionals[n..|spec.optionals|] == spec.optionals[n..];
  }

  method BindArm(arm: Arm, argv: seq<Val>) returns (bound: Bound)
    requires Accepts(arm.spec, |argv|)
    ensures bound.Bound? && fresh(bound.scope) && BoundTo(bound, arm, argv)
  {
    var spec := arm.spec;
    var scope := new Scope();
    BindRequired(scope, spec, argv);
    ghost var defs := Defs(spec, argv);
    CallDefinesOptionals(spec, argv);
    var idx, defaults := BindOptionals(scope, spec, argv, defs);
    var rest := spec.rest;
    DefsEnd(spec, argv);
    if defaults == [] && rest.Some? {
      FrameNext(defs, idx);
      scope.Define(rest.value, List(argv[idx..]));
      rest := None;
    }
    assert defs[..|defs|] == defs;
    bound := Bound(scope, arm.body, defaults, rest);
  }

  // ----- every parameter gets its own argument ---------------------------------------------------------------

  function AllNames(spec: Spec): seq<string> {
    Positional(spec) + if spec.rest.Some? then [spec.rest.value] else []
  }

  predicate Distinct(names: seq<string>) {
    forall i, j :: 0 <= i < j < |names| ==> names[i] != names[j]
  }

  function ItemsOf(v: Val): seq<Val> {
    if v.List? then v.items else []
  }

  function Lookup(frame: map<string, Val>, name: string): Val {
    if name in frame then frame[name] else List([])
  }

  /** The arguments as the body sees them: required, then supplied optionals, then the rest list if it is bound. */
  function Seen(spec: Spec, argc: nat, frame: map<string, Val>): seq<Val>
    requires argc >= |spec.required|
  {
    var n := |spec.required| + Supplied(spec, argc);
    seq(n, i requires 0 <= i < n => Lookup(frame, Positional(spec)[i])) +
    if spec.rest.Some? && Owed(spec, argc) == [] then ItemsOf(Lookup(frame, spec.rest.value)) else []
  }

  /** The last definition of a name is the one that holds. */
  lemma {:induction false} LastHolds(defs: seq<(string, Val)>, k: nat)
    requires k < |defs| && forall j :: k < j < |defs| ==> defs[j].0 != defs[k].0
    ensures Lookup(Frame(defs), defs[k].0) == defs[k].1
  {
    if k < |defs| - 1 {
      LastHolds(defs[..|defs| - 1], k);
    }
  }

  lemma {:induction false} LastOf(defs: seq<(string, Val)>, i: nat) returns (k: nat)
    requires i < |defs|
    ensures i <= k < |defs| && defs[k].0 == defs[i].0 && forall j :: k < j < |defs| ==> defs[j].0 != defs[i].0
  {
    k := |defs| - 1;
    while defs[k].0 != defs[i].0
      invariant i <= k < |defs| && forall j :: k < j < |defs| ==> defs[j].0 != defs[i].0
      decreases k
    {
      k := k - 1;
    }
  }

  /** With distinct names the body sees the arguments, all of them and in order; and a default is owed only when none is left over. */
  lemma BodySeesArguments(spec: Spec, argv: seq<Val>)
    requires Accepts(spec, |argv|) && Distinct(AllNames(spec))
    ensures Seen(spec, |argv|, Frame(Defs(spec, argv))) == argv
    ensures Owed(spec, |argv|) != [] ==> LeftOver(spec, argv) == []
  {
    var defs, n := Defs(spec, argv), |spec.required| + Supplied(spec, |argv|);
    DefsEnd(spec, argv);
    NamesInOrder(spec, argv);
    forall i | 0 <= i < n ensures Lookup(Frame(defs), Positional(spec)[i]) == argv[i] {
      DefAt(spec, argv, i);
      LastHolds(defs, i);
    }
    if spec.rest.Some? && Owed(spec, |argv|) == [] {
      LastHolds(defs, n);
      assert argv == argv[..n] + argv[n..];
    } else {
      assert n == |argv|;
    }
  }

  /** Definitions are made under different names when the parameters have different names. */
  lemma NamesInOrder(spec: Spec, argv: seq<Val>)
    requires Accepts(spec, |argv|) && Distinct(AllNames(spec))
    ensures forall i, j :: 0 <= i < j < |Defs(spec, argv)| ==> Defs(spec, argv)[i].0 != Defs(spec, argv)[j].0
  {
    var defs := Defs(spec, argv);
    DefsEnd(spec, argv);
    forall i, j | 0 <= i < j < |defs| ensures defs[i].0 != defs[j].0 {
      NameAt(spec, argv, i);
      NameAt(spec, argv, j);
    }
  }

  lemma NameAt(spec: Spec, argv: seq<Val>, i: nat)
    requires Accepts(spec, |argv|) && i < |Defs(spec, argv)|
    ensures i < |AllNames(spec)| && Defs(spec, argv)[i].0 == AllNames(spec)[i]
  {
    DefsEnd(spec, argv);
    if i < |spec.required| + Supplied(spec, |argv|) {
      DefAt(spec, argv, i);
    }
  }

  /** As many different arguments as there are positional parameters. */
  function Numbered(n: nat): seq<Val> {
    seq(n, i => Num(i))
  }

  /** A name defined twice holds something else than the first of two different values. */
  lemma FirstIsReplaced(defs: seq<(string, Val)>, i: nat, j: nat)
    requires i < j < |defs| && defs[i].0 == defs[j].0
    requires forall k :: i < k < |defs| ==> defs[k].1 != defs[i].1
    ensures Lookup(Frame(defs), defs[i].0) != defs[i].1
  {
    var k := LastOf(defs, j);
    LastHolds(defs, k);
  }

  lemma NumberedDefs(spec: Spec, i: nat)
    requires i < |Positional(spec)|
    ensures Accepts(spec, |Positional(spec)|)
    ensures var defs := Defs(spec, Numbered(|Positional(spec)|));
            |defs| == |AllNames(spec)| && defs[i] == (Positional(spec)[i], Num(i)) && forall k :: i < k < |defs| ==> defs[k].1 != Num(i)
  {
    var argv := Numbered(|Positional(spec)|);
    DefsEnd(spec, argv);
    forall k | i <= k < |Positional(spec)| ensures Defs(spec, argv)[k] == (Positional(spec)[k], Num(k)) {
      DefAt(spec, argv, k);
      PositionalAt(spec, k);
    }
  }

  /** If two parameters share a name, some call hides an argument from the body. */
  lemma SharedNameHides(spec: Spec)
    requires !Distinct(AllNames(spec))
    ensures exists argv :: Accepts(spec, |argv|) && Seen(spec, |argv|, Frame(Defs(spec, argv))) != argv
  {
    var names := AllNames(spec);
    var i, j :| 0 <= i < j < |names| && names[i] == names[j];
    var argv := Numbered(|Positional(spec)|);
    var defs := Defs(spec, argv);
    NumberedDefs(spec, i);
    NameAt(spec, argv, i);
    NameAt(spec, argv, j);
    FirstIsReplaced(defs, i, j);
    assert Seen(spec, |argv|, Frame(defs))[i] == Lookup(Frame(defs), Positional(spec)[i]);
    assert argv[i] == Num(i);
  }

  /** The body sees exactly the arguments, in every call the clause takes, if and only if the names are distinct. */
  lemma SeenExactlyWhenDistinct(spec: Spec)
    ensures (forall argv :: Accepts(spec, |argv|) ==> Seen(spec, |argv|, Frame(Defs(spec, argv))) == argv) <==> Distinct(AllNames(spec))
  {
    if Distinct(AllNames(spec)) {
      forall argv | Accepts(spec, |argv|) ensures Seen(spec, |argv|, Frame(Defs(spec, argv))) == argv {
        BodySeesArguments(spec, argv);
      }
    } else {
      SharedNameHides(spec);
    }
  }

  /**
   A clause takes a call exactly when the call reaches its required names and none of its arguments
   would be lost: what the body would see is then the whole argument list.
   */
  lemma AcceptedExactlyWhenAllSeen(spec: Spec, argv: seq<Val>)
    requires Distinct(AllNames(spec))
    ensures Accepts(spec, |argv|) <==>
            |argv| >= |spec.required| && Seen(spec, |argv|, Frame(Defs(spec, argv))) == argv
  {
    if Accepts(spec, |argv|) {
      BodySeesArguments(spec, argv);
    } else if |argv| >= |spec.required| {
      assert |Seen(spec, |argv|, Frame(Defs(spec, argv)))| == |Positional(spec)| < |argv|;
    }
  }

  /** Every parameter is either bound, in the order of the list, or owed; and nothing else is bound. */
  lemma BoundThenOwed(spec: Spec, argv: seq<Val>)
    requires Accepts(spec, |argv|)
    ensures var defs, owed, names := Defs(spec, argv), Owed(spec, |argv|), AllNames(spec);
            && |defs| <= |names|
            && (forall name :: name in Frame(defs) <==> name in names[..|defs|])
            && names[|defs|..] == seq(|owed|, i requires 0 <= i < |owed| => owed[i].0) +
                                  (if owed != [] && spec.rest.Some? then [spec.rest.value] else [])
  {
    var defs, names := Defs(spec, argv), AllNames(spec);
    DefsEnd(spec, argv);
    forall i | 0 <= i < |defs| ensures i < |names| && defs[i].0 == names[i] {
      NameAt(spec, argv, i);
    }
    forall name ensures name in Frame(defs) <==> name in names[..|defs|] {
      FrameNames(defs, name);
      assert forall i :: 0 <= i < |defs| ==> names[..|defs|][i] == defs[i].0;
    }
  }

  lemma {:induction false} FrameNames(defs: seq<(string, Val)>, name: string)
    ensures name in Frame(defs) <==> exists i :: 0 <= i < |defs| && defs[i].0 == name
  {
    if defs != [] {
      var front, last := defs[..|defs| - 1], |defs| - 1;
      FrameNames(front, name);
      assert forall i :: 0 <= i < last ==> front[i] == defs[i];
      assert defs[last].0 == name ==> exists i :: 0 <= i < |defs| && defs[i].0 == name;
    }
  }
}
