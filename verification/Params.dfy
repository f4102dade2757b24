/**
 Parameter lists of functions: required names, then at most one `&optional` group, then at
 most one `& rest`. The parser is an index loop with a flag; what it accepts is stated
 without either, as a shape of the list.
 */
module Params {
  import opened Wrappers

  /** A form as the reader built it. A series is any other sequence (a range, a set). */
  datatype Form =
    | Nil
    | Sym(name: string)
    | Pair(head: Form, tail: Form)
    | Vector(elems: seq<Form>)
    | Series(elems: seq<Form>)
    | Atom(id: nat)

  function ListItems(form: Form): Option<seq<Form>> {
    match form
    case Nil => Some([])
    case Pair(head, tail) =>
      (match ListItems(tail)
       case None => None
       case Some(items) => Some([head] + items))
    case _ => None
  }

  function SeqItems(form: Form): Option<seq<Form>> {
    match form
    case Vector(elems) => Some(elems)
    case Series(elems) => Some(elems)
    case _ => ListItems(form)
  }

  datatype Spec = Spec(required: seq<string>, optionals: seq<(string, Form)>, rest: Option<string>)

  datatype ParamError =
    | VectorContainer
    | NotAList
    | OptionalTwice
    | NothingAfterAmp
    | NotASymbol(where: string)
    | RestNotLast
    | UnknownMarker(name: string)
    | MalformedOptional

  datatype Result<T> = Ok(value: T) | Err(error: ParamError)

  const AMP := "&"
  const AMP_OPTIONAL := "&optional"

  /** Not a marker, known or unknown. */
  predicate Plain(name: string) {
    name == [] || name[0] != '&'
  }

  function AsSymbol(form: Form, where: string): Result<string> {
    if form.Sym? then Ok(form.name) else Err(NotASymbol(where))
  }

  function ParseOptional(form: Form): Result<(string, Form)> {
    match form
    case Sym(name) => Ok((name, Nil))
    case Pair(_, _) => OptionalParts(form)
    case Vector(_) => OptionalParts(form)
    case _ => Err(MalformedOptional)
  }

  function OptionalParts(form: Form): Result<(string, Form)> {
    match SeqItems(form)
    case None => Err(NotAList)
    case Some(parts) =>
      if parts == [] then Err(MalformedOptional)
      else
        match AsSymbol(parts[0], "&optional parameter")
        case Err(e) => Err(e)
        case Ok(name) => Ok((name, if |parts| > 1 then parts[1] else Nil))
  }

  // ----- the parser, on what is left of the list -----------------------------------------------------

  function WithRequired(name: string, more: Result<Spec>): Result<Spec> {
    if more.Err? then more else Ok(more.value.(required := [name] + more.value.required))
  }

  function WithOptional(optional: (string, Form), more: Result<Spec>): Result<Spec> {
    if more.Err? then more else Ok(more.value.(optionals := [optional] + more.value.optionals))
  }

  function ParseRest(items: seq<Form>): Result<Spec>
    requires items != []
  {
    if |items| == 1 then Err(NothingAfterAmp)
    else if !items[1].Sym? then Err(NotASymbol("& rest parameter"))
    else if |items| > 2 then Err(RestNotLast)
    else Ok(Spec([], [], Some(items[1].name)))
  }

  function ParseItems(items: seq<Form>, inOptional: bool): Result<Spec> {
    if items == [] then Ok(Spec([], [], None))
    else if items[0] == Sym(AMP_OPTIONAL) then
      if inOptional then Err(OptionalTwice) else ParseItems(items[1..], true)
    else if items[0] == Sym(AMP) then ParseRest(items)
    else if items[0].Sym? && !Plain(items[0].name) then Err(UnknownMarker(items[0].name))
    else if inOptional then
      match ParseOptional(items[0])
      case Err(e) => Err(e)
      case Ok(optional) => WithOptional(optional, ParseItems(items[1..], true))
    else
      match AsSymbol(items[0], "parameter")
      case Err(e) => Err(e)
      case Ok(name) => WithRequired(name, ParseItems(items[1..], false))
  }

  function Parsed(form: Form): Result<Spec> {
    if form.Vector? then Err(VectorContainer)
    else
      match SeqItems(form)
      case None => Err(NotAList)
      case Some(items) => ParseItems(items, false)
  }

  // ----- the loop ---------------------------------------------------------------------------------------

  /** What was found so far, then the rest of the list. */
  ghost function Onto(required: seq<string>, optionals: seq<(string, Form)>, more: Result<Spec>): Result<Spec> {
    if more.Err? then more
    else Ok(Spec(required + more.value.required, optionals + more.value.optionals, more.value.rest))
  }

  lemma OntoRequired(required: seq<string>, optionals: seq<(string, Form)>, name: string, more: Result<Spec>)
    ensures Onto(required, optionals, WithRequired(name, more)) == Onto(required + [name], optionals, more)
  {
    if more.Ok? {
      assert required + ([name] + more.value.required) == required + [name] + more.value.required;
    }
  }

  lemma OntoOptional(required: seq<string>, optionals: seq<(string, Form)>, optional: (string, Form), more: Result<Spec>)
    ensures Onto(required, optionals, WithOptional(optional, more)) == Onto(required, optionals + [optional], more)
  {
    if more.Ok? {
      assert optionals + ([optional] + more.value.optionals) == optionals + [optional] + more.value.optionals;
    }
  }

  lemma OntoEnds(required: seq<string>, optionals: seq<(string, Form)>, rest: Option<string>, more: Result<Spec>)
    ensures Onto(required, optionals, Ok(Spec([], [], rest))) == Ok(Spec(required, optionals, rest))
    ensures Onto([], [], more) == more
  {
    assert required + [] == required && optionals + [] == optionals;
    if more.Ok? {
      assert [] + more.value.required == more.value.required && [] + more.value.optionals == more.value.optionals;
    }
  }

  method ParseList(items: seq<Form>) returns (spec: Result<Spec>)
    ensures spec == ParseItems(items, false)
  {
    var required: seq<string>, optionals: seq<(string, Form)> := [], [];
    var rest: Option<string> := None;
    var inOptional := false;
    var i := 0;
    ghost var all := ParseItems(items, false);
    assert items[0..] == items;
    OntoEnds(required, optionals, None, all);
    while i < |items|
      invariant i <= |items| && all == Onto(required, optionals, ParseItems(items[i..], inOptional))
      invariant rest == None
    {
      ghost var left := items[i..];
      assert left[0] == items[i] && left[1..] == items[i + 1..];
      if items[i].Sym? {
        var s := items[i].name;
        if s == AMP_OPTIONAL {
          if inOptional {
            return Err(OptionalTwice);
          }
          inOptional := true;
          i := i + 1;
          continue;
        }
        if s == AMP {
          if i + 1 >= |items| {
            return Err(NothingAfterAmp);
          }
          assert left[1] == items[i + 1];
          var r := AsSymbol(items[i + 1], "& rest parameter");
          if r.Err? {
            return Err(r.error);
          }
          rest := Some(r.value);
          if i + 2 < |items| {
            return Err(RestNotLast);
          }
          OntoEnds(required, optionals, rest, all);
          return Ok(Spec(required, optionals, rest));
        }
        if !Plain(s) {
          return Err(UnknownMarker(s));
        }
      }
      if inOptional {
        var optional := ParseOptional(items[i]);
        if optional.Err? {
          return Err(optional.error);
        }
        OntoOptional(required, optionals, optional.value, ParseItems(items[i + 1..], true));
        optionals := optionals + [optional.value];
      } else {
        var name := AsSymbol(items[i], "parameter");
        if name.Err? {
          return Err(name.error);
        }
        OntoRequired(required, optionals, name.value, ParseItems(items[i + 1..], false));
        required := required + [name.value];
      }
      i := i + 1;
    }
    OntoEnds(required, optionals, None, all);
    spec := Ok(Spec(required, optionals, rest));
  }

  method ParseParams(form: Form) returns (spec: Result<Spec>)
    ensures spec == Parsed(form)
  {
    if form.Vector? {
      return Err(VectorContainer);
    }
    var items := SeqItems(form);
    if items.None? {
      return Err(NotAList);
    }
    spec := ParseList(items.value);
  }

  // ----- what it accepts -----------------------------------------------------------------------------------

  /** The first forms stand for these values, one each. */
  ghost predicate Match<T>(denotes: (Form, T) -> bool, items: seq<Form>, values: seq<T>) {
    |items| >= |values| && forall i :: 0 <= i < |values| ==> denotes(items[i], values[i])
  }

  lemma MatchCons<T>(denotes: (Form, T) -> bool, items: seq<Form>, value: T, more: seq<T>)
    requires items != []
    ensures Match(denotes, items, [value] + more) <==> denotes(items[0], value) && Match(denotes, items[1..], more)
  {
    var all := [value] + more;
    if Match(denotes, items, all) {
      forall i | 0 <= i < |more| ensures denotes(items[1..][i], more[i]) {
        assert items[1..][i] == items[i + 1] && more[i] == all[i + 1];
      }
      assert all[0] == value;
    }
    if denotes(items[0], value) && Match(denotes, items[1..], more) {
      forall i | 0 <= i < |all| ensures denotes(items[i], all[i]) {
        if i > 0 {
          assert items[1..][i - 1] == items[i] && more[i - 1] == all[i];
        }
      }
    }
  }

  ghost predicate RequiredDenotes(form: Form, name: string) {
    form == Sym(name) && Plain(name)
  }

  /** A form that stands for an optional parameter: a plain name, or a list or vector of a name and a default. */
  ghost predicate OptionalDenotes(form: Form, optional: (string, Form)) {
    || (form == Sym(optional.0) && Plain(optional.0) && optional.1 == Nil)
    || (form.Pair? && PartsDenote(ListItems(form), optional))
    || (form.Vector? && PartsDenote(Some(form.elems), optional))
  }

  ghost predicate PartsDenote(parts: Option<seq<Form>>, optional: (string, Form)) {
    && parts.Some? && parts.value != [] && parts.value[0] == Sym(optional.0)
    && optional.1 == if |parts.value| > 1 then parts.value[1] else Nil
  }

  ghost predicate RestDenotes(items: seq<Form>, rest: Option<string>) {
    if rest.None? then items == [] else items == [Sym(AMP), Sym(rest.value)]
  }

  ghost predicate OptionalsDenote(items: seq<Form>, optionals: seq<(string, Form)>, rest: Option<string>) {
    && Match(OptionalDenotes, items, optionals)
    && RestDenotes(items[|optionals|..], rest)
  }

  ghost predicate AfterRequiredDenotes(items: seq<Form>, optionals: seq<(string, Form)>, rest: Option<string>) {
    || (optionals == [] && RestDenotes(items, rest))
    || (items != [] && items[0] == Sym(AMP_OPTIONAL) && OptionalsDenote(items[1..], optionals, rest))
  }

  /** Required names, an optional `&optional` group, an optional `& rest`, and nothing else. */
  ghost predicate Denotes(items: seq<Form>, spec: Spec) {
    && Match(RequiredDenotes, items, spec.required)
    && AfterRequiredDenotes(items[|spec.required|..], spec.optionals, spec.rest)
  }

  lemma OptionalParses(form: Form, optional: (string, Form))
    requires form.Sym? ==> Plain(form.name)
    ensures ParseOptional(form) == Ok(optional) <==> OptionalDenotes(form, optional)
  {
  }

  lemma RestParses(items: seq<Form>, rest: Option<string>)
    requires items != [] && items[0] == Sym(AMP)
    ensures ParseRest(items) == Ok(Spec([], [], rest)) <==> RestDenotes(items, rest)
  {
    if ParseRest(items) == Ok(Spec([], [], rest)) {
      assert items == [items[0], items[1]];
    }
  }

  lemma OptionalsCons(items: seq<Form>, optional: (string, Form), more: seq<(string, Form)>, rest: Option<string>)
    requires items != []
    ensures OptionalsDenote(items, [optional] + more, rest) <==>
            OptionalDenotes(items[0], optional) && OptionalsDenote(items[1..], more, rest)
  {
    MatchCons(OptionalDenotes, items, optional, more);
    if |items| > |more| {
      assert items[1..][|more|..] == items[|[optional] + more|..];
    }
  }

  lemma {:induction false} OptionalsParsed(items: seq<Form>)
    requires ParseItems(items, true).Ok?
    ensures var spec := ParseItems(items, true).value; spec.required == [] && OptionalsDenote(items, spec.optionals, spec.rest)
  {
    if items != [] {
      var spec := ParseItems(items, true).value;
      if items[0] == Sym(AMP) {
        RestParses(items, spec.rest);
        assert items[0..] == items;
      } else {
        OptionalsParsed(items[1..]);
        var more := ParseItems(items[1..], true).value;
        OptionalParses(items[0], spec.optionals[0]);
        OptionalsCons(items, spec.optionals[0], more.optionals, spec.rest);
      }
    }
  }

  lemma RestDenoted(items: seq<Form>, rest: Option<string>, inOptional: bool)
    requires RestDenotes(items, rest)
    ensures ParseItems(items, inOptional) == Ok(Spec([], [], rest))
  {
    if rest.Some? {
      RestParses(items, rest);
    }
  }

  lemma {:induction false} OptionalsDenoted(items: seq<Form>, optionals: seq<(string, Form)>, rest: Option<string>)
    requires OptionalsDenote(items, optionals, rest)
    ensures ParseItems(items, true) == Ok(Spec([], optionals, rest))
    decreases |items|
  {
    if optionals == [] {
      assert items[0..] == items;
      RestDenoted(items, rest, true);
    } else {
      assert optionals == [optionals[0]] + optionals[1..];
      OptionalsCons(items, optionals[0], optionals[1..], rest);
      OptionalParses(items[0], optionals[0]);
      OptionalsDenoted(items[1..], optionals[1..], rest);
    }
  }

  lemma RequiredCons(items: seq<Form>, name: string, more: Spec)
    requires items != []
    ensures Denotes(items, more.(required := [name] + more.required)) <==>
            items[0] == Sym(name) && Plain(name) && Denotes(items[1..], more)
  {
    MatchCons(RequiredDenotes, items, name, more.required);
    if |items| > |more.required| {
      assert items[1..][|more.required|..] == items[|[name] + more.required|..];
    }
  }

  lemma {:induction false} AcceptedDenotes(items: seq<Form>)
    requires ParseItems(items, false).Ok?
    ensures Denotes(items, ParseItems(items, false).value)
  {
    if items != [] {
      var spec := ParseItems(items, false).value;
      assert items[0..] == items;
      if items[0] == Sym(AMP_OPTIONAL) {
        OptionalsParsed(items[1..]);
      } else if items[0] == Sym(AMP) {
        RestParses(items, spec.rest);
      } else {
        AcceptedDenotes(items[1..]);
        RequiredCons(items, items[0].name, ParseItems(items[1..], false).value);
      }
    }
  }

  lemma {:induction false} DenotedAccepted(items: seq<Form>, spec: Spec)
    requires Denotes(items, spec)
    ensures ParseItems(items, false) == Ok(spec)
    decreases |items|
  {
    if spec.required == [] {
      assert items[0..] == items;
      if spec.optionals == [] && RestDenotes(items, spec.rest) {
        RestDenoted(items, spec.rest, false);
      } else {
        OptionalsDenoted(items[1..], spec.optionals, spec.rest);
      }
    } else {
      var more := spec.(required := spec.required[1..]);
      assert spec.required == [spec.required[0]] + more.required;
      RequiredCons(items, spec.required[0], more);
      DenotedAccepted(items[1..], more);
    }
  }

  /** The parser accepts exactly the lists that denote a specification, and returns it. */
  lemma ParsesExactlyWhatDenotes(form: Form, spec: Spec)
    ensures Parsed(form) == Ok(spec) <==> !form.Vector? && SeqItems(form).Some? && Denotes(SeqItems(form).value, spec)
  {
    if !form.Vector? && SeqItems(form).Some? {
      var items := SeqItems(form).value;
      if ParseItems(items, false) == Ok(spec) {
        AcceptedDenotes(items);
      }
      if Denotes(items, spec) {
        DenotedAccepted(items, spec);
      }
    }
  }

  // ----- printing ----------------------------------------------------------------------------------------------

  function ListOf(items: seq<Form>): (form: Form)
    ensures ListItems(form) == Some(items) && SeqItems(form) == Some(items) && !form.Vector?
  {
    assert items != [] ==> [items[0]] + items[1..] == items;
    if items == [] then Nil else Pair(items[0], ListOf(items[1..]))
  }

  function PrintOptional(optional: (string, Form)): Form {
    ListOf([Sym(optional.0), optional.1])
  }

  function PrintTail(spec: Spec): seq<Form> {
    (if spec.optionals == [] then []
     else [Sym(AMP_OPTIONAL)] + seq(|spec.optionals|, i requires 0 <= i < |spec.optionals| => PrintOptional(spec.optionals[i]))) +
    (if spec.rest.None? then [] else [Sym(AMP), Sym(spec.rest.value)])
  }

  function Print(spec: Spec): Form {
    ListOf(seq(|spec.required|, i requires 0 <= i < |spec.required| => Sym(spec.required[i])) + PrintTail(spec))
  }

  lemma PrintedOptionalDenotes(optional: (string, Form))
    ensures OptionalDenotes(PrintOptional(optional), optional)
  {
    var parts := [Sym(optional.0), optional.1];
    assert PrintOptional(optional).Pair? && ListItems(PrintOptional(optional)) == Some(parts);
  }

  lemma PrintedTailDenotes(spec: Spec)
    ensures AfterRequiredDenotes(PrintTail(spec), spec.optionals, spec.rest)
  {
    var tail := PrintTail(spec);
    if spec.optionals != [] {
      var n := |spec.optionals|;
      forall i | 0 <= i < n ensures OptionalDenotes(tail[1..][i], spec.optionals[i]) {
        PrintedOptionalDenotes(spec.optionals[i]);
      }
      assert tail[1..][n..] == if spec.rest.None? then [] else [Sym(AMP), Sym(spec.rest.value)];
      assert OptionalsDenote(tail[1..], spec.optionals, spec.rest);
    }
  }

  /** A specification survives printing exactly when no required name is a marker. */
  lemma PrintParsesExactlyWhenPlain(spec: Spec)
    ensures Parsed(Print(spec)) == Ok(spec) <==> forall i :: 0 <= i < |spec.required| ==> Plain(spec.required[i])
  {
    var names := seq(|spec.required|, i requires 0 <= i < |spec.required| => Sym(spec.required[i]));
    var items := names + PrintTail(spec);
    ParsesExactlyWhatDenotes(Print(spec), spec);
    PrintedTailDenotes(spec);
    assert items[|names|..] == PrintTail(spec);
    assert forall i :: 0 <= i < |names| ==> items[i] == Sym(spec.required[i]);
  }
}
