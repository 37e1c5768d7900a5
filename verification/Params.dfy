/** The parameters of a command: defaults, aliases, bounds. */
module Params {
  import opened Prelude

  /** A parameter's definition. */
  datatype Param = Param(
    name: Name, min: Option<real>, max: Option<real>, default: Option<Value>, required: bool,
    allowed: seq<real>, aliases: seq<Name>)

  /** A value as given: a number, or something that is none (or not finite). */
  datatype Value = Num(n: real) | Junk

  /** What a caller gives; a key may be there without a value. */
  type Given = map<Name, Option<Value>>

  datatype Fault = UnknownName | Missing(name: Name) | NotNumber(name: Name) | TooLow(name: Name)
                 | TooHigh(name: Name) | NotAllowed(name: Name)

  datatype Result = Ok(out: Given) | Err(why: Fault)

  function Lookup(given: Given, name: Name): Option<Value> {
    if name in given then given[name] else None
  }

  /** The first alias with a value. */
  function ByAlias(given: Given, aliases: seq<Name>): Option<Value> {
    if aliases == [] then None
    else if Lookup(given, aliases[0]).Some? then Lookup(given, aliases[0])
    else ByAlias(given, aliases[1..])
  }

  /** The value a parameter takes before it is checked. */
  function Chosen(given: Given, p: Param): Option<Value> {
    var own := Lookup(given, p.name);
    if own.Some? then own
    else
      var other := ByAlias(given, p.aliases);
      if other.Some? then other else p.default
  }

  /** What is wrong with a value; None when it will do. */
  function Check(p: Param, v: Value): Option<Fault> {
    if v.Junk? then Some(NotNumber(p.name))
    else if p.min.Some? && v.n < p.min.value then Some(TooLow(p.name))
    else if p.max.Some? && v.n > p.max.value then Some(TooHigh(p.name))
    else if p.allowed != [] && v.n !in p.allowed then Some(NotAllowed(p.name))
    else None
  }

  function FaultOf(given: Given, p: Param): Option<Fault> {
    var v := Chosen(given, p);
    if v.None? then (if p.required && p.default.None? then Some(Missing(p.name)) else None)
    else Check(p, v.value)
  }

  predicate KnownName(params: seq<Param>, k: Name) {
    exists i :: 0 <= i < |params| && (params[i].name == k || k in params[i].aliases)
  }

  predicate NamesUnique(params: seq<Param>) {
    forall i, j :: 0 <= i < j < |params| ==> params[i].name != params[j].name
  }

  /** What a call normalizes to: every parameter with its value or none. */
  ghost predicate Normalizes(params: seq<Param>, given: Given, r: Result) {
    match r
    case Ok(out) =>
      && (forall k :: k in given ==> KnownName(params, k))
      && (forall k :: k in out <==> exists i :: 0 <= i < |params| && params[i].name == k)
      && (forall i :: 0 <= i < |params| ==>
            params[i].name in out && out[params[i].name] == Chosen(given, params[i]) &&
            FaultOf(given, params[i]).None?)
    case Err(why) =>
      if why == UnknownName then exists k :: k in given && !KnownName(params, k)
      else
        && (forall k :: k in given ==> KnownName(params, k))
        && exists i :: 0 <= i < |params| && FaultOf(given, params[i]) == Some(why) &&
                       forall j :: 0 <= j < i ==> FaultOf(given, params[j]).None?
  }

  method NormalizeParams(params: seq<Param>, given: Given) returns (r: Result)
    requires NamesUnique(params)
    ensures Normalizes(params, given, r)
  {
    if k :| k in given && !KnownName(params, k) {
      return Err(UnknownName);
    }
    var out: Given := map[];
    for i := 0 to |params|
      invariant forall k :: k in out <==> exists j :: 0 <= j < i && params[j].name == k
      invariant forall j :: 0 <= j < i ==>
        params[j].name in out && out[params[j].name] == Chosen(given, params[j]) && FaultOf(given, params[j]).None?
    {
      var p := params[i];
      var val := Lookup(given, p.name);
      if val.None? {
        val := ByAlias(given, p.aliases);
      }
      if val.None? {
        if p.required && p.default.None? {
          return Err(Missing(p.name));
        }
        val := p.default;
      }
      if val.Some? {
        var fault := Check(p, val.value);
        if fault.Some? {
          return Err(fault.value);
        }
      }
      out := out[p.name := val];
    }
    r := Ok(out);
  }

  /** A normalized value is a number within its parameter's bounds and list;
      it is the caller's own where the caller gave one. */
  lemma NormalizedIsInBounds(params: seq<Param>, given: Given, out: Given, i: nat)
    requires Normalizes(params, given, Ok(out)) && i < |params|
    ensures var p, v := params[i], Lookup(out, params[i].name);
            && (v.Some? ==>
                  && v.value.Num?
                  && (p.min.Some? ==> p.min.value <= v.value.n)
                  && (p.max.Some? ==> v.value.n <= p.max.value)
                  && (p.allowed != [] ==> v.value.n in p.allowed))
            && (v.None? ==> p.default.None? && !p.required)
            && (Lookup(given, p.name).Some? ==> v == Lookup(given, p.name))
  {
    assert FaultOf(given, params[i]).None?;
  }

  /** Which value a parameter takes: its own, else that of the first of its aliases that
      has one, else its default. */
  lemma {:induction false} FirstWithValue(given: Given, aliases: seq<Name>, k: nat)
    requires k < |aliases| && Lookup(given, aliases[k]).Some?
    requires forall j :: 0 <= j < k ==> Lookup(given, aliases[j]).None?
    ensures ByAlias(given, aliases) == Lookup(given, aliases[k])
  {
    if k > 0 {
      FirstWithValue(given, aliases[1..], k - 1);
    }
  }

  predicate Has(given: Given, n: Name) {
    n in given && given[n].Some?
  }

  lemma ChosenIs(given: Given, p: Param, k: nat)
    ensures Has(given, p.name) ==> Chosen(given, p) == given[p.name]
    ensures (!Has(given, p.name) && k < |p.aliases| && Has(given, p.aliases[k]) &&
             forall j :: 0 <= j < k ==> !Has(given, p.aliases[j])) ==> Chosen(given, p) == given[p.aliases[k]]
    ensures !Has(given, p.name) && (forall a :: a in p.aliases ==> !Has(given, a)) ==> Chosen(given, p) == p.default
  {
    NoAlias(given, p.aliases);
    if k < |p.aliases| && Has(given, p.aliases[k]) && forall j :: 0 <= j < k ==> !Has(given, p.aliases[j]) {
      FirstWithValue(given, p.aliases, k);
    }
  }

  /** The parameter has no objection to what it would take. */
  predicate Suits(p: Param, v: Option<Value>) {
    if v.None? then !p.required || p.default.Some?
    else
      v.value.Num? && (p.min.Some? ==> p.min.value <= v.value.n) && (p.max.Some? ==> v.value.n <= p.max.value)
      && (p.allowed == [] || v.value.n in p.allowed)
  }

  lemma FaultsAre(given: Given, p: Param)
    ensures
      var v, f := Chosen(given, p), FaultOf(given, p);
      && (f.None? <==> Suits(p, v))
      && (f.Some? ==>
            match f.value
            case UnknownName => false
            case Missing(n) => n == p.name && v.None?
            case NotNumber(n) => n == p.name && v == Some(Junk)
            case TooLow(n) => n == p.name && v.Some? && v.value.Num? && p.min.Some? && v.value.n < p.min.value
            case TooHigh(n) => n == p.name && v.Some? && v.value.Num? && p.max.Some? && v.value.n > p.max.value
            case NotAllowed(n) => n == p.name && v.Some? && v.value.Num? && v.value.n !in p.allowed)
  {
  }

  /** The parameter's name, or one of its aliases. */
  predicate GoesBy(p: Param, k: Name) {
    p.name == k || k in p.aliases
  }

  /** A call goes through exactly when every key given is a name or an alias of a
      parameter and every parameter suits what it takes. */
  lemma AcceptedExactly(params: seq<Param>, given: Given, r: Result)
    requires Normalizes(params, given, r)
    ensures r.Ok? <==>
              && (forall k :: k in given ==> exists i :: 0 <= i < |params| && GoesBy(params[i], k))
              && (forall i :: 0 <= i < |params| ==> Suits(params[i], Chosen(given, params[i])))
    ensures r == Err(UnknownName) <==> exists k :: k in given && forall i :: 0 <= i < |params| ==> !GoesBy(params[i], k)
  {
    forall i | 0 <= i < |params| ensures FaultOf(given, params[i]).None? <==> Suits(params[i], Chosen(given, params[i])) {
      FaultsAre(given, params[i]);
    }
    forall k ensures KnownName(params, k) <==> exists i :: 0 <= i < |params| && GoesBy(params[i], k) {
      if i :| 0 <= i < |params| && (params[i].name == k || k in params[i].aliases) {
        assert GoesBy(params[i], k);
      }
    }
    if r.Err? && r.why != UnknownName {
      var i :| 0 <= i < |params| && FaultOf(given, params[i]) == Some(r.why) &&
               forall j :: 0 <= j < i ==> FaultOf(given, params[j]).None?;
      assert !Suits(params[i], Chosen(given, params[i]));
    }
  }

  // ---- once is enough ----

  lemma {:induction false} NoAlias(given: Given, aliases: seq<Name>)
    ensures ByAlias(given, aliases).None? <==> forall a :: a in aliases ==> Lookup(given, a).None?
  {
    if aliases != [] {
      NoAlias(given, aliases[1..]);
      assert aliases == [aliases[0]] + aliases[1..];
    }
  }

  /** Some parameter that takes no value has an alias that is the name of one
      that takes a value. */
  ghost predicate Borrows(params: seq<Param>, given: Given) {
    exists i, j :: 0 <= i < |params| && 0 <= j < |params| && params[j].name in params[i].aliases &&
                   Chosen(given, params[i]).None? && Chosen(given, params[j]).Some?
  }

  /** Only the names of parameters can be found in what was normalized. */
  lemma FoundByAlias(params: seq<Param>, given: Given, out: Given, i: nat)
    requires Normalizes(params, given, Ok(out)) && i < |params| && ByAlias(out, params[i].aliases).Some?
    ensures exists j :: 0 <= j < |params| && params[j].name in params[i].aliases && Chosen(given, params[j]).Some?
  {
    NoAlias(out, params[i].aliases);
    var a :| a in params[i].aliases && Lookup(out, a).Some?;
    var j :| 0 <= j < |params| && params[j].name == a;
    assert out[params[j].name] == Chosen(given, params[j]);
  }

  lemma ChosenAgain(params: seq<Param>, given: Given, out: Given, i: nat)
    requires Normalizes(params, given, Ok(out)) && i < |params|
    requires Lookup(out, params[i].name).Some? || ByAlias(out, params[i].aliases).None?
    ensures Chosen(out, params[i]) == out[params[i].name] == Chosen(given, params[i])
    ensures FaultOf(out, params[i]).None?
  {
  }

  /** What a call normalizes to is one result. */
  lemma OneResult(params: seq<Param>, given: Given, out: Given, r: Result)
    requires NamesUnique(params) && Normalizes(params, given, Ok(out)) && Normalizes(params, given, r)
    ensures r == Ok(out)
  {
    if r.Ok? {
      forall k | k in out ensures k in r.out && r.out[k] == out[k] {
        var i :| 0 <= i < |params| && params[i].name == k;
        assert r.out[params[i].name] == Chosen(given, params[i]);
      }
      assert r.out.Keys == out.Keys;
    }
  }

  lemma SettledAgain(params: seq<Param>, given: Given, out: Given)
    requires Normalizes(params, given, Ok(out)) && !Borrows(params, given)
    ensures Normalizes(params, out, Ok(out))
  {
    forall i | 0 <= i < |params|
      ensures out[params[i].name] == Chosen(out, params[i]) && FaultOf(out, params[i]).None?
    {
      assert out[params[i].name] == Chosen(given, params[i]);
      if ByAlias(out, params[i].aliases).Some? {
        FoundByAlias(params, given, out, i);
      }
      ChosenAgain(params, given, out, i);
    }
  }

  /** Normalizing what was normalized gives it back, exactly when no parameter
      left without a value has an alias that names one with a value. */
  lemma TwiceIsOnce(params: seq<Param>, given: Given, out: Given, again: Result)
    requires NamesUnique(params)
    requires Normalizes(params, given, Ok(out)) && Normalizes(params, out, again)
    ensures again == Ok(out) <==> !Borrows(params, given)
  {
    if !Borrows(params, given) {
      SettledAgain(params, given, out);
      OneResult(params, out, out, again);
    } else {
      var i, j :| 0 <= i < |params| && 0 <= j < |params| && params[j].name in params[i].aliases &&
                  Chosen(given, params[i]).None? && Chosen(given, params[j]).Some?;
      assert out[params[i].name].None? && out[params[j].name].Some?;
      NoAlias(out, params[i].aliases);
      assert Chosen(out, params[i]) != out[params[i].name];
    }
  }

  /** When no alias is another parameter's name, once is enough. */
  lemma OwnAliasesSuffice(params: seq<Param>, given: Given, out: Given, again: Result)
    requires NamesUnique(params)
    requires Normalizes(params, given, Ok(out)) && Normalizes(params, out, again)
    requires forall i, j :: 0 <= i < |params| && 0 <= j < |params| && i != j ==> params[j].name !in params[i].aliases
    ensures again == Ok(out)
  {
    TwiceIsOnce(params, given, out, again);
  }

  /** Two parameters, one of which the other's alias names: the second pass
      fills in what the first left open. */
  lemma AliasMayBorrow()
    ensures
      var a := Param(Name("a"), None, None, None, false, [], [Name("b")]);
      var b := Param(Name("b"), None, None, Some(Num(5.0)), false, [], []);
      var once: Given := map[Name("a") := None, Name("b") := Some(Num(5.0))];
      var twice: Given := map[Name("a") := Some(Num(5.0)), Name("b") := Some(Num(5.0))];
      Normalizes([a, b], map[], Ok(once)) && Normalizes([a, b], once, Ok(twice)) && once != twice
  {
    var a := Param(Name("a"), None, None, None, false, [], [Name("b")]);
    var b := Param(Name("b"), None, None, Some(Num(5.0)), false, [], []);
    var params := [a, b];
    var once: Given := map[Name("a") := None, Name("b") := Some(Num(5.0))];
    assert [Name("b")][1..] == [] && [Name("b")][0] == Name("b");
    assert params[0].name == Name("a") && params[1].name == Name("b");
    assert once[Name("a")].None?;
    assert forall k :: k in once ==> k == params[0].name || k == params[1].name;
  }
}
