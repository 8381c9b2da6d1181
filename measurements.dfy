// Measurements and the formula engine that evaluates formulas over the
// current measurement values (src/types/measurements.ts).

module Measurements {
  import opened Wrappers
  import opened Text
  import opened Formula

  datatype Units = Mm | Cm | In

  /** A measurement's value: a number, or the text of a formula not yet evaluated. */
  datatype Value = Number(n: real) | Written(s: string)

  datatype Measurement = Measurement(
    id: string,
    name: string,
    value: Value,
    formula: Option<string>,
    description: Option<string>,
    units: Units,
    category: Option<string>)

  /** An optional text that is present and non-empty (JavaScript's truthiness for a string). */
  predicate Truthy(s: Option<string>)
  {
    s.Some? && s.value != ""
  }

  predicate HasFormula(m: Measurement)
  {
    Truthy(m.formula)
  }

  // ---------------------------------------------------------------------
  // The variable map: a map that remembers the order in which keys were
  // first inserted, as a JavaScript Map does.
  // ---------------------------------------------------------------------

  datatype Vars = Vars(names: seq<string>, values: map<string, real>)

  /** The names are exactly the keys, each listed once. */
  predicate WellFormed(vs: Vars)
  {
    && (forall n :: n in vs.names ==> n in vs.values)
    && (forall n :: n in vs.values ==> n in vs.names)
    && (forall i, j :: 0 <= i < j < |vs.names| ==> vs.names[i] != vs.names[j])
  }

  const NoVars := Vars([], map[])

  function Lookup(vs: Vars, name: string): Option<real>
  {
    if name in vs.values then Some(vs.values[name]) else None
  }

  /**
   * `Map.set`: the key's value becomes `value`; a new key goes to the end of
   * the iteration order, an existing key keeps its place.
   */
  function Put(vs: Vars, name: string, value: real): (r: Vars)
    ensures Lookup(r, name) == Some(value)
    ensures forall other :: other != name ==> Lookup(r, other) == Lookup(vs, other)
    ensures |vs.names| <= |r.names| && r.names[..|vs.names|] == vs.names
    ensures WellFormed(vs) ==> WellFormed(r)
    ensures WellFormed(vs) && name in vs.values ==> r.names == vs.names
  {
    var names := if name in vs.names then vs.names else vs.names + [name];
    Vars(names, vs.values[name := value])
  }

  /** `evaluateFormula` over the variables `vs`. */
  function EvaluateWith(formula: string, vs: Vars): Result<real, Reason>
    requires WellFormed(vs)
  {
    Evaluation(formula, vs.names, vs.values)
  }

  /**
   * `updateMeasurement`: a measurement whose value is still text and whose
   * formula is non-empty gets the formula's value, or 0 when evaluation
   * fails; any other measurement is returned as it is.
   */
  function Updated(m: Measurement, vs: Vars): (r: Measurement)
    requires WellFormed(vs)
    ensures r.(value := m.value) == m
    ensures !(m.value.Written? && HasFormula(m)) ==> r == m
    ensures m.value.Written? && HasFormula(m) ==> r.value.Number?
    ensures m.value.Written? && HasFormula(m) && EvaluateWith(m.formula.value, vs).Ok? ==>
              r.value == Number(EvaluateWith(m.formula.value, vs).value)
    ensures m.value.Written? && HasFormula(m) && EvaluateWith(m.formula.value, vs).Err? ==>
              r.value == Number(0.0)
  {
    if m.value.Written? && HasFormula(m) then
      match EvaluateWith(m.formula.value, vs)
      case Ok(v) => m.(value := Number(v))
      case Err(_) => m.(value := Number(0.0))
    else m
  }

  /** A measurement that already holds a number is never re-evaluated, whatever its formula. */
  lemma NumberNotReevaluated(m: Measurement, vs: Vars)
    requires WellFormed(vs) && m.value.Number?
    ensures Updated(m, vs) == m
  {
  }

  /** Once evaluated, a measurement holds a number and a second update changes nothing. */
  lemma UpdatedIdempotent(m: Measurement, vs: Vars, ws: Vars)
    requires WellFormed(vs) && WellFormed(ws)
    ensures Updated(Updated(m, vs), ws) == Updated(m, vs)
  {
  }

  // ---------------------------------------------------------------------
  // Dependents
  // ---------------------------------------------------------------------

  /**
   * A measurement depends on `changed` when it has a non-empty formula whose
   * lower-cased text contains the lower-cased name as a plain substring (not
   * as a whole word).
   */
  predicate DependsOn(m: Measurement, changed: string)
  {
    HasFormula(m) && Contains(Lower(m.formula.value), Lower(changed))
  }

  /** `getDependentMeasurements`: the dependents of `changed`, in list order. */
  function Dependents(ms: seq<Measurement>, changed: string): (r: seq<Measurement>)
    ensures |r| <= |ms|
    ensures forall m :: m in r <==> m in ms && DependsOn(m, changed)
  {
    if ms == [] then []
    else (if DependsOn(ms[0], changed) then [ms[0]] else []) + Dependents(ms[1..], changed)
  }

  /** Filtering distributes over concatenation, so the dependents keep the list's order. */
  lemma {:induction false} DependentsAppend(xs: seq<Measurement>, ys: seq<Measurement>, changed: string)
    ensures Dependents(xs + ys, changed) == Dependents(xs, changed) + Dependents(ys, changed)
  {
    if xs == [] {
      assert xs + ys == ys;
    } else {
      assert (xs + ys)[0] == xs[0];
      assert (xs + ys)[1..] == xs[1..] + ys;
      DependentsAppend(xs[1..], ys, changed);
    }
  }

  /** The substring test is not word-bounded: `hip` is found in `hipster*2`. */
  lemma HipFoundInHipster(m: Measurement)
    requires m.formula == Some("hipster*2")
    ensures DependsOn(m, "hip")
  {
    assert Lower("hipster*2") == "hipster*2";
    assert Lower("hip") == "hip";
    assert OccursAt("hipster*2", "hip", 0);
  }

  // ---------------------------------------------------------------------
  // The engine
  // ---------------------------------------------------------------------

  class FormulaEngine {
    var names: seq<string>
    var values: map<string, real>

    function Variables(): Vars
      reads this
    {
      Vars(names, values)
    }

    ghost predicate Valid()
      reads this
    {
      WellFormed(Variables())
    }

    constructor()
      ensures Variables() == NoVars && Valid()
    {
      names := [];
      values := map[];
    }

    /** `setVariable`: the exact, case-sensitive key gets the value. */
    method SetVariable(name: string, value: real)
      requires Valid()
      modifies this
      ensures Variables() == Put(old(Variables()), name, value)
      ensures Valid()
    {
      if name !in names {
        names := names + [name];
      }
      values := values[name := value];
    }

    /** `getVariable`: the last value set for exactly this key, if any. */
    function GetVariable(name: string): (r: Option<real>)
      reads this
      ensures r.Some? <==> name in values
      ensures r.Some? ==> r.value == values[name]
    {
      if name in values then Some(values[name]) else None
    }

    /**
     * `evaluateFormula`: lower-case the formula, replace each variable's
     * name as a whole word by its value in the map's order, then check the
     * text and evaluate it.
     */
    method EvaluateFormula(formula: string) returns (r: Result<real, Reason>)
      requires Valid()
      ensures r == EvaluateWith(formula, Variables())
    {
      var text := Chars(Lower(formula));
      var i := 0;
      while i < |names|
        invariant 0 <= i <= |names|
        invariant text == SubstituteAll(Chars(Lower(formula)), names[..i], values)
      {
        assert names[..i + 1][..i] == names[..i];
        text := ReplaceWord(text, Lower(names[i]), values[names[i]]);
        i := i + 1;
      }
      assert names[..i] == names;
      r := EvaluatePieces(text);
    }

    /** `updateMeasurement`, against the engine's current variables. */
    method UpdateMeasurement(m: Measurement) returns (r: Measurement)
      requires Valid()
      ensures r == Updated(m, Variables())
    {
      r := m;
      if m.value.Written? && HasFormula(m) {
        var result := EvaluateFormula(m.formula.value);
        match result
        case Ok(v) => r := m.(value := Number(v));
        case Err(_) => r := m.(value := Number(0.0));
      }
    }

    /** `getDependentMeasurements`. */
    function GetDependentMeasurements(ms: seq<Measurement>, changed: string): (r: seq<Measurement>)
      ensures forall m :: m in r <==> m in ms && DependsOn(m, changed)
    {
      Dependents(ms, changed)
    }
  }
}
