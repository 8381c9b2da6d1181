/**
 * The measurement list behind the measurements context
 * (src/contexts/MeasurementsContext.tsx): adding, updating, deleting and
 * looking up measurements, keeping the formula engine's variables in step
 * with the numeric measurements, and the deferred pass that re-evaluates the
 * dependents of a changed value. The component framework around it (state
 * hooks, effects, timers) is replaced by explicit methods that the caller
 * invokes in the order the framework would.
 */
module Store {
  import opened Wrappers
  import opened Text
  import opened Lists
  import opened Formula
  import opened Measurements

  /** The two body measurements the list starts with. */
  const Seed: seq<Measurement> := [
    Measurement("1", "waist", Number(80.0), None, Some("Waist circumference"), Cm, Some("Body")),
    Measurement("2", "hip", Number(90.0), None, Some("Hip circumference"), Cm, Some("Body"))
  ]

  function MeasurementId(m: Measurement): string { m.id }

  /**
   * A measurement whose formula is set holds a number: the engine has
   * evaluated it. Every operation of the store keeps this for every element.
   */
  predicate Evaluated(m: Measurement)
  {
    HasFormula(m) ==> m.value.Number?
  }

  predicate AllEvaluated(ms: seq<Measurement>)
  {
    forall k :: 0 <= k < |ms| ==> Evaluated(ms[k])
  }

  /** Whatever the engine's update is given, what it returns is evaluated. */
  lemma UpdatedEvaluated(m: Measurement, vs: Vars)
    requires WellFormed(vs)
    ensures Evaluated(Updated(m, vs)) <==> (m.value.Written? || Evaluated(m))
  {
  }

  // ---------------------------------------------------------------------
  // Variable sync
  // ---------------------------------------------------------------------

  /** Registering every numeric measurement under its name, in list order. */
  function Synced(vs: Vars, ms: seq<Measurement>): (r: Vars)
    ensures WellFormed(vs) ==> WellFormed(r)
    ensures forall n :: (forall k :: 0 <= k < |ms| ==> !(ms[k].value.Number? && ms[k].name == n)) ==>
              Lookup(r, n) == Lookup(vs, n)
    decreases |ms|
  {
    if ms == [] then vs
    else
      var before := Synced(vs, ms[..|ms| - 1]);
      var last := ms[|ms| - 1];
      if last.value.Number? then Put(before, last.name, last.value.n) else before
  }

  /**
   * After the sync a numeric measurement's name holds its value, unless a
   * later numeric measurement of the same name overwrote it.
   */
  lemma {:induction false} SyncedRegisters(vs: Vars, ms: seq<Measurement>, k: int)
    requires 0 <= k < |ms| && ms[k].value.Number?
    requires forall j :: k < j < |ms| && ms[j].value.Number? ==> ms[j].name != ms[k].name
    ensures Lookup(Synced(vs, ms), ms[k].name) == Some(ms[k].value.n)
    decreases |ms|
  {
    if k < |ms| - 1 {
      SyncedRegisters(vs, ms[..|ms| - 1], k);
    }
  }

  /** After the sync every numeric measurement's name is a variable. */
  lemma {:induction false} SyncedDefines(vs: Vars, ms: seq<Measurement>)
    ensures forall m :: m in ms && m.value.Number? ==> Lookup(Synced(vs, ms), m.name).Some?
    decreases |ms|
  {
    if ms != [] {
      var init := ms[..|ms| - 1];
      SyncedDefines(vs, init);
      forall m | m in ms && m.value.Number?
        ensures Lookup(Synced(vs, ms), m.name).Some?
      {
        if m != ms[|ms| - 1] {
          assert m in init by {
            var k :| 0 <= k < |ms| && ms[k] == m;
            assert init[k] == m;
          }
        }
      }
    }
  }

  // ---------------------------------------------------------------------
  // Lookup
  // ---------------------------------------------------------------------

  /** Two names are the same name when they agree after lower-casing. */
  predicate SameName(a: string, b: string)
  {
    Lower(a) == Lower(b)
  }

  /** `find`: the first measurement whose name is `name`, ignoring case. */
  function Find(ms: seq<Measurement>, name: string): (r: Option<Measurement>)
    ensures r.None? <==> forall k :: 0 <= k < |ms| ==> !SameName(ms[k].name, name)
    ensures r.Some? ==> exists k :: 0 <= k < |ms| && ms[k] == r.value && SameName(ms[k].name, name) &&
                          forall j :: 0 <= j < k ==> !SameName(ms[j].name, name)
  {
    if ms == [] then None
    else if SameName(ms[0].name, name) then Some(ms[0])
    else
      var r := Find(ms[1..], name);
      assert forall k :: 0 < k < |ms| ==> ms[k] == ms[1..][k - 1];
      r
  }

  // ---------------------------------------------------------------------
  // Update
  // ---------------------------------------------------------------------

  /** A partial measurement: a field is `None` where the update does not carry it. */
  datatype Changes = Changes(
    id: Option<string>,
    name: Option<string>,
    value: Option<Value>,
    formula: Option<string>,
    description: Option<string>,
    units: Option<Units>,
    category: Option<string>)

  /** `{...m, ...u}`: every field the update carries replaces the measurement's. */
  function Merge(m: Measurement, u: Changes): (r: Measurement)
    ensures u == Changes(None, None, None, None, None, None, None) ==> r == m
  {
    Measurement(
      if u.id.Some? then u.id.value else m.id,
      if u.name.Some? then u.name.value else m.name,
      if u.value.Some? then u.value.value else m.value,
      if u.formula.Some? then u.formula else m.formula,
      if u.description.Some? then u.description else m.description,
      if u.units.Some? then u.units.value else m.units,
      if u.category.Some? then u.category else m.category)
  }

  /** The update carries a non-empty formula or a text value: the formula is recomputed. */
  predicate SetsFormula(u: Changes)
  {
    Truthy(u.formula) || (u.value.Some? && u.value.value.Written?)
  }

  /** The update carries a number as the value and no formula. */
  predicate SetsNumber(u: Changes)
  {
    !SetsFormula(u) && u.value.Some? && u.value.value.Number?
  }

  /** `updates.formula || updates.value`: the formula the merged measurement takes. */
  function NewFormula(u: Changes): string
    requires SetsFormula(u)
  {
    if Truthy(u.formula) then u.formula.value else u.value.value.s
  }

  /** One element after the update, the variables after it, and the dependents it schedules. */
  datatype Step = Step(m: Measurement, vars: Vars, scheduled: Option<seq<Measurement>>)

  /**
   * The update applied to one element `m` of the list `prev`: an element with
   * another id is left alone; a formula or text update goes through the
   * engine; a numeric update sets the variable of the measurement's name and
   * schedules its dependents in `prev`.
   */
  function UpdateOne(m: Measurement, id: string, u: Changes, prev: seq<Measurement>, vs: Vars): (st: Step)
    requires WellFormed(vs)
    ensures WellFormed(st.vars)
    ensures m.id != id ==> st == Step(m, vs, None)
  {
    if m.id != id then Step(m, vs, None)
    else
      var merged := Merge(m, u);
      if SetsFormula(u) then Step(Updated(merged.(formula := Some(NewFormula(u))), vs), vs, None)
      else if SetsNumber(u) then
        Step(merged, Put(vs, merged.name, u.value.value.n), Some(Dependents(prev, merged.name)))
      else Step(merged, vs, None)
  }

  /** The whole list after the update, the variables, and the dependents passes scheduled in order. */
  datatype Outcome = Outcome(ms: seq<Measurement>, vars: Vars, passes: seq<seq<Measurement>>)

  function Scheduled(st: Step): seq<seq<Measurement>>
  {
    if st.scheduled.Some? then [st.scheduled.value] else []
  }

  /**
   * `prev.map(...)`: the update applied to each element of `ms` in order, the
   * engine's variables threaded through. Elements with another id are
   * unchanged, and when no element has the id nothing changes at all.
   */
  function UpdateAll(ms: seq<Measurement>, id: string, u: Changes, prev: seq<Measurement>, vs: Vars): (o: Outcome)
    requires WellFormed(vs)
    ensures WellFormed(o.vars) && |o.ms| == |ms|
    ensures forall k :: 0 <= k < |ms| && ms[k].id != id ==> o.ms[k] == ms[k]
    decreases |ms|
  {
    if ms == [] then Outcome([], vs, [])
    else
      var o := UpdateAll(ms[..|ms| - 1], id, u, prev, vs);
      var st := UpdateOne(ms[|ms| - 1], id, u, prev, o.vars);
      Outcome(o.ms + [st.m], st.vars, o.passes + Scheduled(st))
  }

  /** An id that no element has changes nothing: not the list, not the variables, and nothing is scheduled. */
  lemma {:induction false} UpdateAllMissing(ms: seq<Measurement>, id: string, u: Changes, prev: seq<Measurement>, vs: Vars)
    requires WellFormed(vs)
    requires forall k :: 0 <= k < |ms| ==> ms[k].id != id
    ensures UpdateAll(ms, id, u, prev, vs) == Outcome(ms, vs, [])
    decreases |ms|
  {
    if ms != [] {
      var init := ms[..|ms| - 1];
      assert ms == init + [ms[|ms| - 1]];
      UpdateAllMissing(init, id, u, prev, vs);
    }
  }

  /** The update of a list with one more element: the update of the list, then one step. */
  lemma UpdateAllSnoc(init: seq<Measurement>, m: Measurement, id: string, u: Changes, prev: seq<Measurement>, vs: Vars)
    requires WellFormed(vs)
    ensures var o := UpdateAll(init, id, u, prev, vs);
            var st := UpdateOne(m, id, u, prev, o.vars);
            UpdateAll(init + [m], id, u, prev, vs) == Outcome(o.ms + [st.m], st.vars, o.passes + Scheduled(st))
  {
    assert (init + [m])[..|init + [m]| - 1] == init;
  }

  /** One step of the update, as the loop of `updateMeasurement` takes it: the outcome so far, then one element. */
  lemma UpdateAllStep(ms: seq<Measurement>, m: Measurement, id: string, u: Changes, prev: seq<Measurement>, vs: Vars,
                      o: Outcome, next: Measurement, after: Vars, scheduled: seq<seq<Measurement>>)
    requires WellFormed(vs) && UpdateAll(ms, id, u, prev, vs) == o
    requires var st := UpdateOne(m, id, u, prev, o.vars);
             next == st.m && after == st.vars && scheduled == Scheduled(st)
    ensures UpdateAll(ms + [m], id, u, prev, vs) == Outcome(o.ms + [next], after, o.passes + scheduled)
  {
    UpdateAllSnoc(ms, m, id, u, prev, vs);
  }

  /** With ids unique, the update replaces the one element with the id, and only it. */
  lemma {:induction false} UpdateAllUnique(ms: seq<Measurement>, id: string, u: Changes, prev: seq<Measurement>,
                                           vs: Vars, k: int)
    requires WellFormed(vs)
    requires 0 <= k < |ms| && ms[k].id == id
    requires forall j :: 0 <= j < |ms| && j != k ==> ms[j].id != id
    ensures var st := UpdateOne(ms[k], id, u, prev, vs);
            UpdateAll(ms, id, u, prev, vs) == Outcome(ms[k := st.m], st.vars, Scheduled(st))
    decreases |ms|
  {
    var init, last := ms[..|ms| - 1], ms[|ms| - 1];
    assert ms == init + [last];
    if k == |ms| - 1 {
      assert forall j :: 0 <= j < |init| ==> init[j].id == ms[j].id != id;
      UniqueLast(init, last, id, u, prev, vs);
    } else {
      assert init[k] == ms[k];
      UpdateAllUnique(init, id, u, prev, vs, k);
      var st := UpdateOne(ms[k], id, u, prev, vs);
      UniqueStep(init, last, id, u, prev, vs, k, st.m, st.vars, Scheduled(st));
    }
  }

  /** The base of `UpdateAllUnique`: the element with the id comes last, after none with it. */
  lemma UniqueLast(init: seq<Measurement>, last: Measurement, id: string, u: Changes, prev: seq<Measurement>, vs: Vars)
    requires WellFormed(vs) && last.id == id
    requires forall j :: 0 <= j < |init| ==> init[j].id != id
    ensures var st := UpdateOne(last, id, u, prev, vs);
            UpdateAll(init + [last], id, u, prev, vs) == Outcome((init + [last])[|init| := st.m], st.vars, Scheduled(st))
  {
    UpdateAllMissing(init, id, u, prev, vs);
    UpdateAllSnoc(init, last, id, u, prev, vs);
    var st := UpdateOne(last, id, u, prev, vs);
    assert (init + [last])[|init| := st.m] == init + [st.m];
  }

  /** The inductive step of `UpdateAllUnique`: an element with another id appended after the updated one. */
  lemma UniqueStep(init: seq<Measurement>, last: Measurement, id: string, u: Changes, prev: seq<Measurement>,
                   vs: Vars, k: int, m: Measurement, after: Vars, passes: seq<seq<Measurement>>)
    requires WellFormed(vs) && 0 <= k < |init| && last.id != id
    requires UpdateAll(init, id, u, prev, vs) == Outcome(init[k := m], after, passes)
    ensures UpdateAll(init + [last], id, u, prev, vs) == Outcome((init + [last])[k := m], after, passes)
  {
    UpdateAllOther(init, last, id, u, prev, vs);
    assert (init + [last])[k := m] == init[k := m] + [last];
  }

  /** An element with another id appended: it is kept, and nothing else about the update changes. */
  lemma UpdateAllOther(init: seq<Measurement>, last: Measurement, id: string, u: Changes, prev: seq<Measurement>,
                       vs: Vars)
    requires WellFormed(vs) && last.id != id
    ensures var o := UpdateAll(init, id, u, prev, vs);
            UpdateAll(init + [last], id, u, prev, vs) == Outcome(o.ms + [last], o.vars, o.passes)
  {
    UpdateAllSnoc(init, last, id, u, prev, vs);
    var o := UpdateAll(init, id, u, prev, vs);
    assert o.passes + [] == o.passes;
  }

  /**
   * A numeric update stores the merged measurement with the new value, sets
   * the variable of its name to that value and no other, and schedules the
   * dependents of that name in the list as it was before the update.
   */
  lemma NumericUpdate(m: Measurement, id: string, u: Changes, prev: seq<Measurement>, vs: Vars)
    requires WellFormed(vs) && m.id == id && SetsNumber(u)
    ensures var st := UpdateOne(m, id, u, prev, vs);
            && st.m == Merge(m, u) && st.m.value == u.value.value
            && Lookup(st.vars, st.m.name) == Some(u.value.value.n)
            && (forall n :: n != st.m.name ==> Lookup(st.vars, n) == Lookup(vs, n))
            && st.scheduled == Some(Dependents(prev, st.m.name))
  {
  }

  /**
   * A formula or text update sets the formula, leaves the variables alone and
   * schedules nothing; its value is the formula's value, or 0 on failure,
   * when the merged value is text, and otherwise stays what it was: a
   * formula-only update of a numeric measurement does not change its value.
   */
  lemma FormulaUpdate(m: Measurement, id: string, u: Changes, prev: seq<Measurement>, vs: Vars)
    requires WellFormed(vs) && m.id == id && SetsFormula(u)
    ensures var st := UpdateOne(m, id, u, prev, vs);
            && st.vars == vs && st.scheduled == None
            && st.m.formula == Some(NewFormula(u))
            && (Merge(m, u).value.Number? ==> st.m.value == Merge(m, u).value)
            && (u.value.None? && m.value.Number? ==> st.m.value == m.value)
            && (Merge(m, u).value.Written? && NewFormula(u) != "" ==>
                  st.m.value == Number(match EvaluateWith(NewFormula(u), vs) case Ok(v) => v case Err(_) => 0.0))
  {
  }

  /** The update leaves every element evaluated. */
  lemma {:induction false} UpdateAllEvaluated(ms: seq<Measurement>, id: string, u: Changes, prev: seq<Measurement>,
                                              vs: Vars)
    requires WellFormed(vs) && AllEvaluated(ms)
    ensures AllEvaluated(UpdateAll(ms, id, u, prev, vs).ms)
    decreases |ms|
  {
    if ms != [] {
      var init := ms[..|ms| - 1];
      UpdateAllEvaluated(init, id, u, prev, vs);
      var o := UpdateAll(init, id, u, prev, vs);
      var m := ms[|ms| - 1];
      assert Evaluated(m);
      var st := UpdateOne(m, id, u, prev, o.vars);
      if m.id == id && SetsFormula(u) {
        UpdatedEvaluated(Merge(m, u).(formula := Some(NewFormula(u))), o.vars);
      }
      assert Evaluated(st.m);
    }
  }

  // ---------------------------------------------------------------------
  // The deferred dependents pass
  // ---------------------------------------------------------------------

  /** `dependents.some(d => d.id === id)`. */
  predicate HasId(ds: seq<Measurement>, id: string)
  {
    exists d :: d in ds && d.id == id
  }

  /** The pass as written: every element whose id is a dependent's goes through the engine's update. */
  function Refreshed(ms: seq<Measurement>, ds: seq<Measurement>, vs: Vars): (r: seq<Measurement>)
    requires WellFormed(vs)
    ensures |r| == |ms|
    ensures forall k :: 0 <= k < |ms| && !HasId(ds, ms[k].id) ==> r[k] == ms[k]
  {
    seq(|ms|, k requires 0 <= k < |ms| => if HasId(ds, ms[k].id) then Updated(ms[k], vs) else ms[k])
  }

  /**
   * On a list the store can hold the pass changes nothing, whatever it is
   * given to refresh: the engine's update only evaluates a measurement whose
   * value is text and whose formula is set, and on such a list every
   * measurement with a formula already holds a number.
   */
  lemma RefreshedChangesNothing(ms: seq<Measurement>, ds: seq<Measurement>, vs: Vars)
    requires WellFormed(vs) && AllEvaluated(ms)
    ensures Refreshed(ms, ds, vs) == ms
  {
    var r := Refreshed(ms, ds, vs);
    forall k | 0 <= k < |ms|
      ensures r[k] == ms[k]
    {
      assert Evaluated(ms[k]);
    }
  }

  /** The value a formula has against the variables: its evaluation, or 0 when that fails. */
  function FormulaValue(formula: string, vs: Vars): real
    requires WellFormed(vs)
  {
    match EvaluateWith(formula, vs)
    case Ok(v) => v
    case Err(_) => 0.0
  }

  /** The measurement's value is its formula's value against the variables. */
  predicate Current(m: Measurement, vs: Vars)
    requires WellFormed(vs)
  {
    HasFormula(m) ==> m.value == Number(FormulaValue(m.formula.value, vs))
  }

  /**
   * The pass as intended: a dependent's formula is evaluated again whatever
   * its value holds, so its value follows the changed variable.
   */
  function Recalculated(m: Measurement, vs: Vars): (r: Measurement)
    requires WellFormed(vs)
    ensures Current(r, vs)
    ensures r.(value := m.value) == m
    ensures !HasFormula(m) ==> r == m
  {
    if HasFormula(m) then Updated(m.(value := Written(m.formula.value)), vs) else m
  }

  function Recomputed(ms: seq<Measurement>, ds: seq<Measurement>, vs: Vars): (r: seq<Measurement>)
    requires WellFormed(vs)
    ensures |r| == |ms|
    ensures forall k :: 0 <= k < |ms| && !HasId(ds, ms[k].id) ==> r[k] == ms[k]
  {
    seq(|ms|, k requires 0 <= k < |ms| => if HasId(ds, ms[k].id) then Recalculated(ms[k], vs) else ms[k])
  }

  /** After the intended pass every dependent holds its formula's current value, and it stays evaluated. */
  lemma RecomputedIsCurrent(ms: seq<Measurement>, ds: seq<Measurement>, vs: Vars)
    requires WellFormed(vs)
    ensures forall k :: 0 <= k < |ms| && HasId(ds, ms[k].id) ==> Current(Recomputed(ms, ds, vs)[k], vs)
    ensures AllEvaluated(ms) ==> AllEvaluated(Recomputed(ms, ds, vs))
  {
    var r := Recomputed(ms, ds, vs);
    forall k | 0 <= k < |ms| && AllEvaluated(ms)
      ensures Evaluated(r[k])
    {
      assert Evaluated(ms[k]);
    }
  }

  /** A measurement `quarter = waist/4`, evaluated while `waist` was 80. */
  const Quarter := Measurement("3", "quarter", Number(20.0), Some("waist/4"), None, Cm, None)

  /**
   * The pass as written leaves a dependent stale: once `waist` is 100 the
   * formula of `quarter` is worth 25, yet the pass keeps 20.
   */
  lemma QuarterStaysStale()
    ensures var vs := Vars(["waist", "hip"], map["waist" := 100.0, "hip" := 90.0]);
            && WellFormed(vs)
            && Refreshed([Quarter], [Quarter], vs) == [Quarter]
            && !Current(Quarter, vs)
            && Recomputed([Quarter], [Quarter], vs) == [Quarter.(value := Number(25.0))]
  {
    var vs := Vars(["waist", "hip"], map["waist" := 100.0, "hip" := 90.0]);
    assert WellFormed(vs);
    WaistOverFour(100.0, 90.0);
    assert FormulaValue("waist/4", vs) == 25.0;
    assert HasId([Quarter], Quarter.id) by { assert Quarter in [Quarter]; }
    RefreshedChangesNothing([Quarter], [Quarter], vs);
  }

  // ---------------------------------------------------------------------
  // The store
  // ---------------------------------------------------------------------

  /** The measurement list and the formula engine that serves it. */
  class MeasurementStore {
    var measurements: seq<Measurement>
    const engine: FormulaEngine

    ghost predicate Valid()
      reads this, engine
    {
      engine.Valid()
    }

    /** The list starts with the seed measurements and the engine with no variables. */
    constructor ()
      ensures Valid() && fresh(engine)
      ensures measurements == Seed && engine.Variables() == NoVars
    {
      measurements := Seed;
      engine := new FormulaEngine();
    }

    /** The effect run after every change of the list: each numeric measurement becomes a variable. */
    method SyncVariables()
      requires Valid()
      modifies engine
      ensures Valid()
      ensures engine.Variables() == Synced(old(engine.Variables()), measurements)
    {
      var i := 0;
      while i < |measurements|
        invariant 0 <= i <= |measurements|
        invariant engine.Valid()
        invariant engine.Variables() == Synced(old(engine.Variables()), measurements[..i])
      {
        var m := measurements[i];
        assert measurements[..i + 1][..i] == measurements[..i];
        if m.value.Number? {
          engine.SetVariable(m.name, m.value.n);
        }
        i := i + 1;
      }
      assert measurements[..i] == measurements;
    }

    /** `addMeasurement`: append the measurement as the engine's update returns it. */
    method AddMeasurement(m: Measurement)
      requires Valid()
      modifies this
      ensures Valid()
      ensures measurements == old(measurements) + [Updated(m, engine.Variables())]
    {
      var processed := engine.UpdateMeasurement(m);
      measurements := measurements + [processed];
    }

    /**
     * `updateMeasurement`: apply the update to every element with the id,
     * element by element as `map` does. Returns the dependents of each
     * numeric update, for the deferred passes the caller runs afterwards.
     */
    method UpdateMeasurement(id: string, u: Changes) returns (passes: seq<seq<Measurement>>)
      requires Valid()
      modifies this, engine
      ensures Valid()
      ensures var o := UpdateAll(old(measurements), id, u, old(measurements), old(engine.Variables()));
              measurements == o.ms && engine.Variables() == o.vars && passes == o.passes
    {
      var prev := measurements;
      var result: seq<Measurement> := [];
      passes := [];
      var i := 0;
      while i < |prev|
        invariant 0 <= i <= |prev|
        invariant engine.Valid()
        invariant UpdateAll(prev[..i], id, u, prev, old(engine.Variables())) == Outcome(result, engine.Variables(), passes)
      {
        var m := prev[i];
        ghost var before := engine.Variables();
        var next, scheduled := UpdateElement(m, id, u, prev);
        assert prev[..i + 1] == prev[..i] + [m];
        UpdateAllStep(prev[..i], m, id, u, prev, old(engine.Variables()), Outcome(result, before, passes),
                      next, engine.Variables(), scheduled);
        result := result + [next];
        passes := passes + scheduled;
        i := i + 1;
      }
      assert prev[..i] == prev;
      measurements := result;
    }

    /**
     * The `map` callback on one element `m` of `prev`: merge and evaluate a
     * formula update, or set the variable for a numeric update and collect
     * the dependents to re-evaluate later.
     */
    method UpdateElement(m: Measurement, id: string, u: Changes, prev: seq<Measurement>)
      returns (next: Measurement, scheduled: seq<seq<Measurement>>)
      requires Valid()
      modifies engine
      ensures Valid()
      ensures var st := UpdateOne(m, id, u, prev, old(engine.Variables()));
              next == st.m && engine.Variables() == st.vars && scheduled == Scheduled(st)
    {
      next, scheduled := m, [];
      if m.id == id {
        var merged := Merge(m, u);
        if SetsFormula(u) {
          next := engine.UpdateMeasurement(merged.(formula := Some(NewFormula(u))));
        } else {
          next := merged;
          if SetsNumber(u) {
            engine.SetVariable(merged.name, u.value.value.n);
            var dependents := engine.GetDependentMeasurements(prev, merged.name);
            scheduled := [dependents];
          }
        }
      }
    }

    /** The deferred pass: elements whose id is a dependent's go through the engine's update. */
    method RefreshDependents(dependents: seq<Measurement>)
      requires Valid()
      modifies this
      ensures Valid()
      ensures measurements == Refreshed(old(measurements), dependents, engine.Variables())
    {
      var current := measurements;
      var result: seq<Measurement> := [];
      var i := 0;
      while i < |current|
        invariant 0 <= i <= |current|
        invariant result == Refreshed(current[..i], dependents, engine.Variables())
      {
        var m := current[i];
        if HasId(dependents, m.id) {
          m := engine.UpdateMeasurement(m);
        }
        result := result + [m];
        i := i + 1;
      }
      assert current[..i] == current;
      measurements := result;
    }

    /** The dependents pass as intended: each dependent's formula is evaluated again. */
    method RecomputeDependents(dependents: seq<Measurement>)
      requires Valid()
      modifies this
      ensures Valid()
      ensures measurements == Recomputed(old(measurements), dependents, engine.Variables())
    {
      var current := measurements;
      var result: seq<Measurement> := [];
      var i := 0;
      while i < |current|
        invariant 0 <= i <= |current|
        invariant result == Recomputed(current[..i], dependents, engine.Variables())
      {
        var m := current[i];
        if HasId(dependents, m.id) && HasFormula(m) {
          m := engine.UpdateMeasurement(m.(value := Written(m.formula.value)));
        }
        result := result + [m];
        i := i + 1;
      }
      assert current[..i] == current;
      measurements := result;
    }

    /** `deleteMeasurement`: drop every element with the id, keeping the rest in order. */
    method DeleteMeasurement(id: string)
      modifies this
      ensures measurements == RemoveId(old(measurements), id, MeasurementId)
    {
      measurements := RemoveId(measurements, id, MeasurementId);
    }

    /** `getMeasurement`: the first element with the name, ignoring case. */
    method GetMeasurement(name: string) returns (r: Option<Measurement>)
      ensures r == Find(measurements, name)
    {
      r := Find(measurements, name);
    }
  }

  /** The seed list is evaluated, and every store operation keeps its list evaluated. */
  lemma StoreKeepsEvaluated(ms: seq<Measurement>, m: Measurement, id: string, u: Changes, ds: seq<Measurement>, vs: Vars)
    requires WellFormed(vs) && AllEvaluated(ms)
    ensures AllEvaluated(Seed)
    ensures AllEvaluated(ms + [Updated(m, vs)])
    ensures AllEvaluated(UpdateAll(ms, id, u, ms, vs).ms)
    ensures AllEvaluated(Refreshed(ms, ds, vs))
    ensures AllEvaluated(RemoveId(ms, id, MeasurementId))
  {
    UpdatedEvaluated(m, vs);
    assert forall k :: 0 <= k < |ms| ==> (ms + [Updated(m, vs)])[k] == ms[k];
    UpdateAllEvaluated(ms, id, u, ms, vs);
    var r := Refreshed(ms, ds, vs);
    forall k | 0 <= k < |ms|
      ensures Evaluated(r[k])
    {
      assert Evaluated(ms[k]);
      UpdatedEvaluated(ms[k], vs);
    }
    var d := RemoveId(ms, id, MeasurementId);
    forall k | 0 <= k < |d|
      ensures Evaluated(d[k])
    {
      assert d[k] in ms;
    }
  }
}
