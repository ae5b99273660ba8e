/** The loop of `assignmaterial_from_sherlock_files` over the `Name` column
    of the material table, and the whole call built from it. */
module SherlockLoop {
  import opened Wrappers
  import opened Text
  import opened PyLists
  import opened Sherlock

  /** The state after the first `n` materials; `updates[i]` is what reading
      row `i` of the property columns gives. Reading a row changes nothing,
      and a turn looks at its reading only when some object matches. */
  function PlanAfter(names: seq<string>, updates: seq<RowUpdate>, compData: Table, allObjs: seq<string>, n: nat): Result<PlanState, SherlockError>
    requires n <= |names| && n <= |updates|
  {
    if n == 0 then Success(PlanState(allObjs, []))
    else match PlanAfter(names, updates, compData, allObjs, n - 1)
      case Failure(e) => Failure(e)
      case Success(st) => MaterialStep(names[n - 1], updates[n - 1], compData, st)
  }

  /** A failure at some material is the failure of the whole loop. */
  lemma {:induction false} PlanFailureStays(names: seq<string>, updates: seq<RowUpdate>, compData: Table, allObjs: seq<string>, n: nat, m: nat)
    requires n <= m <= |names| && m <= |updates|
    requires PlanAfter(names, updates, compData, allObjs, n).Failure?
    ensures PlanAfter(names, updates, compData, allObjs, m) == PlanAfter(names, updates, compData, allObjs, n)
    decreases m
  {
    if n < m {
      PlanFailureStays(names, updates, compData, allObjs, n, m - 1);
    }
  }

  /** A successful turn follows a successful prefix. */
  lemma PlanAfterStep(names: seq<string>, updates: seq<RowUpdate>, compData: Table, allObjs: seq<string>, n: nat)
    requires 0 < n <= |names| && n <= |updates|
    requires PlanAfter(names, updates, compData, allObjs, n).Success?
    ensures PlanAfter(names, updates, compData, allObjs, n - 1).Success?
    ensures PlanAfter(names, updates, compData, allObjs, n)
      == MaterialStep(names[n - 1], updates[n - 1], compData, PlanAfter(names, updates, compData, allObjs, n - 1).value)
  {
  }

  /** A successful turn lists its material once more or not at all. */
  lemma PlanAfterMaterials(names: seq<string>, updates: seq<RowUpdate>, compData: Table, allObjs: seq<string>, n: nat)
    requires 0 < n <= |names| && n <= |updates|
    requires PlanAfter(names, updates, compData, allObjs, n).Success?
    ensures PlanAfter(names, updates, compData, allObjs, n - 1).Success?
    ensures var before := Materials(PlanAfter(names, updates, compData, allObjs, n - 1).value.plan);
      var after := Materials(PlanAfter(names, updates, compData, allObjs, n).value.plan);
      after == before || after == before + [names[n - 1]]
  {
    PlanAfterStep(names, updates, compData, allObjs, n);
    MaterialStepMaterials(names[n - 1], updates[n - 1], compData, PlanAfter(names, updates, compData, allObjs, n - 1).value);
  }

  /** Every state the loop reaches keeps the invariant. */
  lemma {:induction false} PlanAfterInvariant(names: seq<string>, updates: seq<RowUpdate>, compData: Table, allObjs: seq<string>, n: nat)
    requires n <= |names| && n <= |updates|
    requires PlanAfter(names, updates, compData, allObjs, n).Success?
    ensures PlanInvariant(PlanAfter(names, updates, compData, allObjs, n).value, allObjs, compData)
    decreases n
  {
    if n == 0 {
      InitialInvariant(allObjs, compData);
    } else {
      PlanAfterStep(names, updates, compData, allObjs, n);
      PlanAfterInvariant(names, updates, compData, allObjs, n - 1);
      var st := PlanAfter(names, updates, compData, allObjs, n - 1).value;
      var update := updates[n - 1];
      MaterialStepInvariant(names[n - 1], update, compData, st, allObjs);
    }
  }

  /** The assigned materials appear in the order of the material table. */
  lemma {:induction false} PlanAfterOrder(names: seq<string>, updates: seq<RowUpdate>, compData: Table, allObjs: seq<string>, n: nat)
    requires n <= |names| && n <= |updates|
    requires PlanAfter(names, updates, compData, allObjs, n).Success?
    ensures Subsequence(Materials(PlanAfter(names, updates, compData, allObjs, n).value.plan), names[..n])
    decreases n
  {
    if n == 0 {
      assert Materials([]) == [];
    } else {
      PlanAfterMaterials(names, updates, compData, allObjs, n);
      PlanAfterOrder(names, updates, compData, allObjs, n - 1);
      SubsequenceGrow(Materials(PlanAfter(names, updates, compData, allObjs, n - 1).value.plan),
                      Materials(PlanAfter(names, updates, compData, allObjs, n).value.plan), names, n);
    }
  }

  /** The whole call: both files, the `Name` column, then the loop. */
  function SherlockPlan(materialHeader: seq<string>, materialRows: seq<seq<string>>,
                        componentHeader: seq<string>, componentRows: seq<seq<string>>,
                        allObjs: seq<string>): Result<seq<Assignment>, SherlockError>
  {
    var matData :- Transposed(materialHeader, materialRows);
    var compData :- Transposed(componentHeader, componentRows);
    if "Name" !in matData then Failure(MissingColumn("Name"))
    else
      var names := matData["Name"];
      var st :- PlanAfter(names, RowUpdates(matData, |names|), compData, allObjs, |names|);
      Success(st.plan)
  }

  /** The loop raises IndexError for a property column only if some row
      reading does. */
  lemma {:induction false} NoShortColumn(names: seq<string>, updates: seq<RowUpdate>, compData: Table, allObjs: seq<string>, n: nat)
    requires n <= |names| && n <= |updates|
    requires forall i :: 0 <= i < |updates| && updates[i].Failure? ==> !updates[i].error.ShortColumn?
    ensures PlanAfter(names, updates, compData, allObjs, n).Failure? ==>
      !PlanAfter(names, updates, compData, allObjs, n).error.ShortColumn?
    decreases n
  {
    if n > 0 {
      NoShortColumn(names, updates, compData, allObjs, n - 1);
    }
  }

  /** The call fails exactly on a short row, a missing `Name`, `Ref Des` or
      `Material` column, or a malformed dataset; the assignments it makes
      keep the plan invariant and follow the material table's order. */
  lemma SherlockPlanSpec(materialHeader: seq<string>, materialRows: seq<seq<string>>,
                         componentHeader: seq<string>, componentRows: seq<seq<string>>,
                         allObjs: seq<string>)
    ensures SherlockPlan(materialHeader, materialRows, componentHeader, componentRows, allObjs).Failure? ==>
      var e := SherlockPlan(materialHeader, materialRows, componentHeader, componentRows, allObjs).error;
      e.ShortRow? || e.MissingColumn? || e.NoTemperature?
    ensures !Wide(materialRows, |materialHeader|) ==>
      SherlockPlan(materialHeader, materialRows, componentHeader, componentRows, allObjs).Failure?
    ensures SherlockPlan(materialHeader, materialRows, componentHeader, componentRows, allObjs).Success? ==>
      var plan := SherlockPlan(materialHeader, materialRows, componentHeader, componentRows, allObjs).value;
      var matData := Transposed(materialHeader, materialRows).value;
      "Name" in materialHeader && Subsequence(Materials(plan), matData["Name"])
      && (forall a, b, x :: 0 <= a < b < |plan| && x in plan[a].objects ==> x !in plan[b].objects)
      && (forall a, x :: 0 <= a < |plan| && x in plan[a].objects ==> x in allObjs)
      && var compData := Transposed(componentHeader, componentRows).value;
      forall a :: 0 <= a < |plan| ==>
        plan[a].libraryName == Lower(plan[a].material)
        && "Ref Des" in compData && "Material" in compData
        && forall x :: x in plan[a].objects ==>
             x in Candidates(compData["Ref Des"], compData["Material"], plan[a].material)
  {
    SherlockPlanErrors(materialHeader, materialRows, componentHeader, componentRows, allObjs);
    TransposedSucceeds(materialHeader, materialRows);
    if SherlockPlan(materialHeader, materialRows, componentHeader, componentRows, allObjs).Success? {
      SherlockPlanResult(materialHeader, materialRows, componentHeader, componentRows, allObjs);
    }
  }

  /** The call raises IndexError only for a short row, never for a short
      property column. */
  lemma SherlockPlanErrors(materialHeader: seq<string>, materialRows: seq<seq<string>>,
                           componentHeader: seq<string>, componentRows: seq<seq<string>>,
                           allObjs: seq<string>)
    ensures SherlockPlan(materialHeader, materialRows, componentHeader, componentRows, allObjs).Failure? ==>
      var e := SherlockPlan(materialHeader, materialRows, componentHeader, componentRows, allObjs).error;
      e.ShortRow? || e.MissingColumn? || e.NoTemperature?
  {
    TransposedSucceeds(materialHeader, materialRows);
    TransposedSucceeds(componentHeader, componentRows);
    var r := Transposed(materialHeader, materialRows);
    if r.Success? && Transposed(componentHeader, componentRows).Success? && "Name" in r.value {
      var matData := r.value;
      var compData := Transposed(componentHeader, componentRows).value;
      var names := matData["Name"];
      TransposedKeys(materialHeader, materialRows);
      RowUpdatesNoShortColumn(matData, |names|);
      NoShortColumn(names, RowUpdates(matData, |names|), compData, allObjs, |names|);
    }
  }

  /** A successful call assigns disjoint lists of the design's objects, in
      the order of the `Name` column; each list holds only candidates of its
      material, and each library name is the lower-cased material name. */
  lemma SherlockPlanResult(materialHeader: seq<string>, materialRows: seq<seq<string>>,
                           componentHeader: seq<string>, componentRows: seq<seq<string>>,
                           allObjs: seq<string>)
    requires SherlockPlan(materialHeader, materialRows, componentHeader, componentRows, allObjs).Success?
    ensures var plan := SherlockPlan(materialHeader, materialRows, componentHeader, componentRows, allObjs).value;
      var matData := Transposed(materialHeader, materialRows).value;
      "Name" in materialHeader && Subsequence(Materials(plan), matData["Name"])
      && (forall a, b, x :: 0 <= a < b < |plan| && x in plan[a].objects ==> x !in plan[b].objects)
      && (forall a, x :: 0 <= a < |plan| && x in plan[a].objects ==> x in allObjs)
      && var compData := Transposed(componentHeader, componentRows).value;
      forall a :: 0 <= a < |plan| ==>
        plan[a].libraryName == Lower(plan[a].material)
        && "Ref Des" in compData && "Material" in compData
        && forall x :: x in plan[a].objects ==>
             x in Candidates(compData["Ref Des"], compData["Material"], plan[a].material)
  {
    var matData := Transposed(materialHeader, materialRows).value;
    var compData := Transposed(componentHeader, componentRows).value;
    var names := matData["Name"];
    var updates := RowUpdates(matData, |names|);
    TransposedKeys(materialHeader, materialRows);
    PlanAfterInvariant(names, updates, compData, allObjs, |names|);
    PlanAfterOrder(names, updates, compData, allObjs, |names|);
    assert names[..|names|] == names;
  }

  /** `assignmaterial_from_sherlock_files`: reads both files, then walks the
      materials, keeping the pool of unassigned objects. */
  method AssignMaterialFromSherlock(materialHeader: seq<string>, materialRows: seq<seq<string>>,
                                    componentHeader: seq<string>, componentRows: seq<seq<string>>,
                                    allObjs: seq<string>)
    returns (r: Result<seq<Assignment>, SherlockError>)
    ensures r == SherlockPlan(materialHeader, materialRows, componentHeader, componentRows, allObjs)
  {
    var m := TransposeCsv(materialHeader, materialRows);
    if m.Failure? {
      return Failure(m.error);
    }
    var c := TransposeCsv(componentHeader, componentRows);
    if c.Failure? {
      return Failure(c.error);
    }
    var materialData := m.value;
    var componentData := c.value;
    if "Name" !in materialData {
      return Failure(MissingColumn("Name"));
    }
    var names := materialData["Name"];
    ghost var updates := RowUpdates(materialData, |names|);
    var pool := allObjs;
    var plan := [];
    var i := 0;
    while i < |names|
      invariant 0 <= i <= |names|
      invariant PlanAfter(names, updates, componentData, allObjs, i) == Success(PlanState(pool, plan))
    {
      var step := MaterialStep(names[i], MaterialUpdateFor(materialData, i), componentData, PlanState(pool, plan));
      if step.Failure? {
        PlanFailureStays(names, updates, componentData, allObjs, i + 1, |names|);
        return Failure(step.error);
      }
      pool := step.value.pool;
      plan := step.value.plan;
      i := i + 1;
    }
    r := Success(plan);
  }
}
