/** The selection and mapping rules of `FieldAnalysisIcepak`: the gravity
    setting of `apply_icepak_settings`, the object selection and version of
    `export_3d_model`, the body filter of `copy_solid_bodies_from`, and the
    material filters of `get_all_conductors_names` and
    `get_all_dielectrics_names`. The AEDT objects are replaced by plain
    sequences of `(name, material)` records. */
module Icepak {
  import opened Wrappers
  import opened Text
  import opened PyLists

  /** The exception that ends a call. */
  datatype IcepakError =
    | GravityIndex(gravityDir: int)   // `IceGravity[gravityDir - 3]` raises IndexError
    | NotAnObject(name: string)       // `allObjects.remove(rem)` raises ValueError

  /** An object of the modeler: its name and its material. */
  datatype ModelObject = ModelObject(name: string, material: string)

  // ---------------------------------------------------------------------
  // Gravity in `apply_icepak_settings`

  const IceGravity: seq<string> := ["X", "Y", "Z"]

  datatype Gravity = Gravity(axis: string, positive: bool)

  /** `GVPos = int(gravityDir) > 2` and `GVA = IceGravity[int(gravityDir) - 3]`. */
  function GravitySetting(gravityDir: int): Result<Gravity, IcepakError>
  {
    match PyIndex(IceGravity, gravityDir - 3)
    case None => Failure(GravityIndex(gravityDir))
    case Some(axis) => Success(Gravity(axis, gravityDir > 2))
  }

  /** Only the indices 0 to 5 are accepted: 0 and 3 are X, 1 and 4 are Y,
      2 and 5 are Z, and the upper three point the positive way. */
  lemma GravityTable(gravityDir: int)
    ensures GravitySetting(gravityDir).Success? <==> 0 <= gravityDir <= 5
    ensures GravitySetting(gravityDir).Success? ==>
      GravitySetting(gravityDir).value == Gravity(IceGravity[gravityDir % 3], gravityDir >= 3)
    ensures GravitySetting(gravityDir).Failure? ==> GravitySetting(gravityDir).error == GravityIndex(gravityDir)
  {
  }

  // ---------------------------------------------------------------------
  // `export_3d_model`

  /** The loop `for rem in removed_objects: allObjects.remove(rem)`, stopped by
      the first name that is not (or no longer) in the list. */
  function RemoveEach(s: seq<string>, removed: seq<string>): Result<seq<string>, IcepakError>
    decreases |removed|
  {
    if |removed| == 0 then Success(s)
    else match RemoveFirst(s, removed[0])
      case None => Failure(NotAnObject(removed[0]))
      case Some(t) => RemoveEach(t, removed[1..])
  }

  /** The removals succeed exactly when every removed name is present as
      often as it is removed; what is left is the rest, in its order. */
  lemma RemoveEachSpec(s: seq<string>, removed: seq<string>)
    ensures RemoveEach(s, removed).Success? <==> multiset(removed) <= multiset(s)
    ensures RemoveEach(s, removed).Success? ==>
      multiset(RemoveEach(s, removed).value) == multiset(s) - multiset(removed)
      && Subsequence(RemoveEach(s, removed).value, s)
  {
    RemoveEachCounts(s, removed);
    if RemoveEach(s, removed).Success? {
      RemoveEachOrder(s, removed);
    }
  }

  /** The removals succeed exactly when there are enough copies of every
      removed name, and take away exactly those copies. */
  lemma {:induction false} RemoveEachCounts(s: seq<string>, removed: seq<string>)
    ensures RemoveEach(s, removed).Success? <==> multiset(removed) <= multiset(s)
    ensures RemoveEach(s, removed).Success? ==>
      multiset(RemoveEach(s, removed).value) == multiset(s) - multiset(removed)
    decreases |removed|
  {
    if |removed| > 0 {
      var x := removed[0];
      assert removed == [x] + removed[1..];
      assert multiset(removed) == multiset{x} + multiset(removed[1..]);
      RemoveFirstSpec(s, x);
      TakeOne(x, multiset(removed[1..]), multiset(s));
      if x in s {
        RemoveFirstMultiset(s, x);
        RemoveEachCounts(RemoveFirst(s, x).value, removed[1..]);
      }
    }
  }

  /** What the removals leave keeps its order. */
  lemma {:induction false} RemoveEachOrder(s: seq<string>, removed: seq<string>)
    requires RemoveEach(s, removed).Success?
    ensures Subsequence(RemoveEach(s, removed).value, s)
    decreases |removed|
  {
    if |removed| == 0 {
      SubsequenceRefl(s);
    } else {
      var t := RemoveFirst(s, removed[0]).value;
      RemoveFirstSubsequence(s, removed[0]);
      RemoveEachOrder(t, removed[1..]);
      SubsequenceTrans(RemoveEach(t, removed[1..]).value, t, s);
    }
  }

  /** `allObjects.remove("Region")` when "Region" is present. */
  function WithoutRegion(names: seq<string>): (r: seq<string>)
    ensures "Region" in names ==> r == names[..IndexOf(names, "Region")] + names[IndexOf(names, "Region") + 1..]
    ensures "Region" !in names ==> r == names
  {
    RemoveFirstSpec(names, "Region");
    if "Region" in names then RemoveFirst(names, "Region").value else names
  }

  /** The object selection of `export_3d_model`. A non-empty `object_list`
      is handed to `convert_to_selections`, whose answer is `converted`;
      otherwise every object name is taken, minus `removed_objects` if that
      is non-empty and minus "Region" if not. */
  method ExportSelection(objectNames: seq<string>, objectList: seq<string>, removedObjects: seq<string>,
                         converted: seq<string>)
    returns (r: Result<seq<string>, IcepakError>)
    ensures |objectList| > 0 ==> r == Success(converted)
    ensures |objectList| == 0 && |removedObjects| > 0 ==> r == RemoveEach(objectNames, removedObjects)
    ensures |objectList| == 0 && |removedObjects| == 0 ==> r == Success(WithoutRegion(objectNames))
  {
    if |objectList| > 0 {
      return Success(converted);
    }
    var allObjects := objectNames;
    if |removedObjects| > 0 {
      var todo := removedObjects;
      while |todo| > 0
        invariant RemoveEach(objectNames, removedObjects) == RemoveEach(allObjects, todo)
      {
        var rem := todo[0];
        match RemoveFirst(allObjects, rem)
        case None =>
          return Failure(NotAnObject(rem));
        case Some(rest) =>
          allObjects := rest;
        todo := todo[1..];
      }
    } else if "Region" in allObjects {
      RemoveFirstSpec(allObjects, "Region");
      allObjects := RemoveFirst(allObjects, "Region").value;
    }
    r := Success(allObjects);
  }

  /** The formats exported at version 29.0. */
  const VersionedFormats: seq<string> := [".step", ".stp", ".sm3", ".sat", ".sab"]

  datatype Version = Version(major: int, minor: int)

  /** `major`, `minor` for the export arguments. */
  function ExportVersion(fileFormat: string): Version
  {
    if fileFormat in VersionedFormats then Version(29, 0) else Version(-1, -1)
  }

  /** The argument list of the export call: the selection joined with
      commas, and the version. */
  datatype ExportRequest = ExportRequest(selections: string, version: Version)

  function ExportRequestFor(selection: seq<string>, fileFormat: string): ExportRequest
  {
    ExportRequest(Join(selection, ','), ExportVersion(fileFormat))
  }

  /** The version is 29.0 exactly for the five listed formats and -1.-1
      otherwise; the selection string splits back into the selection when no
      name holds a comma. */
  lemma ExportRequestSpec(selection: seq<string>, fileFormat: string)
    ensures ExportRequestFor(selection, fileFormat).version.major == 29 <==> fileFormat in VersionedFormats
    ensures ExportRequestFor(selection, fileFormat).version.major != 29 ==>
      ExportRequestFor(selection, fileFormat).version == Version(-1, -1)
    ensures |selection| > 0 && (forall k :: 0 <= k < |selection| ==> ',' !in selection[k]) ==>
      Split(ExportRequestFor(selection, fileFormat).selections, ',') == selection
  {
    if |selection| > 0 && (forall k :: 0 <= k < |selection| ==> ',' !in selection[k]) {
      SplitJoin(selection, ',');
    }
  }

  // ---------------------------------------------------------------------
  // `copy_solid_bodies_from`

  /** An object the flags exclude: vacuum under `no_vacuum`, pec under `no_pec`. */
  predicate Excluded(o: ModelObject, noVacuum: bool, noPec: bool)
  {
    (noVacuum && o.material == "Vacuum") || (noPec && o.material == "pec")
  }

  /** `include_object` at the end of the inner loop for `body`. */
  predicate KeepBody(body: string, objectList: seq<string>, objects: seq<ModelObject>, noVacuum: bool, noPec: bool)
  {
    (|objectList| == 0 || body in objectList)
    && forall i :: 0 <= i < |objects| && objects[i].name == body ==> !Excluded(objects[i], noVacuum, noPec)
  }

  /** `selection_list`: the kept bodies, in `body_list` order. */
  function KeptBodies(bodies: seq<string>, objectList: seq<string>, objects: seq<ModelObject>,
                      noVacuum: bool, noPec: bool): seq<string>
  {
    if |bodies| == 0 then []
    else
      var last := bodies[|bodies| - 1];
      KeptBodies(bodies[..|bodies| - 1], objectList, objects, noVacuum, noPec)
        + if KeepBody(last, objectList, objects, noVacuum, noPec) then [last] else []
  }

  /** The kept bodies are exactly the bodies that pass the filter, in order. */
  lemma {:induction false} KeptBodiesSpec(bodies: seq<string>, objectList: seq<string>, objects: seq<ModelObject>,
                                          noVacuum: bool, noPec: bool)
    ensures forall b :: b in KeptBodies(bodies, objectList, objects, noVacuum, noPec) <==>
      b in bodies && KeepBody(b, objectList, objects, noVacuum, noPec)
    ensures Subsequence(KeptBodies(bodies, objectList, objects, noVacuum, noPec), bodies)
  {
    if |bodies| > 0 {
      var init := bodies[..|bodies| - 1];
      var last := bodies[|bodies| - 1];
      KeptBodiesSpec(init, objectList, objects, noVacuum, noPec);
      assert bodies == init + [last];
      var k := KeptBodies(init, objectList, objects, noVacuum, noPec);
      SubsequenceAppend(k, init, if KeepBody(last, objectList, objects, noVacuum, noPec) then [last] else [], [last]);
    }
  }

  /** Every copy of a kept name is kept: the filter drops or keeps all bodies
      of one name together. */
  lemma {:induction false} KeptBodiesCounts(bodies: seq<string>, objectList: seq<string>, objects: seq<ModelObject>,
                                            noVacuum: bool, noPec: bool)
    ensures forall b ::
      multiset(KeptBodies(bodies, objectList, objects, noVacuum, noPec))[b] ==
      (if KeepBody(b, objectList, objects, noVacuum, noPec) then multiset(bodies)[b] else 0)
  {
    if |bodies| > 0 {
      var init := bodies[..|bodies| - 1];
      KeptBodiesCounts(init, objectList, objects, noVacuum, noPec);
      assert bodies == init + [bodies[|bodies| - 1]];
    }
  }

  /** The loops of `copy_solid_bodies_from` over `body_list` and, for each
      body, over the design's objects; the result is what is copied. */
  method CopySolidBodies(bodies: seq<string>, objectList: seq<string>, objects: seq<ModelObject>,
                         noVacuum: bool, noPec: bool)
    returns (selection: seq<string>)
    ensures selection == KeptBodies(bodies, objectList, objects, noVacuum, noPec)
  {
    selection := [];
    var b := 0;
    while b < |bodies|
      invariant 0 <= b <= |bodies|
      invariant selection == KeptBodies(bodies[..b], objectList, objects, noVacuum, noPec)
    {
      var body := bodies[b];
      var includeObject := true;
      if |objectList| > 0 && body !in objectList {
        includeObject := false;
      }
      var j := 0;
      while j < |objects|
        invariant 0 <= j <= |objects|
        invariant includeObject == ((|objectList| == 0 || body in objectList)
          && forall i :: 0 <= i < j && objects[i].name == body ==> !Excluded(objects[i], noVacuum, noPec))
      {
        var o := objects[j];
        if o.name == body {
          if noVacuum && o.material == "Vacuum" {
            includeObject := false;
          }
          if noPec && o.material == "pec" {
            includeObject := false;
          }
        }
        j := j + 1;
      }
      assert bodies[..b + 1][..b] == bodies[..b];
      if includeObject {
        selection := selection + [body];
      }
      b := b + 1;
    }
    assert bodies[..|bodies|] == bodies;
  }

  // ---------------------------------------------------------------------
  // `get_all_conductors_names` and `get_all_dielectrics_names`

  /** `[i.lower() for i in materials]`. */
  function LowerAll(materials: seq<string>): (r: seq<string>)
    ensures |r| == |materials|
    ensures forall k :: 0 <= k < |r| ==> r[k] == Lower(materials[k])
  {
    seq(|materials|, k requires 0 <= k < |materials| => Lower(materials[k]))
  }

  function Names(objects: seq<ModelObject>): (r: seq<string>)
    ensures |r| == |objects|
    ensures forall k :: 0 <= k < |r| ==> r[k] == objects[k].name
  {
    seq(|objects|, k requires 0 <= k < |objects| => objects[k].name)
  }

  /** `obj_names`: the names of the objects whose material is in `cond`, in order. */
  function NamesWithMaterial(objects: seq<ModelObject>, cond: seq<string>): seq<string>
  {
    if |objects| == 0 then []
    else
      var last := objects[|objects| - 1];
      NamesWithMaterial(objects[..|objects| - 1], cond) + if last.material in cond then [last.name] else []
  }

  /** A name is listed exactly when some object of that name has a listed
      material; the names keep the objects' order. */
  lemma {:induction false} NamesWithMaterialSpec(objects: seq<ModelObject>, cond: seq<string>)
    ensures forall x :: x in NamesWithMaterial(objects, cond) <==>
      exists k :: 0 <= k < |objects| && objects[k].name == x && objects[k].material in cond
    ensures Subsequence(NamesWithMaterial(objects, cond), Names(objects))
  {
    if |objects| > 0 {
      var init := objects[..|objects| - 1];
      var last := objects[|objects| - 1];
      NamesWithMaterialSpec(init, cond);
      assert Names(objects) == Names(init) + [last.name];
      SubsequenceAppend(NamesWithMaterial(init, cond), Names(init),
                        if last.material in cond then [last.name] else [], [last.name]);
      forall x | exists k :: 0 <= k < |objects| && objects[k].name == x && objects[k].material in cond
        ensures x in NamesWithMaterial(objects, cond)
      {
        var k :| 0 <= k < |objects| && objects[k].name == x && objects[k].material in cond;
        if k < |init| {
          assert init[k] == objects[k];
        }
      }
    }
  }

  /** A name all of whose objects have a listed material is listed once per
      object of that name. */
  lemma {:induction false} NamesWithMaterialCounts(objects: seq<ModelObject>, cond: seq<string>)
    ensures forall x ::
      (forall k :: 0 <= k < |objects| && objects[k].name == x ==> objects[k].material in cond) ==>
      multiset(NamesWithMaterial(objects, cond))[x] == multiset(Names(objects))[x]
  {
    if |objects| > 0 {
      var init := objects[..|objects| - 1];
      var last := objects[|objects| - 1];
      NamesWithMaterialCounts(init, cond);
      assert Names(objects) == Names(init) + [last.name];
      assert forall k :: 0 <= k < |init| ==> init[k] == objects[k];
    }
  }

  /** The materials are lowered but the objects' materials are not: an
      object whose material name has an upper-case letter is never listed. */
  lemma UpperCaseMaterialNeverListed(material: string, materials: seq<string>)
    requires HasUpper(material)
    ensures material !in LowerAll(materials)
  {
    forall k | 0 <= k < |materials|
      ensures LowerAll(materials)[k] != material
    {
      LowerHasNoUpper(materials[k]);
    }
  }

  /** The loop of `get_all_conductors_names` (with the conductor list) and of
      `get_all_dielectrics_names` (with the dielectric list). */
  method NamesWithMaterialIn(objects: seq<ModelObject>, materials: seq<string>) returns (objNames: seq<string>)
    ensures objNames == NamesWithMaterial(objects, LowerAll(materials))
  {
    var cond := LowerAll(materials);
    objNames := [];
    var k := 0;
    while k < |objects|
      invariant 0 <= k <= |objects|
      invariant objNames == NamesWithMaterial(objects[..k], cond)
    {
      assert objects[..k + 1][..k] == objects[..k];
      if objects[k].material in cond {
        objNames := objNames + [objects[k].name];
      }
      k := k + 1;
    }
    assert objects[..|objects|] == objects;
  }
}
