/** `assignmaterial_from_sherlock_files` of `FieldAnalysisIcepak`: the two
    Sherlock CSV files are read into column tables, each material of the
    material table is matched with the modeler objects named after the
    components of that material, and the material's properties become plain
    values or temperature datasets. The result is the list of assignments
    the method makes, in order. */
module Sherlock {
  import opened Wrappers
  import opened Text
  import opened PyLists

  /** The exception that ends the call. */
  datatype SherlockError =
    | ShortRow(column: nat)               // `i[k]` raises IndexError while transposing
    | MissingColumn(name: string)         // a table lookup raises KeyError
    | ShortColumn(name: string, row: nat) // `material_data[name][i]` raises IndexError
    | NoTemperature(entry: string)        // `i.split("@")[1]` raises IndexError

  /** A CSV file read into a dictionary from header to column. */
  type Table = map<string, seq<string>>

  // ---------------------------------------------------------------------
  // Transposition of a CSV file

  /** Every row has at least `w` cells. */
  predicate Wide(data: seq<seq<string>>, w: nat)
  {
    forall j :: 0 <= j < |data| ==> w <= |data[j]|
  }

  /** `[i[k] for i in data]`. */
  function Column(data: seq<seq<string>>, k: nat): seq<string>
    requires Wide(data, k + 1)
  {
    seq(|data|, j requires 0 <= j < |data| => data[j][k])
  }

  /** The table after the loop `for el in header: data_dict[el] = [i[k] for i in data]`. */
  function Transposed(header: seq<string>, data: seq<seq<string>>): Result<Table, SherlockError>
    decreases |header|
  {
    if |header| == 0 then Success(map[])
    else
      var k := |header| - 1;
      match Transposed(header[..k], data)
      case Failure(e) => Failure(e)
      case Success(t) =>
        if Wide(data, k + 1) then Success(t[header[k] := Column(data, k)]) else Failure(ShortRow(k))
  }

  /** The transposition fails exactly when a row is shorter than the header,
      naming the first column it lacks; otherwise the keys are the header's
      names, every column is as long as the data, and a repeated name keeps
      its last column. */
  lemma TransposedSpec(header: seq<string>, data: seq<seq<string>>)
    ensures Transposed(header, data).Success? <==> Wide(data, |header|)
    ensures Transposed(header, data).Failure? ==>
      var c := Transposed(header, data).error;
      c.ShortRow? && c.column < |header| && Wide(data, c.column) && !Wide(data, c.column + 1)
    ensures Transposed(header, data).Success? ==>
      var t := Transposed(header, data).value;
      (forall h :: h in t <==> h in header)
      && (forall h :: h in t ==> |t[h]| == |data|)
      && (forall k :: 0 <= k < |header| && header[k] !in header[k + 1..] ==> t[header[k]] == Column(data, k))
  {
    TransposedSucceeds(header, data);
    if Transposed(header, data).Success? {
      TransposedKeys(header, data);
      TransposedColumns(header, data);
    }
  }

  /** A successful transposition extends the one of the header without its
      last name by that name's column. */
  lemma TransposedStep(header: seq<string>, data: seq<seq<string>>)
    requires |header| > 0 && Transposed(header, data).Success?
    ensures Wide(data, |header|) && Transposed(header[..|header| - 1], data).Success?
    ensures Transposed(header, data).value
      == Transposed(header[..|header| - 1], data).value[header[|header| - 1] := Column(data, |header| - 1)]
  {
  }

  /** The transposition fails exactly at the first column some row lacks. */
  lemma {:induction false} TransposedSucceeds(header: seq<string>, data: seq<seq<string>>)
    ensures Transposed(header, data).Success? <==> Wide(data, |header|)
    ensures Transposed(header, data).Failure? ==>
      var c := Transposed(header, data).error;
      c.ShortRow? && c.column < |header| && Wide(data, c.column) && !Wide(data, c.column + 1)
    decreases |header|
  {
    if |header| > 0 {
      TransposedSucceeds(header[..|header| - 1], data);
    }
  }

  /** The keys of the table are the header's names, each with a column as
      long as the data. */
  lemma {:induction false} TransposedKeys(header: seq<string>, data: seq<seq<string>>)
    requires Transposed(header, data).Success?
    ensures forall h :: h in Transposed(header, data).value <==> h in header
    ensures forall h :: h in Transposed(header, data).value ==> |Transposed(header, data).value[h]| == |data|
    decreases |header|
  {
    if |header| > 0 {
      var last := |header| - 1;
      TransposedStep(header, data);
      TransposedKeys(header[..last], data);
      assert header == header[..last] + [header[last]];
    }
  }

  /** A name that does not occur again later keeps its own column. */
  lemma {:induction false} TransposedColumns(header: seq<string>, data: seq<seq<string>>)
    requires Transposed(header, data).Success?
    ensures forall k :: 0 <= k < |header| && header[k] !in header[k + 1..] ==>
      header[k] in Transposed(header, data).value && Transposed(header, data).value[header[k]] == Column(data, k)
    decreases |header|
  {
    if |header| > 0 {
      var last := |header| - 1;
      var init := header[..last];
      TransposedStep(header, data);
      TransposedColumns(init, data);
      forall i | 0 <= i < |header| && header[i] !in header[i + 1..]
        ensures header[i] in Transposed(header, data).value && Transposed(header, data).value[header[i]] == Column(data, i)
      {
        if i < last {
          ColumnKept(header, i);
        }
      }
    }
  }

  /** A name that does not occur after position `i` of the header is not the
      last name, and does not occur after `i` within the rest either. */
  lemma ColumnKept(header: seq<string>, i: nat)
    requires i < |header| - 1 && header[i] !in header[i + 1..]
    ensures header[..|header| - 1][i] == header[i] && header[i] != header[|header| - 1]
    ensures header[i] !in header[..|header| - 1][i + 1..]
  {
    assert header[i + 1..] == header[..|header| - 1][i + 1..] + [header[|header| - 1]];
  }

  /** A failure on a prefix of the header is the failure of the whole transposition. */
  lemma {:induction false} TransposedFailureStays(header: seq<string>, data: seq<seq<string>>, n: nat, m: nat)
    requires n <= m <= |header|
    requires Transposed(header[..n], data).Failure?
    ensures Transposed(header[..m], data) == Transposed(header[..n], data)
    decreases m
  {
    if n < m {
      TransposedFailureStays(header, data, n, m - 1);
      assert header[..m][..m - 1] == header[..m - 1];
    }
  }

  /** Reads one CSV file (its header line and its data rows) into a table. */
  method TransposeCsv(header: seq<string>, data: seq<seq<string>>) returns (r: Result<Table, SherlockError>)
    ensures r == Transposed(header, data)
  {
    var table: Table := map[];
    var k := 0;
    while k < |header|
      invariant 0 <= k <= |header|
      invariant Transposed(header[..k], data) == Success(table)
    {
      assert header[..k + 1][..k] == header[..k];
      if !Wide(data, k + 1) {
        TransposedFailureStays(header, data, k + 1, |header|);
        assert header[..|header|] == header;
        return Failure(ShortRow(k));
      }
      table := table[header[k] := Column(data, k)];
      k := k + 1;
    }
    assert header[..|header|] == header;
    r := Success(table);
  }

  // ---------------------------------------------------------------------
  // The `value@temperature` datasets of `_create_dataset_from_sherlock`

  /** `[[i.split("@")[0], i.split("@")[1]] for i in mats]`. */
  function Entries(mats: seq<string>): (r: Result<seq<(string, string)>, SherlockError>)
    ensures r.Success? ==> |r.value| == |mats|
    decreases |mats|
  {
    if |mats| == 0 then Success([])
    else
      var parts := Split(mats[0], '@');
      if |parts| < 2 then Failure(NoTemperature(mats[0]))
      else match Entries(mats[1..])
        case Failure(e) => Failure(e)
        case Success(rest) => Success([(parts[0], parts[1])] + rest)
  }

  /** Every entry needs an `@`; the first entry without one is the error;
      each entry is split at its first two `@`s. */
  lemma {:induction false} EntriesSpec(mats: seq<string>)
    ensures Entries(mats).Success? <==> forall k :: 0 <= k < |mats| ==> '@' in mats[k]
    ensures Entries(mats).Failure? ==>
      exists j :: 0 <= j < |mats| && Entries(mats).error == NoTemperature(mats[j]) && '@' !in mats[j]
    ensures Entries(mats).Success? ==>
      forall k :: 0 <= k < |mats| ==>
        |Split(mats[k], '@')| >= 2
        && Entries(mats).value[k] == (Split(mats[k], '@')[0], Split(mats[k], '@')[1])
    decreases |mats|
  {
    if |mats| > 0 {
      SplitHead(mats[0], '@');
      EntriesSpec(mats[1..]);
      if Entries(mats[1..]).Failure? && |Split(mats[0], '@')| >= 2 {
        var j :| 0 <= j < |mats[1..]| && Entries(mats[1..]).error == NoTemperature(mats[1..][j]) && '@' !in mats[1..][j];
        assert mats[j + 1] == mats[1..][j];
      }
      forall k | 0 <= k < |mats| ensures '@' in mats[k] <==> |Split(mats[k], '@')| >= 2 {
        SplitHead(mats[k], '@');
      }
      if forall k :: 0 <= k < |mats| ==> '@' in mats[k] {
        assert forall k :: 0 <= k < |mats[1..]| ==> '@' in mats[1..][k] by {
          forall k | 0 <= k < |mats[1..]| ensures '@' in mats[1..][k] {
            assert mats[1..][k] == mats[k + 1];
          }
        }
      }
    }
  }

  /** A property value of the material: the text of the cell, or the nominal
      value and the temperature dataset built from a `value@temperature` list. */
  datatype PropertyValue =
    | Plain(text: string)
    | Dataset(nominal: string, temperatures: seq<string>, values: seq<string>)

  /** `s.replace("C", "").replace("K", "").replace("F", "")`. */
  function NoUnits(s: string): (r: string)
    ensures 'C' !in r && 'K' !in r && 'F' !in r
    ensures forall c :: c != 'C' && c != 'K' && c != 'F' ==> multiset(r)[c] == multiset(s)[c]
  {
    var c := DeleteChar(s, 'C');
    var k := DeleteChar(c, 'K');
    assert multiset(k)['C'] == multiset(c)['C'] == 0;
    var f := DeleteChar(k, 'F');
    assert multiset(f)['C'] == multiset(k)['C'] && multiset(f)['K'] == multiset(k)['K'] == 0;
    f
  }

  /** Removing the unit letters works piece by piece, so the remaining
      characters keep their order. */
  lemma NoUnitsAppend(a: string, b: string)
    ensures NoUnits(a + b) == NoUnits(a) + NoUnits(b)
  {
    DeleteCharAppend(a, b, 'C');
    DeleteCharAppend(DeleteChar(a, 'C'), DeleteChar(b, 'C'), 'K');
    DeleteCharAppend(DeleteChar(DeleteChar(a, 'C'), 'K'), DeleteChar(DeleteChar(b, 'C'), 'K'), 'F');
  }

  /** A temperature without unit letters is kept as it is. */
  lemma NoUnitsUnitFree(s: string)
    requires 'C' !in s && 'K' !in s && 'F' !in s
    ensures NoUnits(s) == s
  {
    DeleteCharAbsent(s, 'C');
    DeleteCharAbsent(s, 'K');
    DeleteCharAbsent(s, 'F');
  }

  /** The nominal value `mat_temp[int(len(mat_temp) / 2) - 1][0]` and the
      dataset's temperatures and values. */
  function SherlockDataset(s: string): Result<PropertyValue, SherlockError>
  {
    var mats := Split(s, ',');
    match Entries(mats)
    case Failure(e) => Failure(e)
    case Success(matTemp) =>
      var nominal := PyIndex(matTemp, |matTemp| / 2 - 1);
      Success(Dataset(nominal.value.0,
                      seq(|matTemp|, k requires 0 <= k < |matTemp| => NoUnits(matTemp[k].1)),
                      seq(|matTemp|, k requires 0 <= k < |matTemp| => matTemp[k].0)))
  }

  /** A dataset string is accepted exactly when every comma-separated entry
      holds an `@`. The values are the texts before the first `@`, the
      temperatures the texts after it with the unit letters removed, and the
      nominal value is the value at index `n / 2 - 1` of `n` entries, which
      for a single entry is that entry. */
  lemma SherlockDatasetSpec(s: string)
    ensures SherlockDataset(s).Success? ==> forall k :: 0 <= k < |Split(s, ',')| ==> '@' in Split(s, ',')[k]
    ensures (forall k :: 0 <= k < |Split(s, ',')| ==> '@' in Split(s, ',')[k]) ==> SherlockDataset(s).Success?
    ensures SherlockDataset(s).Failure? ==> SherlockDataset(s).error.NoTemperature?
    ensures SherlockDataset(s).Success? ==>
      var d := SherlockDataset(s).value;
      var mats := Split(s, ',');
      d.Dataset? && |d.values| == |mats| && |d.temperatures| == |mats|
      && (|mats| >= 2 ==> d.nominal == d.values[|mats| / 2 - 1])
      && (|mats| == 1 ==> d.nominal == d.values[0])
      && forall k :: 0 <= k < |mats| ==>
        |d.values[k]| < |mats[k]| && d.values[k] == mats[k][..|d.values[k]|]
        && '@' !in d.values[k] && mats[k][|d.values[k]|] == '@'
        && 'C' !in d.temperatures[k] && 'K' !in d.temperatures[k] && 'F' !in d.temperatures[k]
        && |Split(mats[k], '@')| >= 2 && d.temperatures[k] == NoUnits(Split(mats[k], '@')[1])
  {
    DatasetSucceeds(s);
    if SherlockDataset(s).Success? {
      DatasetShape(s);
      DatasetValues(s);
    }
  }

  /** A dataset string is accepted exactly when every entry holds an `@`. */
  lemma DatasetSucceeds(s: string)
    ensures SherlockDataset(s).Success? ==> forall k :: 0 <= k < |Split(s, ',')| ==> '@' in Split(s, ',')[k]
    ensures (forall k :: 0 <= k < |Split(s, ',')| ==> '@' in Split(s, ',')[k]) ==> SherlockDataset(s).Success?
    ensures SherlockDataset(s).Failure? ==> SherlockDataset(s).error.NoTemperature?
  {
    var mats := Split(s, ',');
    EntriesSpec(mats);
    assert SherlockDataset(s).Success? <==> Entries(mats).Success?;
    assert Entries(mats).Success? <==> forall k :: 0 <= k < |mats| ==> '@' in mats[k];
  }

  /** One value and one temperature per entry; the nominal value is the
      value at index `n / 2 - 1`, or the only value. */
  lemma DatasetShape(s: string)
    requires SherlockDataset(s).Success?
    ensures var d := SherlockDataset(s).value;
      var n := |Split(s, ',')|;
      d.Dataset? && |d.values| == n && |d.temperatures| == n
      && (n >= 2 ==> d.nominal == d.values[n / 2 - 1])
      && (n == 1 ==> d.nominal == d.values[0])
  {
  }

  /** Each value is the text of its entry before the first `@`, and each
      temperature is the text between its first and second `@` with the unit
      letters removed. */
  lemma DatasetValues(s: string)
    requires SherlockDataset(s).Success?
    ensures var d := SherlockDataset(s).value;
      var mats := Split(s, ',');
      d.Dataset? && |d.values| == |mats| && |d.temperatures| == |mats|
      && forall k :: 0 <= k < |mats| ==>
        |d.values[k]| < |mats[k]| && d.values[k] == mats[k][..|d.values[k]|]
        && '@' !in d.values[k] && mats[k][|d.values[k]|] == '@'
        && 'C' !in d.temperatures[k] && 'K' !in d.temperatures[k] && 'F' !in d.temperatures[k]
        && |Split(mats[k], '@')| >= 2 && d.temperatures[k] == NoUnits(Split(mats[k], '@')[1])
  {
    EntryValues(Split(s, ','));
    EntriesSpec(Split(s, ','));
  }

  /** The value of each entry is its text before the first `@`. */
  lemma EntryValues(mats: seq<string>)
    requires Entries(mats).Success?
    ensures forall k :: 0 <= k < |mats| ==>
      var v := Entries(mats).value[k].0;
      |v| < |mats[k]| && v == mats[k][..|v|] && '@' !in v && mats[k][|v|] == '@'
  {
    EntriesSpec(mats);
    forall k | 0 <= k < |mats|
      ensures var v := Entries(mats).value[k].0;
        |v| < |mats[k]| && v == mats[k][..|v|] && '@' !in v && mats[k][|v|] == '@'
    {
      SplitHead(mats[k], '@');
    }
  }

  // ---------------------------------------------------------------------
  // Material properties

  /** What is set on the material: one entry per property, `None` when the
      material table has no column for it. */
  datatype MaterialUpdate = MaterialUpdate(
    massDensity: Option<PropertyValue>,
    thermalConductivity: Option<PropertyValue>,
    thermalExpansionCoefficient: Option<PropertyValue>,
    poissonsRatio: Option<PropertyValue>,
    youngsModulus: Option<PropertyValue>)

  /** The branch for one property column at material row `i`. */
  function PropertyFor(matData: Table, column: string, i: nat): Result<Option<PropertyValue>, SherlockError>
  {
    if column !in matData then Success(None)
    else if i >= |matData[column]| then Failure(ShortColumn(column, i))
    else
      var v := matData[column][i];
      if '@' in v && ',' in v then
        match SherlockDataset(v)
        case Failure(e) => Failure(e)
        case Success(d) => Success(Some(d))
      else Success(Some(Plain(v)))
  }

  /** A property is set exactly when its column exists; it is a dataset
      exactly when the cell holds both `@` and `,`, and the cell's text
      otherwise; a short column or a malformed dataset is an error. */
  lemma PropertyForSpec(matData: Table, column: string, i: nat)
    ensures PropertyFor(matData, column, i).Success? ==>
      (PropertyFor(matData, column, i).value.Some? <==> column in matData)
    ensures column in matData && i < |matData[column]| && PropertyFor(matData, column, i).Success? ==>
      var v := matData[column][i];
      var p := PropertyFor(matData, column, i).value.value;
      (p.Dataset? <==> '@' in v && ',' in v) && (p.Plain? ==> p.text == v)
    ensures PropertyFor(matData, column, i).Failure? <==>
      column in matData && (i >= |matData[column]|
        || ('@' in matData[column][i] && ',' in matData[column][i] && SherlockDataset(matData[column][i]).Failure?))
  {
    if column in matData && i < |matData[column]| {
      var v := matData[column][i];
      if '@' in v && ',' in v && SherlockDataset(v).Success? {
        SherlockDatasetSpec(v);
      }
    }
  }

  /** The five property blocks, in the order of the source, the first
      failure ending the call. */
  function MaterialUpdateFor(matData: Table, i: nat): Result<MaterialUpdate, SherlockError>
  {
    var md :- PropertyFor(matData, "Material Density", i);
    var tc :- PropertyFor(matData, "Thermal Conductivity", i);
    var cte :- PropertyFor(matData, "Material CTE", i);
    var pr :- PropertyFor(matData, "Poisson Ratio", i);
    var ym :- PropertyFor(matData, "Elastic Modulus", i);
    Success(MaterialUpdate(md, tc, cte, pr, ym))
  }

  /** What reading one row of the property columns gives. */
  type RowUpdate = Result<MaterialUpdate, SherlockError>

  /** The readings of the first `n` rows. */
  function RowUpdates(matData: Table, n: nat): seq<RowUpdate>
  {
    seq(n, i requires 0 <= i < n => MaterialUpdateFor(matData, i))
  }

  /** Each field of the update comes from its own column: density, thermal
      conductivity, CTE, Poisson ratio and elastic modulus. */
  lemma MaterialUpdateColumns(matData: Table, i: nat)
    ensures MaterialUpdateFor(matData, i).Success? ==>
      var u := MaterialUpdateFor(matData, i).value;
      Success(u.massDensity) == PropertyFor(matData, "Material Density", i)
      && Success(u.thermalConductivity) == PropertyFor(matData, "Thermal Conductivity", i)
      && Success(u.thermalExpansionCoefficient) == PropertyFor(matData, "Material CTE", i)
      && Success(u.poissonsRatio) == PropertyFor(matData, "Poisson Ratio", i)
      && Success(u.youngsModulus) == PropertyFor(matData, "Elastic Modulus", i)
    ensures MaterialUpdateFor(matData, i).Failure? ==>
      exists c :: c in PropertyColumns && PropertyFor(matData, c, i) == Failure(MaterialUpdateFor(matData, i).error)
  {
    var cs := PropertyColumns;
    if MaterialUpdateFor(matData, i).Failure? {
      var k := if PropertyFor(matData, cs[0], i).Failure? then 0
        else if PropertyFor(matData, cs[1], i).Failure? then 1
        else if PropertyFor(matData, cs[2], i).Failure? then 2
        else if PropertyFor(matData, cs[3], i).Failure? then 3
        else 4;
      assert cs[k] in cs;
    }
  }

  const PropertyColumns: seq<string> :=
    ["Material Density", "Thermal Conductivity", "Material CTE", "Poisson Ratio", "Elastic Modulus"]

  // ---------------------------------------------------------------------
  // Matching materials with objects

  /** `[rd for rd, md in zip(ref_des, material) if md == mat]`. */
  function RefDesWith(refDes: seq<string>, materials: seq<string>, mat: string): seq<string>
    decreases |refDes|
  {
    if |refDes| == 0 || |materials| == 0 then []
    else (if materials[0] == mat then [refDes[0]] else []) + RefDesWith(refDes[1..], materials[1..], mat)
  }

  /** A designator is listed exactly when some component row pairs it with `mat`. */
  lemma {:induction false} RefDesWithSpec(refDes: seq<string>, materials: seq<string>, mat: string)
    ensures forall x :: x in RefDesWith(refDes, materials, mat) <==>
      exists j :: 0 <= j < |refDes| && j < |materials| && refDes[j] == x && materials[j] == mat
    decreases |refDes|
  {
    if |refDes| > 0 && |materials| > 0 {
      RefDesWithSpec(refDes[1..], materials[1..], mat);
      forall x | exists j :: 0 <= j < |refDes| && j < |materials| && refDes[j] == x && materials[j] == mat
        ensures x in RefDesWith(refDes, materials, mat)
      {
        var j :| 0 <= j < |refDes| && j < |materials| && refDes[j] == x && materials[j] == mat;
        if j > 0 {
          assert refDes[1..][j - 1] == x && materials[1..][j - 1] == mat;
        }
      }
      forall x | x in RefDesWith(refDes[1..], materials[1..], mat)
        ensures exists j :: 0 <= j < |refDes| && j < |materials| && refDes[j] == x && materials[j] == mat
      {
        var j :| 0 <= j < |refDes[1..]| && j < |materials[1..]| && refDes[1..][j] == x && materials[1..][j] == mat;
        assert refDes[j + 1] == x && materials[j + 1] == mat;
      }
    }
  }

  /** `"COMP_" + rd` for each designator. */
  function Prefixed(names: seq<string>): seq<string>
  {
    seq(|names|, k requires 0 <= k < |names| => "COMP_" + names[k])
  }

  /** The candidate object names of a material: the `COMP_` names first,
      then the bare designators. */
  function Candidates(refDes: seq<string>, materials: seq<string>, mat: string): seq<string>
  {
    Prefixed(RefDesWith(refDes, materials, mat)) + RefDesWith(refDes, materials, mat)
  }

  /** `[mo for mo in s if mo in pool]`. */
  function InPool(s: seq<string>, pool: seq<string>): seq<string>
    decreases |s|
  {
    if |s| == 0 then []
    else (if s[0] in pool then [s[0]] else []) + InPool(s[1..], pool)
  }

  /** A candidate is kept exactly when it is still in the pool. */
  lemma {:induction false} InPoolSpec(s: seq<string>, pool: seq<string>)
    ensures forall x :: x in InPool(s, pool) <==> x in s && x in pool
    decreases |s|
  {
    if |s| > 0 {
      InPoolSpec(s[1..], pool);
      assert s == [s[0]] + s[1..];
    }
  }

  /** `[ao for ao in pool if ao not in taken]`. */
  function NotIn(pool: seq<string>, taken: seq<string>): seq<string>
    decreases |pool|
  {
    if |pool| == 0 then []
    else (if pool[0] !in taken then [pool[0]] else []) + NotIn(pool[1..], taken)
  }

  /** The pool keeps exactly the objects not taken. */
  lemma {:induction false} NotInSpec(pool: seq<string>, taken: seq<string>)
    ensures forall x :: x in NotIn(pool, taken) <==> x in pool && x !in taken
    decreases |pool|
  {
    if |pool| > 0 {
      NotInSpec(pool[1..], taken);
      assert pool == [pool[0]] + pool[1..];
    }
  }

  /** One material assigned to objects: its library name is the lower-cased
      Sherlock name. */
  datatype Assignment = Assignment(material: string, libraryName: string, objects: seq<string>, update: MaterialUpdate)

  /** The objects still unassigned and the assignments made so far. */
  datatype PlanState = PlanState(pool: seq<string>, plan: seq<Assignment>)

  /** One turn of the loop `for mat in material_data["Name"]`; `update` is
      what reading the material's row of property columns gives, and is only
      looked at when some object matches. */
  function MaterialStep(mat: string, update: RowUpdate, compData: Table, st: PlanState): Result<PlanState, SherlockError>
  {
    if "Ref Des" !in compData then Failure(MissingColumn("Ref Des"))
    else if "Material" !in compData then Failure(MissingColumn("Material"))
    else
      var objs := InPool(Candidates(compData["Ref Des"], compData["Material"], mat), st.pool);
      if |objs| == 0 then Success(PlanState(NotIn(st.pool, objs), st.plan))
      else match update
        case Failure(e) => Failure(e)
        case Success(u) =>
          Success(PlanState(NotIn(st.pool, objs), st.plan + [Assignment(mat, Lower(mat), objs, u)]))
  }

  /** What the plan keeps true: the unassigned objects and the assigned
      ones are drawn from the design's objects, an assigned object has left
      the pool, no object is assigned twice, and every assignment is to a
      non-empty list of candidates of its material. */
  predicate PlanInvariant(st: PlanState, allObjs: seq<string>, compData: Table)
  {
    (forall x :: x in st.pool ==> x in allObjs)
    && (forall a, x :: 0 <= a < |st.plan| && x in st.plan[a].objects ==> x in allObjs && x !in st.pool)
    && (forall a, b, x :: 0 <= a < b < |st.plan| && x in st.plan[a].objects ==> x !in st.plan[b].objects)
    && (forall a :: 0 <= a < |st.plan| ==>
          |st.plan[a].objects| > 0
          && st.plan[a].libraryName == Lower(st.plan[a].material)
          && "Ref Des" in compData && "Material" in compData
          && forall x :: x in st.plan[a].objects ==>
               x in Candidates(compData["Ref Des"], compData["Material"], st.plan[a].material))
  }

  function Materials(plan: seq<Assignment>): seq<string>
  {
    seq(|plan|, a requires 0 <= a < |plan| => plan[a].material)
  }

  /** One turn keeps the invariant. */
  lemma MaterialStepInvariant(mat: string, update: RowUpdate, compData: Table, st: PlanState, allObjs: seq<string>)
    requires PlanInvariant(st, allObjs, compData)
    requires MaterialStep(mat, update, compData, st).Success?
    ensures PlanInvariant(MaterialStep(mat, update, compData, st).value, allObjs, compData)
  {
    var st' := MaterialStep(mat, update, compData, st).value;
    var objs := InPool(Candidates(compData["Ref Des"], compData["Material"], mat), st.pool);
    InPoolSpec(Candidates(compData["Ref Des"], compData["Material"], mat), st.pool);
    NotInSpec(st.pool, objs);
    if |objs| > 0 {
      var entry := st'.plan[|st.plan|];
      assert st'.plan == st.plan + [entry];
      assert entry.objects == objs;
      forall a, b, x | 0 <= a < b < |st'.plan| && x in st'.plan[a].objects
        ensures x !in st'.plan[b].objects
      {
        if b == |st.plan| {
          assert x !in st.pool;
        }
      }
    } else {
      assert st'.plan == st.plan;
    }
  }

  /** One turn appends at most one assignment, for the turn's material. */
  lemma MaterialStepMaterials(mat: string, update: RowUpdate, compData: Table, st: PlanState)
    requires MaterialStep(mat, update, compData, st).Success?
    ensures var st' := MaterialStep(mat, update, compData, st).value;
      Materials(st'.plan) == Materials(st.plan) || Materials(st'.plan) == Materials(st.plan) + [mat]
  {
    var st' := MaterialStep(mat, update, compData, st).value;
    if |st'.plan| != |st.plan| {
      assert st'.plan == st.plan + [st'.plan[|st.plan|]];
      assert Materials(st'.plan) == Materials(st.plan) + [mat];
    }
  }

  /** The kept candidates stay in their order. */
  lemma {:induction false} InPoolSubsequence(s: seq<string>, pool: seq<string>)
    ensures Subsequence(InPool(s, pool), s)
    decreases |s|
  {
    if |s| > 0 {
      InPoolSubsequence(s[1..], pool);
      if s[0] in pool {
        assert ([s[0]] + InPool(s[1..], pool))[1..] == InPool(s[1..], pool);
      } else {
        assert InPool(s, pool) == InPool(s[1..], pool);
        SubsequenceOfTail(InPool(s, pool), s);
      }
    }
  }

  /** A successful turn keeps the earlier assignments, takes every candidate
      of its material still in the pool, in candidate order (the `COMP_`
      names first), and removes exactly those from the pool; it makes no
      assignment only when no candidate is left in the pool. */
  lemma MaterialStepTakes(mat: string, update: RowUpdate, compData: Table, st: PlanState)
    requires MaterialStep(mat, update, compData, st).Success?
    ensures "Ref Des" in compData && "Material" in compData
    ensures var st' := MaterialStep(mat, update, compData, st).value;
      var cands := Candidates(compData["Ref Des"], compData["Material"], mat);
      st'.plan[..|st.plan|] == st.plan && |st.plan| <= |st'.plan| <= |st.plan| + 1
      && (forall x :: x in st'.pool <==> x in st.pool && x !in cands)
      && (|st'.plan| == |st.plan| ==> forall x :: x in cands ==> x !in st.pool)
      && (|st'.plan| == |st.plan| + 1 ==>
            var entry := st'.plan[|st.plan|];
            entry.material == mat && entry.libraryName == Lower(mat)
            && (forall x :: x in entry.objects <==> x in cands && x in st.pool)
            && Subsequence(entry.objects, cands))
  {
    var cands := Candidates(compData["Ref Des"], compData["Material"], mat);
    var objs := InPool(cands, st.pool);
    InPoolSpec(cands, st.pool);
    NotInSpec(st.pool, objs);
    InPoolSubsequence(cands, st.pool);
    var st' := MaterialStep(mat, update, compData, st).value;
    if |objs| > 0 {
      assert st'.plan == st.plan + [Assignment(mat, Lower(mat), objs, update.value)];
      assert st'.plan[..|st.plan|] == st.plan;
    } else {
      assert st'.plan == st.plan;
      assert objs == [];
    }
  }

  /** Before the loop every object is in the pool and nothing is assigned. */
  lemma InitialInvariant(allObjs: seq<string>, compData: Table)
    ensures PlanInvariant(PlanState(allObjs, []), allObjs, compData)
  {
  }

  /** Reading a row that every column has never raises IndexError. */
  lemma MaterialUpdateNoShortColumn(matData: Table, i: nat)
    requires forall h :: h in matData ==> i < |matData[h]|
    ensures MaterialUpdateFor(matData, i).Failure? ==> !MaterialUpdateFor(matData, i).error.ShortColumn?
  {
    MaterialUpdateColumns(matData, i);
    if MaterialUpdateFor(matData, i).Failure? {
      var c :| c in PropertyColumns && PropertyFor(matData, c, i) == Failure(MaterialUpdateFor(matData, i).error);
      SherlockDatasetSpec(matData[c][i]);
    }
  }

  /** When every column is as long as the `Name` column, no row reading
      raises IndexError. */
  lemma RowUpdatesNoShortColumn(matData: Table, n: nat)
    requires forall h :: h in matData ==> |matData[h]| == n
    ensures forall i :: 0 <= i < n && RowUpdates(matData, n)[i].Failure? ==> !RowUpdates(matData, n)[i].error.ShortColumn?
  {
    forall i | 0 <= i < n
      ensures RowUpdates(matData, n)[i].Failure? ==> !RowUpdates(matData, n)[i].error.ShortColumn?
    {
      MaterialUpdateNoShortColumn(matData, i);
    }
  }
}
