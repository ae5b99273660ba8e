# pyaedt: far-field array combination and Icepak selection rules, in Dafny

This project models two pieces of pyaedt that compute something themselves
rather than forwarding a call to AEDT.

1. **`ff_calc`**, the far-field post-processing of the HFSS example
   `Advanced_Far_Field.py`. Every element (m, n) of a 4×4 array gets the label
   `"[m+3,n+3]"`, and its weight is stored under the first `ff_data` key that
   contains that label. The weight is the progressive phase
   `exp(j·radians(y·m + x·n))`. The ports, in key order, are laid out as rows
   of a weight vector and of two field tables. The tables are combined with
   `np.dot`, reshaped row-major into an Nθ×Nφ grid, and turned into the quantity
   to plot, its title, its scale and `pin`. The model is imperative where the
   source is: the weight loops, the port loop writing into numpy arrays, the
   row weighting and the `np.dot` are methods over `array`/`array2`. The
   source weights each port's samples before writing its row; the model writes
   the row and then weights the stored table, which gives the same table
   (`FarField.ScaledRowsAreSourceRows`). Each
   method is proved against a function that the lemmas then reason about
   (module `FarField`, with exact complex numbers in `ComplexNumbers`).
2. **The selection and mapping rules of `FieldAnalysisIcepak`**, with AEDT's
   objects replaced by sequences of `(name, material)` records:
   - module `Icepak`: the gravity axis and sign; the object selection of
     `export_3d_model` with its version table and selection string; the body
     filter of `copy_solid_bodies_from`; the material filters of
     `get_all_conductors_names` and `get_all_dielectrics_names`;
   - module `Sherlock`: `assignmaterial_from_sherlock_files`. It transposes the
     two CSV tables and matches each material with its objects from a shrinking
     pool. Each property becomes a plain value or a `value@temperature` dataset
     (`_create_dataset_from_sherlock`). The loop over the materials and the
     whole call, built on those rules, are in module `SherlockLoop`.

Python's own rules that these depend on are written out:
- in module `Text`: `in` on strings, `str(int)`, `split`, `join`, `replace`
  and `lower`;
- in module `PyLists`: negative indexing, `list.remove` and order-preserving
  filters.

Every exception the source can raise becomes a `Failure` value of a `Result`.
This covers an `IndexError` or `KeyError` from a lookup and a `ValueError` from
`list.remove`.

Inputs that come from outside the code are parameters:
- the `ff_data` dictionary is a sequence of ports with distinct keys;
- `np.exp(1j·np.radians(·))` is a function parameter `expjDeg`;
- the answer of `convert_to_selections` is a parameter;
- the modeler's object names and objects are sequences;
- the two CSV files are given as their header and data rows.

With zero phases every port weight is 1, so `pin` is the number of ports
(16 when each of the 16 elements matches its own port) — `FarField.ZeroPhasePin`.

## Model

| member | source | states |
|---|---|---|
| FarField.ElementLabelOrigin | examples/02-HFSS/Advanced_Far_Field.py:89-105 | element (0,0) is labelled "[3,3]" and element (3,3) "[6,6]" |
| FarField.ElementLabelInjective | examples/02-HFSS/Advanced_Far_Field.py:105 | two elements with the same label are the same element |
| FarField.BracketPairInjective | examples/02-HFSS/Advanced_Far_Field.py:105 | a label "[a,b]" of two digit strings determines a and b |
| FarField.FirstComma | examples/02-HFSS/Advanced_Far_Field.py:105 | in "[a,b]" with digits a, the first comma comes right after a |
| FarField.PortsContaining | examples/02-HFSS/Advanced_Far_Field.py:106 | every listed port key is a key that contains the label |
| FarField.PortsContainingNonEmpty | examples/02-HFSS/Advanced_Far_Field.py:106-107 | the list of matching keys is non-empty iff some key contains the label |
| FarField.PortsContainingFirst | examples/02-HFSS/Advanced_Far_Field.py:106-107 | the head of a non-empty list is a key containing the label that no earlier key matches |
| FarField.PortsContainingHead | examples/02-HFSS/Advanced_Far_Field.py:106-107 | the list is non-empty iff some key contains the label, and its head is the first such key in key order |
| FarField.PhaseSteps | examples/02-HFSS/Advanced_Far_Field.py:91-103 | the phase is 0 at (0,0) and grows by y per row and by x per column (the arguments are swapped) |
| FarField.ZeroPhaseUnitWeights | examples/02-HFSS/Advanced_Far_Field.py:95-104 | with x = y = 0 every element weight is exactly 1 |
| FarField.WeightDictSucceeds | examples/02-HFSS/Advanced_Far_Field.py:100-107 | the weight loops succeed iff every element so far has a key containing its label |
| FarField.WeightDictFailure | examples/02-HFSS/Advanced_Far_Field.py:106-107 | on failure the error names the first element, in loop order, without a matching key |
| FarField.WeightDictContents | examples/02-HFSS/Advanced_Far_Field.py:106-107 | a key is in `w_dict` iff some element matched it, and its weight is that of the last element that did |
| FarField.WeightDictContentsStep | examples/02-HFSS/Advanced_Far_Field.py:106-107 | one more element keeps the `w_dict` contents rule: its key gets its weight, every other key keeps its entry |
| FarField.WeightDictKeysArePorts | examples/02-HFSS/Advanced_Far_Field.py:106-107 | every key of `w_dict` is a port key |
| FarField.FailureStays | examples/02-HFSS/Advanced_Far_Field.py:100-107 | once the loops fail, later elements do not change the outcome |
| FarField.WeightDictNext | examples/02-HFSS/Advanced_Far_Field.py:105-107 | element (m, n) ends the loops iff no key contains its label, and otherwise stores its weight under the first matching key |
| FarField.StoreWeight | examples/02-HFSS/Advanced_Far_Field.py:104 | `weight[m][n] = v` writes that one cell and keeps every other cell |
| FarField.AssignRow | examples/02-HFSS/Advanced_Far_Field.py:101-107 | the inner loop over row m extends `w_dict` exactly as the fold `WeightDictAfter` does, returns the last `port_name`, writes each processed element's weight into `weight[m, n]` and leaves every other cell alone |
| FarField.AssignWeights | examples/02-HFSS/Advanced_Far_Field.py:94-107 | the nested loops produce the `w_dict` of the fold `WeightDictAfter` or its error, and the last element's `port_name` list |
| FarField.Broadcast | examples/02-HFSS/Advanced_Far_Field.py:124-125 | assigning k samples to a row of len cells keeps them when k = len and repeats the one sample when k = 1 |
| FarField.FirstPortErrorNone | examples/02-HFSS/Advanced_Far_Field.py:116-132 | the port loop runs through iff no port lacks a weight, has a misfitting row or an empty angle range; otherwise the first such port's error is reported |
| FarField.Row | examples/02-HFSS/Advanced_Far_Field.py:117-125 | a port's field row has `length_of_ff_data` cells |
| FarField.RowsOf | examples/02-HFSS/Advanced_Far_Field.py:112-125 | the field tables have one row per port, every row len cells |
| FarField.WeightVector | examples/02-HFSS/Advanced_Far_Field.py:114-121 | `w` has one weight per port, in key order |
| FarField.PrefixKeysMembers | examples/02-HFSS/Advanced_Far_Field.py:116 | the key set of the first n ports holds exactly their keys |
| FarField.PrefixKeysCount | examples/02-HFSS/Advanced_Far_Field.py:116 | the first n keys of a dictionary are n distinct keys |
| FarField.SubsetCard | examples/02-HFSS/Advanced_Far_Field.py:111 | a subset is no larger than its superset |
| FarField.RowCount | examples/02-HFSS/Advanced_Far_Field.py:111-116 | when `w_dict`'s keys are exactly the port keys, the tables have exactly one row per port |
| FarField.RowsAvailable | examples/02-HFSS/Advanced_Far_Field.py:111-125 | n ports that all have weights fit into the `len(w_dict)` rows |
| FarField.GridIs | examples/02-HFSS/Advanced_Far_Field.py:124-125 | a table whose every cell agrees with the rows holds those rows |
| FarField.AssignFieldRow | examples/02-HFSS/Advanced_Far_Field.py:124-125 | `fields[i] = row` overwrites row i and keeps the others |
| FarField.PlacePort | examples/02-HFSS/Advanced_Far_Field.py:116-132 | one port loop pass: its error, or `w[n]` and rows n of both tables set and every other entry kept |
| FarField.FillTables | examples/02-HFSS/Advanced_Far_Field.py:116-132 | the port loop reports the first failing port, or fills `w` and both tables in key order, with Nθ and Nφ from the last port |
| FarField.ArrangePorts | examples/02-HFSS/Advanced_Far_Field.py:109-132 | the allocated arrays end up as `WeightVector` and the two `RowsOf` field tables, or the loop's error |
| FarField.Combine | examples/02-HFSS/Advanced_Far_Field.py:134-137 | `np.dot(w, fields)` has one entry per sample |
| FarField.ScaledRows | examples/02-HFSS/Advanced_Far_Field.py:119-122 | scaling the rows keeps the table's shape |
| FarField.Squares | examples/02-HFSS/Advanced_Far_Field.py:119-122 | one square per weight |
| FarField.Dot | examples/02-HFSS/Advanced_Far_Field.py:134-137 | the nested loops compute sample j as the sum over ports of weight times sample j |
| FarField.WeightedSumOfScaled | examples/02-HFSS/Advanced_Far_Field.py:119-134 | weighting each term twice by w is weighting it once by w·w |
| FarField.DoubleWeighting | examples/02-HFSS/Advanced_Far_Field.py:119-137 | combining pre-scaled rows is combining the original rows with squared weights |
| FarField.ScaleRow | examples/02-HFSS/Advanced_Far_Field.py:119-122 | the weighting `re_theta * w_dict[port]`, applied to stored row i after the port loop: row i times c cell by cell, the other rows unchanged |
| FarField.ScaleRows | examples/02-HFSS/Advanced_Far_Field.py:119-122 | the weighting of lines 119/122 applied to the stored table after the port loop: every row ends up times its port's weight |
| FarField.ScaledRowsAreSourceRows | examples/02-HFSS/Advanced_Far_Field.py:115-125 | weighting the stored rows after the loop gives the table the source writes, where each port's samples are weighted before the broadcast into row n |
| FarField.CombineAppend | examples/02-HFSS/Advanced_Far_Field.py:134-137 | superposition over ports: adding a port adds its weight times its row to every composite sample |
| FarField.WeightedSumScaleValues | examples/02-HFSS/Advanced_Far_Field.py:134-137 | scaling every summed sample by k scales the weighted sum by k |
| FarField.WeightedSumScaleWeights | examples/02-HFSS/Advanced_Far_Field.py:134-137 | scaling every weight by k scales the weighted sum by k |
| FarField.WeightedSumPlusValues | examples/02-HFSS/Advanced_Far_Field.py:134-137 | the weighted sum of added samples is the sum of the weighted sums |
| FarField.WeightedSumPlusWeights | examples/02-HFSS/Advanced_Far_Field.py:134-137 | the sum under added weights is the sum of the two weighted sums |
| FarField.CombineScaleRows | examples/02-HFSS/Advanced_Far_Field.py:134-137 | `np.dot` is linear in the field data: every row times k gives every composite sample times k |
| FarField.CombinePlusRows | examples/02-HFSS/Advanced_Far_Field.py:134-137 | `np.dot` is additive in the field data: the composite of two tables added cell by cell is the sum of their composites |
| FarField.CombineScaleWeights | examples/02-HFSS/Advanced_Far_Field.py:134-137 | `np.dot` is linear in the weights: every weight times k gives every composite sample times k |
| FarField.CombinePlusWeights | examples/02-HFSS/Advanced_Far_Field.py:134-137 | `np.dot` is additive in the weights: the composite under two weight vectors added is the sum of their composites |
| FarField.CombineSingle | examples/02-HFSS/Advanced_Far_Field.py:134-137 | a single port gives its samples times its weight |
| FarField.Composite | examples/02-HFSS/Advanced_Far_Field.py:119-137 | the composite vector has one sample per column under either weighting |
| FarField.CompositeTwiceSquares | examples/02-HFSS/Advanced_Far_Field.py:119-137 | as written, each port contributes its samples times the square of its weight |
| FarField.DoubleWeightingCounterexample | examples/02-HFSS/Advanced_Far_Field.py:119-134 | one port with weight j and sample 1 gives -1 as written and j when weighted once |
| FarField.Reshape | examples/02-HFSS/Advanced_Far_Field.py:135-138 | the reshaped grid has `rows` rows of `cols` cells |
| FarField.FlattenReshape | examples/02-HFSS/Advanced_Far_Field.py:135-138 | flattening the reshaped grid restores the vector |
| FarField.FlattenLength | examples/02-HFSS/Advanced_Far_Field.py:135-138 | a grid of equal rows flattens to rows·cols samples |
| FarField.ReshapeFlatten | examples/02-HFSS/Advanced_Far_Field.py:135-138 | reshaping a flattened grid restores the grid |
| FarField.ReshapeIndex | examples/02-HFSS/Advanced_Far_Field.py:135-138 | cell (i,j) of the grid is sample i·cols + j |
| FarField.QuantityNamed | examples/02-HFSS/Advanced_Far_Field.py:140-148 | a found quantity is stored under exactly the given key |
| FarField.QuantityKeys | examples/02-HFSS/Advanced_Far_Field.py:140-152 | each quantity is found under its key, and a lookup fails iff no quantity has that key |
| FarField.SelectPlot | examples/02-HFSS/Advanced_Far_Field.py:150-158 | unknown quantity iff lookup fails; title `qty (dB)` or `qty (mag)`; magnitude iff not dB; factor 10 iff "Gain" occurs in qty, 20 otherwise |
| FarField.GainScale | examples/02-HFSS/Advanced_Far_Field.py:151-154 | of the four quantities only RealizedGain is plotted at 10 log10 |
| FarField.TotalSq | examples/02-HFSS/Advanced_Far_Field.py:143 | rETotal² = abs(rEPhi)² + abs(rETheta)² cell by cell, never negative |
| FarField.SumOfOnes | examples/02-HFSS/Advanced_Far_Field.py:145 | unit weights sum to the number of ports |
| FarField.Finish | examples/02-HFSS/Advanced_Far_Field.py:134-158 | succeeds iff the sample count is Nθ·Nφ and the quantity exists; the grids flatten back to the composite vectors; `pin` = sum of `w`; the plot choice is `SelectPlot`'s |
| FarField.FinishGridCell | examples/02-HFSS/Advanced_Far_Field.py:135-138 | cell (i,j) of each plotted grid is composite sample i·Nφ + j |
| FarField.KeyInPorts | examples/02-HFSS/Advanced_Far_Field.py:97 | a listed key names a port |
| FarField.IndexOfKeyFrom | examples/02-HFSS/Advanced_Far_Field.py:109 | finds the port stored under a key |
| FarField.LastMatchIsPort | examples/02-HFSS/Advanced_Far_Field.py:109 | after the weight loops `port_name[0]` exists and is a port key |
| FarField.FfSetup | examples/02-HFSS/Advanced_Far_Field.py:88-132 | when the setup succeeds, there is at least one port, one weight per port, and tables of one row per port |
| FarField.Prepare | examples/02-HFSS/Advanced_Far_Field.py:88-132 | the arrays before `np.dot` hold the specified weights and fields, or the error is the specified one |
| FarField.FfCalc | examples/02-HFSS/Advanced_Far_Field.py:88-158 | `ff_calc` with each port weighted once, on arrays, equal to the function `FfCalcSpec` with single weighting |
| FarField.FfCalcAsWritten | examples/02-HFSS/Advanced_Far_Field.py:88-158 | `ff_calc` as written, each port's samples weighted (applied to the stored rows after the port loop, the same table) and then weighted again by `np.dot`, equal to `FfCalcSpec` with double weighting |
| FarField.FfSetupSucceeds | examples/02-HFSS/Advanced_Far_Field.py:100-132 | the setup succeeds iff every element finds a port and every port fits |
| FarField.FfSetupWeights | examples/02-HFSS/Advanced_Far_Field.py:106-121 | every port's weight is that of the last element, in loop order, whose first matching key (`port_name[0]`) is that port's key |
| FarField.ZeroPhaseWeights | examples/02-HFSS/Advanced_Far_Field.py:88-121 | with x = y = 0 every port weight is 1 |
| FarField.ZeroPhasePin | examples/02-HFSS/Advanced_Far_Field.py:145 | with x = y = 0, `pin` is the number of ports |
| FarField.UnitWeightsHideDoubling | examples/02-HFSS/Advanced_Far_Field.py:119-137 | with unit weights, weighting twice equals weighting once |
| FarField.ZeroPhaseHidesDoubleWeighting | examples/02-HFSS/Advanced_Far_Field.py:88-137 | with zero phases, the as-written and the corrected `ff_calc` give the same result |
| ComplexNumbers.AbsSq | examples/02-HFSS/Advanced_Far_Field.py:143 | abs(a)² is never negative |
| Text.ContainsIff | examples/02-HFSS/Advanced_Far_Field.py:106-151 | `pat in text` holds iff pat occurs at some position |
| Text.DigitChar | examples/02-HFSS/Advanced_Far_Field.py:105 | a digit value gives a digit character |
| Text.NatToString | examples/02-HFSS/Advanced_Far_Field.py:105 | `str(n)` is a non-empty digit string |
| Text.NatToStringRoundTrip | examples/02-HFSS/Advanced_Far_Field.py:105 | reading `str(n)` back gives n |
| Text.NatToStringInjective | examples/02-HFSS/Advanced_Far_Field.py:105 | different numbers print differently |
| Text.Split | pyaedt/application/AnalysisIcepak.py:596-597 | `s.split(sep)` has at least one piece |
| Text.JoinCons | pyaedt/application/AnalysisIcepak.py:328 | joining commutes with a leading character of the first piece |
| Text.JoinSplit | pyaedt/application/AnalysisIcepak.py:328-596 | joining the pieces of a split restores the string |
| Text.SplitNoSep | pyaedt/application/AnalysisIcepak.py:596-597 | a string without the separator splits into itself |
| Text.SplitAppend | pyaedt/application/AnalysisIcepak.py:596-597 | splitting at a separator splits both sides independently |
| Text.SplitHead | pyaedt/application/AnalysisIcepak.py:597 | the first piece is the text before the first separator, and a second piece exists iff the separator occurs |
| Text.SplitJoin | pyaedt/application/AnalysisIcepak.py:328 | splitting a join restores the pieces when none holds the separator |
| Text.DeleteChar | pyaedt/application/AnalysisIcepak.py:603 | `s.replace(c, "")` leaves no c and keeps every other character's count |
| Text.DeleteCharAppend | pyaedt/application/AnalysisIcepak.py:603 | deleting c from a + b is deleting it from a and from b, so the kept characters keep their order |
| Text.DeleteCharSingle | pyaedt/application/AnalysisIcepak.py:603 | a one-character string becomes empty iff its character is c, and is kept otherwise |
| Text.DeleteCharAbsent | pyaedt/application/AnalysisIcepak.py:603 | a string without c is unchanged |
| Text.Lower | pyaedt/application/AnalysisIcepak.py:657-749 | lower-casing keeps the length |
| Text.LowerSpec | pyaedt/application/AnalysisIcepak.py:732-749 | each letter A-Z becomes the matching letter a-z, and every other character stays where it is |
| Text.LowerAppend | pyaedt/application/AnalysisIcepak.py:732-749 | lower-casing a + b is lower-casing a and b |
| Text.LowerHasNoUpper | pyaedt/application/AnalysisIcepak.py:732-749 | a lower-cased string has no upper-case letter |
| Text.LowerNoUpper | pyaedt/application/AnalysisIcepak.py:732-749 | a string without upper-case letters is its own lower-case form |
| PyLists.PyIndex | pyaedt/application/AnalysisIcepak.py:254-599 | `s[i]` exists iff -len(s) ≤ i < len(s); negative i counts from the end |
| PyLists.IndexOf | pyaedt/application/AnalysisIcepak.py:314-317 | the first index of an element |
| PyLists.RemoveFirstSpec | pyaedt/application/AnalysisIcepak.py:314-317 | `list.remove(x)` fails iff x is absent, and otherwise cuts out x at its first index |
| PyLists.RemoveFirstSubsequence | pyaedt/application/AnalysisIcepak.py:314-317 | `list.remove` keeps the order of the rest |
| PyLists.RemoveFirstMultiset | pyaedt/application/AnalysisIcepak.py:314-317 | `list.remove` takes away one copy of x and nothing else |
| PyLists.SubsequenceOfTail | pyaedt/application/AnalysisIcepak.py:445-460 | a subsequence of the tail is a subsequence of the list |
| PyLists.SubsequenceTail | pyaedt/application/AnalysisIcepak.py:445-460 | dropping a subsequence's head keeps it a subsequence |
| PyLists.SubsequenceRefl | pyaedt/application/AnalysisIcepak.py:445-460 | a list is a subsequence of itself |
| PyLists.SubsequenceTrans | pyaedt/application/AnalysisIcepak.py:313-314 | being a subsequence is transitive |
| PyLists.SubsequenceAppend | pyaedt/application/AnalysisIcepak.py:445-736 | subsequences of two parts make a subsequence of the whole |
| PyLists.SubsequenceSnoc | pyaedt/application/AnalysisIcepak.py:650 | appending one element keeps a subsequence |
| Icepak.GravityTable | pyaedt/application/AnalysisIcepak.py:250-254 | accepted iff 0 ≤ gravityDir ≤ 5; axis X, Y, Z for gravityDir mod 3 = 0, 1, 2; positive iff gravityDir ≥ 3; otherwise IndexError |
| Icepak.RemoveEachSpec | pyaedt/application/AnalysisIcepak.py:312-314 | the removals succeed iff each removed name occurs at least as often as it is removed; the rest is the original minus the removed names as a multiset, in the original order |
| Icepak.RemoveEachCounts | pyaedt/application/AnalysisIcepak.py:312-314 | the removals succeed iff the removed names form a sub-multiset of the names, and leave exactly the difference |
| Icepak.RemoveEachOrder | pyaedt/application/AnalysisIcepak.py:312-314 | the remaining names keep their original order |
| Icepak.WithoutRegion | pyaedt/application/AnalysisIcepak.py:316-317 | the first "Region" is cut out if there is one, and otherwise the names are unchanged |
| Icepak.ExportSelection | pyaedt/application/AnalysisIcepak.py:310-319 | the converted selection for a non-empty object list; otherwise every name with the removed names taken out, or "Region" dropped when nothing is removed |
| Icepak.ExportRequestSpec | pyaedt/application/AnalysisIcepak.py:322-328 | version 29.0 iff the format is one of the five listed, -1.-1 otherwise; the selection string splits back into the selection when no name holds a comma |
| Icepak.KeptBodiesSpec | pyaedt/application/AnalysisIcepak.py:445-460 | a body is copied iff the object list is empty or holds it and no object of that name is excluded as vacuum or pec; the copied bodies keep the body order |
| Icepak.KeptBodiesCounts | pyaedt/application/AnalysisIcepak.py:445-460 | a kept name is kept as often as it occurs among the bodies, a dropped one not at all |
| Icepak.CopySolidBodies | pyaedt/application/AnalysisIcepak.py:445-461 | the two loops select exactly the kept bodies |
| Icepak.NamesWithMaterialSpec | pyaedt/application/AnalysisIcepak.py:733-754 | a name is listed iff some object of that name has a listed material; the names keep the object order |
| Icepak.NamesWithMaterialCounts | pyaedt/application/AnalysisIcepak.py:733-754 | a name whose objects all have a listed material is listed once per object of that name |
| Icepak.UpperCaseMaterialNeverListed | pyaedt/application/AnalysisIcepak.py:732-752 | an object material with an upper-case letter never matches the lower-cased list |
| Icepak.NamesWithMaterialIn | pyaedt/application/AnalysisIcepak.py:732-754 | the loop lists exactly the specified names |
| Sherlock.TransposedSpec | pyaedt/application/AnalysisIcepak.py:636-647 | fails iff a row is shorter than the header, naming the first missing column; the keys are the header names, each column as long as the data, a repeated name keeps its last column |
| Sherlock.TransposedSucceeds | pyaedt/application/AnalysisIcepak.py:636-638 | the transposition succeeds iff every row is as long as the header; a failure names the first column some row lacks |
| Sherlock.TransposedKeys | pyaedt/application/AnalysisIcepak.py:643-647 | the table's keys are exactly the header names, each column as long as the data |
| Sherlock.TransposedColumns | pyaedt/application/AnalysisIcepak.py:645-647 | a header name that does not occur again later holds its own column |
| Sherlock.TransposedFailureStays | pyaedt/application/AnalysisIcepak.py:636-638 | a failure on a header prefix is the failure of the whole loop |
| Sherlock.TransposeCsv | pyaedt/application/AnalysisIcepak.py:634-647 | the loop builds exactly the specified table or raises the specified error |
| Sherlock.Entries | pyaedt/application/AnalysisIcepak.py:597 | one `[value, temp]` pair per entry |
| Sherlock.EntriesSpec | pyaedt/application/AnalysisIcepak.py:597 | succeeds iff every entry holds an "@"; otherwise the error names an entry without one; each pair is the entry's first two "@" pieces |
| Sherlock.NoUnits | pyaedt/application/AnalysisIcepak.py:603 | no C, K or F is left and every other character is kept |
| Sherlock.NoUnitsAppend | pyaedt/application/AnalysisIcepak.py:603 | removing C, K and F from a + b is removing them from a and from b, so the other characters keep their order |
| Sherlock.NoUnitsUnitFree | pyaedt/application/AnalysisIcepak.py:603 | a text without C, K or F is kept as it is |
| Sherlock.SherlockDatasetSpec | pyaedt/application/AnalysisIcepak.py:596-604 | accepted iff every entry holds "@"; the values are the texts before the first "@"; each temperature is the text between the entry's first and second "@" with C, K and F removed; the nominal value is entry n/2 - 1, or the single entry |
| Sherlock.DatasetSucceeds | pyaedt/application/AnalysisIcepak.py:596-597 | the dataset is accepted iff every entry holds "@"; the only error is a missing "@" |
| Sherlock.DatasetShape | pyaedt/application/AnalysisIcepak.py:596-604 | one value and one temperature per entry; the nominal value is entry n/2 - 1, or the single entry |
| Sherlock.DatasetValues | pyaedt/application/AnalysisIcepak.py:597-603 | each value is the entry's text before its first "@", and each temperature is the entry's second "@" piece with C, K and F removed |
| Sherlock.EntryValues | pyaedt/application/AnalysisIcepak.py:597 | each pair's first part is the entry's text before its first "@" |
| Sherlock.PropertyForSpec | pyaedt/application/AnalysisIcepak.py:661-713 | a property is set iff its column exists; it is a dataset iff the cell holds "@" and ",", the cell text otherwise; it fails iff the column is short or the dataset is malformed |
| Sherlock.MaterialUpdateColumns | pyaedt/application/AnalysisIcepak.py:661-713 | each of the five properties comes from its own column, and a failure is one column's failure |
| Sherlock.MaterialUpdateNoShortColumn | pyaedt/application/AnalysisIcepak.py:662-705 | reading a row every column has never raises IndexError |
| Sherlock.RowUpdatesNoShortColumn | pyaedt/application/AnalysisIcepak.py:662-705 | when every column is as long as `Name`, no row reading raises IndexError |
| Sherlock.RefDesWithSpec | pyaedt/application/AnalysisIcepak.py:651-654 | a designator is listed iff some component row pairs it with the material |
| Sherlock.InPoolSpec | pyaedt/application/AnalysisIcepak.py:655 | a candidate is kept iff it is still in the pool |
| Sherlock.InPoolSubsequence | pyaedt/application/AnalysisIcepak.py:655 | the kept candidates stay in candidate order |
| Sherlock.NotInSpec | pyaedt/application/AnalysisIcepak.py:720 | the pool keeps exactly the objects not just assigned |
| Sherlock.InitialInvariant | pyaedt/application/AnalysisIcepak.py:648-650 | the starting pool of all objects with no assignments satisfies the plan invariant |
| SherlockLoop.PlanFailureStays | pyaedt/application/AnalysisIcepak.py:650-720 | a failure at one material ends the whole loop with that failure |
| SherlockLoop.PlanAfterStep | pyaedt/application/AnalysisIcepak.py:650-720 | a successful prefix of n materials extends the successful prefix of n - 1 by one turn |
| SherlockLoop.PlanAfterMaterials | pyaedt/application/AnalysisIcepak.py:650-656 | each turn lists its own material once more or not at all |
| Sherlock.MaterialStepInvariant | pyaedt/application/AnalysisIcepak.py:650-720 | one turn keeps the plan invariant: pool and assignments drawn from the objects, no object assigned twice, every assignment a non-empty list of its material's candidates under the lower-cased name |
| Sherlock.MaterialStepMaterials | pyaedt/application/AnalysisIcepak.py:656 | one turn appends at most one assignment, for its own material |
| Sherlock.MaterialStepTakes | pyaedt/application/AnalysisIcepak.py:650-720 | a turn keeps the earlier assignments; it assigns exactly the candidates still in the pool, in candidate order with the `COMP_` names first, under the lower-cased name, and removes exactly them from the pool; it assigns nothing only when no candidate is in the pool |
| SherlockLoop.PlanAfterInvariant | pyaedt/application/AnalysisIcepak.py:650-720 | every state of the loop keeps the plan invariant |
| SherlockLoop.PlanAfterOrder | pyaedt/application/AnalysisIcepak.py:650-656 | the assigned materials follow the order of the `Name` column |
| SherlockLoop.NoShortColumn | pyaedt/application/AnalysisIcepak.py:649-720 | with columns as long as `Name`, the loop never raises IndexError on a property cell |
| SherlockLoop.SherlockPlanSpec | pyaedt/application/AnalysisIcepak.py:630-720 | fails only on a short row, a missing column or a malformed dataset, and always on a short material row; on success no object is assigned twice, every assigned object is a design object and a candidate of its material, each library name is the lower-cased material name, and the materials follow the table's order |
| SherlockLoop.SherlockPlanErrors | pyaedt/application/AnalysisIcepak.py:630-720 | the call fails only on a short row, a missing column or a malformed dataset |
| SherlockLoop.SherlockPlanResult | pyaedt/application/AnalysisIcepak.py:650-720 | on success no object is assigned twice, every assigned object is a design object and a candidate of its material, each library name is the lower-cased material name, and the materials follow the `Name` column |
| SherlockLoop.AssignMaterialFromSherlock | pyaedt/application/AnalysisIcepak.py:630-720 | the loops yield exactly the specified assignments or error |

## Left out

- The AEDT calls are left out because their behaviour is not in the code:
  - `SetDesignSettings`, `Export`, `Copy`/`Paste` and `assign_material`;
  - the material manager (`checkifmaterialexists`, `add_material`, `create_dataset`, thermal modifiers);
  - setting a default surface material on the assigned objects (AnalysisIcepak.py:716-718).
  The model returns what those calls would receive.
- File reading, CSV parsing and plotting are I/O. The CSV files enter as a header and data rows; an empty file's `StopIteration` is not modelled.
- The transcendental and floating-point parts are abstracted because exact reals cannot express them:
  - the product `np.exp(1j·np.radians(·))` is the parameter `expjDeg`;
  - `np.sqrt`, `log10`, the realized gain `2π·abs(E)²/pin/377` and the `float(...)` parsing are left out;
  - rETotal is carried as its square;
  - a `Plot` records only the quantity, scale factor and title.
- Complex arithmetic is exact. numpy's `complex128` rounding is not modelled.
- Sherlock.SherlockDataset: keeps the values and temperatures as strings, so a non-numeric part that would make `float()` raise is accepted. The values are not divided by the nominal value.
- The `print(str(pin))` (Advanced_Far_Field.py:146), the logger message (AnalysisIcepak.py:321) and the `ambienttemp` formatting (AnalysisIcepak.py:245-248) are output and string formatting with no effect on the rules.
- FarField.FfCalcAsWritten: weights the stored rows after the port loop rather than each port's samples before its row write. The resulting table is the same (`FarField.ScaledRowsAreSourceRows`), but the order of the writes into the numpy arrays is not the source's.
- `generate_unique_name` for the dataset name is randomness and is left out.
- Icepak.GravitySetting: takes an integer. The `int(gravityDir)` conversion of other types is not modelled.
- FarField.AssignWeights: does not state the contents of its local `weight` table, which only feeds `w_dict`; `FarField.AssignRow` states what each row pass writes into it.
- Text.Lower: maps ASCII letters only. Python's full Unicode case mapping is not modelled.
- The `pyaedt_function_handler` decorator that turns exceptions into a `False` return is not part of this model. Exceptions are modelled as `Failure` values.
- There is no ordered-dictionary type. `ff_data` is a sequence of ports with distinct keys, and the object dictionary of the modeler is a sequence of objects.

## Findings

| source | as written | input that shows it | evidently intended | confidence | as-written member | corrected member |
|---|---|---|---|---|---|---|
| examples/02-HFSS/Advanced_Far_Field.py:119-137 | every row is multiplied by `w_dict[port]` (lines 119, 122) and then `np.dot(w, ...)` multiplies it by the same weight again (lines 134, 137), so the composite is Σ w²·E | one port with weight j (a 90° phase) and sample 1: the composite is -1 instead of j | each port's fields weighted once, Σ w·E | not executed | FarField.DoubleWeightingCounterexample | FarField.FfCalc |

The example's own call `ff_calc()` has zero phases. Every weight is then 1, so the two weightings agree and the plot does not show the error (`FarField.ZeroPhaseHidesDoubleWeighting`). The code as written is modelled by `FarField.FfCalcAsWritten`, and `FarField.CompositeTwiceSquares` states its squared weights.
