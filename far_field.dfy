/** The array far-field combination of the HFSS advanced far-field example
    (`ff_calc`): a 4x4 array whose element (m, n) is found among the port
    keys by the label "[m+1+2,n+1+2]", a progressive-phase weight per
    element, the weighted sum of every port's theta and phi far-field
    samples, the reshape of that sum into a theta-by-phi grid, the total
    field, the excitation sum `pin` and the plot label and dB factor.

    `np.exp(1j * np.radians(d))` is the parameter `expjDeg`, so weights are
    exact complex numbers; square roots, logarithms and the realized-gain
    division by `pin` and 377 are not computed here. */
module FarField {
  import opened Wrappers
  import opened Text
  import opened ComplexNumbers

  /** `array_size = [4, 4]` */
  const ArrayRows: nat := 4
  const ArrayCols: nat := 4
  /** `loc_offset = 2`: the array's labels start at [3,3], not [1,1]. */
  const LocOffset: nat := 2
  /** `np.sqrt(mag[m][n])` with the all-ones taper `mag`. */
  const TaperRoot: Complex := One

  /** One entry `ff_data[key] = [theta_range, phi_range, rETheta, rEPhi]`. */
  datatype Port = Port(key: string, thetaRange: seq<real>, phiRange: seq<real>,
                       rETheta: seq<Complex>, rEPhi: seq<Complex>)

  datatype Polarization = Theta | Phi

  /** The exception that ends `ff_calc`. */
  datatype FfError =
    | NoPortForElement(m: nat, n: nat)         // `port_name[0]` on an empty list
    | MissingWeight(key: string)               // `w_dict[port]` raises KeyError
    | RowShape(key: string)                    // a sample vector does not fit a row
    | EmptyAngleRange(key: string)             // `np.min` of an empty angle range
    | ReshapeMismatch(size: nat, nTheta: nat, nPhi: nat)
    | UnknownQuantity(qty: string)             // `all_qtys[qty]` raises KeyError

  /** `ff_data` is a dictionary: its keys are distinct and ordered. */
  predicate DistinctKeys(ports: seq<Port>)
  {
    forall i, j :: 0 <= i < j < |ports| ==> ports[i].key != ports[j].key
  }

  function Keys(ports: seq<Port>): (keys: seq<string>)
    ensures |keys| == |ports|
    ensures forall i :: 0 <= i < |ports| ==> keys[i] == ports[i].key
  {
    seq(|ports|, i requires 0 <= i < |ports| => ports[i].key)
  }

  function Samples(p: Port, pol: Polarization): seq<Complex>
  {
    match pol
    case Theta => p.rETheta
    case Phi => p.rEPhi
  }

  // ---------------------------------------------------------------------
  // Element labels and port matching

  /** `"[" + str(m + 1 + loc_offset) + "," + str(n + 1 + loc_offset) + "]"` */
  function ElementLabel(m: nat, n: nat): string
  {
    "[" + NatToString(m + 1 + LocOffset) + "," + NatToString(n + 1 + LocOffset) + "]"
  }

  lemma ElementLabelOrigin()
    ensures ElementLabel(0, 0) == "[3,3]"
    ensures ElementLabel(ArrayRows - 1, ArrayCols - 1) == "[6,6]"
  {
  }

  /** In "[a,b]" with a digit string `a`, the first comma follows `a`. */
  lemma FirstComma(a: string, b: string)
    requires AllDigits(a)
    ensures ("[" + a + "," + b + "]")[1 + |a|] == ','
    ensures forall i :: 1 <= i < 1 + |a| ==> ("[" + a + "," + b + "]")[i] != ','
  {
    var s := "[" + a + "," + b + "]";
    forall i | 1 <= i < 1 + |a|
      ensures s[i] != ','
    {
      assert s[i] == a[i - 1];
    }
  }

  lemma BracketPairInjective(a: string, b: string, a2: string, b2: string)
    requires AllDigits(a) && AllDigits(b) && AllDigits(a2) && AllDigits(b2)
    requires "[" + a + "," + b + "]" == "[" + a2 + "," + b2 + "]"
    ensures a == a2 && b == b2
  {
    var s := "[" + a + "," + b + "]";
    var s2 := "[" + a2 + "," + b2 + "]";
    FirstComma(a, b);
    FirstComma(a2, b2);
    assert |a| == |a2|;
    assert a == s[1..1 + |a|] && a2 == s2[1..1 + |a2|];
    assert b == s[2 + |a|..|s| - 1] && b2 == s2[2 + |a2|..|s2| - 1];
  }

  /** Distinct elements have distinct labels. */
  lemma ElementLabelInjective(m: nat, n: nat, m2: nat, n2: nat)
    requires ElementLabel(m, n) == ElementLabel(m2, n2)
    ensures m == m2 && n == n2
  {
    BracketPairInjective(NatToString(m + 1 + LocOffset), NatToString(n + 1 + LocOffset),
                         NatToString(m2 + 1 + LocOffset), NatToString(n2 + 1 + LocOffset));
    NatToStringInjective(m + 1 + LocOffset, m2 + 1 + LocOffset);
    NatToStringInjective(n + 1 + LocOffset, n2 + 1 + LocOffset);
  }

  /** `[y for y in all_ports if indexStr in y]`, in key order. */
  function PortsContaining(keys: seq<string>, indexStr: string): (r: seq<string>)
    ensures forall s :: s in r ==> s in keys && Contains(s, indexStr)
    decreases |keys|
  {
    if |keys| == 0 then []
    else (if Contains(keys[0], indexStr) then [keys[0]] else []) + PortsContaining(keys[1..], indexStr)
  }

  /** The list is non-empty exactly when some key contains the indexStr, and
      its head is the first such key. */
  lemma {:induction false} PortsContainingHead(keys: seq<string>, indexStr: string)
    ensures |PortsContaining(keys, indexStr)| > 0 <==> exists i :: 0 <= i < |keys| && Contains(keys[i], indexStr)
    ensures |PortsContaining(keys, indexStr)| > 0 ==>
      exists i :: 0 <= i < |keys| && keys[i] == PortsContaining(keys, indexStr)[0]
        && Contains(keys[i], indexStr) && forall j :: 0 <= j < i ==> !Contains(keys[j], indexStr)
    decreases |keys|
  {
    PortsContainingNonEmpty(keys, indexStr);
    if |PortsContaining(keys, indexStr)| > 0 {
      PortsContainingFirst(keys, indexStr);
    }
  }

  lemma {:induction false} PortsContainingNonEmpty(keys: seq<string>, indexStr: string)
    ensures |PortsContaining(keys, indexStr)| > 0 ==> exists i :: 0 <= i < |keys| && Contains(keys[i], indexStr)
    ensures (exists i :: 0 <= i < |keys| && Contains(keys[i], indexStr)) ==> |PortsContaining(keys, indexStr)| > 0
    decreases |keys|
  {
    if |keys| > 0 {
      PortsContainingNonEmpty(keys[1..], indexStr);
      if Contains(keys[0], indexStr) {
        assert PortsContaining(keys, indexStr)[0] == keys[0];
      } else {
        assert PortsContaining(keys, indexStr) == PortsContaining(keys[1..], indexStr);
        if exists i :: 0 <= i < |keys| && Contains(keys[i], indexStr) {
          var i :| 0 <= i < |keys| && Contains(keys[i], indexStr);
          assert keys[1..][i - 1] == keys[i];
        }
        if exists i :: 0 <= i < |keys[1..]| && Contains(keys[1..][i], indexStr) {
          var i :| 0 <= i < |keys[1..]| && Contains(keys[1..][i], indexStr);
          assert keys[i + 1] == keys[1..][i];
        }
      }
    }
  }

  lemma {:induction false} PortsContainingFirst(keys: seq<string>, indexStr: string)
    requires |PortsContaining(keys, indexStr)| > 0
    ensures exists i ::
              && 0 <= i < |keys| && keys[i] == PortsContaining(keys, indexStr)[0]
              && Contains(keys[i], indexStr) && (forall j :: 0 <= j < i ==> !Contains(keys[j], indexStr))
    decreases |keys|
  {
    if Contains(keys[0], indexStr) {
      assert PortsContaining(keys, indexStr)[0] == keys[0];
    } else {
      assert PortsContaining(keys, indexStr) == PortsContaining(keys[1..], indexStr);
      PortsContainingFirst(keys[1..], indexStr);
      var i :| 0 <= i < |keys[1..]| && keys[1..][i] == PortsContaining(keys[1..], indexStr)[0]
        && Contains(keys[1..][i], indexStr) && forall j :: 0 <= j < i ==> !Contains(keys[1..][j], indexStr);
      assert keys[i + 1] == PortsContaining(keys, indexStr)[0];
      forall j | 0 <= j < i + 1
        ensures !Contains(keys[j], indexStr)
      {
        if j > 0 {
          assert keys[j] == keys[1..][j - 1];
        }
      }
    }
  }

  /** The port key element (m, n) is stored under, if any: `port_name[0]`. */
  function MatchOf(keys: seq<string>, m: nat, n: nat): Option<string>
  {
    var matches := PortsContaining(keys, ElementLabel(m, n));
    if |matches| == 0 then None else Some(matches[0])
  }

  /** Element (i, j) comes before position (m, n) of the row-major loops. */
  predicate Before(i: nat, j: nat, m: nat, n: nat)
  {
    j < ArrayCols && (i < m || (i == m && j < n))
  }

  // ---------------------------------------------------------------------
  // Progressive phase and weights

  /** The phase of element (m, n) in degrees, with the source's argument
      swap `xphase = y`, `yphase = x`. */
  function PhaseDegrees(x: real, y: real, m: nat, n: nat): real
  {
    var xphase := y;
    var yphase := x;
    xphase * (m as real) + yphase * (n as real)
  }

  /** The phase starts at 0 and grows by `y` per row and by `x` per column. */
  lemma PhaseSteps(x: real, y: real, m: nat, n: nat)
    ensures PhaseDegrees(x, y, 0, 0) == 0.0
    ensures PhaseDegrees(x, y, m + 1, n) == PhaseDegrees(x, y, m, n) + y
    ensures PhaseDegrees(x, y, m, n + 1) == PhaseDegrees(x, y, m, n) + x
  {
  }

  /** Swapping the two commanded phases transposes the phase table. */
  lemma PhaseTranspose(x: real, y: real, m: nat, n: nat)
    ensures PhaseDegrees(x, y, m, n) == PhaseDegrees(y, x, n, m)
  {
  }

  /** `weight[m][n] = np.sqrt(mag[m][n]) * np.exp(1j * ang)` */
  function ElementWeight(expjDeg: real -> Complex, x: real, y: real, m: nat, n: nat): Complex
  {
    Mul(TaperRoot, expjDeg(PhaseDegrees(x, y, m, n)))
  }

  /** With no commanded phase every weight is exactly 1. */
  lemma ZeroPhaseUnitWeights(expjDeg: real -> Complex, x: real, y: real, m: nat, n: nat)
    requires expjDeg(0.0) == One && x == 0.0 && y == 0.0
    ensures ElementWeight(expjDeg, x, y, m, n) == One
  {
    ZeroPhase(x, y, m, n);
    MulOneLeft(One);
  }

  lemma ZeroPhase(x: real, y: real, m: nat, n: nat)
    requires x == 0.0 && y == 0.0
    ensures PhaseDegrees(x, y, m, n) == 0.0
  {
  }

  /** `w_dict` after the loops have processed every element before (m, n),
      for `n <= ArrayCols`. */
  function WeightDictAfter(keys: seq<string>, expjDeg: real -> Complex, x: real, y: real, m: nat, n: nat)
    : Result<map<string, Complex>, FfError>
    requires n <= ArrayCols
    decreases m, n
  {
    if n == 0 then
      if m == 0 then Success(map[]) else WeightDictAfter(keys, expjDeg, x, y, m - 1, ArrayCols)
    else
      var prev := WeightDictAfter(keys, expjDeg, x, y, m, n - 1);
      if prev.Failure? then prev
      else
        match MatchOf(keys, m, n - 1)
        case None => Failure(NoPortForElement(m, n - 1))
        case Some(k) => Success(prev.value[k := ElementWeight(expjDeg, x, y, m, n - 1)])
  }

  /** The loops succeed exactly when every element's label is found in some key. */
  lemma {:induction false} WeightDictSucceeds(keys: seq<string>, expjDeg: real -> Complex, x: real, y: real, m: nat, n: nat)
    requires n <= ArrayCols
    ensures WeightDictAfter(keys, expjDeg, x, y, m, n).Success? <==>
      forall i, j :: Before(i, j, m, n) ==> MatchOf(keys, i, j).Some?
    decreases m, n
  {
    if n == 0 {
      if m > 0 {
        WeightDictSucceeds(keys, expjDeg, x, y, m - 1, ArrayCols);
        assert forall i, j :: Before(i, j, m, 0) <==> Before(i, j, m - 1, ArrayCols);
      }
    } else {
      WeightDictSucceeds(keys, expjDeg, x, y, m, n - 1);
      assert forall i, j :: Before(i, j, m, n) <==> Before(i, j, m, n - 1) || (i == m && j == n - 1);
    }
  }

  /** On failure the first element without a matching key is reported. */
  lemma {:induction false} WeightDictFailure(keys: seq<string>, expjDeg: real -> Complex, x: real, y: real, m: nat, n: nat)
    requires n <= ArrayCols
    ensures WeightDictAfter(keys, expjDeg, x, y, m, n).Failure? ==>
      exists i, j :: Before(i, j, m, n) && MatchOf(keys, i, j).None?
        && WeightDictAfter(keys, expjDeg, x, y, m, n).error == NoPortForElement(i, j)
        && forall i', j' :: Before(i', j', i, j) ==> MatchOf(keys, i', j').Some?
    decreases m, n
  {
    if n == 0 {
      if m > 0 {
        WeightDictFailure(keys, expjDeg, x, y, m - 1, ArrayCols);
      }
    } else {
      WeightDictFailure(keys, expjDeg, x, y, m, n - 1);
      WeightDictSucceeds(keys, expjDeg, x, y, m, n - 1);
    }
  }

  /** The keys of `w_dict` are exactly the ports an element matched, and
      each holds the weight of the LAST element that matched it. */
  lemma {:induction false} WeightDictContents(keys: seq<string>, expjDeg: real -> Complex, x: real, y: real, m: nat, n: nat, k: string)
    requires n <= ArrayCols
    requires WeightDictAfter(keys, expjDeg, x, y, m, n).Success?
    ensures k in WeightDictAfter(keys, expjDeg, x, y, m, n).value <==>
      exists i, j :: Before(i, j, m, n) && MatchOf(keys, i, j) == Some(k)
    ensures k in WeightDictAfter(keys, expjDeg, x, y, m, n).value ==>
      exists i, j :: Before(i, j, m, n) && MatchOf(keys, i, j) == Some(k)
        && WeightDictAfter(keys, expjDeg, x, y, m, n).value[k] == ElementWeight(expjDeg, x, y, i, j)
        && forall i', j' :: Before(i', j', m, n) && Before(i, j, i', j') ==> MatchOf(keys, i', j') != Some(k)
    decreases m, n
  {
    if n == 0 {
      if m > 0 {
        WeightDictContents(keys, expjDeg, x, y, m - 1, ArrayCols, k);
        assert forall i, j :: Before(i, j, m, 0) <==> Before(i, j, m - 1, ArrayCols);
      }
    } else {
      WeightDictContents(keys, expjDeg, x, y, m, n - 1, k);
      WeightDictContentsStep(keys, expjDeg, x, y, m, n, k);
    }
  }

  /** The step of `WeightDictContents` from element (m, n - 1) to (m, n). */
  lemma WeightDictContentsStep(keys: seq<string>, expjDeg: real -> Complex, x: real, y: real, m: nat, n: nat, k: string)
    requires 0 < n <= ArrayCols
    requires WeightDictAfter(keys, expjDeg, x, y, m, n).Success?
    requires WeightDictAfter(keys, expjDeg, x, y, m, n - 1).Success?
    requires k in WeightDictAfter(keys, expjDeg, x, y, m, n - 1).value <==>
      exists i, j :: Before(i, j, m, n - 1) && MatchOf(keys, i, j) == Some(k)
    requires k in WeightDictAfter(keys, expjDeg, x, y, m, n - 1).value ==>
      exists i, j :: Before(i, j, m, n - 1) && MatchOf(keys, i, j) == Some(k)
        && WeightDictAfter(keys, expjDeg, x, y, m, n - 1).value[k] == ElementWeight(expjDeg, x, y, i, j)
        && forall i', j' :: Before(i', j', m, n - 1) && Before(i, j, i', j') ==> MatchOf(keys, i', j') != Some(k)
    ensures k in WeightDictAfter(keys, expjDeg, x, y, m, n).value <==>
      exists i, j :: Before(i, j, m, n) && MatchOf(keys, i, j) == Some(k)
    ensures k in WeightDictAfter(keys, expjDeg, x, y, m, n).value ==>
      exists i, j :: Before(i, j, m, n) && MatchOf(keys, i, j) == Some(k)
        && WeightDictAfter(keys, expjDeg, x, y, m, n).value[k] == ElementWeight(expjDeg, x, y, i, j)
        && forall i', j' :: Before(i', j', m, n) && Before(i, j, i', j') ==> MatchOf(keys, i', j') != Some(k)
  {
    var d := WeightDictAfter(keys, expjDeg, x, y, m, n).value;
    var p := WeightDictAfter(keys, expjDeg, x, y, m, n - 1).value;
    assert forall i, j :: Before(i, j, m, n) <==> Before(i, j, m, n - 1) || (i == m && j == n - 1);
    if MatchOf(keys, m, n - 1) == Some(k) {
      assert d[k] == ElementWeight(expjDeg, x, y, m, n - 1);
      assert Before(m, n - 1, m, n);
      assert forall i', j' :: Before(i', j', m, n) && Before(m, n - 1, i', j') ==> false;
    } else {
      assert k in d <==> k in p;
      if k in d {
        assert d[k] == p[k];
      }
    }
  }

  /** Every key of `w_dict` is a port key. */
  lemma WeightDictKeysArePorts(keys: seq<string>, expjDeg: real -> Complex, x: real, y: real, m: nat, n: nat, k: string)
    requires n <= ArrayCols
    requires WeightDictAfter(keys, expjDeg, x, y, m, n).Success?
    requires k in WeightDictAfter(keys, expjDeg, x, y, m, n).value
    ensures k in keys
  {
    WeightDictContents(keys, expjDeg, x, y, m, n, k);
    var i, j :| Before(i, j, m, n) && MatchOf(keys, i, j) == Some(k);
    assert k in PortsContaining(keys, ElementLabel(i, j));
  }

  /** Once the loops have failed, later elements do not change the outcome. */
  lemma {:induction false} FailureStays(keys: seq<string>, expjDeg: real -> Complex, x: real, y: real,
                                        m: nat, n: nat, m2: nat, n2: nat)
    requires n <= ArrayCols && n2 <= ArrayCols
    requires m < m2 || (m == m2 && n <= n2)
    requires WeightDictAfter(keys, expjDeg, x, y, m, n).Failure?
    ensures WeightDictAfter(keys, expjDeg, x, y, m2, n2) == WeightDictAfter(keys, expjDeg, x, y, m, n)
    decreases m2, n2
  {
    if m == m2 && n == n2 {
    } else if n2 == 0 {
      FailureStays(keys, expjDeg, x, y, m, n, m2 - 1, ArrayCols);
    } else {
      FailureStays(keys, expjDeg, x, y, m, n, m2, n2 - 1);
    }
  }

  /** One step of the fold: element (m, n) either finds no port, which fails,
      or stores its weight under the first matching key. */
  lemma WeightDictNext(keys: seq<string>, expjDeg: real -> Complex, x: real, y: real, m: nat, n: nat,
                       wDict: map<string, Complex>, matches: seq<string>)
    requires n < ArrayCols
    requires Success(wDict) == WeightDictAfter(keys, expjDeg, x, y, m, n)
    requires matches == PortsContaining(keys, ElementLabel(m, n))
    ensures |matches| == 0 ==> WeightDictAfter(keys, expjDeg, x, y, m, n + 1) == Failure(NoPortForElement(m, n))
    ensures |matches| > 0 ==>
      WeightDictAfter(keys, expjDeg, x, y, m, n + 1) == Success(wDict[matches[0] := ElementWeight(expjDeg, x, y, m, n)])
  {
  }

  /** `weight[m][n] = v`: one cell is written, every other cell is kept. */
  method StoreWeight(weight: array2<Complex>, m: nat, n: nat, v: Complex)
    requires m < weight.Length0 && n < weight.Length1
    modifies weight
    ensures weight[m, n] == v
    ensures forall i, j :: 0 <= i < weight.Length0 && 0 <= j < weight.Length1 && (i != m || j != n) ==>
      weight[i, j] == old(weight[i, j])
  {
    weight[m, n] := v;
  }

  /** The first `n` cells of row `m` hold their elements' weights. */
  ghost predicate RowFilled(weight: array2<Complex>, expjDeg: real -> Complex, x: real, y: real, m: nat, n: nat)
    reads weight
  {
    m < weight.Length0 && n <= weight.Length1
    && forall j :: 0 <= j < n ==> weight[m, j] == ElementWeight(expjDeg, x, y, m, j)
  }

  /** One pass of the inner `for n` loop over row `m` of the array: each
      element's weight goes into `weight[m, n]` and, under the first port
      whose key holds the element's label, into `w_dict`; an element no port
      matches ends the computation. */
  method AssignRow(keys: seq<string>, x: real, y: real, expjDeg: real -> Complex, m: nat,
                   weight: array2<Complex>, wDict0: map<string, Complex>)
    returns (r: Result<map<string, Complex>, FfError>, lastMatches: seq<string>)
    requires weight.Length0 == ArrayRows && weight.Length1 == ArrayCols && m < ArrayRows
    requires Success(wDict0) == WeightDictAfter(keys, expjDeg, x, y, m, 0)
    modifies weight
    ensures r == WeightDictAfter(keys, expjDeg, x, y, m, ArrayCols)
    ensures r.Success? ==> lastMatches == PortsContaining(keys, ElementLabel(m, ArrayCols - 1))
    ensures r.Failure? ==> r.error.NoPortForElement? && r.error.m == m && r.error.n < ArrayCols
    ensures RowFilled(weight, expjDeg, x, y, m, if r.Success? then ArrayCols else r.error.n + 1)
    ensures forall i, n :: 0 <= i < ArrayRows && i != m && 0 <= n < ArrayCols ==> weight[i, n] == old(weight[i, n])
  {
    var wDict := wDict0;
    lastMatches := [];
    var n := 0;
    while n < ArrayCols
      invariant 0 <= n <= ArrayCols
      invariant Success(wDict) == WeightDictAfter(keys, expjDeg, x, y, m, n)
      invariant n > 0 ==> lastMatches == PortsContaining(keys, ElementLabel(m, n - 1))
      invariant RowFilled(weight, expjDeg, x, y, m, n)
      invariant forall i, j :: 0 <= i < ArrayRows && i != m && 0 <= j < ArrayCols ==> weight[i, j] == old(weight[i, j])
    {
      var wv := ElementWeight(expjDeg, x, y, m, n);
      StoreWeight(weight, m, n, wv);
      var currentIndexStr := ElementLabel(m, n);
      lastMatches := PortsContaining(keys, currentIndexStr);
      WeightDictNext(keys, expjDeg, x, y, m, n, wDict, lastMatches);
      if |lastMatches| == 0 {
        r := Failure(NoPortForElement(m, n));
        FailureStays(keys, expjDeg, x, y, m, n + 1, m, ArrayCols);
        return;
      }
      wDict := wDict[lastMatches[0] := wv];
      n := n + 1;
    }
    r := Success(wDict);
  }

  /** The nested `for m / for n` loops: fill the local weight table and
      `w_dict`. `lastMatches` is the final `port_name`. */
  method AssignWeights(keys: seq<string>, x: real, y: real, expjDeg: real -> Complex)
    returns (r: Result<map<string, Complex>, FfError>, lastMatches: seq<string>)
    ensures r == WeightDictAfter(keys, expjDeg, x, y, ArrayRows - 1, ArrayCols)
    ensures r.Success? ==> lastMatches == PortsContaining(keys, ElementLabel(ArrayRows - 1, ArrayCols - 1))
  {
    var weight := new Complex[ArrayRows, ArrayCols]((i, j) => Zero);
    var wDict: map<string, Complex> := map[];
    lastMatches := [];
    var m := 0;
    while m < ArrayRows
      invariant 0 <= m <= ArrayRows
      invariant Success(wDict) == WeightDictAfter(keys, expjDeg, x, y, m, 0)
      invariant m > 0 ==> lastMatches == PortsContaining(keys, ElementLabel(m - 1, ArrayCols - 1))
    {
      var rowResult;
      rowResult, lastMatches := AssignRow(keys, x, y, expjDeg, m, weight, wDict);
      if rowResult.Failure? {
        r := rowResult;
        FailureStays(keys, expjDeg, x, y, m, ArrayCols, ArrayRows - 1, ArrayCols);
        return;
      }
      WeightDictRowStep(keys, expjDeg, x, y, m);
      wDict := rowResult.value;
      m := m + 1;
    }
    r := Success(wDict);
  }

  /** The `w_dict` of a finished row is the one the next row starts from. */
  lemma WeightDictRowStep(keys: seq<string>, expjDeg: real -> Complex, x: real, y: real, m: nat)
    ensures WeightDictAfter(keys, expjDeg, x, y, m + 1, 0) == WeightDictAfter(keys, expjDeg, x, y, m, ArrayCols)
  {
  }

  // ---------------------------------------------------------------------
  // The `for n, port in enumerate(ff_data.keys())` loop

  /** numpy lets a vector of `k` samples fill a row of `len` cells when the
      lengths agree or when the single sample is repeated. */
  predicate Fits(k: nat, len: nat)
  {
    k == len || k == 1
  }

  /** The row a sample vector becomes when it is assigned to a row of `len` cells. */
  function Broadcast(samples: seq<Complex>, len: nat): (r: seq<Complex>)
    requires Fits(|samples|, len)
    ensures |r| == len
    ensures |samples| == len ==> r == samples
    ensures |samples| == 1 ==> forall j :: 0 <= j < len ==> r[j] == samples[0]
  {
    if |samples| == len then samples else seq(len, j => samples[0])
  }

  /** Why port `p` stops the loop, if it does: its `w_dict` entry is missing,
      a sample vector does not fit a row, or an angle range is empty. */
  function PortError(p: Port, wDict: map<string, Complex>, len: nat): Option<FfError>
  {
    if p.key !in wDict then Some(MissingWeight(p.key))
    else if !Fits(|p.rETheta|, len) || !Fits(|p.rEPhi|, len) then Some(RowShape(p.key))
    else if |p.thetaRange| == 0 || |p.phiRange| == 0 then Some(EmptyAngleRange(p.key))
    else None
  }

  /** The error of the first port, from index `i` on, that stops the loop. */
  function FirstPortErrorFrom(ports: seq<Port>, wDict: map<string, Complex>, len: nat, i: nat): Option<FfError>
    requires i <= |ports|
    decreases |ports| - i
  {
    if i == |ports| then None
    else if PortError(ports[i], wDict, len).Some? then PortError(ports[i], wDict, len)
    else FirstPortErrorFrom(ports, wDict, len, i + 1)
  }

  /** The loop runs through exactly when no port stops it. */
  lemma {:induction false} FirstPortErrorNone(ports: seq<Port>, wDict: map<string, Complex>, len: nat, i: nat)
    requires i <= |ports|
    ensures FirstPortErrorFrom(ports, wDict, len, i).None? <==>
      forall k :: i <= k < |ports| ==> PortError(ports[k], wDict, len).None?
    ensures FirstPortErrorFrom(ports, wDict, len, i).Some? ==>
      exists k :: i <= k < |ports| && FirstPortErrorFrom(ports, wDict, len, i) == PortError(ports[k], wDict, len)
        && forall k' :: i <= k' < k ==> PortError(ports[k'], wDict, len).None?
    decreases |ports| - i
  {
    if i < |ports| {
      FirstPortErrorNone(ports, wDict, len, i + 1);
    }
  }

  /** Every port that passes fits its rows. */
  predicate AllFit(ports: seq<Port>, wDict: map<string, Complex>, len: nat)
  {
    forall i :: 0 <= i < |ports| ==> PortError(ports[i], wDict, len).None?
  }

  /** Row `pol` of the fields table for port `p`. */
  function Row(p: Port, len: nat, pol: Polarization): (r: seq<Complex>)
    requires Fits(|Samples(p, pol)|, len)
    ensures |r| == len
  {
    Broadcast(Samples(p, pol), len)
  }

  /** The table `rEtheta_fields` / `rEphi_fields`: one row per port, in key order. */
  function RowsOf(ports: seq<Port>, wDict: map<string, Complex>, len: nat, pol: Polarization): (rows: seq<seq<Complex>>)
    requires AllFit(ports, wDict, len)
    ensures |rows| == |ports|
    ensures forall i :: 0 <= i < |ports| ==> |rows[i]| == len
  {
    seq(|ports|, i requires 0 <= i < |ports| => Row(ports[i], len, pol))
  }

  /** The vector `w`: every port's weight from `w_dict`, in key order. */
  function WeightVector(ports: seq<Port>, wDict: map<string, Complex>): (ws: seq<Complex>)
    requires forall i :: 0 <= i < |ports| ==> ports[i].key in wDict
    ensures |ws| == |ports|
  {
    seq(|ports|, i requires 0 <= i < |ports| => wDict[ports[i].key])
  }

  /** The keys of the first `n` ports, as a set. */
  function PrefixKeys(ports: seq<Port>, n: nat): set<string>
    requires n <= |ports|
  {
    if n == 0 then {} else PrefixKeys(ports, n - 1) + {ports[n - 1].key}
  }

  /** The members of `PrefixKeys`. */
  lemma {:induction false} PrefixKeysMembers(ports: seq<Port>, n: nat, k: string)
    requires n <= |ports|
    ensures k in PrefixKeys(ports, n) <==> exists i :: 0 <= i < n && ports[i].key == k
  {
    if n > 0 {
      PrefixKeysMembers(ports, n - 1, k);
    }
  }

  /** A dictionary's `n` first keys are `n` distinct strings. */
  lemma {:induction false} PrefixKeysCount(ports: seq<Port>, n: nat)
    requires DistinctKeys(ports) && n <= |ports|
    ensures |PrefixKeys(ports, n)| == n
  {
    if n > 0 {
      PrefixKeysCount(ports, n - 1);
      if ports[n - 1].key in PrefixKeys(ports, n - 1) {
        PrefixKeysMembers(ports, n - 1, ports[n - 1].key);
        assert false;
      }
    }
  }

  lemma SubsetCard<T>(a: set<T>, b: set<T>)
    requires a <= b
    ensures |a| <= |b|
  {
    assert b == a + (b - a);
  }

  /** When every key of `w_dict` is a port and every port is in `w_dict`, the
      table of `len(w_dict)` rows has one row per port. */
  lemma RowCount(ports: seq<Port>, wDict: map<string, Complex>)
    requires DistinctKeys(ports)
    requires forall k :: k in wDict ==> exists i :: 0 <= i < |ports| && ports[i].key == k
    requires forall i :: 0 <= i < |ports| ==> ports[i].key in wDict
    ensures |wDict| == |ports|
  {
    PrefixKeysCount(ports, |ports|);
    forall k | true
      ensures k in wDict <==> k in PrefixKeys(ports, |ports|)
    {
      PrefixKeysMembers(ports, |ports|, k);
    }
    assert wDict.Keys == PrefixKeys(ports, |ports|);
  }

  /** Ports that all have a weight cover at least as many keys of `w_dict`. */
  lemma RowsAvailable(ports: seq<Port>, wDict: map<string, Complex>, n: nat)
    requires DistinctKeys(ports) && n <= |ports|
    requires forall i :: 0 <= i < n ==> ports[i].key in wDict
    ensures n <= |wDict|
  {
    PrefixKeysCount(ports, n);
    forall k | k in PrefixKeys(ports, n)
      ensures k in wDict
    {
      PrefixKeysMembers(ports, n, k);
    }
    SubsetCard(PrefixKeys(ports, n), wDict.Keys);
  }

  /** The contents of a two-dimensional numpy array, row by row. */
  function Grid(a: array2<Complex>): (g: seq<seq<Complex>>)
    reads a
    ensures |g| == a.Length0
    ensures forall i :: 0 <= i < a.Length0 ==> |g[i]| == a.Length1
    ensures forall i, j :: 0 <= i < a.Length0 && 0 <= j < a.Length1 ==> g[i][j] == a[i, j]
  {
    seq(a.Length0, i requires 0 <= i < a.Length0 reads a =>
      seq(a.Length1, j requires 0 <= j < a.Length1 reads a => a[i, j]))
  }

  /** A table whose every cell agrees with `rows` holds `rows`. */
  lemma GridIs(a: array2<Complex>, rows: seq<seq<Complex>>)
    requires |rows| == a.Length0 && forall i :: 0 <= i < |rows| ==> |rows[i]| == a.Length1
    requires forall i, j :: 0 <= i < a.Length0 && 0 <= j < a.Length1 ==> a[i, j] == rows[i][j]
    ensures Grid(a) == rows
  {
    var g := Grid(a);
    forall i | 0 <= i < |rows|
      ensures g[i] == rows[i]
    {
      assert forall j :: 0 <= j < a.Length1 ==> g[i][j] == rows[i][j];
    }
  }

  /** `fields[i] = row`: row `i` of a table is overwritten, the others are kept. */
  method AssignFieldRow(fields: array2<Complex>, i: nat, row: seq<Complex>)
    requires i < fields.Length0 && |row| == fields.Length1
    modifies fields
    ensures forall i', j :: 0 <= i' < fields.Length0 && 0 <= j < fields.Length1 ==>
      fields[i', j] == if i' == i then row[j] else old(fields[i', j])
  {
    var j := 0;
    while j < fields.Length1
      invariant 0 <= j <= fields.Length1
      invariant forall i', j' :: 0 <= i' < fields.Length0 && 0 <= j' < fields.Length1 ==>
        fields[i', j'] == if i' == i && j' < j then row[j'] else old(fields[i', j'])
    {
      fields[i, j] := row[j];
      j := j + 1;
    }
  }

  /** One pass of the port loop: port `port` at position `n` gives `w[0][n]`
      and row `n` of both tables, or the error that stops the loop. */
  method PlacePort(port: Port, n: nat, wDict: map<string, Complex>, len: nat, w: array<Complex>,
                   thetaFields: array2<Complex>, phiFields: array2<Complex>)
    returns (err: Option<FfError>)
    requires port.key in wDict ==> n < w.Length
    requires thetaFields != phiFields
    requires w.Length == thetaFields.Length0 == phiFields.Length0
    requires thetaFields.Length1 == len && phiFields.Length1 == len
    modifies w, thetaFields, phiFields
    ensures err == PortError(port, wDict, len)
    ensures err.None? ==> w[n] == wDict[port.key]
    ensures err.None? ==> forall j :: 0 <= j < len ==> thetaFields[n, j] == Row(port, len, Theta)[j]
    ensures err.None? ==> forall j :: 0 <= j < len ==> phiFields[n, j] == Row(port, len, Phi)[j]
    ensures forall i :: 0 <= i < w.Length && i != n ==> w[i] == old(w[i])
    ensures forall i, j :: 0 <= i < w.Length && i != n && 0 <= j < len ==> thetaFields[i, j] == old(thetaFields[i, j])
    ensures forall i, j :: 0 <= i < w.Length && i != n && 0 <= j < len ==> phiFields[i, j] == old(phiFields[i, j])
  {
    if port.key !in wDict {
      return Some(MissingWeight(port.key));
    }
    w[n] := wDict[port.key];
    if !Fits(|port.rETheta|, len) {
      return Some(RowShape(port.key));
    }
    AssignFieldRow(thetaFields, n, Broadcast(port.rETheta, len));
    if !Fits(|port.rEPhi|, len) {
      return Some(RowShape(port.key));
    }
    AssignFieldRow(phiFields, n, Broadcast(port.rEPhi, len));
    if |port.thetaRange| == 0 || |port.phiRange| == 0 {
      return Some(EmptyAngleRange(port.key));
    }
    return None;
  }

  /** The loop over the ports of `ff_data`, in key order, writing into
      tables of `len(w_dict)` rows: it stops at the first port in error, and
      otherwise fills `w` and every row and reports the last port's angle
      range sizes. */
  method FillTables(ports: seq<Port>, wDict: map<string, Complex>, len: nat, w: array<Complex>,
                    thetaFields: array2<Complex>, phiFields: array2<Complex>)
    returns (err: Option<FfError>, nTheta: nat, nPhi: nat)
    requires DistinctKeys(ports) && |ports| > 0
    requires thetaFields != phiFields
    requires w.Length == |wDict| == thetaFields.Length0 == phiFields.Length0
    requires thetaFields.Length1 == len && phiFields.Length1 == len
    modifies w, thetaFields, phiFields
    ensures err == FirstPortErrorFrom(ports, wDict, len, 0)
    ensures err.None? ==> AllFit(ports, wDict, len) && |ports| <= |wDict|
    ensures err.None? ==> forall i :: 0 <= i < |ports| ==> w[i] == wDict[ports[i].key]
    ensures err.None? ==> forall i, j :: 0 <= i < |ports| && 0 <= j < len ==>
      thetaFields[i, j] == Row(ports[i], len, Theta)[j]
    ensures err.None? ==> forall i, j :: 0 <= i < |ports| && 0 <= j < len ==>
      phiFields[i, j] == Row(ports[i], len, Phi)[j]
    ensures err.None? ==> nTheta == |ports[|ports| - 1].thetaRange| && nPhi == |ports[|ports| - 1].phiRange|
  {
    nTheta, nPhi := 0, 0;
    var n := 0;
    while n < |ports|
      invariant 0 <= n <= |ports|
      invariant FirstPortErrorFrom(ports, wDict, len, 0) == FirstPortErrorFrom(ports, wDict, len, n)
      invariant forall i :: 0 <= i < n ==> PortError(ports[i], wDict, len).None?
      invariant n <= |wDict|
      invariant forall i :: 0 <= i < n ==> w[i] == wDict[ports[i].key]
      invariant forall i, j :: 0 <= i < n && 0 <= j < len ==> thetaFields[i, j] == Row(ports[i], len, Theta)[j]
      invariant forall i, j :: 0 <= i < n && 0 <= j < len ==> phiFields[i, j] == Row(ports[i], len, Phi)[j]
      invariant n > 0 ==> nTheta == |ports[n - 1].thetaRange| && nPhi == |ports[n - 1].phiRange|
    {
      if ports[n].key in wDict {
        RowsAvailable(ports, wDict, n + 1);
      }
      err := PlacePort(ports[n], n, wDict, len, w, thetaFields, phiFields);
      if err.Some? {
        return;
      }
      nTheta, nPhi := |ports[n].thetaRange|, |ports[n].phiRange|;
      n := n + 1;
    }
    err := None;
  }

  /** The port loop of `ff_calc` with its tables: `w` and the fields tables
      have `len(w_dict)` rows of `len` cells; when no port stops the loop,
      there is one row per port and they hold each port's weight and samples
      in key order. `nTheta`, `nPhi` are the last port's angle range sizes. */
  method ArrangePorts(ports: seq<Port>, wDict: map<string, Complex>, len: nat)
    returns (err: Option<FfError>, w: array<Complex>, thetaFields: array2<Complex>,
             phiFields: array2<Complex>, nTheta: nat, nPhi: nat)
    requires DistinctKeys(ports) && |ports| > 0
    requires forall k :: k in wDict ==> exists i :: 0 <= i < |ports| && ports[i].key == k
    ensures err == FirstPortErrorFrom(ports, wDict, len, 0)
    ensures w.Length == |wDict|
    ensures thetaFields.Length0 == |wDict| && thetaFields.Length1 == len
    ensures phiFields.Length0 == |wDict| && phiFields.Length1 == len
    ensures fresh(thetaFields) && fresh(phiFields) && thetaFields != phiFields
    ensures err.None? ==> AllFit(ports, wDict, len) && |wDict| == |ports|
    ensures err.None? ==> w[..] == WeightVector(ports, wDict)
    ensures err.None? ==> Grid(thetaFields) == RowsOf(ports, wDict, len, Theta)
    ensures err.None? ==> Grid(phiFields) == RowsOf(ports, wDict, len, Phi)
    ensures err.None? ==> nTheta == |ports[|ports| - 1].thetaRange| && nPhi == |ports[|ports| - 1].phiRange|
  {
    w := new Complex[|wDict|](_ => Zero);
    thetaFields := new Complex[|wDict|, len]((_, _) => Zero);
    phiFields := new Complex[|wDict|, len]((_, _) => Zero);
    err, nTheta, nPhi := FillTables(ports, wDict, len, w, thetaFields, phiFields);
    if err.None? {
      FirstPortErrorNone(ports, wDict, len, 0);
      RowCount(ports, wDict);
      GridIs(thetaFields, RowsOf(ports, wDict, len, Theta));
      GridIs(phiFields, RowsOf(ports, wDict, len, Phi));
    }
  }

  // ---------------------------------------------------------------------
  // `np.dot(w, fields)` and the weighting of the rows

  /** `ws[0]*vs[0] + ... + ws[k-1]*vs[k-1]`, summed in index order. */
  function WeightedSum(ws: seq<Complex>, vs: seq<Complex>): Complex
    requires |ws| == |vs|
  {
    if |ws| == 0 then Zero
    else Add(WeightedSum(ws[..|ws| - 1], vs[..|vs| - 1]), Mul(ws[|ws| - 1], vs[|vs| - 1]))
  }

  /** Column `j` of a table. */
  function Column(rows: seq<seq<Complex>>, j: nat): (c: seq<Complex>)
    requires forall i :: 0 <= i < |rows| ==> j < |rows[i]|
    ensures |c| == |rows|
    ensures forall i :: 0 <= i < |rows| ==> c[i] == rows[i][j]
  {
    seq(|rows|, i requires 0 <= i < |rows| => rows[i][j])
  }

  /** A table of `|ws|` rows of `len` cells. */
  predicate Rectangular(rows: seq<seq<Complex>>, height: nat, len: nat)
  {
    |rows| == height && forall i :: 0 <= i < |rows| ==> |rows[i]| == len
  }

  /** `np.dot(w, fields)` for the 1-by-P vector `ws` and a P-by-`len` table:
      cell `j` is the weighted sum of column `j`. */
  function Combine(ws: seq<Complex>, rows: seq<seq<Complex>>, len: nat): (c: seq<Complex>)
    requires Rectangular(rows, |ws|, len)
    ensures |c| == len
  {
    seq(len, j requires 0 <= j < len => WeightedSum(ws, Column(rows, j)))
  }

  /** Row `i` of a table times `ws[i]`, cell by cell: the weighting of
      `re_theta * w_dict[port]`, applied to whole rows. */
  function ScaledRows(ws: seq<Complex>, rows: seq<seq<Complex>>): (s: seq<seq<Complex>>)
    requires |rows| == |ws|
    ensures |s| == |rows|
    ensures forall i :: 0 <= i < |rows| ==> |s[i]| == |rows[i]|
  {
    seq(|rows|, i requires 0 <= i < |rows| =>
      seq(|rows[i]|, j requires 0 <= j < |rows[i]| => Mul(rows[i][j], ws[i])))
  }

  function Squares(ws: seq<Complex>): (sq: seq<Complex>)
    ensures |sq| == |ws|
  {
    seq(|ws|, i requires 0 <= i < |ws| => Mul(ws[i], ws[i]))
  }

  /** `np.dot(w, fields)`: one pass over the columns, each summed over the rows. */
  method Dot(w: array<Complex>, fields: array2<Complex>) returns (out: seq<Complex>)
    requires w.Length == fields.Length0
    ensures out == Combine(w[..], Grid(fields), fields.Length1)
  {
    ghost var g := Grid(fields);
    out := [];
    var j := 0;
    while j < fields.Length1
      invariant 0 <= j <= fields.Length1
      invariant |out| == j
      invariant forall j' :: 0 <= j' < j ==> out[j'] == WeightedSum(w[..], Column(g, j'))
    {
      var acc := Zero;
      var i := 0;
      while i < w.Length
        invariant 0 <= i <= w.Length
        invariant acc == WeightedSum(w[..i], Column(g, j)[..i])
      {
        assert w[..i + 1][..i] == w[..i];
        assert Column(g, j)[..i + 1][..i] == Column(g, j)[..i];
        acc := Add(acc, Mul(w[i], fields[i, j]));
        i := i + 1;
      }
      assert w[..w.Length] == w[..];
      assert Column(g, j)[..w.Length] == Column(g, j);
      out := out + [acc];
      j := j + 1;
    }
  }

  /** Weighting every term by `w` twice is weighting it once by `w*w`. */
  lemma {:induction false} WeightedSumOfScaled(ws: seq<Complex>, vs: seq<Complex>)
    requires |ws| == |vs|
    ensures WeightedSum(ws, seq(|vs|, i requires 0 <= i < |vs| => Mul(vs[i], ws[i]))) ==
            WeightedSum(Squares(ws), vs)
  {
    var scaled := seq(|vs|, i requires 0 <= i < |vs| => Mul(vs[i], ws[i]));
    if |ws| > 0 {
      var k := |ws| - 1;
      var ws', vs' := ws[..k], vs[..k];
      WeightedSumOfScaled(ws', vs');
      assert scaled[..k] == seq(|vs'|, i requires 0 <= i < |vs'| => Mul(vs'[i], ws'[i]));
      assert Squares(ws)[..k] == Squares(ws');
      MulComm(vs[k], ws[k]);
      MulAssoc(ws[k], ws[k], vs[k]);
    }
  }

  /** The rows of `ff_calc` are weighted before `np.dot` weights them again:
      the composite field sums every port's samples times the SQUARE of its
      weight. */
  lemma DoubleWeighting(ws: seq<Complex>, rows: seq<seq<Complex>>, len: nat)
    requires Rectangular(rows, |ws|, len)
    ensures Combine(ws, ScaledRows(ws, rows), len) == Combine(Squares(ws), rows, len)
  {
    var s := ScaledRows(ws, rows);
    forall j | 0 <= j < len
      ensures WeightedSum(ws, Column(s, j)) == WeightedSum(Squares(ws), Column(rows, j))
    {
      var c := Column(rows, j);
      assert Column(s, j) == seq(|c|, i requires 0 <= i < |c| => Mul(c[i], ws[i]));
      WeightedSumOfScaled(ws, c);
    }
  }

  /** Row `i` of a stored table times `c`, cell by cell. The source weights a
      port's samples before writing its row; the model writes the row first
      and weights it here, which `ScaledRowsAreSourceRows` shows is the same. */
  method ScaleRow(fields: array2<Complex>, i: nat, c: Complex)
    requires i < fields.Length0
    modifies fields
    ensures forall i', j :: 0 <= i' < fields.Length0 && 0 <= j < fields.Length1 ==>
      fields[i', j] == if i' == i then Mul(old(fields[i', j]), c) else old(fields[i', j])
  {
    var j := 0;
    while j < fields.Length1
      invariant 0 <= j <= fields.Length1
      invariant forall i', j' :: 0 <= i' < fields.Length0 && 0 <= j' < fields.Length1 ==>
        fields[i', j'] == if i' == i && j' < j then Mul(old(fields[i', j']), c) else old(fields[i', j'])
    {
      fields[i, j] := Mul(fields[i, j], c);
      j := j + 1;
    }
  }

  /** Every row of a stored table times its port's weight. */
  method ScaleRows(w: array<Complex>, fields: array2<Complex>)
    requires w.Length == fields.Length0
    modifies fields
    ensures Grid(fields) == ScaledRows(w[..], old(Grid(fields)))
  {
    ghost var g := Grid(fields);
    var i := 0;
    while i < fields.Length0
      invariant 0 <= i <= fields.Length0
      invariant forall i', j :: 0 <= i' < fields.Length0 && 0 <= j < fields.Length1 ==>
        fields[i', j] == if i' < i then Mul(g[i'][j], w[i']) else g[i'][j]
    {
      ScaleRow(fields, i, w[i]);
      i := i + 1;
    }
    GridIs(fields, ScaledRows(w[..], g));
  }

  /** Port `p`'s samples times its weight `c`: `re_theta * w_dict[port]`
      before the row is written. */
  function WeightedSamples(p: Port, pol: Polarization, c: Complex): (s: seq<Complex>)
    ensures |s| == |Samples(p, pol)|
  {
    seq(|Samples(p, pol)|, i requires 0 <= i < |Samples(p, pol)| => Mul(Samples(p, pol)[i], c))
  }

  /** The table the port loop writes as the source orders it: each port's
      samples are weighted first and then broadcast into row `n`. */
  function SourceRows(ports: seq<Port>, wDict: map<string, Complex>, len: nat, pol: Polarization): (rows: seq<seq<Complex>>)
    requires AllFit(ports, wDict, len)
    ensures |rows| == |ports|
  {
    seq(|ports|, i requires 0 <= i < |ports| =>
      Broadcast(WeightedSamples(ports[i], pol, wDict[ports[i].key]), len))
  }

  /** Weighting the stored rows after the loop gives the table the source
      builds by weighting each port's samples before the row write: scaling
      commutes with the broadcast of a one-sample vector. */
  lemma ScaledRowsAreSourceRows(ports: seq<Port>, wDict: map<string, Complex>, len: nat, pol: Polarization)
    requires AllFit(ports, wDict, len)
    ensures ScaledRows(WeightVector(ports, wDict), RowsOf(ports, wDict, len, pol)) == SourceRows(ports, wDict, len, pol)
  {
    var ws := WeightVector(ports, wDict);
    var a := ScaledRows(ws, RowsOf(ports, wDict, len, pol));
    var b := SourceRows(ports, wDict, len, pol);
    forall i | 0 <= i < |ports|
      ensures a[i] == b[i]
    {
      var s := Samples(ports[i], pol);
      assert |a[i]| == len;
      forall j | 0 <= j < len
        ensures a[i][j] == b[i][j]
      {
        if |s| != len {
          assert |s| == 1;
        }
      }
    }
  }

  /** A port appended to the dictionary adds its weighted row to the composite. */
  lemma CombineAppend(ws: seq<Complex>, rows: seq<seq<Complex>>, len: nat, w: Complex, row: seq<Complex>)
    requires Rectangular(rows, |ws|, len) && |row| == len
    ensures forall j :: 0 <= j < len ==>
      Combine(ws + [w], rows + [row], len)[j] == Add(Combine(ws, rows, len)[j], Mul(w, row[j]))
  {
    forall j | 0 <= j < len
      ensures Combine(ws + [w], rows + [row], len)[j] == Add(Combine(ws, rows, len)[j], Mul(w, row[j]))
    {
      assert (ws + [w])[..|ws|] == ws;
      assert Column(rows + [row], j)[..|rows|] == Column(rows, j);
    }
  }

  /** A single port gives back its samples times its weight. */
  lemma CombineSingle(w: Complex, row: seq<Complex>)
    ensures forall j :: 0 <= j < |row| ==> Combine([w], [row], |row|)[j] == Mul(w, row[j])
  {
    forall j | 0 <= j < |row|
      ensures Combine([w], [row], |row|)[j] == Mul(w, row[j])
    {
      assert Column([row], j) == [row[j]];
      assert [w][..0] == [] && [row[j]][..0] == [];
      assert WeightedSum([w], [row[j]]) == Add(Zero, Mul(w, row[j]));
    }
  }

  // ---------------------------------------------------------------------
  // `np.dot(w, fields)` is linear in the weights and in the field data

  /** `k * vs`, sample by sample. */
  function Scale(k: Complex, vs: seq<Complex>): (r: seq<Complex>)
    ensures |r| == |vs|
  {
    seq(|vs|, i requires 0 <= i < |vs| => Mul(k, vs[i]))
  }

  /** `us + vs`, sample by sample. */
  function Plus(us: seq<Complex>, vs: seq<Complex>): (r: seq<Complex>)
    requires |us| == |vs|
    ensures |r| == |vs|
  {
    seq(|vs|, i requires 0 <= i < |vs| => Add(us[i], vs[i]))
  }

  /** Every row of a table times `k`. */
  function ScaleTable(k: Complex, rows: seq<seq<Complex>>): (s: seq<seq<Complex>>)
    ensures |s| == |rows|
    ensures forall i :: 0 <= i < |rows| ==> |s[i]| == |rows[i]|
  {
    seq(|rows|, i requires 0 <= i < |rows| => Scale(k, rows[i]))
  }

  /** Two tables of the same shape added cell by cell. */
  function PlusTables(a: seq<seq<Complex>>, b: seq<seq<Complex>>): (s: seq<seq<Complex>>)
    requires |a| == |b| && forall i :: 0 <= i < |a| ==> |a[i]| == |b[i]|
    ensures |s| == |a|
    ensures forall i :: 0 <= i < |a| ==> |s[i]| == |a[i]|
  {
    seq(|a|, i requires 0 <= i < |a| => Plus(a[i], b[i]))
  }

  lemma {:induction false} WeightedSumScaleValues(ws: seq<Complex>, vs: seq<Complex>, k: Complex)
    requires |ws| == |vs|
    ensures WeightedSum(ws, Scale(k, vs)) == Mul(k, WeightedSum(ws, vs))
  {
    if |ws| > 0 {
      var n := |ws| - 1;
      assert Scale(k, vs)[..n] == Scale(k, vs[..n]);
      WeightedSumScaleValues(ws[..n], vs[..n], k);
      MulAddLeft(k, WeightedSum(ws[..n], vs[..n]), Mul(ws[n], vs[n]));
      MulAssoc(ws[n], k, vs[n]);
      MulComm(ws[n], k);
      MulAssoc(k, ws[n], vs[n]);
    }
  }

  lemma {:induction false} WeightedSumScaleWeights(ws: seq<Complex>, vs: seq<Complex>, k: Complex)
    requires |ws| == |vs|
    ensures WeightedSum(Scale(k, ws), vs) == Mul(k, WeightedSum(ws, vs))
  {
    if |ws| > 0 {
      var n := |ws| - 1;
      assert Scale(k, ws)[..n] == Scale(k, ws[..n]);
      WeightedSumScaleWeights(ws[..n], vs[..n], k);
      MulAddLeft(k, WeightedSum(ws[..n], vs[..n]), Mul(ws[n], vs[n]));
      MulAssoc(k, ws[n], vs[n]);
    }
  }

  lemma {:induction false} WeightedSumPlusValues(ws: seq<Complex>, us: seq<Complex>, vs: seq<Complex>)
    requires |ws| == |us| == |vs|
    ensures WeightedSum(ws, Plus(us, vs)) == Add(WeightedSum(ws, us), WeightedSum(ws, vs))
  {
    if |ws| > 0 {
      var n := |ws| - 1;
      assert Plus(us, vs)[..n] == Plus(us[..n], vs[..n]);
      WeightedSumPlusValues(ws[..n], us[..n], vs[..n]);
      MulAddLeft(ws[n], us[n], vs[n]);
    }
  }

  lemma {:induction false} WeightedSumPlusWeights(ws: seq<Complex>, vs: seq<Complex>, xs: seq<Complex>)
    requires |ws| == |vs| == |xs|
    ensures WeightedSum(Plus(ws, vs), xs) == Add(WeightedSum(ws, xs), WeightedSum(vs, xs))
  {
    if |ws| > 0 {
      var n := |ws| - 1;
      assert Plus(ws, vs)[..n] == Plus(ws[..n], vs[..n]);
      WeightedSumPlusWeights(ws[..n], vs[..n], xs[..n]);
      MulAddRight(ws[n], vs[n], xs[n]);
    }
  }

  /** Scaling every port's samples by `k` scales the composite by `k`. */
  lemma CombineScaleRows(ws: seq<Complex>, rows: seq<seq<Complex>>, len: nat, k: Complex)
    requires Rectangular(rows, |ws|, len)
    ensures Combine(ws, ScaleTable(k, rows), len) == Scale(k, Combine(ws, rows, len))
  {
    forall j | 0 <= j < len
      ensures Combine(ws, ScaleTable(k, rows), len)[j] == Scale(k, Combine(ws, rows, len))[j]
    {
      assert Column(ScaleTable(k, rows), j) == Scale(k, Column(rows, j));
      WeightedSumScaleValues(ws, Column(rows, j), k);
    }
  }

  /** The composite of two field tables added is the sum of their composites. */
  lemma CombinePlusRows(ws: seq<Complex>, a: seq<seq<Complex>>, b: seq<seq<Complex>>, len: nat)
    requires Rectangular(a, |ws|, len) && Rectangular(b, |ws|, len)
    ensures Combine(ws, PlusTables(a, b), len) == Plus(Combine(ws, a, len), Combine(ws, b, len))
  {
    forall j | 0 <= j < len
      ensures Combine(ws, PlusTables(a, b), len)[j] == Plus(Combine(ws, a, len), Combine(ws, b, len))[j]
    {
      ColumnOfPlusTables(a, b, len, j);
      WeightedSumPlusValues(ws, Column(a, j), Column(b, j));
    }
  }

  lemma ColumnOfPlusTables(a: seq<seq<Complex>>, b: seq<seq<Complex>>, len: nat, j: nat)
    requires Rectangular(a, |a|, len) && Rectangular(b, |a|, len) && j < len
    ensures Column(PlusTables(a, b), j) == Plus(Column(a, j), Column(b, j))
  {
  }

  /** Scaling every weight by `k` scales the composite by `k`. */
  lemma CombineScaleWeights(ws: seq<Complex>, rows: seq<seq<Complex>>, len: nat, k: Complex)
    requires Rectangular(rows, |ws|, len)
    ensures Combine(Scale(k, ws), rows, len) == Scale(k, Combine(ws, rows, len))
  {
    forall j | 0 <= j < len
      ensures Combine(Scale(k, ws), rows, len)[j] == Scale(k, Combine(ws, rows, len))[j]
    {
      WeightedSumScaleWeights(ws, Column(rows, j), k);
    }
  }

  /** The composite under two weight vectors added is the sum of the composites. */
  lemma CombinePlusWeights(ws: seq<Complex>, vs: seq<Complex>, rows: seq<seq<Complex>>, len: nat)
    requires |vs| == |ws| && Rectangular(rows, |ws|, len)
    ensures Combine(Plus(ws, vs), rows, len) == Plus(Combine(ws, rows, len), Combine(vs, rows, len))
  {
    forall j | 0 <= j < len
      ensures Combine(Plus(ws, vs), rows, len)[j] == Plus(Combine(ws, rows, len), Combine(vs, rows, len))[j]
    {
      WeightedSumPlusWeights(ws, vs, Column(rows, j));
    }
  }

  /** How often `ff_calc` applies the port weights: `Twice` is the code as
      written (before `np.dot` and in it), `Once` the evidently intended
      array factor. */
  datatype Weighting = Once | Twice

  /** The composite far field `np.dot(w, fields)` under the given weighting. */
  function Composite(ws: seq<Complex>, rows: seq<seq<Complex>>, len: nat, weighting: Weighting): (c: seq<Complex>)
    requires Rectangular(rows, |ws|, len)
    ensures |c| == len
  {
    match weighting
    case Once => Combine(ws, rows, len)
    case Twice => Combine(ws, ScaledRows(ws, rows), len)
  }

  /** As written, every port contributes its samples times the square of its weight. */
  lemma CompositeTwiceSquares(ws: seq<Complex>, rows: seq<seq<Complex>>, len: nat)
    requires Rectangular(rows, |ws|, len)
    ensures Composite(ws, rows, len, Twice) == Composite(Squares(ws), rows, len, Once)
  {
    DoubleWeighting(ws, rows, len);
  }

  /** The smallest case where the two weightings differ: one port whose
      weight is `1j` (a 90 degree phase step) and whose only sample is 1 ends
      up at -1 (180 degrees) instead of `1j`. */
  lemma DoubleWeightingCounterexample(w: Complex, sample: Complex)
    requires w == Complex(0.0, 1.0) && sample == One
    ensures Composite([w], [[sample]], 1, Twice)[0] == Complex(-1.0, 0.0)
    ensures Composite([w], [[sample]], 1, Once)[0] == w
  {
    DoubleWeighting([w], [[sample]], 1);
    assert Squares([w]) == [Mul(w, w)];
    CombineSingle(Mul(w, w), [sample]);
    CombineSingle(w, [sample]);
    assert Mul(w, w) == Complex(-1.0, 0.0);
    MulComm(w, sample);
    MulOneLeft(w);
  }

  // ---------------------------------------------------------------------
  // `np.reshape(fields, (Ntheta, Nphi))`, the derived quantities and the plot

  /** Row-major reshape of a flat vector into `rows` rows of `cols` cells. */
  function Reshape<T>(flat: seq<T>, rows: nat, cols: nat): (g: seq<seq<T>>)
    requires |flat| == rows * cols
    ensures |g| == rows
    ensures forall i :: 0 <= i < rows ==> |g[i]| == cols
    decreases rows
  {
    if rows == 0 then []
    else
      RowsStep(rows, cols);
      [flat[..cols]] + Reshape(flat[cols..], rows - 1, cols)
  }

  /** One row less is `cols` cells less. */
  lemma RowsStep(rows: nat, cols: nat)
    requires rows > 0
    ensures cols <= rows * cols && rows * cols - cols == (rows - 1) * cols
  {
  }

  /** Cell (i, j) of a `rows` by `cols` grid lies inside the grid. */
  lemma CellInside(rows: nat, cols: nat, i: nat, j: nat)
    requires i < rows && j < cols
    ensures i * cols + j < rows * cols
  {
    RowsStep(rows, cols);
    if i < rows - 1 {
      CellInside(rows - 1, cols, i, j);
    }
  }

  /** The rows of a table, concatenated in order. */
  function Flatten<T>(g: seq<seq<T>>): seq<T>
  {
    if |g| == 0 then [] else g[0] + Flatten(g[1..])
  }

  /** Reshaping loses nothing: flattening the grid restores the vector. */
  lemma {:induction false} FlattenReshape<T>(flat: seq<T>, rows: nat, cols: nat)
    requires |flat| == rows * cols
    ensures Flatten(Reshape(flat, rows, cols)) == flat
    decreases rows
  {
    if rows > 0 {
      RowsStep(rows, cols);
      FlattenReshape(flat[cols..], rows - 1, cols);
      assert flat == flat[..cols] + flat[cols..];
    }
  }

  lemma {:induction false} FlattenLength<T>(g: seq<seq<T>>, cols: nat)
    requires forall i :: 0 <= i < |g| ==> |g[i]| == cols
    ensures |Flatten(g)| == |g| * cols
  {
    if |g| > 0 {
      FlattenLength(g[1..], cols);
    }
  }

  /** A grid whose rows all have `cols` cells is the reshape of its flattening. */
  lemma {:induction false} ReshapeFlatten<T>(g: seq<seq<T>>, cols: nat)
    requires forall i :: 0 <= i < |g| ==> |g[i]| == cols
    ensures |Flatten(g)| == |g| * cols
    ensures Reshape(Flatten(g), |g|, cols) == g
  {
    FlattenLength(g, cols);
    if |g| > 0 {
      ReshapeFlatten(g[1..], cols);
      assert (g[0] + Flatten(g[1..]))[..cols] == g[0];
      assert (g[0] + Flatten(g[1..]))[cols..] == Flatten(g[1..]);
      assert g == [g[0]] + g[1..];
    }
  }

  /** Cell (i, j) of the reshaped grid is sample `i * cols + j` of the vector. */
  lemma {:induction false} ReshapeIndex<T>(flat: seq<T>, rows: nat, cols: nat, i: nat, j: nat)
    requires |flat| == rows * cols && i < rows && j < cols
    ensures i * cols + j < |flat|
    ensures Reshape(flat, rows, cols)[i][j] == flat[i * cols + j]
    decreases rows
  {
    CellInside(rows, cols, i, j);
    RowsStep(rows, cols);
    if i > 0 {
      ReshapeIndex(flat[cols..], rows - 1, cols, i - 1, j);
      RowsStep(i, cols);
    }
  }

  /** The element of `all_qtys` to plot. */
  datatype Quantity = REPhi | RETheta | RETotal | RealizedGain

  /** The key each quantity is stored under in `all_qtys`. */
  function QuantityKey(q: Quantity): string
  {
    match q
    case REPhi => "rEPhi"
    case RETheta => "rETheta"
    case RETotal => "rETotal"
    case RealizedGain => "RealizedGain"
  }

  /** `all_qtys[qty]`: the quantity stored under `qty`, if there is one. */
  function QuantityNamed(qty: string): (r: Option<Quantity>)
    ensures r.Some? ==> QuantityKey(r.value) == qty
  {
    if qty == "rEPhi" then Some(REPhi)
    else if qty == "rETheta" then Some(RETheta)
    else if qty == "rETotal" then Some(RETotal)
    else if qty == "RealizedGain" then Some(RealizedGain)
    else None
  }

  /** Each quantity is found under its own key, and only those keys exist. */
  lemma QuantityKeys(q: Quantity, qty: string)
    ensures QuantityNamed(QuantityKey(q)) == Some(q)
    ensures QuantityNamed(qty).None? <==> forall q' :: QuantityKey(q') != qty
  {
    if QuantityNamed(qty).None? {
      forall q' ensures QuantityKey(q') != qty {
        match q'
        case REPhi =>
        case RETheta =>
        case RETotal =>
        case RealizedGain =>
      }
    }
  }

  /** `20 * np.log10(...)`, `10 * np.log10(...)` or plain `np.abs(...)`. */
  datatype PlotScale = Decibels(factor: nat) | Magnitude

  datatype Plot = Plot(quantity: Quantity, scale: PlotScale, title: string)

  /** The `if dB:` block: the quantity to plot, its scale and the title
      `qty_str`; a gain is a power ratio and gets 10 log10, anything else 20. */
  function SelectPlot(qty: string, dB: bool): (r: Result<Plot, FfError>)
    ensures r.Failure? <==> QuantityNamed(qty).None?
    ensures r.Failure? ==> r.error == UnknownQuantity(qty)
    ensures r.Success? ==> QuantityKey(r.value.quantity) == qty
    ensures r.Success? ==> r.value.title == qty + (if dB then " (dB)" else " (mag)")
    ensures r.Success? ==> (r.value.scale.Magnitude? <==> !dB)
    ensures r.Success? && dB ==> (r.value.scale.factor == 10 <==> Contains(qty, "Gain"))
    ensures r.Success? && dB ==> (r.value.scale.factor == 20 <==> !Contains(qty, "Gain"))
  {
    match QuantityNamed(qty)
    case None => Failure(UnknownQuantity(qty))
    case Some(q) =>
      if dB then Success(Plot(q, Decibels(if Contains(qty, "Gain") then 10 else 20), qty + " (dB)"))
      else Success(Plot(q, Magnitude, qty + " (mag)"))
  }

  /** Of the four quantities only the realized gain is plotted at 10 log10. */
  lemma GainScale(q: Quantity)
    ensures SelectPlot(QuantityKey(q), true).Success?
    ensures SelectPlot(QuantityKey(q), true).value.scale == Decibels(if q == RealizedGain then 10 else 20)
  {
    QuantityKeys(q, QuantityKey(q));
    var k := QuantityKey(q);
    ContainsIff(k, "Gain");
    if q == RealizedGain {
      assert OccursAt("Gain", k, 8);
    } else {
      assert forall j :: 0 <= j < |k| ==> k[j] != 'G';
      forall i | 0 <= i <= |k| - 4
        ensures !OccursAt("Gain", k, i)
      {
        assert k[i..i + 4][0] == k[i];
      }
    }
  }

  /** `np.abs(rEphi)**2 + np.abs(rEtheta)**2` cell by cell: the square of
      `rETotal`, which is its square root. */
  function TotalSq(theta: seq<seq<Complex>>, phi: seq<seq<Complex>>): (t: seq<seq<real>>)
    requires |theta| == |phi| && forall i :: 0 <= i < |theta| ==> |theta[i]| == |phi[i]|
    ensures |t| == |theta| && forall i :: 0 <= i < |t| ==> |t[i]| == |theta[i]|
    ensures forall i, j :: 0 <= i < |t| && 0 <= j < |t[i]| ==> t[i][j] >= 0.0
  {
    seq(|theta|, i requires 0 <= i < |theta| =>
      seq(|theta[i]|, j requires 0 <= j < |theta[i]| => AbsSq(phi[i][j]) + AbsSq(theta[i][j])))
  }

  /** `np.sum(w)`, the value `pin` that the realized gain divides by. */
  function Sum(ws: seq<Complex>): Complex
  {
    if |ws| == 0 then Zero else Add(Sum(ws[..|ws| - 1]), ws[|ws| - 1])
  }

  /** Unit weights sum to the number of ports. */
  lemma {:induction false} SumOfOnes(ws: seq<Complex>)
    requires forall i :: 0 <= i < |ws| ==> ws[i] == One
    ensures Sum(ws) == Complex(|ws| as real, 0.0)
  {
    if |ws| > 0 {
      SumOfOnes(ws[..|ws| - 1]);
    }
  }

  /** What `ff_calc` computes: both field grids, the square of `rETotal`,
      `pin` and the plot request. */
  datatype FfOutput = FfOutput(rETheta: seq<seq<Complex>>, rEPhi: seq<seq<Complex>>,
                               rETotalSq: seq<seq<real>>, pin: Complex, plot: Plot)

  /** From the two composite vectors on: reshape, derived quantities, `pin`
      and the plot selection. */
  function Finish(thetaFlat: seq<Complex>, phiFlat: seq<Complex>, ws: seq<Complex>,
                  nTheta: nat, nPhi: nat, qty: string, dB: bool): (r: Result<FfOutput, FfError>)
    requires |thetaFlat| == |phiFlat|
    ensures r.Success? <==> |thetaFlat| == nTheta * nPhi && QuantityNamed(qty).Some?
    ensures r.Failure? ==> r.error == if |thetaFlat| != nTheta * nPhi
                                      then ReshapeMismatch(|thetaFlat|, nTheta, nPhi)
                                      else UnknownQuantity(qty)
    ensures r.Success? ==> |r.value.rETheta| == nTheta && |r.value.rEPhi| == nTheta
    ensures r.Success? ==> Flatten(r.value.rETheta) == thetaFlat && Flatten(r.value.rEPhi) == phiFlat
    ensures r.Success? ==> r.value.pin == Sum(ws) && Success(r.value.plot) == SelectPlot(qty, dB)
  {
    if |thetaFlat| != nTheta * nPhi then Failure(ReshapeMismatch(|thetaFlat|, nTheta, nPhi))
    else
      var theta := Reshape(thetaFlat, nTheta, nPhi);
      var phi := Reshape(phiFlat, nTheta, nPhi);
      FlattenReshape(thetaFlat, nTheta, nPhi);
      FlattenReshape(phiFlat, nTheta, nPhi);
      match SelectPlot(qty, dB)
      case Failure(e) => Failure(e)
      case Success(plot) => Success(FfOutput(theta, phi, TotalSq(theta, phi), Sum(ws), plot))
  }

  // ---------------------------------------------------------------------
  // `ff_calc` end to end

  /** A key of the dictionary names one of its ports. */
  lemma KeyInPorts(ports: seq<Port>, k: string)
    requires k in Keys(ports)
    ensures exists j :: 0 <= j < |ports| && ports[j].key == k
  {
    var j :| 0 <= j < |Keys(ports)| && Keys(ports)[j] == k;
  }

  /** The position of the first port with key `k`, searching from `i`. */
  function IndexOfKeyFrom(ports: seq<Port>, k: string, i: nat): (j: nat)
    requires i <= |ports| && exists j :: i <= j < |ports| && ports[j].key == k
    ensures i <= j < |ports| && ports[j].key == k
    decreases |ports| - i
  {
    if ports[i].key == k then i else IndexOfKeyFrom(ports, k, i + 1)
  }

  /** After the weight loops, the last element's `port_name` is non-empty and
      its first entry is a key of `ff_data`. */
  lemma LastMatchIsPort(ports: seq<Port>, expjDeg: real -> Complex, x: real, y: real)
    requires WeightDictAfter(Keys(ports), expjDeg, x, y, ArrayRows - 1, ArrayCols).Success?
    ensures |PortsContaining(Keys(ports), ElementLabel(ArrayRows - 1, ArrayCols - 1))| > 0
    ensures exists j :: 0 <= j < |ports| && ports[j].key == PortsContaining(Keys(ports), ElementLabel(ArrayRows - 1, ArrayCols - 1))[0]
  {
    WeightDictSucceeds(Keys(ports), expjDeg, x, y, ArrayRows - 1, ArrayCols);
    assert Before(ArrayRows - 1, ArrayCols - 1, ArrayRows - 1, ArrayCols);
    KeyInPorts(ports, PortsContaining(Keys(ports), ElementLabel(ArrayRows - 1, ArrayCols - 1))[0]);
  }

  /** The state of `ff_calc` just before `np.dot`: the weight vector, both
      fields tables, the row length and the last port's angle range sizes. */
  datatype Setup = Setup(ws: seq<Complex>, thetaRows: seq<seq<Complex>>, phiRows: seq<seq<Complex>>,
                         len: nat, nTheta: nat, nPhi: nat)

  /** `length_of_ff_data`: the number of theta samples of the port the last
      array element matched. */
  function SampleLength(ports: seq<Port>, expjDeg: real -> Complex, x: real, y: real): nat
    requires WeightDictAfter(Keys(ports), expjDeg, x, y, ArrayRows - 1, ArrayCols).Success?
  {
    LastMatchIsPort(ports, expjDeg, x, y);
    var k := PortsContaining(Keys(ports), ElementLabel(ArrayRows - 1, ArrayCols - 1))[0];
    |ports[IndexOfKeyFrom(ports, k, 0)].rETheta|
  }

  /** Everything `ff_calc` does before `np.dot`, or the error that stops it. */
  function FfSetup(ports: seq<Port>, x: real, y: real, expjDeg: real -> Complex): (r: Result<Setup, FfError>)
    requires DistinctKeys(ports)
    ensures r.Success? ==> Rectangular(r.value.thetaRows, |r.value.ws|, r.value.len)
    ensures r.Success? ==> Rectangular(r.value.phiRows, |r.value.ws|, r.value.len)
    ensures r.Success? ==> |r.value.ws| == |ports| > 0
  {
    var wRes := WeightDictAfter(Keys(ports), expjDeg, x, y, ArrayRows - 1, ArrayCols);
    if wRes.Failure? then Failure(wRes.error)
    else
      var len := SampleLength(ports, expjDeg, x, y);
      var err := FirstPortErrorFrom(ports, wRes.value, len, 0);
      LastMatchIsPort(ports, expjDeg, x, y);
      if err.Some? then Failure(err.value)
      else
        FirstPortErrorNone(ports, wRes.value, len, 0);
        var last := ports[|ports| - 1];
        Success(Setup(WeightVector(ports, wRes.value), RowsOf(ports, wRes.value, len, Theta),
                      RowsOf(ports, wRes.value, len, Phi), len, |last.thetaRange|, |last.phiRange|))
  }

  /** `ff_calc(x, y, qty, dB)` under the given weighting. */
  function FfCalcSpec(ports: seq<Port>, x: real, y: real, qty: string, dB: bool,
                      expjDeg: real -> Complex, weighting: Weighting): Result<FfOutput, FfError>
    requires DistinctKeys(ports)
  {
    match FfSetup(ports, x, y, expjDeg)
    case Failure(e) => Failure(e)
    case Success(st) =>
      Finish(Composite(st.ws, st.thetaRows, st.len, weighting), Composite(st.ws, st.phiRows, st.len, weighting),
             st.ws, st.nTheta, st.nPhi, qty, dB)
  }

  /** The part of `ff_calc` before `np.dot`, on arrays. */
  method Prepare(ports: seq<Port>, x: real, y: real, expjDeg: real -> Complex)
    returns (err: Option<FfError>, w: array<Complex>, thetaFields: array2<Complex>,
             phiFields: array2<Complex>, nTheta: nat, nPhi: nat)
    requires DistinctKeys(ports)
    ensures fresh(thetaFields) && fresh(phiFields) && thetaFields != phiFields
    ensures w.Length == thetaFields.Length0 == phiFields.Length0
    ensures thetaFields.Length1 == phiFields.Length1
    ensures err.Some? <==> FfSetup(ports, x, y, expjDeg).Failure?
    ensures err.Some? ==> err.value == FfSetup(ports, x, y, expjDeg).error
    ensures err.None? ==> w[..] == FfSetup(ports, x, y, expjDeg).value.ws
    ensures err.None? ==> Grid(thetaFields) == FfSetup(ports, x, y, expjDeg).value.thetaRows
    ensures err.None? ==> Grid(phiFields) == FfSetup(ports, x, y, expjDeg).value.phiRows
    ensures err.None? ==> thetaFields.Length1 == FfSetup(ports, x, y, expjDeg).value.len
    ensures err.None? ==> nTheta == FfSetup(ports, x, y, expjDeg).value.nTheta
    ensures err.None? ==> nPhi == FfSetup(ports, x, y, expjDeg).value.nPhi
  {
    var keys := Keys(ports);
    var wRes, lastMatches := AssignWeights(keys, x, y, expjDeg);
    if wRes.Failure? {
      err := Some(wRes.error);
      w := new Complex[0];
      thetaFields := new Complex[0, 0];
      phiFields := new Complex[0, 0];
      nTheta, nPhi := 0, 0;
      return;
    }
    LastMatchIsPort(ports, expjDeg, x, y);
    var len := |ports[IndexOfKeyFrom(ports, lastMatches[0], 0)].rETheta|;
    assert len == SampleLength(ports, expjDeg, x, y);
    forall k | k in wRes.value
      ensures exists i :: 0 <= i < |ports| && ports[i].key == k
    {
      WeightDictKeysArePorts(keys, expjDeg, x, y, ArrayRows - 1, ArrayCols, k);
      KeyInPorts(ports, k);
    }
    err, w, thetaFields, phiFields, nTheta, nPhi := ArrangePorts(ports, wRes.value, len);
  }

  /** `ff_calc` with each port weighted once: the array factor the example
      sets out to plot. */
  method FfCalc(ports: seq<Port>, x: real, y: real, qty: string, dB: bool, expjDeg: real -> Complex)
    returns (r: Result<FfOutput, FfError>)
    requires DistinctKeys(ports)
    ensures r == FfCalcSpec(ports, x, y, qty, dB, expjDeg, Once)
  {
    var err, w, thetaFields, phiFields, nTheta, nPhi := Prepare(ports, x, y, expjDeg);
    if err.Some? {
      return Failure(err.value);
    }
    var thetaFlat := Dot(w, thetaFields);
    var phiFlat := Dot(w, phiFields);
    r := Finish(thetaFlat, phiFlat, w[..], nTheta, nPhi, qty, dB);
  }

  /** `ff_calc` as written: the rows are multiplied by `w_dict[port]` before
      `np.dot(w, ...)` multiplies them by the same weights again. The model
      applies the first weighting to the stored rows after the port loop. */
  method FfCalcAsWritten(ports: seq<Port>, x: real, y: real, qty: string, dB: bool, expjDeg: real -> Complex)
    returns (r: Result<FfOutput, FfError>)
    requires DistinctKeys(ports)
    ensures r == FfCalcSpec(ports, x, y, qty, dB, expjDeg, Twice)
  {
    var err, w, thetaFields, phiFields, nTheta, nPhi := Prepare(ports, x, y, expjDeg);
    if err.Some? {
      return Failure(err.value);
    }
    ScaleRows(w, thetaFields);
    ScaleRows(w, phiFields);
    var thetaFlat := Dot(w, thetaFields);
    var phiFlat := Dot(w, phiFields);
    r := Finish(thetaFlat, phiFlat, w[..], nTheta, nPhi, qty, dB);
  }

  /** `ff_calc` gets as far as `np.dot` exactly when every array element
      finds a port and then no port stops the port loop. */
  lemma FfSetupSucceeds(ports: seq<Port>, x: real, y: real, expjDeg: real -> Complex)
    requires DistinctKeys(ports)
    ensures FfSetup(ports, x, y, expjDeg).Success? <==>
      WeightDictAfter(Keys(ports), expjDeg, x, y, ArrayRows - 1, ArrayCols).Success?
      && AllFit(ports, WeightDictAfter(Keys(ports), expjDeg, x, y, ArrayRows - 1, ArrayCols).value,
                SampleLength(ports, expjDeg, x, y))
    ensures FfSetup(ports, x, y, expjDeg).Success? ==>
      forall i, j :: Before(i, j, ArrayRows - 1, ArrayCols) ==> MatchOf(Keys(ports), i, j).Some?
  {
    WeightDictSucceeds(Keys(ports), expjDeg, x, y, ArrayRows - 1, ArrayCols);
    var wRes := WeightDictAfter(Keys(ports), expjDeg, x, y, ArrayRows - 1, ArrayCols);
    if wRes.Success? {
      FirstPortErrorNone(ports, wRes.value, SampleLength(ports, expjDeg, x, y), 0);
    }
  }

  /** Every port's weight is that of the last array element (m, n) whose
      label its key contains; in particular every port is matched by some
      element. */
  lemma FfSetupWeights(ports: seq<Port>, x: real, y: real, expjDeg: real -> Complex, p: nat)
    returns (m: nat, n: nat)
    requires DistinctKeys(ports)
    requires FfSetup(ports, x, y, expjDeg).Success? && p < |ports|
    ensures Before(m, n, ArrayRows - 1, ArrayCols)
    ensures MatchOf(Keys(ports), m, n) == Some(ports[p].key)
    ensures FfSetup(ports, x, y, expjDeg).value.ws[p] == ElementWeight(expjDeg, x, y, m, n)
    ensures forall m', n' :: Before(m', n', ArrayRows - 1, ArrayCols) && Before(m, n, m', n') ==>
      MatchOf(Keys(ports), m', n') != Some(ports[p].key)
  {
    var wRes := WeightDictAfter(Keys(ports), expjDeg, x, y, ArrayRows - 1, ArrayCols);
    FfSetupSucceeds(ports, x, y, expjDeg);
    assert PortError(ports[p], wRes.value, SampleLength(ports, expjDeg, x, y)).None?;
    WeightDictContents(Keys(ports), expjDeg, x, y, ArrayRows - 1, ArrayCols, ports[p].key);
    m, n :| Before(m, n, ArrayRows - 1, ArrayCols) && MatchOf(Keys(ports), m, n) == Some(ports[p].key)
      && wRes.value[ports[p].key] == ElementWeight(expjDeg, x, y, m, n)
      && forall m', n' :: Before(m', n', ArrayRows - 1, ArrayCols) && Before(m, n, m', n') ==>
           MatchOf(Keys(ports), m', n') != Some(ports[p].key);
  }

  /** With no commanded phase every port's weight is 1. */
  lemma ZeroPhaseWeights(ports: seq<Port>, x: real, y: real, expjDeg: real -> Complex)
    requires DistinctKeys(ports) && expjDeg(0.0) == One && x == 0.0 && y == 0.0
    requires FfSetup(ports, x, y, expjDeg).Success?
    ensures forall p :: 0 <= p < |ports| ==> FfSetup(ports, x, y, expjDeg).value.ws[p] == One
  {
    var ws := FfSetup(ports, x, y, expjDeg).value.ws;
    forall p | 0 <= p < |ports|
      ensures ws[p] == One
    {
      var m, n := FfSetupWeights(ports, x, y, expjDeg, p);
      ZeroPhaseUnitWeights(expjDeg, x, y, m, n);
    }
  }

  /** With no commanded phase `pin` is the number of ports. */
  lemma ZeroPhasePin(ports: seq<Port>, x: real, y: real, expjDeg: real -> Complex)
    requires DistinctKeys(ports) && expjDeg(0.0) == One && x == 0.0 && y == 0.0
    requires FfSetup(ports, x, y, expjDeg).Success?
    ensures Sum(FfSetup(ports, x, y, expjDeg).value.ws) == Complex(|ports| as real, 0.0)
  {
    ZeroPhaseWeights(ports, x, y, expjDeg);
    SumOfOnes(FfSetup(ports, x, y, expjDeg).value.ws);
  }

  lemma UnitSquare(c: Complex)
    requires c == One
    ensures Mul(c, c) == c
  {
    MulOneLeft(c);
  }

  /** Unit weights are their own squares, so weighting twice changes nothing. */
  lemma UnitWeightsHideDoubling(ws: seq<Complex>, rows: seq<seq<Complex>>, len: nat)
    requires Rectangular(rows, |ws|, len)
    requires forall i :: 0 <= i < |ws| ==> ws[i] == One
    ensures Composite(ws, rows, len, Twice) == Composite(ws, rows, len, Once)
  {
    forall i | 0 <= i < |ws|
      ensures Squares(ws)[i] == ws[i]
    {
      UnitSquare(ws[i]);
    }
    assert Squares(ws) == ws;
    DoubleWeighting(ws, rows, len);
    assert Composite(Squares(ws), rows, len, Once) == Composite(ws, rows, len, Once);
  }

  /** With no commanded phase, as in the example's own call `ff_calc()`,
      weighting once or twice gives the same result: the double weighting
      does not show in that plot. */
  lemma ZeroPhaseHidesDoubleWeighting(ports: seq<Port>, x: real, y: real, qty: string, dB: bool, expjDeg: real -> Complex)
    requires DistinctKeys(ports) && expjDeg(0.0) == One && x == 0.0 && y == 0.0
    ensures FfCalcSpec(ports, x, y, qty, dB, expjDeg, Twice) == FfCalcSpec(ports, x, y, qty, dB, expjDeg, Once)
  {
    var setup := FfSetup(ports, x, y, expjDeg);
    if setup.Success? {
      var st := setup.value;
      ZeroPhaseWeights(ports, x, y, expjDeg);
      UnitWeightsHideDoubling(st.ws, st.thetaRows, st.len);
      UnitWeightsHideDoubling(st.ws, st.phiRows, st.len);
    }
  }

  /** Cell (i, j) of a plotted grid is composite sample `i * Nphi + j`:
      theta indexes the rows and phi the columns. */
  lemma FinishGridCell(thetaFlat: seq<Complex>, phiFlat: seq<Complex>, ws: seq<Complex>,
                       nTheta: nat, nPhi: nat, qty: string, dB: bool, i: nat, j: nat)
    requires |thetaFlat| == |phiFlat|
    requires Finish(thetaFlat, phiFlat, ws, nTheta, nPhi, qty, dB).Success?
    requires i < nTheta && j < nPhi
    ensures i * nPhi + j < |thetaFlat|
    ensures Finish(thetaFlat, phiFlat, ws, nTheta, nPhi, qty, dB).value.rETheta[i][j] == thetaFlat[i * nPhi + j]
    ensures Finish(thetaFlat, phiFlat, ws, nTheta, nPhi, qty, dB).value.rEPhi[i][j] == phiFlat[i * nPhi + j]
  {
    ReshapeIndex(thetaFlat, nTheta, nPhi, i, j);
    ReshapeIndex(phiFlat, nTheta, nPhi, i, j);
  }
}
