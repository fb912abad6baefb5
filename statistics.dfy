/**
 * The structure of the correlation statistics behind the correlation
 * matrix card: which pairs are kept, the guards that give the neutral
 * result, the clamp on `r` and the significance flag; and how the matrix
 * is filled. The floating-point kernels (the sample correlation, the
 * t statistic and the t distribution's CDF) are parameters over `real`.
 */
module Statistics {
  import opened Wrappers
  import opened JsText
  import opened JsValues

  /**
   * The numeric kernels. `sampleCorrelation` receives the kept samples as
   * they are, with no conversion, and yields `None` where the library yields
   * NaN; `tStatistic(r, df)` stands for r·√df / √(1 − r²).
   */
  datatype Kernels = Kernels(
    sampleCorrelation: (seq<Value>, seq<Value>) -> Option<real>,
    tStatistic: (real, int) -> real,
    tCDF: (real, int) -> real)

  datatype CorrelationResult = CorrelationResult(r: real, p: real, n: nat, significant: bool)

  /** The default significance level. */
  const DefaultAlpha: real := 0.05

  /** The largest |r| passed on to the t statistic. */
  const MaxAbsR: real := 0.9999

  function Abs(x: real): real { if x < 0.0 then -x else x }

  /** A sample counts when it is neither null nor undefined and `isNaN` is false of it. */
  predicate ValidSample(v: Value) {
    v != Null && v != Undefined && ToNumber(v).Fin?
  }

  function Min(a: nat, b: nat): nat { if a < b then a else b }

  /** The valid pairs among the first `m` positions, in order, each sample kept as it is. */
  function PairsUpTo(x: seq<Value>, y: seq<Value>, m: nat): (pairs: seq<(Value, Value)>)
    requires m <= |x| && m <= |y|
    ensures |pairs| <= m
  {
    if m == 0 then []
    else
      var rest := PairsUpTo(x, y, m - 1);
      if ValidSample(x[m - 1]) && ValidSample(y[m - 1]) then rest + [(x[m - 1], y[m - 1])]
      else rest
  }

  /** The pairs `correlationWithPValue` keeps: positions below both lengths where both samples are valid. */
  function ValidPairs(x: seq<Value>, y: seq<Value>): seq<(Value, Value)> {
    PairsUpTo(x, y, Min(|x|, |y|))
  }

  /** A pair is kept exactly when some position below `m` holds two valid samples, and it is those samples. */
  lemma {:induction false} PairsUpToMembers(x: seq<Value>, y: seq<Value>, m: nat)
    requires m <= |x| && m <= |y|
    ensures forall p :: p in PairsUpTo(x, y, m) <==>
      exists i :: 0 <= i < m && ValidSample(x[i]) && ValidSample(y[i]) && p == (x[i], y[i])
  {
    if m > 0 {
      PairsUpToMembers(x, y, m - 1);
      var rest := PairsUpTo(x, y, m - 1);
      var kept := ValidSample(x[m - 1]) && ValidSample(y[m - 1]);
      assert PairsUpTo(x, y, m) == if kept then rest + [(x[m - 1], y[m - 1])] else rest;
      forall p
        ensures p in PairsUpTo(x, y, m) <==>
          exists i :: 0 <= i < m && ValidSample(x[i]) && ValidSample(y[i]) && p == (x[i], y[i])
      {
        if p in rest {
          var i :| 0 <= i < m - 1 && ValidSample(x[i]) && ValidSample(y[i]) && p == (x[i], y[i]);
          assert 0 <= i < m;
        } else if exists i :: 0 <= i < m && ValidSample(x[i]) && ValidSample(y[i]) && p == (x[i], y[i]) {
          var i :| 0 <= i < m && ValidSample(x[i]) && ValidSample(y[i]) && p == (x[i], y[i]);
          assert i == m - 1;
        }
      }
    }
  }

  /** Only the positions below `m` are read. */
  lemma {:induction false} PairsUpToPrefix(x: seq<Value>, y: seq<Value>, x': seq<Value>, y': seq<Value>, m: nat)
    requires m <= |x| && m <= |y| && m <= |x'| && m <= |y'|
    requires x[..m] == x'[..m] && y[..m] == y'[..m]
    ensures PairsUpTo(x, y, m) == PairsUpTo(x', y', m)
  {
    if m > 0 {
      assert x[m - 1] == x[..m][m - 1] && x'[m - 1] == x'[..m][m - 1];
      assert y[m - 1] == y[..m][m - 1] && y'[m - 1] == y'[..m][m - 1];
      assert x[..m - 1] == x[..m][..m - 1] && x'[..m - 1] == x'[..m][..m - 1];
      assert y[..m - 1] == y[..m][..m - 1] && y'[..m - 1] == y'[..m][..m - 1];
      PairsUpToPrefix(x, y, x', y', m - 1);
    }
  }

  /** Samples past the shorter array are never read. */
  lemma ValidPairsIgnoresTail(x: seq<Value>, y: seq<Value>, x': seq<Value>, y': seq<Value>)
    requires Min(|x|, |y|) == Min(|x'|, |y'|)
    requires x[..Min(|x|, |y|)] == x'[..Min(|x|, |y|)] && y[..Min(|x|, |y|)] == y'[..Min(|x|, |y|)]
    ensures ValidPairs(x, y) == ValidPairs(x', y')
  {
    PairsUpToPrefix(x, y, x', y', Min(|x|, |y|));
  }

  /** Swapping the arrays swaps each kept pair, so the count is the same. */
  lemma {:induction false} PairsUpToSwap(x: seq<Value>, y: seq<Value>, m: nat)
    requires m <= |x| && m <= |y|
    ensures |PairsUpTo(y, x, m)| == |PairsUpTo(x, y, m)|
    ensures forall k :: 0 <= k < |PairsUpTo(x, y, m)| ==>
      PairsUpTo(y, x, m)[k] == (PairsUpTo(x, y, m)[k].1, PairsUpTo(x, y, m)[k].0)
  {
    if m > 0 {
      PairsUpToSwap(x, y, m - 1);
    }
  }

  function Firsts(pairs: seq<(Value, Value)>): (xs: seq<Value>)
    ensures |xs| == |pairs| && forall k :: 0 <= k < |pairs| ==> xs[k] == pairs[k].0
  {
    seq(|pairs|, k requires 0 <= k < |pairs| => pairs[k].0)
  }

  function Seconds(pairs: seq<(Value, Value)>): (ys: seq<Value>)
    ensures |ys| == |pairs| && forall k :: 0 <= k < |pairs| ==> ys[k] == pairs[k].1
  {
    seq(|pairs|, k requires 0 <= k < |pairs| => pairs[k].1)
  }

  /** `r` clamped into [−0.9999, 0.9999]. */
  function Clamp(r: real): (c: real)
    ensures -MaxAbsR <= c <= MaxAbsR
    ensures Abs(r) <= MaxAbsR ==> c == r
    ensures Abs(r) > MaxAbsR ==> (c == MaxAbsR <==> r > 0.0) && Abs(c) == MaxAbsR
  {
    if Abs(r) > MaxAbsR then (if r > 0.0 then MaxAbsR else -MaxAbsR) else r
  }

  /** What `correlationWithPValue(x, y, alpha)` returns. */
  function Correlation(x: seq<Value>, y: seq<Value>, alpha: real, k: Kernels): (res: CorrelationResult)
    ensures res.n == |ValidPairs(x, y)|
    ensures res.n < 3 ==> res == CorrelationResult(0.0, 1.0, res.n, false)
    ensures res.n >= 3 && k.sampleCorrelation(Firsts(ValidPairs(x, y)), Seconds(ValidPairs(x, y))).None? ==>
      res == CorrelationResult(0.0, 1.0, res.n, false)
    ensures res.n >= 3 && k.sampleCorrelation(Firsts(ValidPairs(x, y)), Seconds(ValidPairs(x, y))).Some? ==>
      && res.r == Clamp(k.sampleCorrelation(Firsts(ValidPairs(x, y)), Seconds(ValidPairs(x, y))).value)
      && res.p == 2.0 * (1.0 - k.tCDF(Abs(k.tStatistic(res.r, res.n - 2)), res.n - 2))
      && (res.significant <==> res.p < alpha)
    ensures -MaxAbsR <= res.r <= MaxAbsR
  {
    var pairs := ValidPairs(x, y);
    var n := |pairs|;
    if n < 3 then CorrelationResult(0.0, 1.0, n, false)
    else
      match k.sampleCorrelation(Firsts(pairs), Seconds(pairs))
      case None => CorrelationResult(0.0, 1.0, n, false)
      case Some(r0) =>
        var r := Clamp(r0);
        var df := n - 2;
        var t := k.tStatistic(r, df);
        var p := 2.0 * (1.0 - k.tCDF(Abs(t), df));
        CorrelationResult(r, p, n, p < alpha)
  }

  /** `correlationWithPValue`: collects the valid pairs in one pass, then applies the guards and the kernels. */
  method CorrelationWithPValue(x: seq<Value>, y: seq<Value>, alpha: real, k: Kernels) returns (res: CorrelationResult)
    ensures res == Correlation(x, y, alpha, k)
  {
    var pairs: seq<(Value, Value)> := [];
    var i := 0;
    while i < |x| && i < |y|
      invariant 0 <= i <= Min(|x|, |y|)
      invariant pairs == PairsUpTo(x, y, i)
    {
      var xi := x[i];
      var yi := y[i];
      if xi != Null && xi != Undefined && ToNumber(xi).Fin? && yi != Null && yi != Undefined && ToNumber(yi).Fin? {
        pairs := pairs + [(xi, yi)];
      }
      i := i + 1;
    }
    var n := |pairs|;
    if n < 3 {
      return CorrelationResult(0.0, 1.0, n, false);
    }
    var xClean := Firsts(pairs);
    var yClean := Seconds(pairs);
    var correlation := k.sampleCorrelation(xClean, yClean);
    if correlation.None? {
      return CorrelationResult(0.0, 1.0, n, false);
    }
    var r := correlation.value;
    if Abs(r) > MaxAbsR {
      r := if r > 0.0 then MaxAbsR else -MaxAbsR;
    }
    var df := n - 2;
    var t := k.tStatistic(r, df);
    var pOneTailed := 1.0 - k.tCDF(Abs(t), df);
    var p := 2.0 * pOneTailed;
    res := CorrelationResult(r, p, n, p < alpha);
  }

  // ---------------------------------------------------------------------
  // The correlation matrix

  datatype Cell = Cell(r: real, p: real, n: nat)

  datatype MatrixResult = MatrixResult(
    matrix: seq<seq<real>>,
    pValues: seq<seq<real>>,
    sampleSizes: seq<seq<nat>>,
    attributes: seq<string>)

  /** One cell of the matrix: `(1, 0, data.length)` on the diagonal, the pair's correlation elsewhere. */
  function MatrixCell(data: seq<Row>, attributes: seq<string>, i: nat, j: nat, k: Kernels): (c: Cell)
    requires i < |attributes| && j < |attributes|
    ensures i == j ==> c == Cell(1.0, 0.0, |data|)
    ensures i != j ==> c.n == |ValidPairs(Column(data, attributes[i]), Column(data, attributes[j]))|
    ensures i != j ==> -MaxAbsR <= c.r <= MaxAbsR
  {
    if i == j then Cell(1.0, 0.0, |data|)
    else
      var res := Correlation(Column(data, attributes[i]), Column(data, attributes[j]), DefaultAlpha, k);
      Cell(res.r, res.p, res.n)
  }

  /** Sample sizes are symmetric: both orders count the same rows. */
  lemma SampleSizesSymmetric(data: seq<Row>, attributes: seq<string>, i: nat, j: nat, k: Kernels)
    requires i < |attributes| && j < |attributes|
    ensures MatrixCell(data, attributes, i, j, k).n == MatrixCell(data, attributes, j, i, k).n
  {
    if i != j {
      PairsUpToSwap(Column(data, attributes[i]), Column(data, attributes[j]), |data|);
    }
  }

  /** An off-diagonal sample size counts the rows where both attributes hold valid samples. */
  lemma SampleSizeCountsRows(data: seq<Row>, attributes: seq<string>, i: nat, j: nat, k: Kernels)
    requires i < |attributes| && j < |attributes| && i != j
    ensures MatrixCell(data, attributes, i, j, k).n <= |data|
    ensures forall p :: p in ValidPairs(Column(data, attributes[i]), Column(data, attributes[j])) <==>
      exists row :: 0 <= row < |data|
        && ValidSample(Get(data[row], attributes[i])) && ValidSample(Get(data[row], attributes[j]))
        && p == (Get(data[row], attributes[i]), Get(data[row], attributes[j]))
  {
    var x := Column(data, attributes[i]);
    var y := Column(data, attributes[j]);
    PairsUpToMembers(x, y, |data|);
  }

  /** Every row of a k×k matrix has k entries. */
  predicate Square<T>(m: seq<seq<T>>, size: nat) {
    |m| == size && forall i :: 0 <= i < size ==> |m[i]| == size
  }

  /** The first `width` cells of row `i`, as three rows of r, p and n values. */
  ghost predicate RowMatches(data: seq<Row>, attributes: seq<string>, k: Kernels, i: nat,
                             rowR: seq<real>, rowP: seq<real>, rowN: seq<nat>, width: nat)
    requires i < |attributes| && width <= |attributes|
  {
    && |rowR| == width && |rowP| == width && |rowN| == width
    && forall b :: 0 <= b < width ==>
         var c := MatrixCell(data, attributes, i, b, k);
         rowR[b] == c.r && rowP[b] == c.p && rowN[b] == c.n
  }

  /** Appending the next cell extends a matching row. */
  lemma RowSnoc(data: seq<Row>, attributes: seq<string>, k: Kernels, i: nat,
                rowR: seq<real>, rowP: seq<real>, rowN: seq<nat>, width: nat, c: Cell)
    requires i < |attributes| && width < |attributes|
    requires RowMatches(data, attributes, k, i, rowR, rowP, rowN, width)
    requires c == MatrixCell(data, attributes, i, width, k)
    ensures RowMatches(data, attributes, k, i, rowR + [c.r], rowP + [c.p], rowN + [c.n], width + 1)
  {
  }

  /** `computeCorrelationMatrix`: fills the three matrices row by row, cell by cell. */
  method ComputeCorrelationMatrix(data: seq<Row>, attributes: seq<string>, k: Kernels) returns (res: MatrixResult)
    ensures res.attributes == attributes
    ensures Square(res.matrix, |attributes|) && Square(res.pValues, |attributes|) && Square(res.sampleSizes, |attributes|)
    ensures forall i :: 0 <= i < |attributes| ==>
      RowMatches(data, attributes, k, i, res.matrix[i], res.pValues[i], res.sampleSizes[i], |attributes|)
  {
    var n := |attributes|;
    var matrix: seq<seq<real>> := [];
    var pValues: seq<seq<real>> := [];
    var sampleSizes: seq<seq<nat>> := [];
    var i := 0;
    while i < n
      invariant 0 <= i <= n
      invariant |matrix| == i && |pValues| == i && |sampleSizes| == i
      invariant forall a :: 0 <= a < i ==> RowMatches(data, attributes, k, a, matrix[a], pValues[a], sampleSizes[a], n)
    {
      var rowR: seq<real> := [];
      var rowP: seq<real> := [];
      var rowN: seq<nat> := [];
      var j := 0;
      while j < n
        invariant 0 <= j <= n
        invariant RowMatches(data, attributes, k, i, rowR, rowP, rowN, j)
      {
        if i == j {
          RowSnoc(data, attributes, k, i, rowR, rowP, rowN, j, Cell(1.0, 0.0, |data|));
          rowR, rowP, rowN := rowR + [1.0], rowP + [0.0], rowN + [|data|];
        } else {
          var xValues := Column(data, attributes[i]);
          var yValues := Column(data, attributes[j]);
          var result := CorrelationWithPValue(xValues, yValues, DefaultAlpha, k);
          RowSnoc(data, attributes, k, i, rowR, rowP, rowN, j, Cell(result.r, result.p, result.n));
          rowR, rowP, rowN := rowR + [result.r], rowP + [result.p], rowN + [result.n];
        }
        j := j + 1;
      }
      matrix, pValues, sampleSizes := matrix + [rowR], pValues + [rowP], sampleSizes + [rowN];
      i := i + 1;
    }
    res := MatrixResult(matrix, pValues, sampleSizes, attributes);
  }
}
