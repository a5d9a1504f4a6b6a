/** Quantile regression for independent data: the objective `ll_s_d` and the
    optimizer `gradientSd_s` of lqmm.c. X is the n x p fixed-effects design,
    stored column-major; tau is the quantile level. The objective is the
    check loss sum_i r_i * I_i of the residuals r = y - X theta, with
    I_i = tau - 1 when r_i < 0 and tau otherwise, and its gradient -X' I. */
module Independent {
  import ColumnMajor
  import LineSearch

  function Abs(r: real): real { if r < 0.0 then -r else r }

  /** The data of ll_s_d are large enough for an n x p design. */
  predicate Shaped(theta: seq<real>, x: seq<real>, y: seq<real>, n: nat, p: nat) {
    p <= |theta| && n * p <= |x| && n <= |y|
  }

  /** sum_{j < k} x[i + n*j] * theta[j]: row i of X theta over the first k columns. */
  function RowDot(x: seq<real>, n: nat, p: nat, i: nat, theta: seq<real>, k: nat): real
    requires i < n && k <= p <= |theta| && n * p <= |x|
  {
    if k == 0 then 0.0
    else
      ColumnMajor.CellInBounds(i, k - 1, n, p);
      RowDot(x, n, p, i, theta, k - 1) + x[i + n * (k - 1)] * theta[k - 1]
  }

  /** One more column of row i of X theta. */
  lemma RowDotNext(x: seq<real>, n: nat, p: nat, i: nat, theta: seq<real>, j: nat)
    requires i < n && j < p <= |theta| && n * p <= |x|
    ensures 0 <= i + n * j < |x|
    ensures RowDot(x, n, p, i, theta, j + 1) == RowDot(x, n, p, i, theta, j) + x[i + n * j] * theta[j]
  {
    ColumnMajor.CellInBounds(i, j, n, p);
  }

  /** r_i = y_i - (X theta)_i. */
  function Residual(theta: seq<real>, x: seq<real>, y: seq<real>, n: nat, p: nat, i: nat): real
    requires Shaped(theta, x, y, n, p) && i < n
  {
    y[i] - RowDot(x, n, p, i, theta, p)
  }

  /** The check-loss slope used by ll_s_d: tau - 1 for a negative residual, tau otherwise. */
  function Indicator(r: real, tau: real): real {
    if r < 0.0 then tau - 1.0 else tau
  }

  /** The slope used by ll_h_d, which sends a zero residual to tau - 1. */
  function Phi(r: real, tau: real): real {
    if r <= 0.0 then tau - 1.0 else tau
  }

  /** The check loss as ll_h_R writes it: (|r| + (2 tau - 1) r) / 2. */
  function Kernel(r: real, tau: real): real {
    (Abs(r) + (2.0 * tau - 1.0) * r) / 2.0
  }

  /** The vector I of ll_s_d. */
  function Indicators(theta: seq<real>, x: seq<real>, y: seq<real>, tau: real, n: nat, p: nat): (ind: seq<real>)
    requires Shaped(theta, x, y, n, p)
    ensures |ind| == n
  {
    seq(n, i requires 0 <= i < n => Indicator(Residual(theta, x, y, n, p, i), tau))
  }

  /** sum_{i < k} r_i * v_i. */
  function WeightedResiduals(theta: seq<real>, x: seq<real>, y: seq<real>, n: nat, p: nat, v: seq<real>, k: nat): real
    requires Shaped(theta, x, y, n, p) && k <= n <= |v|
  {
    if k == 0 then 0.0
    else WeightedResiduals(theta, x, y, n, p, v, k - 1) + Residual(theta, x, y, n, p, k - 1) * v[k - 1]
  }

  /** The value returned by ll_s_d. */
  function Loss(theta: seq<real>, x: seq<real>, y: seq<real>, tau: real, n: nat, p: nat): real
    requires Shaped(theta, x, y, n, p)
  {
    WeightedResiduals(theta, x, y, n, p, Indicators(theta, x, y, tau, n, p), n)
  }

  /** sum_{i < k} x[i + n*l] * v_i: column l of X against v. */
  function ColDot(x: seq<real>, n: nat, p: nat, l: nat, v: seq<real>, k: nat): real
    requires l < p && k <= n <= |v| && n * p <= |x|
  {
    if k == 0 then 0.0
    else
      ColumnMajor.CellInBounds(k - 1, l, n, p);
      ColDot(x, n, p, l, v, k - 1) + x[(k - 1) + n * l] * v[k - 1]
  }

  /** The gradient ll_s_d writes into deriv: -X' I. */
  function Gradient(theta: seq<real>, x: seq<real>, y: seq<real>, tau: real, n: nat, p: nat): (g: seq<real>)
    requires Shaped(theta, x, y, n, p)
    ensures |g| == p
  {
    seq(p, l requires 0 <= l < p => -ColDot(x, n, p, l, Indicators(theta, x, y, tau, n, p), n))
  }

  /** ll_s_d as an objective of the optimizer. */
  function Objective(x: seq<real>, y: seq<real>, tau: real, n: nat, p: nat): seq<real> --> LineSearch.Eval
    requires n * p <= |x| && n <= |y|
  {
    (theta: seq<real>) requires |theta| == p && n * p <= |x| && n <= |y| =>
      LineSearch.Eval(Loss(theta, x, y, tau, n, p), Gradient(theta, x, y, tau, n, p))
  }

  // ---------------------------------------------------------------------
  // ll_s_d

  /** resid := y - X theta (the dcopy and dgemv at lines 73-75). */
  method ComputeResiduals(theta: seq<real>, x: seq<real>, y: seq<real>, n: nat, p: nat, resid: array<real>)
    requires Shaped(theta, x, y, n, p) && resid.Length == n
    modifies resid
    ensures forall i :: 0 <= i < n ==> resid[i] == Residual(theta, x, y, n, p, i)
  {
    forall i | 0 <= i < n {
      resid[i] := y[i];
    }
    var i := 0;
    while i < n
      invariant 0 <= i <= n
      invariant forall r :: 0 <= r < i ==> resid[r] == Residual(theta, x, y, n, p, r)
      invariant forall r :: i <= r < n ==> resid[r] == y[r]
    {
      var j := 0;
      while j < p
        invariant 0 <= j <= p
        invariant resid[i] == y[i] - RowDot(x, n, p, i, theta, j)
        invariant forall r :: 0 <= r < i ==> resid[r] == Residual(theta, x, y, n, p, r)
        invariant forall r :: i < r < n ==> resid[r] == y[r]
      {
        RowDotNext(x, n, p, i, theta, j);
        resid[i] := resid[i] - x[i + n * j] * theta[j];
        j := j + 1;
      }
      i := i + 1;
    }
  }

  /** Objective and gradient for independent data. Returns the check loss
      and writes -X' I into the first p cells of deriv. */
  method LlSD(theta: seq<real>, x: seq<real>, y: seq<real>, quantile: real, n: nat, p: nat, deriv: array<real>)
    returns (ans: real)
    requires Shaped(theta, x, y, n, p) && p <= deriv.Length
    modifies deriv
    ensures ans == Loss(theta, x, y, quantile, n, p)
    ensures deriv[..p] == Gradient(theta, x, y, quantile, n, p)
    ensures deriv[p..] == old(deriv[p..])
  {
    var resid := new real[n];
    var ind := new real[n];
    ComputeResiduals(theta, x, y, n, p, resid);
    ans := CheckLoss(theta, x, y, quantile, n, p, resid, ind);
    NegatedTransposeProduct(x, n, p, Indicators(theta, x, y, quantile, n, p), ind, deriv);
    assert forall c :: 0 <= c < p ==> deriv[..p][c] == Gradient(theta, x, y, quantile, n, p)[c];
  }

  /** The loop at lines 77-84: fills I from the signs of the residuals and
      accumulates sum_i r_i I_i. */
  method CheckLoss(theta: seq<real>, x: seq<real>, y: seq<real>, quantile: real, n: nat, p: nat,
                   resid: array<real>, ind: array<real>)
    returns (ans: real)
    requires Shaped(theta, x, y, n, p) && resid.Length == n && ind.Length == n && resid != ind
    requires forall r :: 0 <= r < n ==> resid[r] == Residual(theta, x, y, n, p, r)
    modifies ind
    ensures ind[..] == Indicators(theta, x, y, quantile, n, p)
    ensures ans == Loss(theta, x, y, quantile, n, p)
  {
    ghost var indicators := Indicators(theta, x, y, quantile, n, p);
    ans := 0.0;
    var i := 0;
    while i < n
      invariant 0 <= i <= n
      invariant forall r :: 0 <= r < i ==> ind[r] == indicators[r]
      invariant ans == WeightedResiduals(theta, x, y, n, p, indicators, i)
    {
      if resid[i] < 0.0 {
        ind[i] := quantile - 1.0;
      } else {
        ind[i] := quantile;
      }
      ResidualTerm(theta, x, y, n, p, indicators, i, resid[i], ind[i]);
      ans := ans + resid[i] * ind[i];
      i := i + 1;
    }
    assert ind[..] == indicators;
  }

  /** One step of the loss loop, in terms of the stored residual and weight. */
  lemma ResidualTerm(theta: seq<real>, x: seq<real>, y: seq<real>, n: nat, p: nat, v: seq<real>, k: nat, r: real, w: real)
    requires Shaped(theta, x, y, n, p) && k < n <= |v|
    requires r == Residual(theta, x, y, n, p, k) && w == v[k]
    ensures WeightedResiduals(theta, x, y, n, p, v, k + 1) == WeightedResiduals(theta, x, y, n, p, v, k) + r * w
  {
  }

  /** deriv[0..p) := -X' v (the dgemv at line 86); later cells are kept. */
  method NegatedTransposeProduct(x: seq<real>, n: nat, p: nat, v: seq<real>, vs: array<real>, deriv: array<real>)
    requires n * p <= |x| && |v| == n && vs[..] == v && p <= deriv.Length && vs != deriv
    modifies deriv
    ensures forall c :: 0 <= c < p ==> deriv[c] == -ColDot(x, n, p, c, v, n)
    ensures forall c :: p <= c < deriv.Length ==> deriv[c] == old(deriv[c])
  {
    var l := 0;
    while l < p
      invariant 0 <= l <= p
      invariant forall c :: 0 <= c < l ==> deriv[c] == -ColDot(x, n, p, c, v, n)
      invariant forall c :: p <= c < deriv.Length ==> deriv[c] == old(deriv[c])
    {
      var acc := 0.0;
      var k := 0;
      while k < n
        modifies {}
        invariant 0 <= k <= n
        invariant acc == ColDot(x, n, p, l, v, k)
      {
        ColumnMajor.CellInBounds(k, l, n, p);
        acc := acc + x[k + n * l] * vs[k];
        k := k + 1;
      }
      deriv[l] := -acc;
      l := l + 1;
    }
  }

  // ---------------------------------------------------------------------
  // Properties of the objective

  /** Each check-loss term is non-negative when 0 <= tau <= 1. */
  lemma TermNonNegative(r: real, tau: real)
    requires 0.0 <= tau <= 1.0
    ensures r * Indicator(r, tau) >= 0.0
  {
    if r < 0.0 {
      assert r * (tau - 1.0) == (-r) * (1.0 - tau);
    } else {
      assert r * tau >= 0.0;
    }
  }

  lemma {:induction false} WeightedResidualsNonNegative(theta: seq<real>, x: seq<real>, y: seq<real>, tau: real, n: nat, p: nat, k: nat)
    requires Shaped(theta, x, y, n, p) && k <= n && 0.0 <= tau <= 1.0
    ensures WeightedResiduals(theta, x, y, n, p, Indicators(theta, x, y, tau, n, p), k) >= 0.0
  {
    if k > 0 {
      WeightedResidualsNonNegative(theta, x, y, tau, n, p, k - 1);
      TermNonNegative(Residual(theta, x, y, n, p, k - 1), tau);
    }
  }

  /** For 0 <= tau <= 1 the objective of ll_s_d is never negative. */
  lemma LossNonNegative(theta: seq<real>, x: seq<real>, y: seq<real>, tau: real, n: nat, p: nat)
    requires Shaped(theta, x, y, n, p) && 0.0 <= tau <= 1.0
    ensures Loss(theta, x, y, tau, n, p) >= 0.0
  {
    WeightedResidualsNonNegative(theta, x, y, tau, n, p, n);
  }

  /** The two tie rules agree on the loss term and both equal the kernel
      written with an absolute value: the three likelihood routines compute
      the same check loss. */
  lemma TieRulesAgree(r: real, tau: real)
    ensures r * Indicator(r, tau) == Kernel(r, tau)
    ensures r * Phi(r, tau) == Kernel(r, tau)
  {
  }

  /** sum_{i < k} Kernel(r_i). */
  function KernelSum(theta: seq<real>, x: seq<real>, y: seq<real>, tau: real, n: nat, p: nat, k: nat): real
    requires Shaped(theta, x, y, n, p) && k <= n
  {
    if k == 0 then 0.0
    else KernelSum(theta, x, y, tau, n, p, k - 1) + Kernel(Residual(theta, x, y, n, p, k - 1), tau)
  }

  /** The objective of ll_s_d equals the sum of the absolute-value kernel. */
  lemma {:induction false} LossIsKernelSum(theta: seq<real>, x: seq<real>, y: seq<real>, tau: real, n: nat, p: nat, k: nat)
    requires Shaped(theta, x, y, n, p) && k <= n
    ensures WeightedResiduals(theta, x, y, n, p, Indicators(theta, x, y, tau, n, p), k) == KernelSum(theta, x, y, tau, n, p, k)
  {
    if k > 0 {
      LossIsKernelSum(theta, x, y, tau, n, p, k - 1);
      TieRulesAgree(Residual(theta, x, y, n, p, k - 1), tau);
    }
  }

  /** sum_{i < k} y_i v_i. */
  function ResponseDot(y: seq<real>, v: seq<real>, k: nat): real
    requires k <= |y| && k <= |v|
  {
    if k == 0 then 0.0 else ResponseDot(y, v, k - 1) + y[k - 1] * v[k - 1]
  }

  /** sum_{l < c} theta_l g_l. */
  function Dot(theta: seq<real>, g: seq<real>, c: nat): real
    requires c <= |theta| && c <= |g|
  {
    if c == 0 then 0.0 else Dot(theta, g, c - 1) + theta[c - 1] * g[c - 1]
  }

  /** sum_{l < c} theta_l * ColDot(l, v, k). */
  function ThetaCols(theta: seq<real>, x: seq<real>, n: nat, p: nat, v: seq<real>, c: nat, k: nat): real
    requires c <= p <= |theta| && k <= n <= |v| && n * p <= |x|
  {
    if c == 0 then 0.0
    else ThetaCols(theta, x, n, p, v, c - 1, k) + theta[c - 1] * ColDot(x, n, p, c - 1, v, k)
  }

  lemma ThetaColsCell(theta: seq<real>, x: seq<real>, n: nat, p: nat, v: seq<real>, c: nat, k: nat)
    requires 0 < c <= p <= |theta| && 0 < k <= n <= |v| && n * p <= |x|
    requires ThetaCols(theta, x, n, p, v, c - 1, k) == ThetaCols(theta, x, n, p, v, c - 1, k - 1) + v[k - 1] * RowDot(x, n, p, k - 1, theta, c - 1)
    ensures ThetaCols(theta, x, n, p, v, c, k) == ThetaCols(theta, x, n, p, v, c, k - 1) + v[k - 1] * RowDot(x, n, p, k - 1, theta, c)
  {
    ColumnMajor.CellInBounds(k - 1, c - 1, n, p);
    var a := x[(k - 1) + n * (c - 1)];
    var col := ColDot(x, n, p, c - 1, v, k - 1);
    var row := RowDot(x, n, p, k - 1, theta, c - 1);
    assert ColDot(x, n, p, c - 1, v, k) == col + a * v[k - 1];
    assert RowDot(x, n, p, k - 1, theta, c) == row + a * theta[c - 1];
    Distribute(theta[c - 1], col, a, v[k - 1], row);
  }

  /** Adding row k - 1 to X' v adds v_{k-1} * (X theta)_{k-1} to theta . X' v. */
  lemma {:induction false} ThetaColsStep(theta: seq<real>, x: seq<real>, n: nat, p: nat, v: seq<real>, c: nat, k: nat)
    requires c <= p <= |theta| && 0 < k <= n <= |v| && n * p <= |x|
    ensures ThetaCols(theta, x, n, p, v, c, k) == ThetaCols(theta, x, n, p, v, c, k - 1) + v[k - 1] * RowDot(x, n, p, k - 1, theta, c)
  {
    if c == 0 {
      assert v[k - 1] * 0.0 == 0.0;
    } else {
      ThetaColsStep(theta, x, n, p, v, c - 1, k);
      ThetaColsCell(theta, x, n, p, v, c, k);
    }
  }

  lemma {:induction false} ThetaColsEmpty(theta: seq<real>, x: seq<real>, n: nat, p: nat, v: seq<real>, c: nat)
    requires c <= p <= |theta| && n <= |v| && n * p <= |x|
    ensures ThetaCols(theta, x, n, p, v, c, 0) == 0.0
  {
    if c > 0 {
      ThetaColsEmpty(theta, x, n, p, v, c - 1);
    }
  }

  lemma Distribute(t: real, col: real, a: real, w: real, row: real)
    ensures t * (col + a * w) == t * col + w * (a * t)
    ensures w * (row + a * t) == w * row + w * (a * t)
  {
  }

  lemma WeightedResidualsSplitStep(theta: seq<real>, x: seq<real>, y: seq<real>, n: nat, p: nat, v: seq<real>, k: nat)
    requires Shaped(theta, x, y, n, p) && 0 < k <= n <= |v|
    requires WeightedResiduals(theta, x, y, n, p, v, k - 1) == ResponseDot(y, v, k - 1) - ThetaCols(theta, x, n, p, v, p, k - 1)
    requires ThetaCols(theta, x, n, p, v, p, k) == ThetaCols(theta, x, n, p, v, p, k - 1) + v[k - 1] * RowDot(x, n, p, k - 1, theta, p)
    ensures WeightedResiduals(theta, x, y, n, p, v, k) == ResponseDot(y, v, k) - ThetaCols(theta, x, n, p, v, p, k)
  {
    WeightedResidualsUnfold(theta, x, y, n, p, v, k);
    Distrib(y[k - 1], RowDot(x, n, p, k - 1, theta, p), v[k - 1]);
  }

  lemma WeightedResidualsUnfold(theta: seq<real>, x: seq<real>, y: seq<real>, n: nat, p: nat, v: seq<real>, k: nat)
    requires Shaped(theta, x, y, n, p) && 0 < k <= n <= |v|
    ensures WeightedResiduals(theta, x, y, n, p, v, k)
         == WeightedResiduals(theta, x, y, n, p, v, k - 1) + (y[k - 1] - RowDot(x, n, p, k - 1, theta, p)) * v[k - 1]
  {
  }

  lemma Distrib(a: real, b: real, c: real)
    ensures (a - b) * c == a * c - c * b
  {
  }

  /** sum_i r_i v_i == sum_i y_i v_i - theta . (X' v), for every weight vector v. */
  lemma {:induction false} WeightedResidualsSplit(theta: seq<real>, x: seq<real>, y: seq<real>, n: nat, p: nat, v: seq<real>, k: nat)
    requires Shaped(theta, x, y, n, p) && k <= n <= |v|
    ensures WeightedResiduals(theta, x, y, n, p, v, k) == ResponseDot(y, v, k) - ThetaCols(theta, x, n, p, v, p, k)
  {
    if k > 0 {
      WeightedResidualsSplit(theta, x, y, n, p, v, k - 1);
      ThetaColsStep(theta, x, n, p, v, p, k);
      WeightedResidualsSplitStep(theta, x, y, n, p, v, k);
    } else {
      ThetaColsEmpty(theta, x, n, p, v, p);
    }
  }

  /** theta . g == -theta . (X' v) when g == -X' v. */
  lemma {:induction false} DotNegated(theta: seq<real>, x: seq<real>, n: nat, p: nat, v: seq<real>, g: seq<real>, c: nat)
    requires c <= p <= |theta| && n <= |v| && n * p <= |x| && |g| == p
    requires forall l :: 0 <= l < p ==> g[l] == -ColDot(x, n, p, l, v, n)
    ensures Dot(theta, g, c) == -ThetaCols(theta, x, n, p, v, c, n)
  {
    if c > 0 {
      DotNegated(theta, x, n, p, v, g, c - 1);
      var col := ColDot(x, n, p, c - 1, v, n);
      assert g[c - 1] == -col;
      Negate(theta[c - 1], col);
    }
  }

  lemma Negate(a: real, d: real)
    ensures a * -d == -(a * d)
  {
  }

  /** The value of ll_s_d splits as sum_i y_i I_i + theta . deriv: with the
      signs of the residuals held fixed, the objective is linear in theta
      with slope exactly the deriv that ll_s_d returns. */
  lemma LossIsLinearInTheta(theta: seq<real>, x: seq<real>, y: seq<real>, tau: real, n: nat, p: nat)
    requires Shaped(theta, x, y, n, p)
    ensures Loss(theta, x, y, tau, n, p)
         == ResponseDot(y, Indicators(theta, x, y, tau, n, p), n) + Dot(theta, Gradient(theta, x, y, tau, n, p), p)
  {
    var ind := Indicators(theta, x, y, tau, n, p);
    WeightedResidualsSplit(theta, x, y, n, p, ind, n);
    DotNegated(theta, x, n, p, ind, Gradient(theta, x, y, tau, n, p), p);
  }

  /** Moving between two parameter vectors whose residuals have the same
      signs changes the objective by exactly the gradient's inner product
      with the move: deriv is the exact gradient on each sign region. */
  lemma LossChangeOnSignRegion(theta: seq<real>, theta2: seq<real>, x: seq<real>, y: seq<real>, tau: real, n: nat, p: nat)
    requires Shaped(theta, x, y, n, p) && |theta2| == |theta|
    requires Indicators(theta2, x, y, tau, n, p) == Indicators(theta, x, y, tau, n, p)
    ensures Gradient(theta2, x, y, tau, n, p) == Gradient(theta, x, y, tau, n, p)
    ensures Loss(theta2, x, y, tau, n, p) - Loss(theta, x, y, tau, n, p)
         == Dot(theta2, Gradient(theta, x, y, tau, n, p), p) - Dot(theta, Gradient(theta, x, y, tau, n, p), p)
  {
    LossIsLinearInTheta(theta, x, y, tau, n, p);
    LossIsLinearInTheta(theta2, x, y, tau, n, p);
  }

  // ---------------------------------------------------------------------
  // gradientSd_s

  lemma ObjectiveIsDefined(x: seq<real>, y: seq<real>, tau: real, n: nat, p: nat)
    requires n * p <= |x| && n <= |y|
    ensures LineSearch.Objective(Objective(x, y, tau, n, p), p)
  {
    var obj := Objective(x, y, tau, n, p);
    forall t: seq<real> | |t| == p
      ensures obj.requires(t) && |obj(t).grad| == p
    {
    }
  }

  /** The optimizer for independent data: the generic line search run on
      ll_s_d. theta (length p) is the start and receives the optimum. */
  method GradientSdS(theta: array<real>, x: seq<real>, y: seq<real>, quantile: real, n: nat, p: nat,
                     cfg: LineSearch.Config, deriv: array<real>)
    returns (converge: int, optimum: real)
    requires theta.Length == p && deriv.Length == p && theta != deriv
    requires n * p <= |x| && n <= |y|
    requires cfg.checkTheta == 1 ==> 1 <= p
    modifies theta, deriv
    ensures var obj := Objective(x, y, quantile, n, p);
      LineSearch.Objective(obj, p) &&
      var out := LineSearch.Run(obj, cfg, LineSearch.Start(obj, cfg, old(theta[..])), 0);
      && theta[..] == out.final.theta
      && deriv[..] == out.final.deriv
      && optimum == out.final.f0
      && converge == LineSearch.ConvergeCode(cfg.maxit, out.iter)
    ensures optimum == Loss(theta[..], x, y, quantile, n, p)
    ensures optimum <= Loss(old(theta[..]), x, y, quantile, n, p)
    ensures converge == -2 <==> cfg.maxit <= 0
    ensures converge == -1 || converge == -2 || 1 <= converge <= cfg.maxit
  {
    ObjectiveIsDefined(x, y, quantile, n, p);
    converge, optimum := LineSearch.GradientSd(theta, Objective(x, y, quantile, n, p), cfg, deriv);
  }
}
