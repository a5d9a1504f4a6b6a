/** The hierarchical objective `ll_h_d` of lqmm.c, without its
    exponential-and-logarithm part, and the optimizer `gradientSd_h`.
    For each cluster, each quadrature node k and each observation j of the
    cluster, ll_h_d forms the residual
      resid = w[j] - lin_pred_ll(k, j),   w = y - X theta_x,
    its slope phi (tau - 1 when resid <= 0, tau otherwise), adds
    cons - resid * phi / sigma to the node's value and phi times the
    derivative of the linear predictor to the node's gradient GRAD. */
module Hierarchical {
  import ColumnMajor
  import Covariance
  import Independent
  import LineSearch

  /** The shapes ll_h_d assumes of its flat, column-major inputs: X is
      N x p, z is N x q, V is Kq x q and Tq is q^2 x m. */
  predicate Sized(x: seq<real>, z: seq<real>, V: seq<real>, tq: seq<int>, N: nat, p: nat, q: nat, m: nat, Kq: nat) {
    N * p <= |x| && N * q <= |z| && Kq * q <= |V| && q * q * m <= |tq|
  }

  // ---------------------------------------------------------------------
  // The psi buffer

  /** The length ll_h_d (and ll_h_R) gives the psi buffer, as written: 1,
      then m for codes 0 and 1, then q^2 for codes 1 and 2. */
  function DimPsiAsWritten(covType: int, m: nat, q: nat): nat {
    var d0 := 1;
    var d1 := if covType == 0 || covType == 1 then m else d0;
    if covType == 1 || covType == 2 then q * q else d1
  }

  /** The length psi_mat needs: m for codes 0 and 1, q^2 for codes 2 and 3. */
  function DimPsi(covType: int, m: nat, q: nat): nat {
    if covType == 0 || covType == 1 then m
    else if covType == 2 || covType == 3 then q * q
    else 1
  }

  /** As written, pdSymm (code 3) gets a one-cell buffer while psi_mat
      writes q^2 cells into it: an overrun for every q >= 2. */
  lemma DimPsiAsWrittenOverrun(m: nat, q: nat)
    requires q >= 2
    ensures DimPsiAsWritten(3, m, q) == 1
    ensures Covariance.PsiWidth(3, m, q) == q * q >= 4
  {
    assert q * q >= 2 * q by {
      assert q * q - 2 * q == q * (q - 2);
    }
  }

  /** The corrected length holds everything psi_mat writes, for every code. */
  lemma DimPsiHoldsPsiMat(covType: int, m: nat, q: nat)
    ensures Covariance.PsiWidth(covType, m, q) <= DimPsi(covType, m, q)
  {
  }

  /** The corrected length also holds everything lin_pred_ll reads, given
      the shapes the structures have (pdDiag has m == q). */
  lemma DimPsiFits(covType: int, m: nat, q: nat, psi: seq<real>)
    requires |psi| == DimPsi(covType, m, q)
    requires covType == 0 ==> 1 <= m
    requires covType == 1 ==> q <= m
    ensures Covariance.PsiFits(covType, psi, q)
  {
  }

  /** Allocates psi with the corrected length and fills it with psi_mat. */
  method AllocatePsi(theta: seq<real>, tq: seq<int>, p: nat, q: nat, m: nat, covType: int)
    returns (psi: array<real>)
    requires p + m <= |theta|
    requires covType == 2 || covType == 3 ==> q * q * m <= |tq|
    ensures fresh(psi) && psi.Length == DimPsi(covType, m, q)
    ensures covType == 0 || covType == 1 ==> psi[..m] == theta[p..p + m]
    ensures covType == 2 || covType == 3 ==> psi[..q * q] == Covariance.PsiOf(theta, tq, p, q, m)
  {
    DimPsiHoldsPsiMat(covType, m, q);
    psi := new real[DimPsi(covType, m, q)];
    Covariance.PsiMat(theta, tq, p, q, m, covType, psi);
  }

  // ---------------------------------------------------------------------
  // w = y - X theta_x

  /** The residual loop of ll_h_d: w[i] := 0, w[i] += x[i, j] theta[j],
      w[i] := y[i] - w[i]. */
  method FixedResidual(theta: seq<real>, x: seq<real>, y: seq<real>, N: nat, p: nat, w: array<real>)
    requires Independent.Shaped(theta, x, y, N, p) && w.Length == N
    modifies w
    ensures forall i :: 0 <= i < N ==> w[i] == Independent.Residual(theta, x, y, N, p, i)
  {
    var i := 0;
    while i < N
      invariant 0 <= i <= N
      invariant forall r :: 0 <= r < i ==> w[r] == Independent.Residual(theta, x, y, N, p, r)
    {
      w[i] := 0.0;
      var j := 0;
      while j < p
        invariant 0 <= j <= p
        invariant w[i] == Independent.RowDot(x, N, p, i, theta, j)
        invariant forall r :: 0 <= r < i ==> w[r] == Independent.Residual(theta, x, y, N, p, r)
      {
        Independent.RowDotNext(x, N, p, i, theta, j);
        w[i] := w[i] + x[i + N * j] * theta[j];
        j := j + 1;
      }
      w[i] := y[i] - w[i];
      i := i + 1;
    }
  }

  // ---------------------------------------------------------------------
  // The derivative of the linear predictor

  /** sum_{l' < l} u[a] v[l'] Tq[l' + q a + base], with u the node and v the
      design row: the inner sum of TMP_VAR in the theta_z gradient, for STEPQ = a. */
  function TqInner(u: seq<real>, v: seq<real>, tq: seq<int>, q: nat, base: nat, a: nat, l: nat): real
    requires |u| == |v| == q && a < q && l <= q && base + q * q <= |tq|
  {
    if l == 0 then 0.0
    else
      ColumnMajor.CellInBounds(l - 1, a, q, q);
      TqInner(u, v, tq, q, base, a, l - 1) + u[a] * v[l - 1] * (tq[l - 1 + q * a + base] as real)
  }

  /** sum_{a' < a} TqInner(a', q): TMP_VAR after the rows STEPQ < a. */
  function TqOuter(u: seq<real>, v: seq<real>, tq: seq<int>, q: nat, base: nat, a: nat): real
    requires |u| == |v| == q && a <= q && base + q * q <= |tq|
  {
    if a == 0 then 0.0
    else TqOuter(u, v, tq, q, base, a - 1) + TqInner(u, v, tq, q, base, a - 1, q)
  }

  /** Column s of Tq starts at q^2 s and fits in Tq. */
  lemma BlockInBounds(q: nat, m: nat, s: nat)
    requires s < m
    ensures q * q * s + q * q <= q * q * m
  {
    if 0 < q {
      ColumnMajor.CellInBounds(q * q - 1, s, q * q, m);
    }
  }

  /** TMP_VAR of the theta_z gradient for STEPM = s, as ll_h_d sums it,
      for node u and design row v. */
  function TqForm(u: seq<real>, v: seq<real>, tq: seq<int>, q: nat, m: nat, s: nat): real
    requires |u| == |v| == q && s < m && q * q * m <= |tq|
  {
    BlockInBounds(q, m, s);
    TqOuter(u, v, tq, q, q * q * s, q)
  }

  /** The q^2 cells of tq from base on, as reals, are column. */
  predicate IsBlock(tq: seq<int>, q: nat, base: nat, column: seq<real>) {
    && |column| == q * q && base + q * q <= |tq|
    && forall i :: 0 <= i < q * q ==> column[i] == tq[i + base] as real
  }

  /** Column s of Tq is the block of q^2 cells starting at q^2 s. */
  lemma TqColumnIsBlock(tq: seq<int>, q: nat, m: nat, s: nat)
    requires s < m && q * q * m <= |tq|
    ensures IsBlock(tq, q, q * q * s, Covariance.TqColumn(tq, q, m, s))
  {
    BlockInBounds(q, m, s);
  }

  /** Read in place, the inner sum is a row sum of the form of the block. */
  lemma {:induction false} TqInnerIsRowSum(u: seq<real>, v: seq<real>, tq: seq<int>, q: nat, base: nat, column: seq<real>, a: nat, l: nat)
    requires |u| == |v| == q && a < q && l <= q && IsBlock(tq, q, base, column)
    ensures TqInner(u, v, tq, q, base, a, l) == Covariance.RowSum(u, v, Covariance.ColumnOf(column, q, a), a, l)
  {
    if l > 0 {
      TqInnerIsRowSum(u, v, tq, q, base, column, a, l - 1);
      Covariance.ColumnCell(column, q, a, l - 1);
    }
  }

  /** Read in place, the outer sum is the sum of the first a rows of the form. */
  lemma {:induction false} TqOuterIsSum(u: seq<real>, v: seq<real>, tq: seq<int>, q: nat, base: nat, column: seq<real>, a: nat)
    requires |u| == |v| == q && a <= q && IsBlock(tq, q, base, column)
    ensures TqOuter(u, v, tq, q, base, a) == Covariance.Sum(Covariance.RowSums(u, v, Covariance.Columns(column, q)), a)
  {
    if a > 0 {
      TqOuterIsSum(u, v, tq, q, base, column, a - 1);
      TqInnerIsRowSum(u, v, tq, q, base, column, a - 1, q);
      Covariance.RowOfColumns(u, v, column, q, a - 1);
    }
  }

  /** TMP_VAR for STEPM = s is the form of pdSymm evaluated on column s of
      Tq: the derivative of lin_pred_ll along theta_z[s]. */
  lemma TqFormIsBilinear(u: seq<real>, v: seq<real>, tq: seq<int>, q: nat, m: nat, s: nat)
    requires |u| == |v| == q && s < m && q * q * m <= |tq|
    ensures TqForm(u, v, tq, q, m, s) == Covariance.Bilinear(u, v, Covariance.TqColumn(tq, q, m, s), q)
  {
    TqColumnIsBlock(tq, q, m, s);
    TqOuterIsSum(u, v, tq, q, q * q * s, Covariance.TqColumn(tq, q, m, s), q);
  }

  /** One iteration of the inner loop, in terms of the flat buffers. */
  lemma TqInnerStep(z: seq<real>, V: seq<real>, tq: seq<int>, q: nat, N: nat, Kq: nat, k: nat, j: nat, base: nat, a: nat, l: nat)
    requires Covariance.Nodes(z, V, q, N, Kq, k, j) && a < q && l < q && base + q * q <= |tq|
    ensures 0 <= k + Kq * a < |V| && 0 <= j + N * l < |z| && 0 <= l + q * a + base < |tq|
    ensures TqInner(Covariance.NodeRow(V, q, Kq, k), Covariance.DesignRow(z, q, N, j), tq, q, base, a, l + 1)
         == TqInner(Covariance.NodeRow(V, q, Kq, k), Covariance.DesignRow(z, q, N, j), tq, q, base, a, l)
            + V[k + Kq * a] * z[j + N * l] * (tq[l + q * a + base] as real)
  {
    ColumnMajor.CellInBounds(k, a, Kq, q);
    ColumnMajor.CellInBounds(j, l, N, q);
    ColumnMajor.CellInBounds(l, a, q, q);
  }

  /** The inner loop of the theta_z gradient (over l, for STEPQ = a). */
  method TqRow(z: seq<real>, V: seq<real>, tq: seq<int>, q: nat, N: nat, Kq: nat, k: nat, j: nat,
               base: nat, a: nat, acc: real)
    returns (val: real)
    requires Covariance.Nodes(z, V, q, N, Kq, k, j) && a < q && base + q * q <= |tq|
    ensures val == acc + TqInner(Covariance.NodeRow(V, q, Kq, k), Covariance.DesignRow(z, q, N, j), tq, q, base, a, q)
  {
    ghost var u, v := Covariance.NodeRow(V, q, Kq, k), Covariance.DesignRow(z, q, N, j);
    val := acc;
    var l := 0;
    while l < q
      invariant 0 <= l <= q
      invariant val == acc + TqInner(u, v, tq, q, base, a, l)
    {
      TqInnerStep(z, V, tq, q, N, Kq, k, j, base, a, l);
      val := val + V[k + Kq * a] * z[j + N * l] * (tq[l + q * a + base] as real);
      l := l + 1;
    }
  }

  /** TMP_VAR of the theta_z gradient for STEPM = s: the double loop over
      STEPQ and l, reading column s of Tq from q^2 s on. */
  method TqCoefficient(z: seq<real>, V: seq<real>, tq: seq<int>, q: nat, m: nat, N: nat, Kq: nat, k: nat, j: nat, s: nat,
                       ghost u: seq<real>, ghost v: seq<real>)
    returns (val: real)
    requires Covariance.Nodes(z, V, q, N, Kq, k, j) && s < m && q * q * m <= |tq|
    requires u == Covariance.NodeRow(V, q, Kq, k) && v == Covariance.DesignRow(z, q, N, j)
    ensures val == TqForm(u, v, tq, q, m, s)
  {
    var base := q * q * s;
    BlockInBounds(q, m, s);
    val := 0.0;
    var a := 0;
    while a < q
      invariant 0 <= a <= q
      invariant val == TqOuter(u, v, tq, q, base, a)
    {
      val := TqRow(z, V, tq, q, N, Kq, k, j, base, a, val);
      a := a + 1;
    }
  }

  /** Cell (j, l) of the N x p matrix x. */
  function Cell(x: seq<real>, N: nat, p: nat, j: nat, l: nat): real
    requires j < N && l < p && N * p <= |x|
  {
    ColumnMajor.CellInBounds(j, l, N, p);
    x[j + N * l]
  }

  /** GRAD[l] += x[j, l] phi for the fixed effects l < p; nothing else changes. */
  method AddFixedGrad(x: seq<real>, N: nat, p: nat, j: nat, phi: real, grad: array<real>)
    requires j < N && N * p <= |x| && p <= grad.Length
    modifies grad
    ensures forall l :: 0 <= l < p ==> grad[l] == old(grad[l]) + Cell(x, N, p, j, l) * phi
    ensures forall l :: p <= l < grad.Length ==> grad[l] == old(grad[l])
  {
    var l := 0;
    while l < p
      invariant 0 <= l <= p
      invariant forall i :: 0 <= i < l ==> grad[i] == old(grad[i]) + Cell(x, N, p, j, i) * phi
      invariant forall i :: l <= i < grad.Length ==> grad[i] == old(grad[i])
    {
      ColumnMajor.CellInBounds(j, l, N, p);
      grad[l] := grad[l] + x[j + N * l] * phi;
      l := l + 1;
    }
  }

  /** GRAD[p + s] += TMP_VAR phi for each s < m; nothing else changes. */
  method AddCovGrad(z: seq<real>, V: seq<real>, tq: seq<int>, q: nat, m: nat, N: nat, Kq: nat, p: nat,
                    k: nat, j: nat, phi: real, grad: array<real>, ghost u: seq<real>, ghost v: seq<real>)
    requires Covariance.Nodes(z, V, q, N, Kq, k, j) && q * q * m <= |tq| && p + m <= grad.Length
    requires u == Covariance.NodeRow(V, q, Kq, k) && v == Covariance.DesignRow(z, q, N, j)
    modifies grad
    ensures forall l :: p <= l < p + m ==> grad[l] == old(grad[l]) + TqForm(u, v, tq, q, m, l - p) * phi
    ensures forall l :: 0 <= l < p || p + m <= l < grad.Length ==> grad[l] == old(grad[l])
  {
    var s := 0;
    while s < m
      invariant 0 <= s <= m
      invariant forall l :: p <= l < p + s ==> grad[l] == old(grad[l]) + TqForm(u, v, tq, q, m, l - p) * phi
      invariant forall l :: 0 <= l < p || p + s <= l < grad.Length ==> grad[l] == old(grad[l])
    {
      ghost var before := grad[..];
      var tmp := TqCoefficient(z, V, tq, q, m, N, Kq, k, j, s, u, v);
      grad[s + p] := grad[s + p] + tmp * phi;
      forall l | p <= l < p + s + 1
        ensures grad[l] == old(grad[l]) + TqForm(u, v, tq, q, m, l - p) * phi
      {
        if l < p + s {
          assert grad[l] == before[l];
        } else {
          assert grad[l] == before[l] + tmp * phi && l - p == s;
        }
      }
      s := s + 1;
    }
  }

  // ---------------------------------------------------------------------
  // One node k of one cluster

  /** resid = w[j] - lin_pred_ll(k, j). */
  function NodeResidual(covType: int, z: seq<real>, V: seq<real>, psi: seq<real>, w: seq<real>, q: nat, N: nat, Kq: nat,
                        k: nat, j: nat): real
    requires Covariance.Nodes(z, V, q, N, Kq, k, j) && N <= |w| && Covariance.PsiFits(covType, psi, q)
  {
    w[j] - Covariance.LinPred(covType, z, V, psi, q, N, Kq, k, j)
  }

  /** The residuals of all N observations at node k. */
  function Residuals(covType: int, z: seq<real>, V: seq<real>, psi: seq<real>, w: seq<real>, q: nat, N: nat, Kq: nat,
                     k: nat): (rs: seq<real>)
    requires k < Kq && N * q <= |z| && Kq * q <= |V| && N <= |w| && Covariance.PsiFits(covType, psi, q)
    ensures |rs| == N
  {
    seq(N, j requires 0 <= j < N => NodeResidual(covType, z, V, psi, w, q, N, Kq, k, j))
  }

  /** What observation j with residual r adds to the node value. */
  function Term(r: real, tau: real, sigma: real, cons: real): real
    requires sigma != 0.0
  {
    cons - (1.0 / sigma) * r * Independent.Phi(r, tau)
  }

  /** The node value after the observations ls .. j - 1 with residuals rs. */
  function NodeValue(rs: seq<real>, tau: real, sigma: real, cons: real, ls: nat, j: nat): real
    requires ls <= j <= |rs| && sigma != 0.0
    decreases j
  {
    if j == ls then 0.0
    else NodeValue(rs, tau, sigma, cons, ls, j - 1) + Term(rs[j - 1], tau, sigma, cons)
  }

  /** GRAD[l] for a fixed effect l < p after the observations ls .. j - 1:
      the sum of x[j, l] phi_j. */
  function FixedGradSum(x: seq<real>, N: nat, p: nat, rs: seq<real>, tau: real, ls: nat, j: nat, l: nat): real
    requires N * p <= |x| && |rs| == N && ls <= j <= N && l < p
    decreases j
  {
    if j == ls then 0.0
    else FixedGradSum(x, N, p, rs, tau, ls, j - 1, l) + Cell(x, N, p, j - 1, l) * Independent.Phi(rs[j - 1], tau)
  }

  /** GRAD[l] for theta_z[l - p] at node u after the observations
      ls .. j - 1: the sum of TqForm(l - p) phi_j, TqForm being
      d lin_pred / d theta_z[l - p]. */
  function CovGradSum(u: seq<real>, z: seq<real>, tq: seq<int>, N: nat, p: nat, q: nat, m: nat,
                      rs: seq<real>, tau: real, ls: nat, j: nat, l: nat): real
    requires |u| == q && N * q <= |z| && q * q * m <= |tq|
    requires |rs| == N && ls <= j <= N && p <= l < p + m
    decreases j
  {
    if j == ls then 0.0
    else CovGradSum(u, z, tq, N, p, q, m, rs, tau, ls, j - 1, l)
         + TqForm(u, Covariance.DesignRow(z, q, N, j - 1), tq, q, m, l - p) * Independent.Phi(rs[j - 1], tau)
  }

  /** g holds g0 plus the fixed-effect sums over ls .. j - 1 in its first p cells. */
  predicate FixedGradIs(g: seq<real>, g0: seq<real>, x: seq<real>, N: nat, p: nat, rs: seq<real>, tau: real, ls: nat, j: nat)
    requires N * p <= |x| && |rs| == N && ls <= j <= N
  {
    p <= |g| && p <= |g0| && forall l :: 0 <= l < p ==> g[l] == g0[l] + FixedGradSum(x, N, p, rs, tau, ls, j, l)
  }

  /** g holds g0 plus the theta_z sums over ls .. j - 1 in cells p .. p + m - 1. */
  predicate CovGradIs(g: seq<real>, g0: seq<real>, u: seq<real>, z: seq<real>, tq: seq<int>, N: nat, p: nat, q: nat, m: nat,
                      rs: seq<real>, tau: real, ls: nat, j: nat)
    requires |u| == q && N * q <= |z| && q * q * m <= |tq| && |rs| == N && ls <= j <= N
  {
    p + m <= |g| && p + m <= |g0|
    && forall l :: p <= l < p + m ==> g[l] == g0[l] + CovGradSum(u, z, tq, N, p, q, m, rs, tau, ls, j, l)
  }

  /** g is g0 with x[j, l] phi added to each of its first p cells. */
  predicate FixedAdded(g: seq<real>, g0: seq<real>, x: seq<real>, N: nat, p: nat, j: nat, phi: real)
    requires j < N && N * p <= |x|
  {
    p <= |g| && p <= |g0| && forall l :: 0 <= l < p ==> g[l] == g0[l] + Cell(x, N, p, j, l) * phi
  }

  /** g is g0 with TqForm(l - p) phi added to each cell l in p .. p + m - 1. */
  predicate CovAdded(g: seq<real>, g0: seq<real>, u: seq<real>, v: seq<real>, tq: seq<int>, q: nat, m: nat, p: nat, phi: real)
    requires |u| == |v| == q && q * q * m <= |tq|
  {
    p + m <= |g| && p + m <= |g0| && forall l :: p <= l < p + m ==> g[l] == g0[l] + TqForm(u, v, tq, q, m, l - p) * phi
  }

  /** Observation j moves the fixed-effect sums from ls .. j - 1 to ls .. j. */
  lemma FixedAdvance(x: seq<real>, N: nat, p: nat, rs: seq<real>, tau: real, ls: nat, j: nat, phi: real,
                     g0: seq<real>, before: seq<real>, after: seq<real>)
    requires N * p <= |x| && |rs| == N && ls <= j < N && phi == Independent.Phi(rs[j], tau)
    requires FixedGradIs(before, g0, x, N, p, rs, tau, ls, j) && FixedAdded(after, before, x, N, p, j, phi)
    ensures FixedGradIs(after, g0, x, N, p, rs, tau, ls, j + 1)
  {
    forall l | 0 <= l < p
      ensures after[l] == g0[l] + FixedGradSum(x, N, p, rs, tau, ls, j + 1, l)
    {
      assert after[l] == before[l] + Cell(x, N, p, j, l) * phi;
    }
  }

  /** Observation j moves the theta_z sums from ls .. j - 1 to ls .. j. */
  lemma CovAdvance(u: seq<real>, z: seq<real>, tq: seq<int>, N: nat, p: nat, q: nat, m: nat,
                   rs: seq<real>, tau: real, ls: nat, j: nat, phi: real, g0: seq<real>, before: seq<real>, after: seq<real>)
    requires |u| == q && N * q <= |z| && q * q * m <= |tq|
    requires |rs| == N && ls <= j < N && phi == Independent.Phi(rs[j], tau)
    requires CovGradIs(before, g0, u, z, tq, N, p, q, m, rs, tau, ls, j)
    requires CovAdded(after, before, u, Covariance.DesignRow(z, q, N, j), tq, q, m, p, phi)
    ensures CovGradIs(after, g0, u, z, tq, N, p, q, m, rs, tau, ls, j + 1)
  {
    forall l | p <= l < p + m
      ensures after[l] == g0[l] + CovGradSum(u, z, tq, N, p, q, m, rs, tau, ls, j + 1, l)
    {
      assert after[l] == before[l] + TqForm(u, Covariance.DesignRow(z, q, N, j), tq, q, m, l - p) * phi;
    }
  }

  /** The body of the loop over j: the residual, its slope phi, the value
      and the gradient of observation j at node k. */
  method Observation(covType: int, x: seq<real>, z: seq<real>, V: seq<real>, tq: seq<int>, psi: seq<real>, w: seq<real>,
                     N: nat, p: nat, q: nat, m: nat, Kq: nat, tau: real, sigma: real, cons: real,
                     k: nat, j: nat, val0: real, grad: array<real>, ghost u: seq<real>, ghost v: seq<real>)
    returns (val: real, resid: real, phi: real)
    requires Sized(x, z, V, tq, N, p, q, m, Kq) && k < Kq && j < N && N <= |w| && Covariance.PsiFits(covType, psi, q)
    requires u == Covariance.NodeRow(V, q, Kq, k) && v == Covariance.DesignRow(z, q, N, j)
    requires sigma != 0.0 && grad.Length == p + m
    modifies grad
    ensures resid == NodeResidual(covType, z, V, psi, w, q, N, Kq, k, j) && phi == Independent.Phi(resid, tau)
    ensures val == val0 + Term(resid, tau, sigma, cons)
    ensures FixedAdded(grad[..], old(grad[..]), x, N, p, j, phi)
    ensures CovAdded(grad[..], old(grad[..]), u, v, tq, q, m, p, phi)
  {
    var lp := Covariance.LinPredLl(covType, z, V, psi, q, N, Kq, k, j);
    resid := w[j] - lp;
    phi := tau;
    if resid <= 0.0 {
      phi := tau - 1.0;
    }
    assert phi == Independent.Phi(resid, tau);
    val := val0 + (cons - (1.0 / sigma) * resid * phi);
    AddFixedGrad(x, N, p, j, phi, grad);
    AddCovGrad(z, V, tq, q, m, N, Kq, p, k, j, phi, grad, u, v);
  }

  /** One pass of the loop over j, stated as the step from the sums over
      ls .. j - 1 to the sums over ls .. j; g0 is GRAD before the loop. */
  method NodeStep(covType: int, x: seq<real>, z: seq<real>, V: seq<real>, tq: seq<int>, psi: seq<real>, w: seq<real>,
                  N: nat, p: nat, q: nat, m: nat, Kq: nat, tau: real, sigma: real, cons: real,
                  k: nat, ls: nat, j: nat, val0: real, grad: array<real>,
                  ghost rs: seq<real>, ghost u: seq<real>, ghost g0: seq<real>)
    returns (val: real)
    requires Sized(x, z, V, tq, N, p, q, m, Kq) && k < Kq && N <= |w| && Covariance.PsiFits(covType, psi, q)
    requires ls <= j < N && sigma != 0.0 && grad.Length == p + m
    requires rs == Residuals(covType, z, V, psi, w, q, N, Kq, k) && u == Covariance.NodeRow(V, q, Kq, k)
    requires val0 == NodeValue(rs, tau, sigma, cons, ls, j)
    requires FixedGradIs(grad[..], g0, x, N, p, rs, tau, ls, j)
    requires CovGradIs(grad[..], g0, u, z, tq, N, p, q, m, rs, tau, ls, j)
    modifies grad
    ensures val == NodeValue(rs, tau, sigma, cons, ls, j + 1)
    ensures FixedGradIs(grad[..], g0, x, N, p, rs, tau, ls, j + 1)
    ensures CovGradIs(grad[..], g0, u, z, tq, N, p, q, m, rs, tau, ls, j + 1)
  {
    ghost var before := grad[..];
    var resid, phi;
    val, resid, phi := Observation(covType, x, z, V, tq, psi, w, N, p, q, m, Kq, tau, sigma, cons, k, j, val0, grad,
                                   u, Covariance.DesignRow(z, q, N, j));
    assert rs[j] == resid;
    FixedAdvance(x, N, p, rs, tau, ls, j, phi, g0, before, grad[..]);
    CovAdvance(u, z, tq, N, p, q, m, rs, tau, ls, j, phi, g0, before, grad[..]);
  }

  /** The loop over the observations ls .. le - 1 of a cluster at node k:
      val starts at 0 and GRAD accumulates the coefficient of theta[l] times phi. */
  method Node(covType: int, x: seq<real>, z: seq<real>, V: seq<real>, tq: seq<int>, psi: seq<real>, w: seq<real>,
              N: nat, p: nat, q: nat, m: nat, Kq: nat, tau: real, sigma: real, cons: real,
              k: nat, ls: nat, le: nat, grad: array<real>)
    returns (val: real)
    requires Sized(x, z, V, tq, N, p, q, m, Kq) && k < Kq && N <= |w| && Covariance.PsiFits(covType, psi, q)
    requires ls <= le <= N && sigma != 0.0 && grad.Length == p + m
    modifies grad
    ensures var rs, u := Residuals(covType, z, V, psi, w, q, N, Kq, k), Covariance.NodeRow(V, q, Kq, k);
      && val == NodeValue(rs, tau, sigma, cons, ls, le)
      && FixedGradIs(grad[..], old(grad[..]), x, N, p, rs, tau, ls, le)
      && CovGradIs(grad[..], old(grad[..]), u, z, tq, N, p, q, m, rs, tau, ls, le)
  {
    ghost var rs, u := Residuals(covType, z, V, psi, w, q, N, Kq, k), Covariance.NodeRow(V, q, Kq, k);
    ghost var g0 := grad[..];
    val := 0.0;
    var j := ls;
    while j < le
      invariant ls <= j <= le
      invariant val == NodeValue(rs, tau, sigma, cons, ls, j)
      invariant FixedGradIs(grad[..], g0, x, N, p, rs, tau, ls, j)
      invariant CovGradIs(grad[..], g0, u, z, tq, N, p, q, m, rs, tau, ls, j)
    {
      val := NodeStep(covType, x, z, V, tq, psi, w, N, p, q, m, Kq, tau, sigma, cons, k, ls, j, val, grad, rs, u, g0);
      j := j + 1;
    }
  }

  // ---------------------------------------------------------------------
  // What the node loop computes

  /** sum_{i in ls .. j - 1} Kernel(rs[i]): the check loss of the
      observations of the cluster. */
  function NodeKernelSum(rs: seq<real>, tau: real, ls: nat, j: nat): real
    requires ls <= j <= |rs|
    decreases j
  {
    if j == ls then 0.0
    else NodeKernelSum(rs, tau, ls, j - 1) + Independent.Kernel(rs[j - 1], tau)
  }

  /** Both tie rules give the same term: cons minus the kernel over sigma. */
  lemma TermIsKernel(r: real, tau: real, sigma: real, cons: real)
    requires sigma != 0.0
    ensures Term(r, tau, sigma, cons) == cons - (1.0 / sigma) * Independent.Kernel(r, tau)
  {
    Independent.TieRulesAgree(r, tau);
  }

  lemma Regroup(a: real, b: real, c: real, d: real, t: real, n0: real, n: real)
    requires a == n0 * c - t * b && n == n0 + 1.0
    ensures a + (c - t * d) == n * c - t * (b + d)
  {
  }

  /** The value ll_h_d accumulates for a node is the number of observations
      times cons minus the check loss of their residuals over sigma. */
  lemma {:induction false} NodeValueIsKernelSum(rs: seq<real>, tau: real, sigma: real, cons: real, ls: nat, j: nat)
    requires ls <= j <= |rs| && sigma != 0.0
    ensures NodeValue(rs, tau, sigma, cons, ls, j) == (j - ls) as real * cons - (1.0 / sigma) * NodeKernelSum(rs, tau, ls, j)
  {
    if j > ls {
      NodeValueIsKernelSum(rs, tau, sigma, cons, ls, j - 1);
      NodeValueStep(rs, tau, sigma, cons, ls, j);
    }
  }

  /** The inductive step of NodeValueIsKernelSum: observation j - 1 adds
      cons to the first part and its kernel to the second. */
  lemma NodeValueStep(rs: seq<real>, tau: real, sigma: real, cons: real, ls: nat, j: nat)
    requires ls < j <= |rs| && sigma != 0.0
    requires NodeValue(rs, tau, sigma, cons, ls, j - 1)
          == (j - 1 - ls) as real * cons - (1.0 / sigma) * NodeKernelSum(rs, tau, ls, j - 1)
    ensures NodeValue(rs, tau, sigma, cons, ls, j) == (j - ls) as real * cons - (1.0 / sigma) * NodeKernelSum(rs, tau, ls, j)
  {
    TermIsKernel(rs[j - 1], tau, sigma, cons);
    Regroup(NodeValue(rs, tau, sigma, cons, ls, j - 1), NodeKernelSum(rs, tau, ls, j - 1), cons,
            Independent.Kernel(rs[j - 1], tau), 1.0 / sigma, (j - 1 - ls) as real, (j - ls) as real);
  }

  /** For 0 <= tau <= 1 the check loss of a node is never negative. */
  lemma {:induction false} NodeKernelSumNonNegative(rs: seq<real>, tau: real, ls: nat, j: nat)
    requires ls <= j <= |rs| && 0.0 <= tau <= 1.0
    ensures NodeKernelSum(rs, tau, ls, j) >= 0.0
  {
    if j > ls {
      NodeKernelSumNonNegative(rs, tau, ls, j - 1);
      Independent.TermNonNegative(rs[j - 1], tau);
      Independent.TieRulesAgree(rs[j - 1], tau);
    }
  }

  /** With sigma > 0 and 0 <= tau <= 1 the node value never exceeds the
      number of observations times cons: the asymmetric Laplace density of
      each observation is at most its normalising constant. */
  lemma NodeValueBound(rs: seq<real>, tau: real, sigma: real, cons: real, ls: nat, le: nat)
    requires ls <= le <= |rs| && sigma > 0.0 && 0.0 <= tau <= 1.0
    ensures NodeValue(rs, tau, sigma, cons, ls, le) <= (le - ls) as real * cons
  {
    NodeValueIsKernelSum(rs, tau, sigma, cons, ls, le);
    NodeKernelSumNonNegative(rs, tau, ls, le);
    assert (1.0 / sigma) * NodeKernelSum(rs, tau, ls, le) >= 0.0;
  }

  // ---------------------------------------------------------------------
  // The residual is linear in theta

  /** sum_{s < c} theta_z[s] TqForm(s): the random-effects part of the
      linear predictor for node u and design row v, over the first c
      entries of theta_z. */
  function CovPredictor(u: seq<real>, v: seq<real>, theta: seq<real>, tq: seq<int>, p: nat, q: nat, m: nat, c: nat): real
    requires |u| == |v| == q && c <= m && p + m <= |theta| && q * q * m <= |tq|
  {
    if c == 0 then 0.0
    else CovPredictor(u, v, theta, tq, p, q, m, c - 1) + theta[p + (c - 1)] * TqForm(u, v, tq, q, m, c - 1)
  }

  lemma {:induction false} CovPredictorIsContributions(u: seq<real>, v: seq<real>, theta: seq<real>, tq: seq<int>,
                                                       p: nat, q: nat, m: nat, c: nat)
    requires |u| == |v| == q && c <= m && p + m <= |theta| && q * q * m <= |tq|
    ensures CovPredictor(u, v, theta, tq, p, q, m, c) == Covariance.ColumnContributions(u, v, theta, tq, p, q, m, c)
  {
    if c > 0 {
      CovPredictorIsContributions(u, v, theta, tq, p, q, m, c - 1);
      CovPredictorStep(u, v, theta, tq, p, q, m, c);
    }
  }

  /** The inductive step of CovPredictorIsContributions: column c - 1 adds
      the same term to both sums. */
  lemma CovPredictorStep(u: seq<real>, v: seq<real>, theta: seq<real>, tq: seq<int>, p: nat, q: nat, m: nat, c: nat)
    requires |u| == |v| == q && 0 < c <= m && p + m <= |theta| && q * q * m <= |tq|
    requires CovPredictor(u, v, theta, tq, p, q, m, c - 1) == Covariance.ColumnContributions(u, v, theta, tq, p, q, m, c - 1)
    ensures CovPredictor(u, v, theta, tq, p, q, m, c) == Covariance.ColumnContributions(u, v, theta, tq, p, q, m, c)
  {
    TqFormIsBilinear(u, v, tq, q, m, c - 1);
  }

  /** For pdCompSymm and pdSymm, with w = y - X theta_x and psi = psi_mat(theta),
      the residual of ll_h_d is y_j minus a linear function of theta whose
      coefficient of theta[l] is x[j, l] for l < p (RowDot) and
      TqForm(l - p) for l >= p: exactly the coefficients GRAD accumulates. */
  lemma ResidualIsLinear(covType: int, theta: seq<real>, x: seq<real>, y: seq<real>, z: seq<real>, V: seq<real>,
                         tq: seq<int>, w: seq<real>, N: nat, p: nat, q: nat, m: nat, Kq: nat, k: nat, j: nat)
    requires covType == 2 || covType == 3
    requires Sized(x, z, V, tq, N, p, q, m, Kq) && p + m <= |theta| && N <= |y| && k < Kq && j < N
    requires N <= |w| && w[j] == Independent.Residual(theta, x, y, N, p, j)
    ensures Covariance.PsiFits(covType, Covariance.PsiOf(theta, tq, p, q, m), q)
    ensures NodeResidual(covType, z, V, Covariance.PsiOf(theta, tq, p, q, m), w, q, N, Kq, k, j)
         == y[j] - Independent.RowDot(x, N, p, j, theta, p)
            - CovPredictor(Covariance.NodeRow(V, q, Kq, k), Covariance.DesignRow(z, q, N, j), theta, tq, p, q, m, m)
  {
    Covariance.LinPredOfPsiMat(covType, z, V, theta, tq, p, q, m, N, Kq, k, j);
    CovPredictorIsContributions(Covariance.NodeRow(V, q, Kq, k), Covariance.DesignRow(z, q, N, j), theta, tq, p, q, m, m);
  }

  // ---------------------------------------------------------------------
  // gradientSd_h

  /** gradientSd_h: the optimizer run on the hierarchical objective over
      the p + m parameters (theta_x, theta_z). The objective (ll_h_d,
      exponential part included) is a parameter. */
  method GradientSdH(theta: array<real>, obj: seq<real> --> LineSearch.Eval, p: nat, m: nat,
                     cfg: LineSearch.Config, deriv: array<real>)
    returns (converge: int, optimum: real)
    requires theta.Length == p + m && deriv.Length == p + m && theta != deriv
    requires LineSearch.Objective(obj, p + m)
    requires cfg.checkTheta == 1 ==> 1 <= p + m
    modifies theta, deriv
    ensures var out := LineSearch.Run(obj, cfg, LineSearch.Start(obj, cfg, old(theta[..])), 0);
      && theta[..] == out.final.theta
      && deriv[..] == out.final.deriv
      && optimum == out.final.f0
      && converge == LineSearch.ConvergeCode(cfg.maxit, out.iter)
    ensures optimum == obj(theta[..]).value
    ensures optimum <= obj(old(theta[..])).value
    ensures converge == -2 <==> cfg.maxit <= 0
    ensures converge == -1 || converge == -2 || 1 <= converge <= cfg.maxit
  {
    converge, optimum := LineSearch.GradientSd(theta, obj, cfg, deriv);
  }
}
