/** The random-effects covariance of lqmm.c. The covariance parameters
    theta_z sit after the p fixed effects in theta; psi_mat turns them into
    the buffer psi, and lin_pred_ll evaluates the linear predictor
    sum_{a,l} V[k, a] * z[j, l] * Psi[l, a] of observation j at quadrature
    node k for one of four structures:
      0 pdIdent    Psi = psi[0] * I
      1 pdDiag     Psi = diag(psi[0..q))
      2 pdCompSymm Psi = the q x q matrix Tq theta_z
      3 pdSymm     Psi = the q x q matrix Tq theta_z
    z is the N x q random-effects design, V the Kq x q matrix of nodes and Tq
    the q^2 x m duplication matrix, all flat and column-major. */
module Covariance {
  import ColumnMajor

  // ---------------------------------------------------------------------
  // psi_mat

  /** How many leading cells of psi the structure fills: m for pdIdent and
      pdDiag, q^2 for pdCompSymm and pdSymm, none for any other code. */
  function PsiWidth(covType: int, m: nat, q: nat): nat {
    if covType == 0 || covType == 1 then m
    else if covType == 2 || covType == 3 then q * q
    else 0
  }

  /** sum_{s < c} Tq[i + qsq * s] * theta[p + s]: cell i of Tq theta_z over
      the first c columns of Tq. */
  function TqDot(theta: seq<real>, tq: seq<int>, p: nat, qsq: nat, m: nat, i: nat, c: nat): real
    requires i < qsq && c <= m && p + m <= |theta| && qsq * m <= |tq|
  {
    if c == 0 then 0.0
    else
      ColumnMajor.CellInBounds(i, c - 1, qsq, m);
      TqDot(theta, tq, p, qsq, m, i, c - 1) + (tq[i + qsq * (c - 1)] as real) * theta[(c - 1) + p]
  }

  /** Tq theta_z restricted to the first c entries of theta_z. */
  function PsiPrefix(theta: seq<real>, tq: seq<int>, p: nat, q: nat, m: nat, c: nat): (psi: seq<real>)
    requires c <= m && p + m <= |theta| && q * q * m <= |tq|
    ensures |psi| == q * q
  {
    seq(q * q, i requires 0 <= i < q * q => TqDot(theta, tq, p, q * q, m, i, c))
  }

  /** The matrix psi_mat writes for pdCompSymm and pdSymm: Tq theta_z. */
  function PsiOf(theta: seq<real>, tq: seq<int>, p: nat, q: nat, m: nat): (psi: seq<real>)
    requires p + m <= |theta| && q * q * m <= |tq|
    ensures |psi| == q * q
  {
    PsiPrefix(theta, tq, p, q, m, m)
  }

  /** Column s of Tq, as the q x q matrix it contributes to Psi per unit of theta_z[s]. */
  function TqColumn(tq: seq<int>, q: nat, m: nat, s: nat): (col: seq<real>)
    requires s < m && q * q * m <= |tq|
    ensures |col| == q * q
  {
    seq(q * q, i requires 0 <= i < q * q =>
      ColumnMajor.CellInBounds(i, s, q * q, m);
      tq[i + q * q * s] as real)
  }

  /** psi[0..m) := theta_z, for pdIdent and pdDiag. */
  method CopyThetaZ(theta: seq<real>, p: nat, m: nat, psi: array<real>)
    requires p + m <= |theta| && m <= psi.Length
    modifies psi
    ensures psi[..m] == theta[p..p + m]
    ensures psi[m..] == old(psi[m..])
  {
    var j := 0;
    while j < m
      invariant 0 <= j <= m
      invariant forall r :: 0 <= r < j ==> psi[r] == theta[r + p]
      invariant forall r :: m <= r < psi.Length ==> psi[r] == old(psi[r])
    {
      psi[j] := theta[j + p];
      j := j + 1;
    }
    assert forall r :: 0 <= r < m ==> psi[..m][r] == theta[p..p + m][r];
  }

  /** The inner loop of psi_mat for pdCompSymm and pdSymm: psi[i] := cell i of Tq theta_z. */
  method TqRowTimesThetaZ(theta: seq<real>, tq: seq<int>, p: nat, qsq: nat, m: nat, i: nat, psi: array<real>)
    requires p + m <= |theta| && qsq * m <= |tq| && i < qsq <= psi.Length
    modifies psi
    ensures psi[i] == TqDot(theta, tq, p, qsq, m, i, m)
    ensures forall r :: 0 <= r < psi.Length && r != i ==> psi[r] == old(psi[r])
  {
    psi[i] := 0.0;
    var j := 0;
    while j < m
      invariant 0 <= j <= m
      invariant psi[i] == TqDot(theta, tq, p, qsq, m, i, j)
      invariant forall r :: 0 <= r < psi.Length && r != i ==> psi[r] == old(psi[r])
    {
      ColumnMajor.CellInBounds(i, j, qsq, m);
      psi[i] := psi[i] + (tq[i + qsq * j] as real) * theta[j + p];
      j := j + 1;
    }
  }

  /** psi[0..q^2) := Tq theta_z, for pdCompSymm and pdSymm. */
  method TqTimesThetaZ(theta: seq<real>, tq: seq<int>, p: nat, q: nat, m: nat, psi: array<real>)
    requires p + m <= |theta| && q * q * m <= |tq| && q * q <= psi.Length
    modifies psi
    ensures psi[..q * q] == PsiOf(theta, tq, p, q, m)
    ensures psi[q * q..] == old(psi[q * q..])
  {
    var qsq := q * q;
    var i := 0;
    while i < qsq
      invariant 0 <= i <= qsq
      invariant forall r :: 0 <= r < i ==> psi[r] == TqDot(theta, tq, p, qsq, m, r, m)
      invariant forall r :: qsq <= r < psi.Length ==> psi[r] == old(psi[r])
    {
      TqRowTimesThetaZ(theta, tq, p, qsq, m, i, psi);
      i := i + 1;
    }
    assert forall r :: 0 <= r < qsq ==> psi[..qsq][r] == PsiOf(theta, tq, p, q, m)[r];
  }

  /** psi_mat: fills psi from theta_z according to the structure code and
      leaves every other cell, and the whole buffer for an unknown code, as
      it was. */
  method PsiMat(theta: seq<real>, tq: seq<int>, p: nat, q: nat, m: nat, covType: int, psi: array<real>)
    requires p + m <= |theta|
    requires covType == 2 || covType == 3 ==> q * q * m <= |tq|
    requires PsiWidth(covType, m, q) <= psi.Length
    modifies psi
    ensures covType == 0 || covType == 1 ==> psi[..m] == theta[p..p + m]
    ensures covType == 2 || covType == 3 ==> psi[..q * q] == PsiOf(theta, tq, p, q, m)
    ensures psi[PsiWidth(covType, m, q)..] == old(psi[PsiWidth(covType, m, q)..])
  {
    if covType == 0 {
      CopyThetaZ(theta, p, m, psi);
    }
    if covType == 1 {
      CopyThetaZ(theta, p, m, psi);
    }
    if covType == 2 {
      TqTimesThetaZ(theta, tq, p, q, m, psi);
    }
    if covType == 3 {
      TqTimesThetaZ(theta, tq, p, q, m, psi);
    }
  }

  // ---------------------------------------------------------------------
  // The linear predictor

  /** Node k and observation j exist in V (Kq x q) and z (N x q). */
  predicate Nodes(z: seq<real>, V: seq<real>, q: nat, N: nat, Kq: nat, k: nat, j: nat) {
    k < Kq && j < N && Kq * q <= |V| && N * q <= |z|
  }

  /** Row k of V: the quadrature node k. */
  function NodeRow(V: seq<real>, q: nat, Kq: nat, k: nat): (u: seq<real>)
    requires k < Kq && Kq * q <= |V|
    ensures |u| == q
  {
    seq(q, a requires 0 <= a < q =>
      ColumnMajor.CellInBounds(k, a, Kq, q);
      V[k + Kq * a])
  }

  /** Row j of z: the random-effects covariates of observation j. */
  function DesignRow(z: seq<real>, q: nat, N: nat, j: nat): (v: seq<real>)
    requires j < N && N * q <= |z|
    ensures |v| == q
  {
    seq(q, l requires 0 <= l < q =>
      ColumnMajor.CellInBounds(j, l, N, q);
      z[j + N * l])
  }

  /** sum_{l < c} u[l] v[l]. */
  function Dot(u: seq<real>, v: seq<real>, c: nat): real
    requires c <= |u| == |v|
  {
    if c == 0 then 0.0 else Dot(u, v, c - 1) + u[c - 1] * v[c - 1]
  }

  /** pdIdent over the first c random effects: sum_{l < c} u[l] v[l] psi[0]. */
  function IdentSum(u: seq<real>, v: seq<real>, psi: seq<real>, c: nat): real
    requires c <= |u| == |v| && (c > 0 ==> 1 <= |psi|)
  {
    if c == 0 then 0.0 else IdentSum(u, v, psi, c - 1) + u[c - 1] * v[c - 1] * psi[0]
  }

  /** pdDiag over the first c random effects: sum_{l < c} u[l] v[l] psi[l]. */
  function DiagSum(u: seq<real>, v: seq<real>, psi: seq<real>, c: nat): real
    requires c <= |u| == |v| && c <= |psi|
  {
    if c == 0 then 0.0 else DiagSum(u, v, psi, c - 1) + u[c - 1] * v[c - 1] * psi[c - 1]
  }

  /** Column a of the q x q matrix stored column-major in psi. */
  function ColumnOf(psi: seq<real>, q: nat, a: nat): (col: seq<real>)
    requires a < q && q * q <= |psi|
    ensures |col| == q
  {
    seq(q, l requires 0 <= l < q =>
      ColumnMajor.CellInBounds(l, a, q, q);
      psi[l + q * a])
  }

  lemma ColumnCell(psi: seq<real>, q: nat, a: nat, l: nat)
    requires a < q && l < q && q * q <= |psi|
    ensures 0 <= l + q * a < q * q <= |psi|
    ensures ColumnOf(psi, q, a)[l] == psi[l + q * a]
  {
    ColumnMajor.CellInBounds(l, a, q, q);
  }

  /** Row a of the bilinear form over the first c entries of column a:
      sum_{l < c} u[a] v[l] col[l]. */
  function RowSum(u: seq<real>, v: seq<real>, col: seq<real>, a: nat, c: nat): real
    requires a < |u| && c <= |v| && c <= |col|
  {
    if c == 0 then 0.0 else RowSum(u, v, col, a, c - 1) + u[a] * v[c - 1] * col[c - 1]
  }

  /** The q columns of the q x q matrix psi. */
  function Columns(psi: seq<real>, q: nat): (cols: seq<seq<real>>)
    requires q * q <= |psi|
    ensures |cols| == q
    ensures forall a :: 0 <= a < q ==> |cols[a]| == q
  {
    seq(q, a requires 0 <= a < q => ColumnOf(psi, q, a))
  }

  /** A matrix given by columns, each at least as long as v. */
  predicate Tall(v: seq<real>, cols: seq<seq<real>>) {
    forall a :: 0 <= a < |cols| ==> |v| <= |cols[a]|
  }

  /** sum_{i < n} s[i]. */
  function Sum(s: seq<real>, n: nat): real
    requires n <= |s|
  {
    if n == 0 then 0.0 else Sum(s, n - 1) + s[n - 1]
  }

  /** The rows of the form of a matrix given by columns: row a is
      sum_{l < |v|} u[a] v[l] cols[a][l]. */
  function RowSums(u: seq<real>, v: seq<real>, cols: seq<seq<real>>): (rows: seq<real>)
    requires |cols| <= |u| && Tall(v, cols)
    ensures |rows| == |cols|
  {
    seq(|cols|, a requires 0 <= a < |cols| => RowSum(u, v, cols[a], a, |v|))
  }

  /** Row a of the form of psi is the row sum over column a of psi. */
  lemma RowOfColumns(u: seq<real>, v: seq<real>, psi: seq<real>, q: nat, a: nat)
    requires |u| == |v| == q && a < q && q * q <= |psi|
    ensures RowSums(u, v, Columns(psi, q))[a] == RowSum(u, v, ColumnOf(psi, q, a), a, q)
  {
  }

  /** The bilinear form of pdCompSymm and pdSymm: sum_{a, l < q} u[a] v[l] Psi[l, a]. */
  function Bilinear(u: seq<real>, v: seq<real>, psi: seq<real>, q: nat): real
    requires |u| == |v| == q && q * q <= |psi|
  {
    Sum(RowSums(u, v, Columns(psi, q)), q)
  }

  /** psi is large enough for what lin_pred_ll reads under the structure code. */
  predicate PsiFits(covType: int, psi: seq<real>, q: nat) {
    && (covType == 0 ==> q == 0 || 1 <= |psi|)
    && (covType == 1 ==> q <= |psi|)
    && (covType == 2 || covType == 3 ==> q * q <= |psi|)
  }

  /** The value of lin_pred_ll at node k and observation j. */
  function LinPred(covType: int, z: seq<real>, V: seq<real>, psi: seq<real>, q: nat, N: nat, Kq: nat, k: nat, j: nat): real
    requires Nodes(z, V, q, N, Kq, k, j) && PsiFits(covType, psi, q)
  {
    var u, v := NodeRow(V, q, Kq, k), DesignRow(z, q, N, j);
    if covType == 0 then IdentSum(u, v, psi, q)
    else if covType == 1 then DiagSum(u, v, psi, q)
    else if covType == 2 || covType == 3 then Bilinear(u, v, psi, q)
    else 0.0
  }

  /** One iteration of the pdIdent loop, in terms of the flat buffers. */
  lemma IdentStep(z: seq<real>, V: seq<real>, psi: seq<real>, q: nat, N: nat, Kq: nat, k: nat, j: nat, l: nat)
    requires Nodes(z, V, q, N, Kq, k, j) && l < q && 1 <= |psi|
    ensures 0 <= k + Kq * l < |V| && 0 <= j + N * l < |z|
    ensures IdentSum(NodeRow(V, q, Kq, k), DesignRow(z, q, N, j), psi, l + 1)
         == IdentSum(NodeRow(V, q, Kq, k), DesignRow(z, q, N, j), psi, l) + V[k + Kq * l] * z[j + N * l] * psi[0]
  {
    ColumnMajor.CellInBounds(k, l, Kq, q);
    ColumnMajor.CellInBounds(j, l, N, q);
  }

  /** One iteration of the pdDiag loop, in terms of the flat buffers. */
  lemma DiagStep(z: seq<real>, V: seq<real>, psi: seq<real>, q: nat, N: nat, Kq: nat, k: nat, j: nat, l: nat)
    requires Nodes(z, V, q, N, Kq, k, j) && l < q && q <= |psi|
    ensures 0 <= k + Kq * l < |V| && 0 <= j + N * l < |z|
    ensures DiagSum(NodeRow(V, q, Kq, k), DesignRow(z, q, N, j), psi, l + 1)
         == DiagSum(NodeRow(V, q, Kq, k), DesignRow(z, q, N, j), psi, l) + V[k + Kq * l] * z[j + N * l] * psi[l]
  {
    ColumnMajor.CellInBounds(k, l, Kq, q);
    ColumnMajor.CellInBounds(j, l, N, q);
  }

  method PdIdent(z: seq<real>, V: seq<real>, psi: seq<real>, q: nat, N: nat, Kq: nat, k: nat, j: nat)
    returns (val: real)
    requires Nodes(z, V, q, N, Kq, k, j) && (q == 0 || 1 <= |psi|)
    ensures val == IdentSum(NodeRow(V, q, Kq, k), DesignRow(z, q, N, j), psi, q)
  {
    ghost var u, v := NodeRow(V, q, Kq, k), DesignRow(z, q, N, j);
    val := 0.0;
    var l := 0;
    while l < q
      invariant 0 <= l <= q
      invariant val == IdentSum(u, v, psi, l)
    {
      IdentStep(z, V, psi, q, N, Kq, k, j, l);
      val := val + V[k + Kq * l] * z[j + N * l] * psi[0];
      l := l + 1;
    }
  }

  method PdDiag(z: seq<real>, V: seq<real>, psi: seq<real>, q: nat, N: nat, Kq: nat, k: nat, j: nat)
    returns (val: real)
    requires Nodes(z, V, q, N, Kq, k, j) && q <= |psi|
    ensures val == DiagSum(NodeRow(V, q, Kq, k), DesignRow(z, q, N, j), psi, q)
  {
    ghost var u, v := NodeRow(V, q, Kq, k), DesignRow(z, q, N, j);
    val := 0.0;
    var l := 0;
    while l < q
      invariant 0 <= l <= q
      invariant val == DiagSum(u, v, psi, l)
    {
      DiagStep(z, V, psi, q, N, Kq, k, j, l);
      val := val + V[k + Kq * l] * z[j + N * l] * psi[l];
      l := l + 1;
    }
  }

  /** One iteration of the inner loop of pdCompSymm and pdSymm. */
  lemma RowStep(z: seq<real>, V: seq<real>, psi: seq<real>, q: nat, N: nat, Kq: nat, k: nat, j: nat, a: nat, l: nat)
    requires Nodes(z, V, q, N, Kq, k, j) && q * q <= |psi| && a < q && l < q
    ensures 0 <= k + Kq * a < |V| && 0 <= j + N * l < |z| && 0 <= l + q * a < |psi|
    ensures RowSum(NodeRow(V, q, Kq, k), DesignRow(z, q, N, j), ColumnOf(psi, q, a), a, l + 1)
         == RowSum(NodeRow(V, q, Kq, k), DesignRow(z, q, N, j), ColumnOf(psi, q, a), a, l)
            + V[k + Kq * a] * z[j + N * l] * psi[l + q * a]
  {
    ColumnMajor.CellInBounds(k, a, Kq, q);
    ColumnMajor.CellInBounds(j, l, N, q);
    ColumnCell(psi, q, a, l);
  }

  /** The inner loop of pdCompSymm and pdSymm: adds row a of the form to acc. */
  method AddRow(z: seq<real>, V: seq<real>, psi: seq<real>, q: nat, N: nat, Kq: nat, k: nat, j: nat, a: nat, acc: real)
    returns (val: real)
    requires Nodes(z, V, q, N, Kq, k, j) && q * q <= |psi| && a < q
    ensures val == acc + RowSum(NodeRow(V, q, Kq, k), DesignRow(z, q, N, j), ColumnOf(psi, q, a), a, q)
  {
    ghost var u, v := NodeRow(V, q, Kq, k), DesignRow(z, q, N, j);
    var l := 0;
    val := acc;
    while l < q
      invariant 0 <= l <= q
      invariant val == acc + RowSum(u, v, ColumnOf(psi, q, a), a, l)
    {
      RowStep(z, V, psi, q, N, Kq, k, j, a, l);
      val := val + V[k + Kq * a] * z[j + N * l] * psi[l + q * a];
      l := l + 1;
    }
  }

  /** The double loop shared by pdCompSymm and pdSymm. */
  method QuadraticForm(z: seq<real>, V: seq<real>, psi: seq<real>, q: nat, N: nat, Kq: nat, k: nat, j: nat)
    returns (val: real)
    requires Nodes(z, V, q, N, Kq, k, j) && q * q <= |psi|
    ensures val == Bilinear(NodeRow(V, q, Kq, k), DesignRow(z, q, N, j), psi, q)
  {
    ghost var u, v := NodeRow(V, q, Kq, k), DesignRow(z, q, N, j);
    ghost var rows := RowSums(u, v, Columns(psi, q));
    val := 0.0;
    var a := 0;
    while a < q
      invariant 0 <= a <= q
      invariant val == Sum(rows, a)
    {
      val := AddRow(z, V, psi, q, N, Kq, k, j, a, val);
      RowOfColumns(u, v, psi, q, a);
      a := a + 1;
    }
  }

  method PdCompSymm(z: seq<real>, V: seq<real>, psi: seq<real>, q: nat, N: nat, Kq: nat, k: nat, j: nat)
    returns (val: real)
    requires Nodes(z, V, q, N, Kq, k, j) && q * q <= |psi|
    ensures val == Bilinear(NodeRow(V, q, Kq, k), DesignRow(z, q, N, j), psi, q)
  {
    val := QuadraticForm(z, V, psi, q, N, Kq, k, j);
  }

  method PdSymm(z: seq<real>, V: seq<real>, psi: seq<real>, q: nat, N: nat, Kq: nat, k: nat, j: nat)
    returns (val: real)
    requires Nodes(z, V, q, N, Kq, k, j) && q * q <= |psi|
    ensures val == Bilinear(NodeRow(V, q, Kq, k), DesignRow(z, q, N, j), psi, q)
  {
    val := QuadraticForm(z, V, psi, q, N, Kq, k, j);
  }

  /** lin_pred_ll: dispatches on the structure code; pdCompSymm and pdSymm
      give the same value, and an unknown code gives 0. */
  method LinPredLl(covType: int, z: seq<real>, V: seq<real>, psi: seq<real>, q: nat, N: nat, Kq: nat, k: nat, j: nat)
    returns (val: real)
    requires Nodes(z, V, q, N, Kq, k, j) && PsiFits(covType, psi, q)
    ensures val == LinPred(covType, z, V, psi, q, N, Kq, k, j)
    ensures covType == 2 || covType == 3 ==> val == Bilinear(NodeRow(V, q, Kq, k), DesignRow(z, q, N, j), psi, q)
    ensures !(0 <= covType <= 3) ==> val == 0.0
  {
    val := 0.0;
    if covType == 0 {
      val := PdIdent(z, V, psi, q, N, Kq, k, j);
    }
    if covType == 1 {
      val := PdDiag(z, V, psi, q, N, Kq, k, j);
    }
    if covType == 2 {
      val := PdCompSymm(z, V, psi, q, N, Kq, k, j);
    }
    if covType == 3 {
      val := PdSymm(z, V, psi, q, N, Kq, k, j);
    }
  }

  // ---------------------------------------------------------------------
  // Properties of the structures

  /** pdIdent scales the plain inner product of node and covariates by psi[0]. */
  lemma {:induction false} IdentIsScaled(u: seq<real>, v: seq<real>, psi: seq<real>, c: nat)
    requires c <= |u| == |v| && 1 <= |psi|
    ensures IdentSum(u, v, psi, c) == psi[0] * Dot(u, v, c)
  {
    if c > 0 {
      IdentIsScaled(u, v, psi, c - 1);
    }
  }

  /** pdDiag with every variance equal to psi[0] is pdIdent. */
  lemma {:induction false} DiagConstIsIdent(u: seq<real>, v: seq<real>, psi: seq<real>, c: nat)
    requires c <= |u| == |v| && c <= |psi| && 1 <= |psi|
    requires forall l :: 0 <= l < c ==> psi[l] == psi[0]
    ensures DiagSum(u, v, psi, c) == IdentSum(u, v, psi, c)
  {
    if c > 0 {
      DiagConstIsIdent(u, v, psi, c - 1);
    }
  }

  // Linearity of the form in Psi, stated for z = x + t * y cell by cell

  /** The arithmetic of one step: if z = zs + zc with zs = xs + t ys and
      zc = xc + t yc, then z = (xs + xc) + t (ys + yc). */
  lemma CombineStep(z: real, zs: real, zc: real, t: real, xs: real, xc: real, ys: real, yc: real, x: real, y: real)
    requires z == zs + zc && zs == xs + t * ys && zc == xc + t * yc && x == xs + xc && y == ys + yc
    ensures z == x + t * y
  {
  }

  /** One term of a row: w (x + t y) = w x + t (w y). */
  lemma CombineTerm(w: real, zl: real, xl: real, t: real, yl: real)
    requires zl == xl + t * yl
    ensures w * zl == w * xl + t * (w * yl)
  {
  }

  lemma RowSumCombineStep(u: seq<real>, v: seq<real>, x: seq<real>, y: seq<real>, z: seq<real>, t: real, a: nat, c: nat)
    requires a < |u| && 0 < c <= |v| && c <= |x| && c <= |y| && c <= |z|
    requires z[c - 1] == x[c - 1] + t * y[c - 1]
    requires RowSum(u, v, z, a, c - 1) == RowSum(u, v, x, a, c - 1) + t * RowSum(u, v, y, a, c - 1)
    ensures RowSum(u, v, z, a, c) == RowSum(u, v, x, a, c) + t * RowSum(u, v, y, a, c)
  {
    CombineTerm(u[a] * v[c - 1], z[c - 1], x[c - 1], t, y[c - 1]);
    CombineStep(RowSum(u, v, z, a, c), RowSum(u, v, z, a, c - 1), u[a] * v[c - 1] * z[c - 1], t,
                RowSum(u, v, x, a, c - 1), u[a] * v[c - 1] * x[c - 1],
                RowSum(u, v, y, a, c - 1), u[a] * v[c - 1] * y[c - 1],
                RowSum(u, v, x, a, c), RowSum(u, v, y, a, c));
  }

  /** A row of the form is linear in its column. */
  lemma {:induction false} RowSumCombine(u: seq<real>, v: seq<real>, x: seq<real>, y: seq<real>, z: seq<real>, t: real, a: nat, c: nat)
    requires a < |u| && c <= |v| && c <= |x| && c <= |y| && c <= |z|
    requires forall l :: 0 <= l < c ==> z[l] == x[l] + t * y[l]
    ensures RowSum(u, v, z, a, c) == RowSum(u, v, x, a, c) + t * RowSum(u, v, y, a, c)
  {
    if c == 0 {
      assert t * 0.0 == 0.0;
    } else {
      RowSumCombine(u, v, x, y, z, t, a, c - 1);
      RowSumCombineStep(u, v, x, y, z, t, a, c);
    }
  }

  lemma SumCombineStep(x: seq<real>, y: seq<real>, z: seq<real>, t: real, n: nat)
    requires 0 < n <= |x| && n <= |y| && n <= |z|
    requires z[n - 1] == x[n - 1] + t * y[n - 1]
    requires Sum(z, n - 1) == Sum(x, n - 1) + t * Sum(y, n - 1)
    ensures Sum(z, n) == Sum(x, n) + t * Sum(y, n)
  {
    CombineStep(Sum(z, n), Sum(z, n - 1), z[n - 1], t, Sum(x, n - 1), x[n - 1], Sum(y, n - 1), y[n - 1], Sum(x, n), Sum(y, n));
  }

  /** A sum is linear in its terms. */
  lemma {:induction false} SumCombine(x: seq<real>, y: seq<real>, z: seq<real>, t: real, n: nat)
    requires n <= |x| && n <= |y| && n <= |z|
    requires forall i :: 0 <= i < n ==> z[i] == x[i] + t * y[i]
    ensures Sum(z, n) == Sum(x, n) + t * Sum(y, n)
  {
    if n == 0 {
      assert t * 0.0 == 0.0;
    } else {
      SumCombine(x, y, z, t, n - 1);
      SumCombineStep(x, y, z, t, n);
    }
  }

  /** Column a of z = x + t y is column a of x plus t times column a of y. */
  lemma ColumnCombine(x: seq<real>, y: seq<real>, z: seq<real>, t: real, q: nat, a: nat)
    requires a < q && q * q <= |x| && q * q <= |y| && q * q <= |z|
    requires forall i :: 0 <= i < q * q ==> z[i] == x[i] + t * y[i]
    ensures forall l :: 0 <= l < q ==> ColumnOf(z, q, a)[l] == ColumnOf(x, q, a)[l] + t * ColumnOf(y, q, a)[l]
  {
    forall l | 0 <= l < q
      ensures ColumnOf(z, q, a)[l] == ColumnOf(x, q, a)[l] + t * ColumnOf(y, q, a)[l]
    {
      ColumnCell(x, q, a, l);
      ColumnCell(y, q, a, l);
      ColumnCell(z, q, a, l);
    }
  }

  /** Row a of the form is linear in Psi. */
  lemma RowCombine(u: seq<real>, v: seq<real>, x: seq<real>, y: seq<real>, z: seq<real>, t: real, q: nat, a: nat)
    requires |u| == |v| == q && a < q && q * q <= |x| && q * q <= |y| && q * q <= |z|
    requires forall i :: 0 <= i < q * q ==> z[i] == x[i] + t * y[i]
    ensures RowSums(u, v, Columns(z, q))[a] == RowSums(u, v, Columns(x, q))[a] + t * RowSums(u, v, Columns(y, q))[a]
  {
    ColumnCombine(x, y, z, t, q, a);
    RowSumCombine(u, v, ColumnOf(x, q, a), ColumnOf(y, q, a), ColumnOf(z, q, a), t, a, q);
    RowOfColumns(u, v, x, q, a);
    RowOfColumns(u, v, y, q, a);
    RowOfColumns(u, v, z, q, a);
  }

  lemma RowsCombine(u: seq<real>, v: seq<real>, x: seq<real>, y: seq<real>, z: seq<real>, t: real, q: nat)
    requires |u| == |v| == q && q * q <= |x| && q * q <= |y| && q * q <= |z|
    requires forall i :: 0 <= i < q * q ==> z[i] == x[i] + t * y[i]
    ensures forall a :: 0 <= a < q ==>
      RowSums(u, v, Columns(z, q))[a] == RowSums(u, v, Columns(x, q))[a] + t * RowSums(u, v, Columns(y, q))[a]
  {
    forall a | 0 <= a < q
      ensures RowSums(u, v, Columns(z, q))[a] == RowSums(u, v, Columns(x, q))[a] + t * RowSums(u, v, Columns(y, q))[a]
    {
      RowCombine(u, v, x, y, z, t, q, a);
    }
  }

  /** If row by row the form of z is that of x plus t times that of y, so is the whole form. */
  lemma BilinearOfRows(u: seq<real>, v: seq<real>, x: seq<real>, y: seq<real>, z: seq<real>, t: real, q: nat)
    requires |u| == |v| == q && q * q <= |x| && q * q <= |y| && q * q <= |z|
    requires forall a :: 0 <= a < q ==>
      RowSums(u, v, Columns(z, q))[a] == RowSums(u, v, Columns(x, q))[a] + t * RowSums(u, v, Columns(y, q))[a]
    ensures Bilinear(u, v, z, q) == Bilinear(u, v, x, q) + t * Bilinear(u, v, y, q)
  {
    SumCombine(RowSums(u, v, Columns(x, q)), RowSums(u, v, Columns(y, q)), RowSums(u, v, Columns(z, q)), t, q);
    assert Bilinear(u, v, y, q) == Sum(RowSums(u, v, Columns(y, q)), q);
  }

  /** pdCompSymm and pdSymm are linear in Psi: if z = x + t y cell by cell,
      the form of z is the form of x plus t times the form of y. */
  lemma BilinearCombine(u: seq<real>, v: seq<real>, x: seq<real>, y: seq<real>, z: seq<real>, t: real, q: nat)
    requires |u| == |v| == q && q * q <= |x| && q * q <= |y| && q * q <= |z|
    requires forall i :: 0 <= i < q * q ==> z[i] == x[i] + t * y[i]
    ensures Bilinear(u, v, z, q) == Bilinear(u, v, x, q) + t * Bilinear(u, v, y, q)
  {
    RowsCombine(u, v, x, y, z, t, q);
    BilinearOfRows(u, v, x, y, z, t, q);
  }

  lemma {:induction false} RowSumZero(u: seq<real>, v: seq<real>, col: seq<real>, row: nat, c: nat)
    requires row < |u| && c <= |v| && c <= |col|
    requires forall l :: 0 <= l < c ==> col[l] == 0.0
    ensures RowSum(u, v, col, row, c) == 0.0
  {
    if c > 0 {
      RowSumZero(u, v, col, row, c - 1);
    }
  }

  lemma {:induction false} SumZero(s: seq<real>, n: nat)
    requires n <= |s|
    requires forall i :: 0 <= i < n ==> s[i] == 0.0
    ensures Sum(s, n) == 0.0
  {
    if n > 0 {
      SumZero(s, n - 1);
    }
  }

  /** The form of the zero matrix is zero. */
  lemma BilinearZero(u: seq<real>, v: seq<real>, psi: seq<real>, q: nat)
    requires |u| == |v| == q && q * q <= |psi|
    requires forall i :: 0 <= i < q * q ==> psi[i] == 0.0
    ensures Bilinear(u, v, psi, q) == 0.0
  {
    var rows := RowSums(u, v, Columns(psi, q));
    forall a | 0 <= a < q
      ensures rows[a] == 0.0
    {
      forall l | 0 <= l < q
        ensures ColumnOf(psi, q, a)[l] == 0.0
      {
        ColumnCell(psi, q, a, l);
      }
      RowSumZero(u, v, ColumnOf(psi, q, a), a, q);
    }
    SumZero(rows, q);
  }

  /** sum_{s < c} theta_z[s] * (the form evaluated on column s of Tq). */
  function ColumnContributions(u: seq<real>, v: seq<real>, theta: seq<real>, tq: seq<int>, p: nat, q: nat, m: nat, c: nat): real
    requires |u| == |v| == q && c <= m && p + m <= |theta| && q * q * m <= |tq|
  {
    if c == 0 then 0.0
    else ColumnContributions(u, v, theta, tq, p, q, m, c - 1) + theta[p + (c - 1)] * Bilinear(u, v, TqColumn(tq, q, m, c - 1), q)
  }

  lemma ContributionsStep(u: seq<real>, v: seq<real>, theta: seq<real>, tq: seq<int>, p: nat, q: nat, m: nat, c: nat)
    requires |u| == |v| == q && 0 < c <= m && p + m <= |theta| && q * q * m <= |tq|
    ensures ColumnContributions(u, v, theta, tq, p, q, m, c)
         == ColumnContributions(u, v, theta, tq, p, q, m, c - 1) + theta[p + (c - 1)] * Bilinear(u, v, TqColumn(tq, q, m, c - 1), q)
  {
  }

  /** Adding column c - 1 of Tq, weighted by theta_z[c - 1], extends the prefix by one. */
  lemma PsiPrefixStep(theta: seq<real>, tq: seq<int>, p: nat, q: nat, m: nat, c: nat)
    requires 0 < c <= m && p + m <= |theta| && q * q * m <= |tq|
    ensures forall i :: 0 <= i < q * q ==>
      PsiPrefix(theta, tq, p, q, m, c)[i]
        == PsiPrefix(theta, tq, p, q, m, c - 1)[i] + theta[p + (c - 1)] * TqColumn(tq, q, m, c - 1)[i]
  {
    forall i | 0 <= i < q * q
      ensures PsiPrefix(theta, tq, p, q, m, c)[i]
           == PsiPrefix(theta, tq, p, q, m, c - 1)[i] + theta[p + (c - 1)] * TqColumn(tq, q, m, c - 1)[i]
    {
      ColumnMajor.CellInBounds(i, c - 1, q * q, m);
    }
  }

  /** The form of the prefix over c columns is that over c - 1 plus theta_z[c - 1] times the form of column c - 1. */
  lemma PsiPrefixCombine(u: seq<real>, v: seq<real>, theta: seq<real>, tq: seq<int>, p: nat, q: nat, m: nat, c: nat)
    requires |u| == |v| == q && 0 < c <= m && p + m <= |theta| && q * q * m <= |tq|
    ensures Bilinear(u, v, PsiPrefix(theta, tq, p, q, m, c), q)
         == Bilinear(u, v, PsiPrefix(theta, tq, p, q, m, c - 1), q) + theta[p + (c - 1)] * Bilinear(u, v, TqColumn(tq, q, m, c - 1), q)
  {
    PsiPrefixStep(theta, tq, p, q, m, c);
    BilinearCombine(u, v, PsiPrefix(theta, tq, p, q, m, c - 1), TqColumn(tq, q, m, c - 1),
                    PsiPrefix(theta, tq, p, q, m, c), theta[p + (c - 1)], q);
  }

  lemma BilinearOfPsiPrefixStep(u: seq<real>, v: seq<real>, theta: seq<real>, tq: seq<int>, p: nat, q: nat, m: nat, c: nat)
    requires |u| == |v| == q && 0 < c <= m && p + m <= |theta| && q * q * m <= |tq|
    requires Bilinear(u, v, PsiPrefix(theta, tq, p, q, m, c - 1), q) == ColumnContributions(u, v, theta, tq, p, q, m, c - 1)
    ensures Bilinear(u, v, PsiPrefix(theta, tq, p, q, m, c), q) == ColumnContributions(u, v, theta, tq, p, q, m, c)
  {
    PsiPrefixCombine(u, v, theta, tq, p, q, m, c);
    ContributionsStep(u, v, theta, tq, p, q, m, c);
  }

  lemma {:induction false} BilinearOfPsiPrefix(u: seq<real>, v: seq<real>, theta: seq<real>, tq: seq<int>, p: nat, q: nat, m: nat, c: nat)
    requires |u| == |v| == q && c <= m && p + m <= |theta| && q * q * m <= |tq|
    ensures Bilinear(u, v, PsiPrefix(theta, tq, p, q, m, c), q) == ColumnContributions(u, v, theta, tq, p, q, m, c)
  {
    if c == 0 {
      BilinearZero(u, v, PsiPrefix(theta, tq, p, q, m, 0), q);
    } else {
      BilinearOfPsiPrefix(u, v, theta, tq, p, q, m, c - 1);
      BilinearOfPsiPrefixStep(u, v, theta, tq, p, q, m, c);
    }
  }

  /** For pdCompSymm and pdSymm the linear predictor is linear in theta_z:
      evaluated on psi_mat's Tq theta_z it equals the sum over s of
      theta_z[s] times the form evaluated on column s of Tq. These per-column
      forms are the coefficients ll_h_d accumulates into the gradient of
      theta_z. */
  lemma LinPredOfPsiMat(covType: int, z: seq<real>, V: seq<real>, theta: seq<real>, tq: seq<int>,
                        p: nat, q: nat, m: nat, N: nat, Kq: nat, k: nat, j: nat)
    requires covType == 2 || covType == 3
    requires Nodes(z, V, q, N, Kq, k, j) && p + m <= |theta| && q * q * m <= |tq|
    ensures PsiFits(covType, PsiOf(theta, tq, p, q, m), q)
    ensures LinPred(covType, z, V, PsiOf(theta, tq, p, q, m), q, N, Kq, k, j)
         == ColumnContributions(NodeRow(V, q, Kq, k), DesignRow(z, q, N, j), theta, tq, p, q, m, m)
  {
    BilinearOfPsiPrefix(NodeRow(V, q, Kq, k), DesignRow(z, q, N, j), theta, tq, p, q, m, m);
  }
}
