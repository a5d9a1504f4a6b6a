# lqmm: gradient search for Laplace likelihoods, modelled in Dafny

This project models the numerical core of `src/lqmm.c` from the R package
lqmm. That file estimates linear quantile models and linear quantile mixed
models by minimising an asymmetric-Laplace negative log-likelihood with a
gradient search. The model covers:

- `MIN` and `MAX` (module `Extremum`): running extremes of an array prefix.
- `ll_s_d` (module `Independent`): the check-loss objective for independent
  data, written as imperative methods over arrays. They are proved against
  the pure functions `Loss` and `Gradient`. The properties of the objective
  are lemmas about those functions: it is non-negative, it equals the
  absolute-value kernel, and on each sign region it is exactly linear with
  slope `deriv`.
- `gradientSd_s` and `gradientSd_h` (modules `LineSearch`, `Independent`,
  `Hierarchical`): one generic optimizer, `LineSearch.GradientSd`, with the
  objective as a parameter. The loop is proved to follow a pure state machine
  (`Start`, `Advance`, `Run`). `GradientSdS` instantiates it with `ll_s_d`.
  `GradientSdH` instantiates it with the hierarchical objective, passed in.
- `psi_mat`, `pdIdent`, `pdDiag`, `pdCompSymm`, `pdSymm` and `lin_pred_ll`
  (module `Covariance`): they build the random-effects covariance buffer
  `psi` from `theta_z` and the linear predictor at a quadrature node.
- From `ll_h_d` (module `Hierarchical`):
  - the length of the `psi` buffer;
  - the residual vector `w = y - X theta_x`;
  - per quadrature node, the residual, its slope `phi` and the accumulation
    of the node value `val`;
  - the per-node gradient `GRAD`: `x[j, l] phi` for the fixed effects, and
    the `TMP_VAR` triple loop over the duplication matrix `Tq` for `theta_z`.

Matrices are flat column-major buffers, as in the C code (module
`ColumnMajor`). Arrays that the C code writes are `array<real>`; inputs it
only reads are `seq`. Reals stand in for doubles.

## Model

| member | source | states |
|---|---|---|
| Extremum.Min | src/lqmm.c:17-28 | the result is at most every `x[i]`, `i < length`, and is one of `x[0]`, `x[1..length)` |
| Extremum.Max | src/lqmm.c:30-41 | the result is at least every `x[i]`, `i < length`, and is one of `x[0]`, `x[1..length)` |
| Independent.ComputeResiduals | src/lqmm.c:72-75 | after the copy and the `dgemv`, `resid[i]` is `y[i] - (X theta)[i]` for every observation |
| Independent.CheckLoss | src/lqmm.c:77-83 | `I` is `tau - 1` at negative residuals and `tau` elsewhere; the sum is the check loss `sum_i r_i I_i` |
| Independent.NegatedTransposeProduct | src/lqmm.c:84-86 | `deriv[0..p)` becomes `-X' v`; later cells are kept |
| Independent.LlSD | src/lqmm.c:51-89 | `ll_s_d` returns `Loss` (the check loss) and writes `Gradient` (`-X' I`) into `deriv[0..p)` |
| Independent.LossNonNegative | src/lqmm.c:77-83 | for `0 <= tau <= 1` the value of `ll_s_d` is never negative |
| Independent.TieRulesAgree | src/lqmm.c:485-487 | `r * Indicator(r)` (ties go to `tau`), `r * Phi(r)` (ties go to `tau - 1`) and `(abs(r) + (2 tau - 1) r) / 2` are equal for every residual |
| Independent.LossIsKernelSum | src/lqmm.c:77-83 | the loss of `ll_s_d` equals the sum of the absolute-value kernel used by `ll_h_R` |
| Independent.LossIsLinearInTheta | src/lqmm.c:73-86 | the value splits as `y . I + theta . deriv`: with the signs fixed it is linear in theta, with slope exactly the returned `deriv` |
| Independent.LossChangeOnSignRegion | src/lqmm.c:73-86 | between two parameter vectors with the same residual signs the gradient is the same, and the value changes by `deriv . (theta2 - theta)` |
| Independent.GradientSdS | src/lqmm.c:91-162 | `gradientSd_s` is the generic search run on `ll_s_d`: it returns the end state of `Run`, an optimum equal to the loss at the returned theta and no greater than the loss at the start, and a CONVERGE code in {-2, -1} or [1, maxit] |
| LineSearch.Advance | src/lqmm.c:122-152 | one iteration never increases the committed value `f_0` and keeps value and gradient paired with theta |
| LineSearch.Run | src/lqmm.c:120-153 | the loop ends after at most `maxit` iterations; it stops early only with `iter < maxit` |
| LineSearch.TrialPoint | src/lqmm.c:123-125 | `theta_tmp = theta - step * grad`, cell by cell |
| LineSearch.EvaluateTrial | src/lqmm.c:122-128 | forms the trial point and evaluates the objective there; `deriv` holds the trial's gradient |
| LineSearch.Commit | src/lqmm.c:147-148 | `theta := theta_tmp` and `grad := deriv` |
| LineSearch.ThetaCheck | src/lqmm.c:138-143 | `check_theta` is 0 exactly when every coordinate moved by less than `TOL_THETA` (via `MAX` of `test`) |
| LineSearch.Iteration | src/lqmm.c:120-153 | one pass of the loop body moves the arrays and `f_0`, `step` exactly as `Advance` does: reject and shrink by `beta`; stop; or commit and reset or grow the step |
| LineSearch.GradientSd | src/lqmm.c:533-611 | the loop's theta, deriv, optimum and CONVERGE are those of `Run` from `Start`; the optimum is the objective at the returned theta and no greater than at the start; CONVERGE is -2 exactly when `maxit <= 0` |
| LineSearch.RunDescends | src/lqmm.c:132-152 | over a whole run the committed value never increases |
| LineSearch.RunKeepsCommitted | src/lqmm.c:145-149 | the returned value and gradient are always those of the returned theta |
| LineSearch.RunStopsOnConvergence | src/lqmm.c:145 | an early stop happens only on an accepted trial that met the tolerance test; theta is not moved to it, `deriv` holds its gradient |
| LineSearch.RunRejects | src/lqmm.c:132-134 | a trial with a larger value keeps theta, grad and `f_0`, multiplies the step by `beta` and uses up one iteration |
| LineSearch.RunStops | src/lqmm.c:145 | an accepted trial that meets the stopping rule ends the run with the committed state unchanged except `deriv` |
| LineSearch.RunCommits | src/lqmm.c:147-151 | an accepted trial that does not meet the stopping rule is committed, and the step is reset to `STEP` or multiplied by `gamma` |
| LineSearch.UncheckedThetaIgnored | src/lqmm.c:138-145 | with `CHECK_THETA != 1` only the change in value decides the stop |
| LineSearch.ConvergeCodeMeaning | src/lqmm.c:157-159 | CONVERGE is -2 iff `maxit <= 0`; -1 iff `maxit > 0` and the loop never stopped; otherwise the number `iter + 1 <= maxit` of the stopping iteration |
| Covariance.CopyThetaZ | src/lqmm.c:181-193 | `psi[0..m) = theta[p..p+m)`; the rest of psi is kept |
| Covariance.TqRowTimesThetaZ | src/lqmm.c:198-203 | `psi[i]` becomes cell i of `Tq theta_z`; nothing else changes |
| Covariance.TqTimesThetaZ | src/lqmm.c:195-215 | `psi[0..q^2)` becomes `Tq theta_z`; the rest is kept |
| Covariance.PsiMat | src/lqmm.c:171-218 | codes 0 and 1 copy `theta_z`; codes 2 and 3 write `Tq theta_z`; cells past the width, and the whole buffer for any other code, are untouched |
| Covariance.PdIdent | src/lqmm.c:222-233 | the value is `sum_l V[k,l] z[j,l] psi[0]` |
| Covariance.PdDiag | src/lqmm.c:235-246 | the value is `sum_l V[k,l] z[j,l] psi[l]` |
| Covariance.QuadraticForm | src/lqmm.c:253-257 | the double loop computes the bilinear form `sum_{a,l} V[k,a] z[j,l] Psi[l,a]` |
| Covariance.PdCompSymm | src/lqmm.c:248-261 | the value is the bilinear form of node k and row j of z under psi |
| Covariance.PdSymm | src/lqmm.c:263-277 | the value is the same bilinear form, so `pdCompSymm` and `pdSymm` agree on every input |
| Covariance.LinPredLl | src/lqmm.c:280-299 | the result is `LinPred` for the structure code; codes 2 and 3 give the same form; any other code gives 0 |
| Covariance.IdentIsScaled | src/lqmm.c:227-229 | `pdIdent` is `psi[0]` times the plain inner product of node and covariates |
| Covariance.DiagConstIsIdent | src/lqmm.c:240-242 | `pdDiag` with every variance equal to `psi[0]` gives the value of `pdIdent` |
| Covariance.BilinearCombine | src/lqmm.c:268-272 | the form of `pdSymm` is linear in Psi: the form of `x + t y` is the form of `x` plus `t` times that of `y` |
| Covariance.BilinearZero | src/lqmm.c:268-272 | the form of the zero matrix is 0 |
| Covariance.LinPredOfPsiMat | src/lqmm.c:206-215 | for codes 2 and 3 the predictor on `psi_mat(theta)` is `sum_s theta_z[s]` times the form evaluated on column s of Tq |
| Hierarchical.DimPsiAsWrittenOverrun | src/lqmm.c:435-441 | as written, code 3 gets a one-cell psi while `psi_mat` writes `q^2 >= 4` cells when `q >= 2` |
| Hierarchical.DimPsiHoldsPsiMat | src/lqmm.c:435-441 | the corrected length holds every cell `psi_mat` writes, for every code |
| Hierarchical.DimPsiFits | src/lqmm.c:435-443 | the corrected length holds every cell `lin_pred_ll` reads |
| Hierarchical.AllocatePsi | src/lqmm.c:443-463 | allocates psi with the corrected length and fills it by `psi_mat` |
| Hierarchical.FixedResidual | src/lqmm.c:453-459 | `w[i] = y[i] - (X theta_x)[i]` for every observation |
| Hierarchical.TqRow | src/lqmm.c:497-499 | the inner loop adds `sum_l V[k,a] z[j,l] Tq[l + q a + base]` to the accumulator |
| Hierarchical.TqCoefficient | src/lqmm.c:494-500 | `TMP_VAR` for `STEPM = s` is `TqForm(s)`, read in place from column s of Tq |
| Hierarchical.TqFormIsBilinear | src/lqmm.c:494-500 | `TqForm(s)` equals the `pdSymm` form evaluated on column s of Tq, which is the derivative of the predictor along `theta_z[s]` |
| Hierarchical.AddFixedGrad | src/lqmm.c:490-492 | `GRAD[l] += x[j,l] phi` for `l < p`; the other cells are kept |
| Hierarchical.AddCovGrad | src/lqmm.c:494-502 | `GRAD[p+s] += TqForm(s) phi` for `s < m`; the fixed cells are kept |
| Hierarchical.Observation | src/lqmm.c:480-502 | observation j gives `resid = w[j] - lin_pred_ll`, `phi` (`tau - 1` when `resid <= 0`), `val += cons - resid phi / sigma`, and both GRAD updates |
| Hierarchical.NodeStep | src/lqmm.c:478-504 | one pass of the j loop moves the value and both gradient sums from `ls..j-1` to `ls..j` |
| Hierarchical.Node | src/lqmm.c:477-504 | after the j loop, `val` is `NodeValue` over the cluster's residuals, and GRAD has gained `sum_j x[j,l] phi_j` (fixed) and `sum_j TqForm(l-p) phi_j` (theta_z) |
| Hierarchical.NodeValueIsKernelSum | src/lqmm.c:485-487 | the node value is `n * cons - (1/sigma) * sum_j Kernel(r_j)`, the form `ll_h_R` uses, under the tie rule of `ll_h_d` |
| Hierarchical.NodeKernelSumNonNegative | src/lqmm.c:485-487 | for `0 <= tau <= 1` the check loss of a node is non-negative |
| Hierarchical.NodeValueBound | src/lqmm.c:477-487 | for `sigma > 0` and `0 <= tau <= 1` the node value is at most `n * cons` |
| Hierarchical.CovPredictorIsContributions | src/lqmm.c:494-502 | `sum_s theta_z[s] TqForm(s)` equals `sum_s theta_z[s]` times the form on column s of Tq |
| Hierarchical.ResidualIsLinear | src/lqmm.c:453-483 | for codes 2 and 3 the residual is `y_j - (X theta_x)_j - sum_s theta_z[s] TqForm(s)`: the coefficients GRAD accumulates are exactly those of theta in the residual |
| Hierarchical.GradientSdH | src/lqmm.c:533-611 | `gradientSd_h` is the generic search over `p + m` parameters, with the same outcome, optimum and CONVERGE guarantees as `GradientSd` |

## Left out

- The exponential and logarithm part of `ll_h_d` is not modelled: `valk`, `MAXVALK`, `mvalk`, `DERIV`, `deriv`, `loglik` and the reset of `GRAD` after each node (`src/lqmm.c:505-529`). It is transcendental floating point. The model stops at the node value and the node gradient that feed it.
- `ll_h_R` (`src/lqmm.c:311-399`) is left out. Only its kernel `(|r| + (2 tau - 1) r) / 2` is modelled, as `Independent.Kernel`, and it is related to both tie rules.
- `_cons = log(tau (1 - tau) / sigma)` is a parameter `cons`, because it needs a logarithm.
- The hierarchical objective is a parameter of `Hierarchical.GradientSdH`, because its full value needs the exponential part above.
- `Rprintf` and `verbose` are left out: they are output only.
- Floating point: doubles are reals, and `quantile` is a `float` in C but a real here. Rounding, overflow and NaN are not modelled.
- `psi_mat`'s constant return value 0 is not modelled.
- BLAS calls (`dcopy`, `dgemv`) are modelled by their effect, as loops over the same cells.
- Hierarchical.Observation: requires `sigma != 0`. The C code divides by `sigma` and would produce an infinity there, which reals cannot express.
- Hierarchical.NodeStep: requires `sigma != 0`, for the same reason.
- Hierarchical.Node: requires `sigma != 0`, for the same reason.
- Hierarchical.ResidualIsLinear: stated for codes 2 and 3 only, where `psi` is `Tq theta_z`. For codes 0 and 1, `psi` is `theta_z` itself. Whether the `Tq` coefficients of the GRAD loop match the predictor then depends on the `Tq` the R caller builds, and the R caller is not part of this model.
- Hierarchical.Node: models the loop over the observations of one cluster at one node. The loops over clusters and nodes around it only repeat this body and feed the exponential part.

## Findings

| source | as written | input that shows it | evidently intended | confidence | as-written member | corrected member |
|---|---|---|---|---|---|---|
| src/lqmm.c:435-443 | `dim_psi` is `m` for codes 0 and 1, then overwritten with `q*q` for codes 1 and 2. Code 3 (`pdSymm`) keeps 1, and code 1 (`pdDiag`) gets `q*q` | `cov_type = 3`, `q = 2`: `psi` has 1 cell, but `psi_mat` writes `q*q = 4` cells and `pdSymm` reads them | `m` for codes 0 and 1, `q*q` for codes 2 and 3 (the second test should name codes 2 and 3) | not executed | Hierarchical.DimPsiAsWrittenOverrun | Hierarchical.DimPsiHoldsPsiMat |
