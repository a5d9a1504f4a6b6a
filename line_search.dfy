/** The gradient-search optimizer shared by `gradientSd_s` and `gradientSd_h`
    in lqmm.c. It minimises an objective (a negative log-likelihood) that
    returns a value and a gradient, by trial steps `theta - step * grad`:
    a trial that increases the objective is rejected and the step shrinks by
    `beta`; otherwise the run stops if the value changed by less than `tolLL`
    (and, when `checkTheta == 1`, every coordinate moved by less than
    `tolTheta`), and if it does not stop the trial point is committed and the
    step is reset to `step0` or grown by `gamma`. */
module LineSearch {
  import Extremum

  /** What an objective returns for one parameter vector. */
  datatype Eval = Eval(value: real, grad: seq<real>)

  /** Tuning of one run: STEP, beta, gamma, RESET_STEP, TOL_LL, TOL_THETA,
      CHECK_THETA and MAXIT of the C interface. */
  datatype Config = Config(
    step0: real, beta: real, gamma: real, resetStep: int,
    tolLL: real, tolTheta: real, checkTheta: int, maxit: int)

  /** The state the loop carries: the committed point, its gradient and
      value (`f_0`), the step, and the `deriv` buffer (gradient of the last
      point evaluated). */
  datatype Search = Search(theta: seq<real>, grad: seq<real>, f0: real, step: real, deriv: seq<real>)

  datatype Move = Move(next: Search, stop: bool)

  /** Where the loop ended, after `iter` completed iterations. */
  datatype Outcome = Outcome(final: Search, iter: int, stopped: bool)

  function Abs(r: real): real { if r < 0.0 then -r else r }

  /** `obj` is defined on every parameter vector of length n and returns a
      gradient of length n. */
  ghost predicate Objective(obj: seq<real> --> Eval, n: nat) {
    forall t: seq<real> {:trigger obj.requires(t)} | |t| == n :: obj.requires(t) && |obj(t).grad| == n
  }

  ghost predicate Sized(s: Search, n: nat) {
    |s.theta| == n && |s.grad| == n && |s.deriv| == n
  }

  /** `f0` and `grad` are the value and gradient of the objective at `theta`. */
  ghost predicate Committed(obj: seq<real> --> Eval, s: Search)
    requires Objective(obj, |s.theta|)
  {
    s.f0 == obj(s.theta).value && s.grad == obj(s.theta).grad
  }

  function Trial(theta: seq<real>, grad: seq<real>, step: real): (t: seq<real>)
    requires |grad| == |theta|
    ensures |t| == |theta|
  {
    seq(|theta|, j requires 0 <= j < |theta| => theta[j] - grad[j] * step)
  }

  /** The parameter-change criterion: every coordinate moved by less than tolTheta. */
  ghost predicate SmallChange(tolTheta: real, trial: seq<real>, theta: seq<real>)
    requires |trial| == |theta|
  {
    forall j :: 0 <= j < |theta| ==> Abs(trial[j] - theta[j]) < tolTheta
  }

  /** The stopping rule applied to an accepted trial. */
  ghost predicate Converged(cfg: Config, f0: real, f1: real, trial: seq<real>, theta: seq<real>)
    requires |trial| == |theta|
  {
    Abs(f1 - f0) < cfg.tolLL && (cfg.checkTheta != 1 || SmallChange(cfg.tolTheta, trial, theta))
  }

  function NextStep(cfg: Config, step: real): real {
    if cfg.resetStep == 1 then cfg.step0 else step * cfg.gamma
  }

  /** The state before the first iteration. */
  ghost function Start(obj: seq<real> --> Eval, cfg: Config, theta0: seq<real>): (s: Search)
    requires Objective(obj, |theta0|)
    ensures Sized(s, |theta0|) && Committed(obj, s) && s.theta == theta0
  {
    var e := obj(theta0);
    Search(theta0, e.grad, e.value, cfg.step0, e.grad)
  }

  /** One iteration of the loop. */
  ghost function Advance(obj: seq<real> --> Eval, cfg: Config, s: Search): (r: Move)
    requires Objective(obj, |s.theta|) && Sized(s, |s.theta|)
    ensures Sized(r.next, |s.theta|)
    ensures r.next.f0 <= s.f0
    ensures Committed(obj, s) ==> Committed(obj, r.next)
  {
    var t := Trial(s.theta, s.grad, s.step);
    var e := obj(t);
    if e.value > s.f0 then
      Move(s.(step := s.step * cfg.beta, deriv := e.grad), false)
    else if Converged(cfg, s.f0, e.value, t, s.theta) then
      Move(s.(deriv := e.grad), true)
    else
      Move(Search(t, e.grad, e.value, NextStep(cfg, s.step), e.grad), false)
  }

  /** The loop from iteration `iter` on. */
  ghost function Run(obj: seq<real> --> Eval, cfg: Config, s: Search, iter: int): (out: Outcome)
    requires Objective(obj, |s.theta|) && Sized(s, |s.theta|)
    ensures Sized(out.final, |s.theta|)
    ensures iter <= out.iter
    ensures out.stopped ==> out.iter < cfg.maxit
    ensures !out.stopped ==> out.iter == if iter < cfg.maxit then cfg.maxit else iter
    decreases cfg.maxit - iter
  {
    if iter >= cfg.maxit then Outcome(s, iter, false)
    else
      var mv := Advance(obj, cfg, s);
      if mv.stop then Outcome(mv.next, iter, true)
      else Run(obj, cfg, mv.next, iter + 1)
  }

  /** CONVERGE[0] after the loop has run `iter` iterations. */
  function ConvergeCode(maxit: int, iter: int): int {
    if iter < maxit then iter + 1
    else if iter == maxit && maxit > 0 then -1
    else -2
  }

  /** The committed objective value never increases over a run. */
  lemma {:induction false} RunDescends(obj: seq<real> --> Eval, cfg: Config, s: Search, iter: int)
    requires Objective(obj, |s.theta|) && Sized(s, |s.theta|)
    ensures Run(obj, cfg, s, iter).final.f0 <= s.f0
    decreases cfg.maxit - iter
  {
    if iter < cfg.maxit {
      var mv := Advance(obj, cfg, s);
      if !mv.stop {
        RunDescends(obj, cfg, mv.next, iter + 1);
      }
    }
  }

  /** The returned point and value always belong together: the value is the
      objective at the returned theta, and the kept gradient is its gradient. */
  lemma {:induction false} RunKeepsCommitted(obj: seq<real> --> Eval, cfg: Config, s: Search, iter: int)
    requires Objective(obj, |s.theta|) && Sized(s, |s.theta|) && Committed(obj, s)
    ensures Committed(obj, Run(obj, cfg, s, iter).final)
    decreases cfg.maxit - iter
  {
    if iter < cfg.maxit {
      var mv := Advance(obj, cfg, s);
      if !mv.stop {
        RunKeepsCommitted(obj, cfg, mv.next, iter + 1);
      }
    }
  }

  /** A run that stops early stops on an accepted trial that met the stopping
      rule; the trial point is not copied into theta, while `deriv` holds the
      gradient at that trial point. */
  lemma {:induction false} RunStopsOnConvergence(obj: seq<real> --> Eval, cfg: Config, s: Search, iter: int)
    requires Objective(obj, |s.theta|) && Sized(s, |s.theta|)
    ensures var out := Run(obj, cfg, s, iter);
      var t := Trial(out.final.theta, out.final.grad, out.final.step);
      out.stopped ==>
        out.final.deriv == obj(t).grad && obj(t).value <= out.final.f0 &&
        Converged(cfg, out.final.f0, obj(t).value, t, out.final.theta)
    decreases cfg.maxit - iter
  {
    if iter < cfg.maxit {
      var mv := Advance(obj, cfg, s);
      if !mv.stop {
        RunStopsOnConvergence(obj, cfg, mv.next, iter + 1);
      }
    }
  }

  /** A rejected trial (the value went up) keeps theta, grad and f_0, shrinks
      the step by beta and uses up one iteration. */
  lemma RunRejects(obj: seq<real> --> Eval, cfg: Config, s: Search, iter: int, e: Eval)
    requires Objective(obj, |s.theta|) && Sized(s, |s.theta|) && iter < cfg.maxit
    requires e == obj(Trial(s.theta, s.grad, s.step)) && e.value > s.f0
    ensures Run(obj, cfg, s, iter) == Run(obj, cfg, s.(step := s.step * cfg.beta, deriv := e.grad), iter + 1)
  {
    assert Advance(obj, cfg, s) == Move(s.(step := s.step * cfg.beta, deriv := e.grad), false);
  }

  /** An accepted trial that meets the stopping rule ends the run with
      theta, grad, f_0 and the step as they were; only `deriv` moves to the
      trial point. */
  lemma RunStops(obj: seq<real> --> Eval, cfg: Config, s: Search, iter: int, e: Eval)
    requires Objective(obj, |s.theta|) && Sized(s, |s.theta|) && iter < cfg.maxit
    requires e == obj(Trial(s.theta, s.grad, s.step)) && e.value <= s.f0
    requires Converged(cfg, s.f0, e.value, Trial(s.theta, s.grad, s.step), s.theta)
    ensures Run(obj, cfg, s, iter) == Outcome(s.(deriv := e.grad), iter, true)
  {
  }

  /** An accepted trial that does not meet the stopping rule is committed:
      theta, grad and f_0 move to the trial point and the step is reset or
      grown. */
  lemma RunCommits(obj: seq<real> --> Eval, cfg: Config, s: Search, iter: int, e: Eval)
    requires Objective(obj, |s.theta|) && Sized(s, |s.theta|) && iter < cfg.maxit
    requires e == obj(Trial(s.theta, s.grad, s.step)) && e.value <= s.f0
    requires !Converged(cfg, s.f0, e.value, Trial(s.theta, s.grad, s.step), s.theta)
    ensures Run(obj, cfg, s, iter) ==
      Run(obj, cfg, Search(Trial(s.theta, s.grad, s.step), e.grad, e.value, NextStep(cfg, s.step), e.grad), iter + 1)
  {
  }

  /** Without the parameter-change criterion only the change in value decides
      whether a run stops. */
  lemma UncheckedThetaIgnored(cfg: Config, f0: real, f1: real, trial: seq<real>, theta: seq<real>)
    requires |trial| == |theta| && cfg.checkTheta != 1
    ensures Converged(cfg, f0, f1, trial, theta) <==> Abs(f1 - f0) < cfg.tolLL
  {
  }

  /** The meaning of CONVERGE[0]: -2 exactly when maxit <= 0, -1 exactly when
      all maxit iterations ran without stopping, otherwise the number of the
      iteration that stopped, in [1, maxit]. */
  lemma ConvergeCodeMeaning(obj: seq<real> --> Eval, cfg: Config, theta0: seq<real>)
    requires Objective(obj, |theta0|)
    ensures var out := Run(obj, cfg, Start(obj, cfg, theta0), 0);
      var code := ConvergeCode(cfg.maxit, out.iter);
      && (code == -2 <==> cfg.maxit <= 0)
      && (code == -1 <==> cfg.maxit > 0 && !out.stopped)
      && (1 <= code <==> out.stopped)
      && (out.stopped ==> code == out.iter + 1 <= cfg.maxit)
  {
  }

  /** `dst := src` over the whole array (the `dcopy` calls and the copy loops). */
  method Copy(src: seq<real>, dst: array<real>)
    requires |src| == dst.Length
    modifies dst
    ensures dst[..] == src
  {
    forall j | 0 <= j < dst.Length {
      dst[j] := src[j];
    }
  }

  /** `theta_tmp := theta - step * grad`. */
  method TrialPoint(theta: array<real>, grad: array<real>, step: real, thetaTmp: array<real>)
    requires theta.Length == grad.Length == thetaTmp.Length
    requires thetaTmp != theta && thetaTmp != grad
    modifies thetaTmp
    ensures thetaTmp[..] == Trial(theta[..], grad[..], step)
  {
    forall j | 0 <= j < thetaTmp.Length {
      thetaTmp[j] := theta[j] - grad[j] * step;
    }
    assert forall j :: 0 <= j < thetaTmp.Length ==> thetaTmp[..][j] == Trial(theta[..], grad[..], step)[j];
  }

  /** Lines 122-128 of the loop body: form the trial point and evaluate the
      objective there, which overwrites the `deriv` buffer. */
  method EvaluateTrial(obj: seq<real> --> Eval, theta: array<real>, grad: array<real>, step: real,
                       thetaTmp: array<real>, deriv: array<real>)
    returns (e: Eval)
    requires theta.Length == grad.Length == thetaTmp.Length == deriv.Length
    requires Objective(obj, theta.Length)
    requires thetaTmp != theta && thetaTmp != grad && thetaTmp != deriv
    requires deriv != theta && deriv != grad
    modifies thetaTmp, deriv
    ensures thetaTmp[..] == Trial(theta[..], grad[..], step)
    ensures e == obj(Trial(theta[..], grad[..], step)) && deriv[..] == e.grad
  {
    TrialPoint(theta, grad, step, thetaTmp);
    e := obj(thetaTmp[..]);
    Copy(e.grad, deriv);
  }

  /** Lines 147-148: commit the trial point and its gradient. */
  method Commit(thetaTmp: array<real>, deriv: array<real>, theta: array<real>, grad: array<real>)
    requires thetaTmp.Length == deriv.Length == theta.Length == grad.Length
    requires theta != thetaTmp && theta != deriv && grad != thetaTmp && grad != deriv && theta != grad
    modifies theta, grad
    ensures theta[..] == thetaTmp[..] && grad[..] == deriv[..]
  {
    Copy(thetaTmp[..], theta);
    Copy(deriv[..], grad);
  }

  /** The parameter-change test: fills `test` with the absolute changes and
      compares their maximum with tolTheta; 0 means "small enough". */
  method ThetaCheck(thetaTmp: array<real>, theta: array<real>, test: array<real>, tolTheta: real)
    returns (checkTheta: int)
    requires 1 <= theta.Length && thetaTmp.Length == theta.Length == test.Length
    requires test != theta && test != thetaTmp
    modifies test
    ensures checkTheta == 0 || checkTheta == 1
    ensures checkTheta == 0 <==> SmallChange(tolTheta, thetaTmp[..], theta[..])
  {
    var n := theta.Length;
    forall j | 0 <= j < n {
      test[j] := Abs(thetaTmp[j] - theta[j]);
    }
    var largest := Extremum.Max(test, n);
    if largest < tolTheta {
      checkTheta := 0;
      forall j | 0 <= j < n
        ensures Abs(thetaTmp[..][j] - theta[..][j]) < tolTheta
      {
        assert test[j] <= largest;
      }
    } else {
      checkTheta := 1;
      if largest == test[0] {
        assert !(Abs(thetaTmp[..][0] - theta[..][0]) < tolTheta);
      } else {
        var i :| 1 <= i < n && largest == test[i];
        assert !(Abs(thetaTmp[..][i] - theta[..][i]) < tolTheta);
      }
    }
  }

  /** One pass of the loop body (lines 122-150): evaluate the trial point,
      then reject it, stop on it, or commit it. */
  method Iteration(obj: seq<real> --> Eval, cfg: Config, theta: array<real>, grad: array<real>,
                   deriv: array<real>, thetaTmp: array<real>, test: array<real>, f0: real, step: real)
    returns (f1: real, step1: real, stop: bool)
    requires theta.Length == grad.Length == deriv.Length == thetaTmp.Length == test.Length
    requires Objective(obj, theta.Length)
    requires cfg.checkTheta == 1 ==> 1 <= theta.Length
    requires theta != grad && theta != deriv && theta != thetaTmp && theta != test
    requires grad != deriv && grad != thetaTmp && grad != test
    requires deriv != thetaTmp && deriv != test && thetaTmp != test
    modifies theta, grad, deriv, thetaTmp, test
    ensures var mv := Advance(obj, cfg, Search(old(theta[..]), old(grad[..]), f0, step, old(deriv[..])));
      Search(theta[..], grad[..], f1, step1, deriv[..]) == mv.next && stop == mv.stop
  {
    ghost var s := Search(theta[..], grad[..], f0, step, deriv[..]);
    ghost var t := Trial(s.theta, s.grad, s.step);
    var e := EvaluateTrial(obj, theta, grad, step, thetaTmp, deriv);
    f1, step1, stop := f0, step, false;
    if e.value > f0 {
      step1 := step * cfg.beta;
      return;
    }
    var checkTheta := 0;
    if cfg.checkTheta == 1 {
      checkTheta := ThetaCheck(thetaTmp, theta, test, cfg.tolTheta);
    }
    if Abs(e.value - f0) < cfg.tolLL && checkTheta == 0 {
      stop := true;
      return;
    }
    assert !Converged(cfg, s.f0, e.value, t, s.theta);
    Commit(thetaTmp, deriv, theta, grad);
    f1 := e.value;
    step1 := NextStep(cfg, step);
  }

  /** The optimizer of lqmm.c, generic over the objective. `theta` holds the
      starting point and receives the optimum; `deriv` is the objective's
      gradient buffer. Returns CONVERGE[0] and optimum[0]. */
  method GradientSd(theta: array<real>, obj: seq<real> --> Eval, cfg: Config, deriv: array<real>)
    returns (converge: int, optimum: real)
    requires theta != deriv && deriv.Length == theta.Length
    requires Objective(obj, theta.Length)
    requires cfg.checkTheta == 1 ==> 1 <= theta.Length
    modifies theta, deriv
    ensures var out := Run(obj, cfg, Start(obj, cfg, old(theta[..])), 0);
      && theta[..] == out.final.theta
      && deriv[..] == out.final.deriv
      && optimum == out.final.f0
      && converge == ConvergeCode(cfg.maxit, out.iter)
    ensures optimum == obj(theta[..]).value
    ensures optimum <= obj(old(theta[..])).value
    ensures converge == -2 <==> cfg.maxit <= 0
    ensures converge == -1 || converge == -2 || 1 <= converge <= cfg.maxit
  {
    var n := theta.Length;
    var thetaTmp := new real[n];
    var grad := new real[n];
    var test := new real[n];
    ghost var start := Start(obj, cfg, theta[..]);
    ghost var target := Run(obj, cfg, start, 0);

    converge := -2;
    var step := cfg.step0;
    var iter := 0;

    // objective and gradient at the starting point
    var e := obj(theta[..]);
    var f0 := e.value;
    Copy(e.grad, deriv);
    Copy(deriv[..], grad);
    assert Search(theta[..], grad[..], f0, step, deriv[..]) == start;

    while iter < cfg.maxit
      invariant 0 <= iter && (0 <= cfg.maxit ==> iter <= cfg.maxit)
      invariant Run(obj, cfg, Search(theta[..], grad[..], f0, step, deriv[..]), iter) == target
    {
      var stop;
      f0, step, stop := Iteration(obj, cfg, theta, grad, deriv, thetaTmp, test, f0, step);
      if stop {
        break;
      }
      iter := iter + 1;
    }

    RunKeepsCommitted(obj, cfg, start, 0);
    RunDescends(obj, cfg, start, 0);
    if iter < cfg.maxit {
      converge := iter + 1;
    }
    if iter == cfg.maxit && cfg.maxit > 0 {
      converge := -1;
    }
    optimum := f0;
  }
}
