/**
  The anti-flap automaton of a monitored service: results of checks come in one by one,
  and thresholds on consecutive successes and on failures decide its state, which is
  written to every place that was registered for it.
 */
module Monitor {

  datatype Status = Uninit | Down | Danger | Up

  datatype Thresholds = Thresholds(ok: nat, up: nat, down: nat)

  predicate ThresholdsOk(t: Thresholds) { t.ok >= 1 && t.up >= 1 && t.down >= 1 }

  datatype Core = Core(status: Status, successes: nat, failures: nat)

  /** One result. */
  function Step(t: Thresholds, c: Core, latest: bool): Core {
    if latest then
      match c.status
      case Up => c
      case Danger => Core(if c.successes + 1 == t.ok then Up else Danger, c.successes + 1, c.failures)
      case Down => Core(if c.successes + 1 == t.up then Up else Down, c.successes + 1, c.failures)
      case Uninit => c.(status := Up)
    else
      match c.status
      case Up => Core(Danger, 0, 1)
      case Danger => Core(if c.failures + 1 == t.down then Down else Danger, 0, c.failures + 1)
      case Down => c.(successes := 0)
      case Uninit => Core(Down, 0, c.failures)
  }

  /** A whole history of results. */
  function Run(t: Thresholds, h: seq<bool>): Core {
    if h == [] then Core(Uninit, 0, 0) else Step(t, Run(t, h[..|h| - 1]), h[|h| - 1])
  }

  /** How many successes in a row a history ends with. */
  function Streak(h: seq<bool>): nat {
    if h == [] || !h[|h| - 1] then 0 else Streak(h[..|h| - 1]) + 1
  }

  /** How many failures there were since the service was last up. */
  function FailuresSinceUp(t: Thresholds, h: seq<bool>): nat {
    if h == [] || Run(t, h).status == Up then 0
    else FailuresSinceUp(t, h[..|h| - 1]) + if h[|h| - 1] then 0 else 1
  }

  lemma RunMore(t: Thresholds, h: seq<bool>, b: bool)
    ensures Run(t, h + [b]) == Step(t, Run(t, h), b)
    ensures Streak(h + [b]) == if b then Streak(h) + 1 else 0
    ensures Run(t, h + [b]).status != Up ==> FailuresSinceUp(t, h + [b]) == FailuresSinceUp(t, h) + if b then 0 else 1
  {
    assert (h + [b])[..|h + [b]| - 1] == h;
  }

  /** The counters mean what they are for: below its threshold, each counts what the history says. */
  lemma {:induction false} Counters(t: Thresholds, h: seq<bool>)
    requires ThresholdsOk(t)
    ensures var c := Run(t, h);
            && (c.status == Uninit <==> h == [])
            && (c.status == Danger ==> c.successes == Streak(h) < t.ok && c.failures == FailuresSinceUp(t, h) >= 1)
            && (c.status == Danger && t.down >= 2 ==> c.failures < t.down)
            && (c.status == Down ==> c.successes == Streak(h) < t.up)
  {
    if h != [] { Counters(t, h[..|h| - 1]); }
  }

  /** From DANGER or DOWN the service is up again exactly at the threshold's success in a row. */
  lemma UpExactly(t: Thresholds, h: seq<bool>)
    requires ThresholdsOk(t) && (Run(t, h).status == Danger || Run(t, h).status == Down)
    ensures Run(t, h + [true]).status == Up <==> Streak(h + [true]) == if Run(t, h).status == Danger then t.ok else t.up
    ensures Run(t, h + [false]).status != Up
  {
    Counters(t, h);
    RunMore(t, h, true);
    RunMore(t, h, false);
  }

  /** The threshold's failure since the service was last up takes it down, and no other. */
  ghost predicate DownAtThreshold(t: Thresholds, h: seq<bool>) {
    Run(t, h).status == Up || Run(t, h).status == Danger ==>
      (Run(t, h + [false]).status == Down <==> FailuresSinceUp(t, h) + 1 == t.down)
  }

  /**
    That holds of every history exactly when the threshold is at least 2: the failure that leads from UP to
    DANGER is counted but not compared, so a threshold of 1 is missed.
   */
  lemma DownExactly(t: Thresholds)
    requires ThresholdsOk(t)
    ensures (forall h :: DownAtThreshold(t, h)) <==> t.down >= 2
  {
    if t.down >= 2 {
      forall h ensures DownAtThreshold(t, h) {
        Counters(t, h);
        RunMore(t, h, false);
      }
    } else {
      RunMore(t, [], true);
      RunMore(t, [true], false);
      assert [] + [true] == [true];
      assert !DownAtThreshold(t, [true]);
    }
  }

  function Failures(n: nat): seq<bool> {
    if n == 0 then [] else Failures(n - 1) + [false]
  }

  /** With that threshold, a service that was up is never down again however often it fails. */
  lemma {:induction false} NeverDown(t: Thresholds, h: seq<bool>, n: nat)
    requires ThresholdsOk(t) && t.down == 1 && Run(t, h).status == Up && n > 0
    ensures Run(t, h + Failures(n)).status == Danger && Run(t, h + Failures(n)).failures == n
  {
    RunMore(t, h + Failures(n - 1), false);
    assert h + Failures(n) == h + Failures(n - 1) + [false];
    if n == 1 {
      assert h + Failures(0) == h;
    } else {
      NeverDown(t, h, n - 1);
    }
  }

  /** A service that is up is never down after one more result. */
  lemma NeverStraightDown(t: Thresholds, h: seq<bool>, b: bool)
    requires Run(t, h).status == Up
    ensures Run(t, h + [b]).status == if b then Up else Danger
  {
    RunMore(t, h, b);
  }

  class StateManager {
    const thresholds: Thresholds
    /** The registered places, one at least. */
    const states: array<Status>
    var successes: nat
    var failures: nat
    ghost var history: seq<bool>

    ghost predicate Valid()
      reads this, states
    {
      && states.Length > 0 && Run(thresholds, history) == Core(states[0], successes, failures)
      && forall i :: 0 <= i < states.Length ==> states[i] == states[0]
    }

    constructor (thresholds: Thresholds, states: array<Status>)
      requires states.Length > 0 && forall i :: 0 <= i < states.Length ==> states[i] == Uninit
      ensures Valid() && history == [] && this.thresholds == thresholds && this.states == states
    {
      this.thresholds, this.states := thresholds, states;
      successes, failures, history := 0, 0, [];
    }

    method SetAll(s: Status)
      modifies states
      ensures forall i :: 0 <= i < states.Length ==> states[i] == s
    {
      for i := 0 to states.Length
        invariant forall j :: 0 <= j < i ==> states[j] == s
      {
        states[i] := s;
      }
    }

    /** `gdnsd_monio_state_updater`. */
    method Update(latest: bool)
      requires Valid()
      modifies this`successes, this`failures, this`history, states
      ensures Valid() && history == old(history) + [latest]
    {
      RunMore(thresholds, history, latest);
      history := history + [latest];
      var now := states[0];
      if latest {
        match now {
          case Up =>
          case Danger =>
            successes := successes + 1;
            if successes == thresholds.ok { SetAll(Up); }
          case Down =>
            successes := successes + 1;
            if successes == thresholds.up { SetAll(Up); }
          case Uninit =>
            SetAll(Up);
        }
      } else {
        successes := 0;
        match now {
          case Up =>
            failures := 1;
            SetAll(Danger);
          case Danger =>
            failures := failures + 1;
            if failures == thresholds.down { SetAll(Down); }
          case Down =>
          case Uninit =>
            SetAll(Down);
        }
      }
    }
  }
}
