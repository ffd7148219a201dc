/** The TEE prover's loop: one step after another, with a limited number of retries in a row and a
    backoff that grows up to a cap. */
module RetryLoop {
  import opened Wrappers

  /** Durations and the multiplier are non-negative real numbers. */
  datatype Config = Config(maxRetries: nat, initialBackoff: real, multiplier: real, maxBackoff: real)

  predicate IsConfig(config: Config) {
    0.0 <= config.initialBackoff && 0.0 <= config.multiplier && 0.0 <= config.maxBackoff
  }

  // ---------------------------------------------------------------------------------------------
  // One step
  // ---------------------------------------------------------------------------------------------

  /** The answer of the API, or a request error that may be worth a retry. */
  datatype Response<+T> = Answer(value: T) | RequestError(retriable: bool)

  /** A job that verifies to a batch number, or does not verify. */
  datatype Job = Job(verified: Option<nat>)

  datatype StepOutcome = Proved(batch: nat) | NoJob | Failure(retriable: bool)

  /** Gets a job, verifies it, submits the proof; a failed verification is never retried. */
  function Step(job: Response<Option<Job>>, submission: Response<()>): StepOutcome {
    match job
    case RequestError(retriable) => Failure(retriable)
    case Answer(None) => NoJob
    case Answer(Some(Job(None))) => Failure(false)
    case Answer(Some(Job(Some(batch)))) =>
      match submission
      case RequestError(retriable) => Failure(retriable)
      case Answer(_) => Proved(batch)
  }

  // ---------------------------------------------------------------------------------------------
  // The loop
  // ---------------------------------------------------------------------------------------------

  /** One turn of the loop: whether the stop signal is set, and the answers its step gets
      otherwise. */
  datatype Turn = Turn(stop: bool, job: Response<Option<Job>>, submission: Response<()>) {
    function Outcome(): StepOutcome {
      Step(job, submission)
    }
  }

  datatype RunResult = Running | Stopped(turn: nat) | Failed(turn: nat)

  predicate IsRetry(turn: Turn) {
    turn.Outcome().Failure? && turn.Outcome().retriable
  }

  /** The turns just before a position are all failures that are retried. */
  predicate InARow(turns: seq<Turn>, i: nat, count: nat)
    requires i <= |turns|
  {
    count <= i && forall j :: i - count <= j < i ==> IsRetry(turns[j])
  }

  /** A turn gives up: on an error that is not retriable, or after the allowed number of failures
      in a row. */
  predicate GivesUp(config: Config, turns: seq<Turn>, i: nat)
    requires i < |turns|
  {
    && !turns[i].stop && turns[i].Outcome().Failure?
    && (!turns[i].Outcome().retriable || InARow(turns, i, config.maxRetries))
  }

  predicate Ends(config: Config, turns: seq<Turn>, i: nat)
    requires i < |turns|
  {
    turns[i].stop || GivesUp(config, turns, i)
  }

  predicate NoneEndsBefore(config: Config, turns: seq<Turn>, i: nat)
    requires i <= |turns|
  {
    forall j :: 0 <= j < i ==> !Ends(config, turns, j)
  }

  /** How many retried failures there are at the end. */
  function Streak(turns: seq<Turn>): nat {
    if turns == [] || !IsRetry(turns[|turns| - 1]) then 0 else 1 + Streak(turns[..|turns| - 1])
  }

  function Min(a: real, b: real): real {
    if a <= b then a else b
  }

  /** The backoff after a number of failures in a row. */
  function BackoffAfter(config: Config, failures: nat): real {
    if failures == 0 then config.initialBackoff
    else Min(BackoffAfter(config, failures - 1) * config.multiplier, config.maxBackoff)
  }

  lemma {:induction false} StreakCountsRow(turns: seq<Turn>, count: nat)
    ensures InARow(turns, |turns|, count) <==> count <= Streak(turns)
  {
    if count > 0 && turns != [] {
      var n := |turns| - 1;
      var init := turns[..n];
      StreakCountsRow(init, count - 1);
      if InARow(turns, |turns|, count) {
        assert IsRetry(turns[n]);
        assert forall j :: n - (count - 1) <= j < n ==> init[j] == turns[j];
      }
      if count <= Streak(turns) {
        assert IsRetry(turns[n]);
        forall j | |turns| - count <= j < |turns| ensures IsRetry(turns[j]) {
          if j < n {
            assert init[j] == turns[j];
          }
        }
      }
    }
  }

  lemma RowOfPrefix(turns: seq<Turn>, i: nat, count: nat)
    requires i <= |turns|
    ensures InARow(turns, i, count) <==> InARow(turns[..i], i, count)
  {
    assert forall j :: 0 <= j < i ==> turns[..i][j] == turns[j];
  }

  /** How long the loop pauses over the turns: after every turn without a proof, for the backoff
      that the failures so far have led to. */
  function PausesOf(config: Config, turns: seq<Turn>): seq<real> {
    if turns == [] then []
    else
      var before := PausesOf(config, turns[..|turns| - 1]);
      if turns[|turns| - 1].Outcome().Proved? then before else before + [BackoffAfter(config, Streak(turns))]
  }

  /** What the counter says about giving up. */
  lemma CounterTellsGivingUp(config: Config, turns: seq<Turn>, i: nat)
    requires i < |turns|
    ensures GivesUp(config, turns, i) <==>
      && !turns[i].stop && turns[i].Outcome().Failure?
      && (!turns[i].Outcome().retriable || 1 + Streak(turns[..i]) > config.maxRetries)
  {
    StreakCountsRow(turns[..i], config.maxRetries);
    RowOfPrefix(turns, i, config.maxRetries);
  }

  lemma OneMoreTurn(config: Config, turns: seq<Turn>, i: nat)
    requires i < |turns|
    ensures Streak(turns[..i + 1]) == if IsRetry(turns[i]) then 1 + Streak(turns[..i]) else 0
    ensures PausesOf(config, turns[..i + 1]) ==
      if turns[i].Outcome().Proved? then PausesOf(config, turns[..i])
      else PausesOf(config, turns[..i]) + [BackoffAfter(config, Streak(turns[..i + 1]))]
  {
    assert turns[..i + 1][..i] == turns[..i] && turns[..i + 1][i] == turns[i];
  }

  /** A job that does not verify ends the loop, whatever came before; a request error ends it only
      if it is not retriable or the retries are used up. */
  lemma FailedVerificationEnds(config: Config, turns: seq<Turn>, i: nat)
    requires i < |turns| && !turns[i].stop && turns[i].job.Answer? && turns[i].job.value.Some?
    ensures turns[i].job.value.value.verified.None? ==> GivesUp(config, turns, i)
    ensures turns[i].job.value.value.verified.Some? ==>
      (GivesUp(config, turns, i) <==>
       && turns[i].submission.RequestError?
       && (!turns[i].submission.retriable || 1 + Streak(turns[..i]) > config.maxRetries))
  {
    CounterTellsGivingUp(config, turns, i);
  }

  /** An error of the job request ends the loop exactly when it is not retriable or the retries are
      used up. */
  lemma JobRequestErrorEnds(config: Config, turns: seq<Turn>, i: nat)
    requires i < |turns| && !turns[i].stop && turns[i].job.RequestError?
    ensures GivesUp(config, turns, i) <==> !turns[i].job.retriable || 1 + Streak(turns[..i]) > config.maxRetries
  {
    CounterTellsGivingUp(config, turns, i);
  }

  /** A turn without a pending job never gives up, resets the counter and pauses for the initial
      backoff. */
  lemma IdleTurnResets(config: Config, turns: seq<Turn>, i: nat)
    requires i < |turns| && turns[i].job == Answer(None)
    ensures !GivesUp(config, turns, i) && Streak(turns[..i + 1]) == 0
    ensures PausesOf(config, turns[..i + 1]) == PausesOf(config, turns[..i]) + [config.initialBackoff]
  {
    OneMoreTurn(config, turns, i);
  }

  /** A turn that verifies a job and submits its proof never gives up, resets the counter and goes on
      without a pause. */
  lemma ProvedTurnResets(config: Config, turns: seq<Turn>, i: nat, batch: nat)
    requires i < |turns| && turns[i].job == Answer(Some(Job(Some(batch)))) && turns[i].submission.Answer?
    ensures turns[i].Outcome() == Proved(batch)
    ensures !GivesUp(config, turns, i) && Streak(turns[..i + 1]) == 0
    ensures PausesOf(config, turns[..i + 1]) == PausesOf(config, turns[..i])
  {
    OneMoreTurn(config, turns, i);
  }

  class TeeProver {
    const config: Config
    var retries: nat
    var backoff: real
    /** The pauses made so far. */
    var pauses: seq<real>

    constructor (config: Config)
      ensures this.config == config && retries == 1 && backoff == config.initialBackoff && pauses == []
    {
      this.config := config;
      retries := 1;
      backoff := config.initialBackoff;
      pauses := [];
    }

    /** Updates the counter and the backoff after a step, and pauses; `failures` is the number of
        retried failures in a row before the step. */
    method TakeTurn(outcome: StepOutcome, ghost failures: nat) returns (giveUp: bool)
      requires retries == 1 + failures && backoff == BackoffAfter(config, failures)
      modifies this
      ensures giveUp <==> outcome.Failure? && (!outcome.retriable || 1 + failures > config.maxRetries)
      ensures !giveUp ==>
        var now := if outcome.Failure? then failures + 1 else 0;
        && retries == 1 + now && backoff == BackoffAfter(config, now)
        && pauses == if outcome.Proved? then old(pauses) else old(pauses) + [BackoffAfter(config, now)]
    {
      var needToSleep := true;
      match outcome {
        case Proved(_) =>
          retries, backoff := 1, config.initialBackoff;
          needToSleep := false;
        case NoJob =>
          retries, backoff := 1, config.initialBackoff;
        case Failure(retriable) =>
          if !retriable || retries > config.maxRetries {
            return true;
          }
          retries := retries + 1;
          backoff := Min(backoff * config.multiplier, config.maxBackoff);
      }
      if needToSleep {
        pauses := pauses + [backoff];
      }
      return false;
    }

    /** Runs the loop over a sequence of turns. It stops at the first turn with the stop signal or
        with an error that gives up, whichever comes first, and reports which; otherwise it is
        still running, and its counter, backoff and pauses are those of the turns seen. */
    method Run(turns: seq<Turn>) returns (result: RunResult)
      requires retries == 1 && backoff == config.initialBackoff && pauses == []
      modifies this
      ensures result.Stopped? ==>
        result.turn < |turns| && turns[result.turn].stop && NoneEndsBefore(config, turns, result.turn)
      ensures result.Failed? ==>
        result.turn < |turns| && GivesUp(config, turns, result.turn) && NoneEndsBefore(config, turns, result.turn)
      ensures result.Running? ==>
        && NoneEndsBefore(config, turns, |turns|)
        && retries == 1 + Streak(turns) && backoff == BackoffAfter(config, Streak(turns))
        && pauses == PausesOf(config, turns)
    {
      for i := 0 to |turns|
        invariant NoneEndsBefore(config, turns, i)
        invariant retries == 1 + Streak(turns[..i]) && backoff == BackoffAfter(config, Streak(turns[..i]))
        invariant pauses == PausesOf(config, turns[..i])
      {
        if turns[i].stop {
          return Stopped(i);
        }
        CounterTellsGivingUp(config, turns, i);
        OneMoreTurn(config, turns, i);
        var outcome := Step(turns[i].job, turns[i].submission);
        var giveUp := TakeTurn(outcome, Streak(turns[..i]));
        if giveUp {
          return Failed(i);
        }
      }
      assert turns[..|turns|] == turns;
      return Running;
    }
  }

  // ---------------------------------------------------------------------------------------------
  // The backoff in closed form
  // ---------------------------------------------------------------------------------------------

  function Power(base: real, exponent: nat): real {
    if exponent == 0 then 1.0 else base * Power(base, exponent - 1)
  }

  /** The backoff without a cap, multiplied failure by failure. */
  function Raw(config: Config, failures: nat): real {
    if failures == 0 then config.initialBackoff else Raw(config, failures - 1) * config.multiplier
  }

  lemma ProductOfThree(a: real, b: real, c: real)
    ensures a * (c * b) == (a * b) * c
  {
  }

  lemma {:induction false} RawIsPower(config: Config, failures: nat)
    ensures Raw(config, failures) == config.initialBackoff * Power(config.multiplier, failures)
  {
    if failures > 0 {
      RawIsPower(config, failures - 1);
      ProductOfThree(config.initialBackoff, Power(config.multiplier, failures - 1), config.multiplier);
    }
  }

  /** The exponential backoff that the configuration describes. */
  function Exponential(config: Config, failures: nat): real {
    Min(config.initialBackoff * Power(config.multiplier, failures), config.maxBackoff)
  }

  ghost predicate IsExponential(config: Config) {
    forall failures: nat :: failures > 0 ==> BackoffAfter(config, failures) == Exponential(config, failures)
  }

  lemma ProductAtLeast(a: real, p: real, b: real)
    requires b <= a && 0.0 <= p
    ensures b * p <= a * p
  {
  }

  /** One more failure when capping early and capping late agreed so far. */
  lemma CapBeforeGrowing(raw: real, multiplier: real, cap: real, backoff: real, nextRaw: real, next: real)
    requires 1.0 <= multiplier && 0.0 <= cap
    requires backoff == Min(raw, cap) && nextRaw == raw * multiplier && next == Min(backoff * multiplier, cap)
    ensures next == Min(nextRaw, cap)
  {
    if raw > cap {
      ProductAtLeast(raw, multiplier, cap);
      ProductAtLeast(multiplier, cap, 1.0);
    }
  }

  lemma GrowingStep(config: Config, failures: nat)
    requires IsConfig(config) && 1.0 <= config.multiplier && failures > 1
    requires BackoffAfter(config, failures - 1) == Min(Raw(config, failures - 1), config.maxBackoff)
    ensures BackoffAfter(config, failures) == Min(Raw(config, failures), config.maxBackoff)
  {
    CapBeforeGrowing(Raw(config, failures - 1), config.multiplier, config.maxBackoff, BackoffAfter(config, failures - 1),
                     Raw(config, failures), BackoffAfter(config, failures));
  }

  /** With a multiplier of at least one, capping on the way is the same as capping at the end. */
  lemma {:induction false} GrowingBackoff(config: Config, failures: nat)
    requires IsConfig(config) && 1.0 <= config.multiplier && failures > 0
    ensures BackoffAfter(config, failures) == Min(Raw(config, failures), config.maxBackoff)
  {
    if failures > 1 {
      GrowingBackoff(config, failures - 1);
      GrowingStep(config, failures);
    }
  }

  lemma ShrinkOnce(raw: real, multiplier: real, cap: real, nextRaw: real, next: real)
    requires 0.0 <= multiplier < 1.0 && 0.0 <= raw <= cap
    requires nextRaw == raw * multiplier && next == Min(raw * multiplier, cap)
    ensures next == nextRaw && 0.0 <= nextRaw <= cap
  {
    ProductAtLeast(1.0, raw, multiplier);
    ProductAtLeast(multiplier, raw, 0.0);
  }

  lemma ShrinkingStep(config: Config, failures: nat)
    requires IsConfig(config) && config.multiplier < 1.0 && failures > 1
    requires BackoffAfter(config, failures - 1) == Raw(config, failures - 1)
    requires 0.0 <= Raw(config, failures - 1) <= config.maxBackoff
    ensures BackoffAfter(config, failures) == Raw(config, failures)
    ensures 0.0 <= Raw(config, failures) <= config.maxBackoff
  {
    ShrinkOnce(Raw(config, failures - 1), config.multiplier, config.maxBackoff,
               Raw(config, failures), BackoffAfter(config, failures));
  }

  /** With a smaller multiplier the cap must not be reached at all. */
  lemma {:induction false} ShrinkingBackoff(config: Config, failures: nat)
    requires IsConfig(config) && config.multiplier < 1.0 && failures > 0
    requires config.initialBackoff * config.multiplier <= config.maxBackoff
    ensures BackoffAfter(config, failures) == Raw(config, failures)
    ensures 0.0 <= Raw(config, failures) <= config.maxBackoff
  {
    if failures > 1 {
      ShrinkingBackoff(config, failures - 1);
      ShrinkingStep(config, failures);
    } else {
      ProductAtLeast(config.multiplier, config.initialBackoff, 0.0);
    }
  }

  lemma {:induction false} RawIsNonNegative(config: Config, failures: nat)
    requires IsConfig(config)
    ensures 0.0 <= Raw(config, failures)
  {
    if failures > 0 {
      RawIsNonNegative(config, failures - 1);
      ProductAtLeast(config.multiplier, Raw(config, failures - 1), 0.0);
    }
  }

  lemma {:induction false} ZeroCap(config: Config, failures: nat)
    requires IsConfig(config) && config.maxBackoff == 0.0 && failures > 0
    ensures BackoffAfter(config, failures) == 0.0
  {
    if failures > 1 {
      ZeroCap(config, failures - 1);
    } else {
      ProductAtLeast(config.multiplier, config.initialBackoff, 0.0);
    }
  }

  /** The backoff is the capped exponential for any number of failures exactly under IsCapped: when
      the multiplier is at least one, or the first backoff stays below the cap, or the cap is zero.
      Otherwise every failure shrinks the cap itself. */
  lemma BackoffIsExponentialExactlyWhen(config: Config)
    requires IsConfig(config)
    ensures IsExponential(config) <==> IsCapped(config)
  {
    if IsCapped(config) {
      forall failures: nat | failures > 0 ensures BackoffAfter(config, failures) == Exponential(config, failures) {
        CappedIsExponential(config, failures);
      }
    } else {
      CapShrinks(config);
    }
  }

  predicate IsCapped(config: Config) {
    || 1.0 <= config.multiplier
    || config.initialBackoff * config.multiplier <= config.maxBackoff
    || config.maxBackoff == 0.0
  }

  lemma CappedIsExponential(config: Config, failures: nat)
    requires IsConfig(config) && IsCapped(config) && failures > 0
    ensures BackoffAfter(config, failures) == Exponential(config, failures)
  {
    RawIsPower(config, failures);
    if 1.0 <= config.multiplier {
      GrowingBackoff(config, failures);
    } else if config.maxBackoff == 0.0 {
      ZeroCap(config, failures);
      RawIsNonNegative(config, failures);
    } else {
      ShrinkingBackoff(config, failures);
    }
  }

  lemma CapShrinks(config: Config)
    requires IsConfig(config) && config.multiplier < 1.0 && config.maxBackoff > 0.0
    requires config.initialBackoff * config.multiplier > config.maxBackoff
    ensures BackoffAfter(config, 2) < Exponential(config, 2)
  {
    ShrunkProducts(config.initialBackoff, config.multiplier, config.maxBackoff);
    FirstPowers(config.multiplier);
    assert BackoffAfter(config, 0) == config.initialBackoff;
    assert BackoffAfter(config, 1) == config.maxBackoff;
    assert BackoffAfter(config, 2) == config.maxBackoff * config.multiplier;
    assert Exponential(config, 2) == Min(config.initialBackoff * (config.multiplier * config.multiplier), config.maxBackoff);
  }

  lemma FirstPowers(m: real)
    ensures Power(m, 1) == m && Power(m, 2) == m * m
  {
    assert Power(m, 0) == 1.0;
  }

  lemma ShrunkProducts(a: real, m: real, cap: real)
    requires 0.0 <= m < 1.0 && 0.0 < cap < a * m
    ensures cap * m < cap && cap * m < a * (m * m)
  {
    StrictProduct(m, 1.0, cap);
    StrictProduct(cap, a * m, m);
    ProductOfThree(a, m, m);
  }

  lemma StrictProduct(x: real, y: real, z: real)
    requires x < y && 0.0 < z
    ensures x * z < y * z
  {
  }

  // ---------------------------------------------------------------------------------------------
  // The first pause
  // ---------------------------------------------------------------------------------------------

  /** Nothing to wait for, nothing to multiply by, or a cap that is the initial backoff. */
  predicate KeepsInitial(config: Config) {
    || config.initialBackoff == 0.0
    || (config.multiplier == 1.0 && config.initialBackoff <= config.maxBackoff)
    || (config.multiplier >= 1.0 && config.initialBackoff == config.maxBackoff)
  }

  lemma CappedProductKeeps(a: real, m: real, cap: real)
    requires 0.0 <= a && 0.0 <= m && 0.0 <= cap
    ensures Min(a * m, cap) == a <==> a == 0.0 || (m == 1.0 && a <= cap) || (m >= 1.0 && a == cap)
  {
    if 0.0 < a {
      if m < 1.0 {
        StrictProduct(m, 1.0, a);
      } else if m > 1.0 {
        StrictProduct(1.0, m, a);
      }
    }
  }

  /** The backoff is multiplied before the first pause: the first retry waits for the initial
      backoff exactly under KeepsInitial. */
  lemma FirstPauseIsInitialExactlyWhen(config: Config, turn: Turn)
    requires IsConfig(config) && IsRetry(turn)
    ensures PausesOf(config, [turn]) == [Min(config.initialBackoff * config.multiplier, config.maxBackoff)]
    ensures PausesOf(config, [turn]) == [config.initialBackoff] <==> KeepsInitial(config)
  {
    var turns, pause := [turn], Min(config.initialBackoff * config.multiplier, config.maxBackoff);
    OneMoreTurn(config, turns, 0);
    assert turns[..0] == [] && turns[..1] == turns;
    assert BackoffAfter(config, 0) == config.initialBackoff && BackoffAfter(config, 1) == pause;
    assert PausesOf(config, turns) == [] + [pause] == [pause];
    CappedProductKeeps(config.initialBackoff, config.multiplier, config.maxBackoff);
    assert [pause][0] == pause && [config.initialBackoff][0] == config.initialBackoff;
  }

  /** The default configuration describes a first interval of one second and waits two. */
  lemma DefaultFirstPause(turn: Turn)
    requires IsRetry(turn)
    ensures PausesOf(Config(5, 1.0, 2.0, 128.0), [turn]) == [2.0]
  {
    FirstPauseIsInitialExactlyWhen(Config(5, 1.0, 2.0, 128.0), turn);
  }
}
