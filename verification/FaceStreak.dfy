// The face detector's skip logic: it looks at every S-th frame, keeps looking
// while faces are found, and raises an alert after enough positive frames.

module FaceStreak {
  import opened Arithmetic

  datatype Config = Config(skipFrames: nat, minPositive: nat)

  datatype Counters = Counters(current: nat, positives: nat)

  /** hasAlertWithSkip; `positive` is what hasAlert would find in this frame. */
  function Step(s: Counters, config: Config, positive: bool): (Counters, bool)
    requires config.skipFrames > 0
  {
    var next := s.current + 1;
    if s.current % config.skipFrames == 0 || s.positives > 0 then
      if positive then (Counters(next, s.positives + 1), s.positives + 1 >= config.minPositive)
      else (Counters(next, 0), false)
    else (Counters(next, 0), false)
  }

  /** The counters after a history of frames, newest last. */
  function After(config: Config, frames: seq<bool>): Counters
    requires config.skipFrames > 0
  {
    if frames == [] then Counters(0, 0)
    else Step(After(config, frames[..|frames| - 1]), config, frames[|frames| - 1]).0
  }

  /** Does the call for the newest frame raise an alert? */
  predicate Alerts(config: Config, frames: seq<bool>)
    requires config.skipFrames > 0 && frames != []
  {
    Step(After(config, frames[..|frames| - 1]), config, frames[|frames| - 1]).1
  }

  /** From j, a frame the detector looks at on its own, all frames are positive. */
  predicate RunFrom(config: Config, frames: seq<bool>, j: nat)
    requires config.skipFrames > 0
  {
    j < |frames| && j % config.skipFrames == 0 && forall k :: j <= k < |frames| ==> frames[k]
  }

  /** The positive counter is the length of the current run counted from its first
      such frame, and zero when there is none. */
  predicate CountsRun(config: Config, frames: seq<bool>, positives: nat)
    requires config.skipFrames > 0
  {
    && positives <= |frames|
    && (positives > 0 ==> RunFrom(config, frames, |frames| - positives))
    && (forall j :: 0 <= j < |frames| - positives ==> !RunFrom(config, frames, j))
  }

  lemma {:induction false} CounterIsRunLength(config: Config, frames: seq<bool>)
    requires config.skipFrames > 0
    ensures After(config, frames).current == |frames|
    ensures CountsRun(config, frames, After(config, frames).positives)
  {
    if frames != [] {
      var init := frames[..|frames| - 1];
      CounterIsRunLength(config, init);
      forall j | 0 <= j < |init| && RunFrom(config, frames, j) ensures RunFrom(config, init, j) {
      }
      var p, q := After(config, init).positives, After(config, frames).positives;
      if p > 0 && frames[|init|] {
        assert q == p + 1 && |frames| - q == |init| - p;
      }
    }
  }

  function AtLeastOne(n: nat): nat { if n == 0 then 1 else n }

  /** An alert is raised exactly when a run of at least minPositive positive frames,
      counted from a frame whose index is a multiple of skipFrames, is going on. */
  lemma AlertExactly(config: Config, frames: seq<bool>)
    requires config.skipFrames > 0 && frames != []
    ensures Alerts(config, frames) <==>
            exists j :: 0 <= j && |frames| - j >= AtLeastOne(config.minPositive) && RunFrom(config, frames, j)
  {
    var init := frames[..|frames| - 1];
    CounterIsRunLength(config, init);
    CounterIsRunLength(config, frames);
    var q := After(config, frames).positives;
    if Alerts(config, frames) {
      assert RunFrom(config, frames, |frames| - q);
    }
  }

  /** S + N - 1 positive frames in a row always raise an alert. */
  lemma EnoughPositives(config: Config, frames: seq<bool>)
    requires config.skipFrames > 0
    requires |frames| >= config.skipFrames + AtLeastOne(config.minPositive) - 1
    requires forall k :: |frames| - (config.skipFrames + AtLeastOne(config.minPositive) - 1) <= k < |frames| ==> frames[k]
    ensures Alerts(config, frames)
  {
    var S := config.skipFrames;
    var start := |frames| - (S + AtLeastOne(config.minPositive) - 1);
    var d := MultipleWithin(start, S);
    var j := start + d;
    assert j % S == 0;
    assert RunFrom(config, frames, j);
    AlertExactly(config, frames);
  }

  /** One frame fewer is not always enough: a run that starts right after a frame
      the detector looked at must wait for the next one. */
  lemma OneFewerMayMiss(config: Config)
    requires config.skipFrames > 1
    ensures !Alerts(config, [false] + seq(config.skipFrames + AtLeastOne(config.minPositive) - 2, _ => true))
  {
    var S, N := config.skipFrames, AtLeastOne(config.minPositive);
    var frames := [false] + seq(S + N - 2, _ => true);
    AlertExactly(config, frames);
    assert |frames| == S + N - 1 && !frames[0];
    forall j: nat | |frames| - j >= N ensures !RunFrom(config, frames, j) {
      NoMultipleBelow(j, S);
    }
  }

  lemma NoMultipleBelow(j: nat, S: nat)
    requires S > 0
    ensures 0 < j < S ==> j % S != 0
  {
    if 0 < j < S {
      DivMod(j, 0, j, S);
    }
  }

  /** Fewer than minPositive positive frames in a row never raise an alert. */
  lemma TooFewPositives(config: Config, frames: seq<bool>, k: nat)
    requires config.skipFrames > 0 && k < |frames| && !frames[k]
    requires |frames| - 1 - k < config.minPositive
    ensures !Alerts(config, frames)
  {
    AlertExactly(config, frames);
  }

  /** CFaceDetect */
  class FaceDetect {
    const config: Config
    var currentFrame: nat
    var positiveFrames: nat

    function State(): Counters
      reads this
    {
      Counters(currentFrame, positiveFrames)
    }

    constructor (config: Config)
      ensures this.config == config && State() == Counters(0, 0)
    {
      this.config := config;
      currentFrame, positiveFrames := 0, 0;
    }

    method HasAlertWithSkip(positive: bool) returns (alert: bool)
      requires config.skipFrames > 0
      modifies this
      ensures (State(), alert) == Step(old(State()), config, positive)
    {
      var looks := currentFrame % config.skipFrames == 0;
      currentFrame := currentFrame + 1;
      if looks || positiveFrames > 0 {
        if positive {
          positiveFrames := positiveFrames + 1;
          if positiveFrames >= config.minPositive {
            return true;
          }
        } else {
          positiveFrames := 0;
        }
        alert := false;
      } else {
        positiveFrames := 0;
        alert := false;
      }
    }
  }
}
