// Mail alerts: the rate limit on alert mails, the numbered replies after each of
// them, and the forced mails that all alert objects share one clock for.

module Mail {

  /** CAlertConfig, after the constructor has applied its coefficients. */
  datatype Config = Config(minInterval: int, firstTimeSkip: int, replyCount: int,
                           replyDiffTime: int, forceInterval: int)

  datatype Sent =
    | AlertMail(at: int, algo: string)
    | ReplyMail(number: int, at: int, algo: string)

  /** CSMTPAlert; algo is the algorithm of the last alert mail, sent what left so far. */
  datatype Alerter = Alerter(lastSend: int, first: bool, replyId: int, algo: string, sent: seq<Sent>)

  function NewAlerter(now: int): Alerter { Alerter(now, true, 0, "", []) }

  /** A call reads the clock when it decides and, for an alert, once more when it
      stores the time of sending. */
  datatype Call =
    | OnAlert(now: int, stored: int, algo: string)
    | CheckReply(now: int)

  function End(c: Call): int { if c.OnAlert? then c.stored else c.now }

  predicate AlertDue(s: Alerter, config: Config, now: int) {
    var diff := now - s.lastSend;
    diff > config.minInterval && (!s.first || diff > config.firstTimeSkip)
  }

  predicate ReplyDue(s: Alerter, config: Config, now: int) {
    && s.algo != "" && config.replyDiffTime > 0 && config.replyCount > 0
    && s.replyId < config.replyCount
    && now - s.lastSend > config.replyDiffTime * (s.replyId + 1)
  }

  function After(s: Alerter, config: Config, c: Call): Alerter {
    match c
    case OnAlert(now, stored, algo) =>
      var first := s.first && now - s.lastSend <= config.firstTimeSkip;
      if AlertDue(s, config, now) then Alerter(stored, first, 0, algo, s.sent + [AlertMail(stored, algo)])
      else s.(first := first)
    case CheckReply(now) =>
      if ReplyDue(s, config, now) then
        s.(replyId := s.replyId + 1, sent := s.sent + [ReplyMail(s.replyId, now, s.algo)])
      else s
  }

  /** The clock never runs backwards, inside a call or between calls. */
  predicate Clocked(cs: seq<Call>, from: int) {
    if cs == [] then true
    else cs[|cs| - 1].now <= End(cs[|cs| - 1])
         && from <= cs[|cs| - 1].now
         && (|cs| > 1 ==> End(cs[|cs| - 2]) <= cs[|cs| - 1].now)
         && Clocked(cs[..|cs| - 1], from)
  }

  function Run(start: int, config: Config, cs: seq<Call>): Alerter {
    if cs == [] then NewAlerter(start) else After(Run(start, config, cs[..|cs| - 1]), config, cs[|cs| - 1])
  }

  function Now(start: int, cs: seq<Call>): int { if cs == [] then start else End(cs[|cs| - 1]) }

  function Alerts(sent: seq<Sent>): nat {
    if sent == [] then 0 else Alerts(sent[..|sent| - 1]) + if sent[|sent| - 1].AlertMail? then 1 else 0
  }

  function Allowed(config: Config): nat { if config.replyCount > 0 then config.replyCount else 0 }

  // ---- how the mails are spaced ----

  /** The time of the last alert mail, or of construction. */
  function LastAlert(sent: seq<Sent>, start: int): int {
    if sent == [] then start
    else if sent[|sent| - 1].AlertMail? then sent[|sent| - 1].at
    else LastAlert(sent[..|sent| - 1], start)
  }

  /** The algorithm that the last alert mail was about. */
  function LastAlgo(sent: seq<Sent>): string {
    if sent == [] then ""
    else if sent[|sent| - 1].AlertMail? then sent[|sent| - 1].algo
    else LastAlgo(sent[..|sent| - 1])
  }

  /** Reply mails since the last alert mail. */
  function RepliesSince(sent: seq<Sent>): nat {
    if sent == [] || sent[|sent| - 1].AlertMail? then 0 else 1 + RepliesSince(sent[..|sent| - 1])
  }

  /** Each alert comes more than minInterval after the one before, the first also
      more than firstTimeSkip after construction; the replies to an alert are
      numbered 0, 1, 2, … below the limit and name its algorithm, and reply j comes
      more than replyDiffTime * (j + 1) after it. */
  predicate Spaced(sent: seq<Sent>, start: int, config: Config) {
    if sent == [] then true
    else
      var init, m := sent[..|sent| - 1], sent[|sent| - 1];
      Spaced(init, start, config) &&
      match m
      case AlertMail(at, _) =>
        at - LastAlert(init, start) > config.minInterval
        && (Alerts(init) == 0 ==> at - start > config.firstTimeSkip)
      case ReplyMail(j, at, algo) =>
        Alerts(init) > 0 && j == RepliesSince(init) && j < config.replyCount
        && algo == LastAlgo(init) && at - LastAlert(init, start) > config.replyDiffTime * (j + 1)
  }

  predicate Inv(s: Alerter, start: int, config: Config, now: int) {
    && Spaced(s.sent, start, config)
    && s.lastSend == LastAlert(s.sent, start) <= now
    && s.replyId == RepliesSince(s.sent)
    && (s.first ==> Alerts(s.sent) == 0)
    && s.algo == LastAlgo(s.sent)
    && (Alerts(s.sent) == 0 ==> s.sent == [])
    && (!s.first && Alerts(s.sent) == 0 ==> now - start > config.firstTimeSkip)
  }

  /** What one more mail does to all that is read off the mails sent. */
  lemma OneMore(sent: seq<Sent>, m: Sent, start: int)
    ensures var all := sent + [m];
            && all != [] && all[..|all| - 1] == sent && all[|all| - 1] == m
            && Alerts(all) == Alerts(sent) + (if m.AlertMail? then 1 else 0)
            && LastAlert(all, start) == (if m.AlertMail? then m.at else LastAlert(sent, start))
            && LastAlgo(all) == (if m.AlertMail? then m.algo else LastAlgo(sent))
            && RepliesSince(all) == (if m.AlertMail? then 0 else 1 + RepliesSince(sent))
  {
    assert (sent + [m])[..|sent|] == sent;
  }

  lemma AlertKeepsInv(s: Alerter, start: int, config: Config, now: int, c: Call)
    requires Inv(s, start, config, now) && now <= c.now <= End(c) && c.OnAlert?
    ensures Inv(After(s, config, c), start, config, End(c))
  {
    if AlertDue(s, config, c.now) {
      OneMore(s.sent, AlertMail(c.stored, c.algo), start);
    }
  }

  lemma {:induction false} AlgoNeedsAlert(sent: seq<Sent>)
    ensures LastAlgo(sent) != "" ==> Alerts(sent) > 0
  {
    if sent != [] { AlgoNeedsAlert(sent[..|sent| - 1]); }
  }

  lemma ReplyKeepsInv(s: Alerter, start: int, config: Config, now: int, c: Call)
    requires Inv(s, start, config, now) && now <= c.now && c.CheckReply?
    ensures Inv(After(s, config, c), start, config, End(c))
  {
    if ReplyDue(s, config, c.now) {
      AlgoNeedsAlert(s.sent);
      OneMore(s.sent, ReplyMail(s.replyId, c.now, s.algo), start);
    }
  }

  lemma {:induction false} RunKeepsInv(start: int, config: Config, cs: seq<Call>)
    requires Clocked(cs, start)
    ensures Inv(Run(start, config, cs), start, config, Now(start, cs))
  {
    if cs != [] {
      var init, c := cs[..|cs| - 1], cs[|cs| - 1];
      RunKeepsInv(start, config, init);
      if init != [] {
        assert init[|init| - 1] == cs[|cs| - 2];
      }
      if c.OnAlert? {
        AlertKeepsInv(Run(start, config, init), start, config, Now(start, init), c);
      } else {
        ReplyKeepsInv(Run(start, config, init), start, config, Now(start, init), c);
      }
    }
  }

  /** Over any run of calls, what was sent is spaced and numbered as promised. */
  lemma MailsAreSpaced(start: int, config: Config, cs: seq<Call>)
    requires Clocked(cs, start)
    ensures Spaced(Run(start, config, cs).sent, start, config)
  {
    RunKeepsInv(start, config, cs);
  }

  /** Nothing due is held back: on any run, an alert call sends its mail exactly when
      more than minInterval has passed since the last alert mail (or construction)
      and, for the first one, also more than firstTimeSkip. */
  lemma {:induction false} AlertSentExactly(start: int, config: Config, cs: seq<Call>, c: Call)
    requires Clocked(cs, start) && c.OnAlert? && Now(start, cs) <= c.now
    ensures var s := Run(start, config, cs);
            After(s, config, c).sent ==
            if c.now - LastAlert(s.sent, start) > config.minInterval
               && (Alerts(s.sent) == 0 ==> c.now - start > config.firstTimeSkip)
            then s.sent + [AlertMail(c.stored, c.algo)] else s.sent
  {
    RunKeepsInv(start, config, cs);
  }

  /** A reply is sent exactly when the last alert mail named an algorithm, still has a
      reply to come, and the delay of that reply has passed. */
  lemma {:induction false} ReplySentExactly(start: int, config: Config, cs: seq<Call>, now: int)
    requires Clocked(cs, start)
    ensures var s := Run(start, config, cs);
            var j := RepliesSince(s.sent);
            After(s, config, CheckReply(now)).sent ==
            if LastAlgo(s.sent) != "" && config.replyDiffTime > 0 && j < config.replyCount
               && now - LastAlert(s.sent, start) > config.replyDiffTime * (j + 1)
            then s.sent + [ReplyMail(j, now, LastAlgo(s.sent))] else s.sent
  {
    RunKeepsInv(start, config, cs);
  }

  /** a alerts among n mails, the last of them at `last`, with `replies` behind it. */
  predicate Counted(n: nat, a: nat, last: int, replies: nat, d: int, r: nat) {
    && a * d <= last && replies + 1 <= r
    && (a == 0 ==> n == 0) && (a > 0 ==> n <= (a - 1) * r + 1 + replies)
  }

  lemma CountAlert(n: nat, a: nat, last: int, replies: nat, d: int, r: nat, at: int)
    requires Counted(n, a, last, replies, d, r) && at - last >= d
    ensures Counted(n + 1, a + 1, at, 0, d, r)
  {
    assert (a + 1) * d == a * d + d;
    PerAlert(n, a, r, replies);
  }

  /** Alerts use up time, and replies are bounded for each alert. */
  lemma {:induction false} SpacedCount(sent: seq<Sent>, start: int, config: Config)
    requires Spaced(sent, start, config) && config.minInterval >= 0
    ensures Counted(|sent|, Alerts(sent), LastAlert(sent, start) - start, RepliesSince(sent),
                    config.minInterval + 1, 1 + Allowed(config))
  {
    if sent != [] {
      var init := sent[..|sent| - 1];
      SpacedCount(init, start, config);
      if sent[|sent| - 1].AlertMail? {
        CountAlert(|init|, Alerts(init), LastAlert(init, start) - start, RepliesSince(init),
                   config.minInterval + 1, 1 + Allowed(config), sent[|sent| - 1].at - start);
      }
    }
  }

  /** The mail bound: an alert object that has lived for W seconds has sent at most
      (1 + max(0, replyCount)) * (W / (minInterval + 1)) mails. */
  lemma MailBound(start: int, config: Config, cs: seq<Call>, W: nat)
    requires Clocked(cs, start) && config.minInterval >= 0 && Now(start, cs) <= start + W
    ensures |Run(start, config, cs).sent| <= (1 + Allowed(config)) * (W / (config.minInterval + 1))
  {
    RunKeepsInv(start, config, cs);
    var sent := Run(start, config, cs).sent;
    SpacedCount(sent, start, config);
    var a, d, r := Alerts(sent), config.minInterval + 1, 1 + Allowed(config);
    QuotientBound(a, d, W);
    PerAlert(|sent|, a, r, RepliesSince(sent));
    ScaleUp(a, W / d, r);
  }

  lemma QuotientBound(a: nat, d: int, W: nat)
    requires d > 0 && a * d <= W
    ensures a <= W / d
  {
    var q := W / d;
    assert W < (q + 1) * d;
    if a > q {
      ScaleUp(q + 1, a, d);
    }
  }

  lemma ScaleUp(a: int, b: int, r: int)
    requires a <= b && r >= 0
    ensures r * a <= r * b && a * r <= b * r
  {
  }

  lemma PerAlert(n: nat, a: nat, r: nat, replies: nat)
    requires a == 0 ==> n == 0
    requires a > 0 ==> n <= (a - 1) * r + 1 + replies
    requires 1 + replies <= r
    ensures n <= r * a
  {
    if a > 0 {
      assert (a - 1) * r + r == a * r;
    }
  }

  // ---- forced mails ----

  /** A call of checkAndSendForce, or the construction of an alert object, which
      restarts the shared clock. `owns` tells whether the try-lock succeeded. */
  datatype ForceCall =
    | Construct(at: int)
    | Force(now: int, stored: int, interval: int, owns: bool)

  function ForceEnd(c: ForceCall): int { if c.Force? then c.stored else c.at }

  function ForceStart(c: ForceCall): int { if c.Force? then c.now else c.at }

  datatype Forced = Forced(at: int, interval: int)

  /** sLastForceSendTime and the forced mails of all objects. */
  datatype Shared = Shared(last: int, mails: seq<Forced>)

  predicate ForceDue(s: Shared, now: int, interval: int) { now - s.last > interval && interval > 0 }

  function AfterForce(s: Shared, c: ForceCall): Shared {
    match c
    case Construct(at) => s.(last := at)
    case Force(now, stored, interval, owns) =>
      if ForceDue(s, now, interval) && owns then Shared(stored, s.mails + [Forced(stored, interval)]) else s
  }

  function RunForce(s: Shared, cs: seq<ForceCall>): Shared
    decreases |cs|
  {
    if cs == [] then s else RunForce(AfterForce(s, cs[0]), cs[1..])
  }

  predicate ForceClocked(cs: seq<ForceCall>, from: int)
    decreases |cs|
  {
    cs == [] || (from <= ForceStart(cs[0]) <= ForceEnd(cs[0]) && ForceClocked(cs[1..], ForceEnd(cs[0])))
  }

  predicate FarApart(mails: seq<Forced>) {
    forall i :: 0 < i < |mails| ==> ApartAt(mails, i)
  }

  predicate ApartAt(mails: seq<Forced>, i: nat)
    requires 0 < i < |mails|
  {
    mails[i].at - mails[i - 1].at > mails[i].interval > 0
  }

  /** Whatever objects force mails on the shared clock, each forced mail comes more
      than its object's interval after the one before. */
  lemma {:induction false} ForcedFarApart(s: Shared, cs: seq<ForceCall>, from: int)
    requires ForceClocked(cs, from) && s.last <= from && FarApart(s.mails)
    requires s.mails != [] ==> s.mails[|s.mails| - 1].at <= s.last
    ensures FarApart(RunForce(s, cs).mails)
    ensures s.mails <= RunForce(s, cs).mails
    decreases |cs|
  {
    if cs != [] {
      var t := AfterForce(s, cs[0]);
      forall i | 0 < i < |t.mails| ensures ApartAt(t.mails, i) {
        assert i < |s.mails| ==> ApartAt(s.mails, i);
      }
      ForcedFarApart(t, cs[1..], ForceEnd(cs[0]));
    }
  }

  /** The clock before any object is constructed. */
  const UNSET := Shared(0, [])

  /** The time of the last construction in a run, or d. */
  function LastConstruct(cs: seq<ForceCall>, d: int): int
    decreases |cs|
  {
    if cs == [] then d else LastConstruct(cs[1..], if cs[0].Construct? then cs[0].at else d)
  }

  function LastForced(mails: seq<Forced>): int { if mails == [] then 0 else mails[|mails| - 1].at }

  function Later(a: int, b: int): int { if a < b then b else a }

  lemma {:induction false} ClockIsTheLater(s: Shared, cs: seq<ForceCall>, from: int, d: int)
    requires ForceClocked(cs, from) && d <= from && LastForced(s.mails) <= from
    requires s.last == Later(LastForced(s.mails), d)
    ensures RunForce(s, cs).last == Later(LastForced(RunForce(s, cs).mails), LastConstruct(cs, d))
    decreases |cs|
  {
    if cs != [] {
      ClockIsTheLater(AfterForce(s, cs[0]), cs[1..], ForceEnd(cs[0]), if cs[0].Construct? then cs[0].at else d);
    }
  }

  /** Nothing due is held back: after any run of constructions and force calls of all
      objects, one more call sends its mail exactly when it gets the lock, its
      interval is positive, and more than that has passed since the later of the
      last forced mail and the last construction. */
  lemma ForcedSentExactly(cs: seq<ForceCall>, c: ForceCall)
    requires ForceClocked(cs, 0) && c.Force?
    ensures var mails := RunForce(UNSET, cs).mails;
            RunForce(UNSET, cs + [c]).mails ==
            if c.owns && c.interval > 0 && c.now - Later(LastForced(mails), LastConstruct(cs, 0)) > c.interval
            then mails + [Forced(c.stored, c.interval)] else mails
  {
    ClockIsTheLater(UNSET, cs, 0, 0);
    RunForceConcat(UNSET, cs, c);
  }

  lemma {:induction false} RunForceConcat(s: Shared, cs: seq<ForceCall>, c: ForceCall)
    ensures RunForce(s, cs + [c]) == AfterForce(RunForce(s, cs), c)
    decreases |cs|
  {
    if cs == [] {
      assert [] + [c] == [c] && [c][1..] == [];
    } else {
      assert (cs + [c])[1..] == cs[1..] + [c];
      RunForceConcat(AfterForce(s, cs[0]), cs[1..], c);
    }
  }

  // ---- the objects ----

  /** The static members of CSMTPAlert. */
  class ForceClock {
    var last: int
    var mails: seq<Forced>

    function State(): Shared
      reads this
    {
      Shared(last, mails)
    }

    constructor ()
      ensures State() == Shared(0, [])
    {
      last, mails := 0, [];
    }
  }

  class SmtpAlert {
    const config: Config
    const clock: ForceClock
    var lastSendTime: int
    var isFirstTime: bool
    var replyId: int
    var lastAlgoName: string
    var sent: seq<Sent>

    function State(): Alerter
      reads this
    {
      Alerter(lastSendTime, isFirstTime, replyId, lastAlgoName, sent)
    }

    constructor (config: Config, clock: ForceClock, now: int, stored: int)
      modifies clock
      ensures this.config == config && this.clock == clock
      ensures State() == NewAlerter(now)
      ensures clock.State() == AfterForce(old(clock.State()), Construct(stored))
    {
      this.config, this.clock := config, clock;
      lastSendTime, isFirstTime, replyId, lastAlgoName, sent := now, true, 0, "", [];
      new;
      clock.last := stored;
    }

    method Alert(now: int, stored: int, algo: string)
      modifies this
      ensures State() == After(old(State()), config, OnAlert(now, stored, algo))
    {
      var diffTime := now - lastSendTime;
      if isFirstTime && diffTime > config.firstTimeSkip {
        isFirstTime := false;
      }
      if diffTime > config.minInterval && !isFirstTime {
        lastSendTime := stored;
        lastAlgoName := algo;
        replyId := 0;
        sent := sent + [AlertMail(stored, algo)];
      }
    }

    method CheckAndSendReply(now: int)
      modifies this
      ensures State() == After(old(State()), config, CheckReply(now))
    {
      if lastAlgoName != "" && config.replyDiffTime > 0 && config.replyCount > 0
         && replyId < config.replyCount
         && now - lastSendTime > config.replyDiffTime * (replyId + 1)
      {
        sent := sent + [ReplyMail(replyId, now, lastAlgoName)];
        replyId := replyId + 1;
      }
    }

    method CheckAndSendForce(now: int, stored: int, owns: bool)
      modifies clock
      ensures clock.State() == AfterForce(old(clock.State()), Force(now, stored, config.forceInterval, owns))
    {
      if now - clock.last > config.forceInterval && config.forceInterval > 0 {
        if owns {
          clock.last := now - config.minInterval;
          clock.last := stored;
          clock.mails := clock.mails + [Forced(stored, config.forceInterval)];
        }
      }
    }
  }
}
