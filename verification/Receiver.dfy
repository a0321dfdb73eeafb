// The client's receiver: five timers and two counters decide when to ask for the
// next image, when to reconnect and when to empty the image buffer.

module Receiver {
  import opened Bytes
  import opened Framing
  import opened Codec

  const MAX_NETWORK_ERRORS := 8
  const MAX_NUMBER_FOR_CLEAR := 10

  /** The armed timers: mTimer waits for an answer, the others are named after their slots. */
  datatype Timers = Timers(answer: bool, error: bool, request: bool, connect: bool, increase: bool)

  /** mErrorNumber and mClearCount, with the resets and buffer clears so far. */
  datatype Counts = Counts(errors: nat, clearCount: nat, resets: nat, clears: nat)

  /** mLastId and the ids of the images pushed so far. */
  datatype Images = Images(lastId: nat, pushed: seq<nat>)

  /** Image requests sent and connections restarted so far. */
  datatype Net = Net(asked: nat, restarts: nat)

  datatype State = State(timers: Timers, counts: Counts, images: Images, net: Net)

  // mLastId = static_cast<unsigned>(-1)
  const NO_ID := 0xFFFF_FFFF

  const IDLE := State(Timers(false, false, false, false, false), Counts(0, 0, 0, 0), Images(NO_ID, []), Net(0, 0))

  /** What send() calls back before it returns: nothing over TCP; over UDP a
      confirmation, or an error when the datagram could not be written. */
  datatype SendResult = Silent | Confirmed | WriteFailed

  /** What load makes of a reply: nothing, an image with this id, or text lists,
      after which the image object is as it was constructed. */
  datatype Taking = Nothing | NewImage(id: nat) | Lists

  /** CDeSerializer::load as the receiver uses it. */
  function Offered(h: Hashing, input: seq<byte>, lastId: nat): (t: Taking)
    ensures t != NewImage(lastId)
  {
    LoadNeverRepeats(h, input, lastId);
    match LoadReply(h, input, lastId)
    case Accepted(Image(id, _, _)) => NewImage(id)
    case Accepted(TextLists) => Lists
    case _ => Nothing
  }

  /** unset: the id that an image object has before load sets it, which is no
      value in particular. */
  datatype Event =
    | Connected
    | SendDone
    | Failed(fatal: bool)
    | Answered(taking: Taking, isText: bool, decodes: bool, unset: nat)
    | AnswerFires
    | ErrorFires
    | RequestFires(result: SendResult)
    | ConnectFires(ready: bool, result: SendResult)
    | IncreaseFires(result: SendResult)

  /** A timer's slot runs only while the timer is armed. */
  predicate Enabled(s: State, e: Event) {
    match e
    case AnswerFires => s.timers.answer
    case ErrorFires => s.timers.error
    case RequestFires(_) => s.timers.request
    case ConnectFires(_, _) => s.timers.connect
    case IncreaseFires(_) => s.timers.increase
    case Answered(taking, _, _, _) => taking != NewImage(s.images.lastId)
    case _ => true
  }

  /** Asking for an image arms the answer timer. */
  function Asked(t: Timers, result: SendResult): Timers {
    t.(answer := true, increase := t.increase || result == WriteFailed)
  }

  predicate ResetDue(c: Counts) { c.errors + 1 >= MAX_NETWORK_ERRORS }

  function TimersAfter(t: Timers, c: Counts, e: Event): Timers {
    match e
    case Connected => t.(connect := true)
    case SendDone => t.(answer := true)
    case Failed(_) => t.(increase := true)
    case Answered(_, _, _, _) => t.(answer := true, request := true)
    case AnswerFires => t.(increase := true)
    case ErrorFires => t.(error := false, connect := true)  // restart: close, then start, which reports onConnect
    case RequestFires(result) => Asked(t.(request := false), result)
    case ConnectFires(ready, result) =>
      if ready then Asked(t.(connect := false), result) else t.(connect := false, increase := true)
    case IncreaseFires(result) =>
      if ResetDue(c) then t.(increase := false, error := true) else Asked(t.(increase := false), result)
  }

  /** increaseErrorCount on the counters. */
  function Increased(c: Counts): Counts {
    if !ResetDue(c) then c.(errors := c.errors + 1)
    else if c.clearCount >= MAX_NUMBER_FOR_CLEAR then Counts(0, 0, c.resets + 1, c.clears + 1)
    else Counts(0, c.clearCount + 1, c.resets + 1, c.clears)
  }

  /** Errors of the kinds that fill the error counter at once. */
  predicate Fatal(e: Event) { (e.Failed? && e.fatal) || (e.ConnectFires? && !e.ready) }

  function CountsAfter(c: Counts, e: Event): Counts {
    if Fatal(e) then c.(errors := MAX_NETWORK_ERRORS)
    else if e.Answered? then c.(errors := 0)
    else if e.IncreaseFires? then Increased(c)
    else c
  }

  /** tryLoadMat: a new image is taken and, when it decodes, pushed. Text lists that
      reach a receiver of images leave it with the id of an empty image. */
  function ImagesAfter(m: Images, e: Event): Images {
    if !e.Answered? || e.isText then m
    else match e.taking
         case Nothing => m
         case NewImage(id) => Images(id, if e.decodes then m.pushed + [id] else m.pushed)
         case Lists => Images(e.unset, m.pushed)
  }

  function NetAfter(n: Net, c: Counts, e: Event): Net {
    match e
    case RequestFires(_) => n.(asked := n.asked + 1)
    case ConnectFires(ready, _) => if ready then n.(asked := n.asked + 1) else n
    case IncreaseFires(_) => if ResetDue(c) then n else n.(asked := n.asked + 1)
    case ErrorFires => n.(restarts := n.restarts + 1)
    case _ => n
  }

  function After(s: State, e: Event): State {
    State(TimersAfter(s.timers, s.counts, e), CountsAfter(s.counts, e), ImagesAfter(s.images, e),
          NetAfter(s.net, s.counts, e))
  }

  predicate Possible(s: State, es: seq<Event>)
    decreases |es|
  {
    es == [] || (Enabled(s, es[0]) && Possible(After(s, es[0]), es[1..]))
  }

  function Run(s: State, es: seq<Event>): State
    decreases |es|
  {
    if es == [] then s else Run(After(s, es[0]), es[1..])
  }

  // ---- every reachable state ----

  predicate SomeArmed(t: Timers) { t.answer || t.error || t.request || t.connect || t.increase }

  predicate InRange(c: Counts) {
    && c.errors <= MAX_NETWORK_ERRORS && c.clearCount <= MAX_NUMBER_FOR_CLEAR
    && c.resets == (MAX_NUMBER_FOR_CLEAR + 1) * c.clears + c.clearCount
  }

  /** From the first connect on some timer is always armed, so the receiver cannot
      fall silent; the counters stay in range, and exactly every eleventh reset
      clears the image buffer. */
  lemma {:induction false} NeverStuck(s: State, es: seq<Event>)
    requires InRange(s.counts) && (SomeArmed(s.timers) || (es != [] && es[0] == Connected))
    requires Possible(s, es)
    ensures InRange(Run(s, es).counts) && SomeArmed(Run(s, es).timers)
    decreases |es|
  {
    if es != [] {
      NeverStuck(After(s, es[0]), es[1..]);
    }
  }

  /** Once a request has been sent the answer timer never stops for good, so a
      silent server is always noticed. */
  lemma {:induction false} AnswerTimerStaysArmed(s: State, es: seq<Event>)
    requires s.timers.answer && Possible(s, es)
    ensures Run(s, es).timers.answer
    decreases |es|
  {
    if es != [] {
      AnswerTimerStaysArmed(After(s, es[0]), es[1..]);
    }
  }

  // ---- unanswered calls ----

  predicate Unanswered(es: seq<Event>) { forall i :: 0 <= i < |es| ==> !es[i].Answered? }

  predicate NoFatalError(es: seq<Event>) { forall i :: 0 <= i < |es| ==> !Fatal(es[i]) }

  /** Calls of increaseErrorCount. */
  function Calls(es: seq<Event>): nat {
    if es == [] then 0 else (if es[0].IncreaseFires? then 1 else 0) + Calls(es[1..])
  }

  const CALLS_TO_CLEAR := MAX_NETWORK_ERRORS * (MAX_NUMBER_FOR_CLEAR + 1)

  /** Calls already on the way to the next reset. */
  function TowardsReset(c: Counts): nat {
    if c.errors < MAX_NETWORK_ERRORS then c.errors else MAX_NETWORK_ERRORS - 1
  }

  /** All the way so far: full rounds of 88 calls, and the current one. */
  function Distance(c: Counts): nat {
    CALLS_TO_CLEAR * c.clears + MAX_NETWORK_ERRORS * c.clearCount + TowardsReset(c)
  }

  lemma CallPushes(c: Counts, e: Event)
    requires InRange(c) && !e.Answered?
    ensures var d := CountsAfter(c, e);
            var call := if e.IncreaseFires? then 1 else 0;
            && InRange(d) && d.clears >= c.clears && d.resets >= c.resets
            && Distance(d) >= Distance(c) + call && (!Fatal(e) ==> Distance(d) == Distance(c) + call)
            && (d.resets == c.resets ==> TowardsReset(d) >= TowardsReset(c) + call)
  {
  }

  /** Over any run without an answer, each call counts once towards a clear and a
      fatal error only pushes further: without one the way is exactly the calls. */
  lemma {:induction false} CallsPushOn(s: State, es: seq<Event>)
    requires InRange(s.counts) && Unanswered(es)
    ensures var t := Run(s, es);
            && Distance(t.counts) >= Distance(s.counts) + Calls(es)
            && (NoFatalError(es) ==> Distance(t.counts) == Distance(s.counts) + Calls(es))
            && InRange(t.counts) && t.counts.clears >= s.counts.clears && t.counts.resets >= s.counts.resets
            && (t.counts.resets == s.counts.resets ==>
                  TowardsReset(t.counts) >= TowardsReset(s.counts) + Calls(es))
    decreases |es|
  {
    if es != [] {
      assert !es[0].Answered?;
      CallPushes(s.counts, es[0]);
      CallsPushOn(After(s, es[0]), es[1..]);
    }
  }

  lemma WithinRound(c: Counts)
    requires InRange(c)
    ensures 88 * c.clears <= Distance(c) < 88 * (c.clears + 1)
  {
    assert CALLS_TO_CLEAR == 88;
  }

  /** At most 88 unanswered calls pass before the image buffer is cleared, and
      without fatal errors every 88 of them clear it exactly once. */
  lemma ClearWithin88(s: State, es: seq<Event>)
    requires InRange(s.counts) && Unanswered(es)
    ensures Calls(es) >= 88 ==> Run(s, es).counts.clears > s.counts.clears
    ensures NoFatalError(es) && Calls(es) == 88 ==> Run(s, es).counts.clears == s.counts.clears + 1
  {
    CallsPushOn(s, es);
    WithinRound(s.counts);
    WithinRound(Run(s, es).counts);
  }

  /** At most eight unanswered calls pass before a connection reset. */
  lemma ResetWithin8(s: State, es: seq<Event>)
    requires InRange(s.counts) && Unanswered(es) && Calls(es) >= 8
    ensures Run(s, es).counts.resets > s.counts.resets
  {
    CallsPushOn(s, es);
  }

  /** Every call either asks for an image again or resets the connection. */
  function Requests(es: seq<Event>): nat {
    if es == [] then 0
    else (if es[0].RequestFires? || (es[0].ConnectFires? && es[0].ready) then 1 else 0) + Requests(es[1..])
  }

  function Restarts(es: seq<Event>): nat {
    if es == [] then 0 else (if es[0].ErrorFires? then 1 else 0) + Restarts(es[1..])
  }

  lemma {:induction false} RequestsAccounted(s: State, es: seq<Event>)
    ensures var t := Run(s, es);
            && t.counts.resets >= s.counts.resets
            && t.net.asked + (t.counts.resets - s.counts.resets) == s.net.asked + Requests(es) + Calls(es)
            && t.net.restarts == s.net.restarts + Restarts(es)
    decreases |es|
  {
    if es != [] { RequestsAccounted(After(s, es[0]), es[1..]); }
  }

  /** Calls since the last reset, over all resets. */
  lemma {:induction false} ResetsCounted(s: State, es: seq<Event>)
    requires Unanswered(es) && NoFatalError(es) && s.counts.errors < MAX_NETWORK_ERRORS
    ensures var t := Run(s, es);
            && t.counts.errors < MAX_NETWORK_ERRORS
            && 8 * t.counts.resets + t.counts.errors == 8 * s.counts.resets + s.counts.errors + Calls(es)
    decreases |es|
  {
    if es != [] {
      assert !es[0].Answered? && !Fatal(es[0]);
      ResetsCounted(After(s, es[0]), es[1..]);
    }
  }

  /** An answer starts the count of errors over: the connection is then reset once in
      eight unanswered calls, no earlier. */
  lemma AnswerStartsOver(s: State, a: Event, es: seq<Event>)
    requires a.Answered? && Unanswered(es) && NoFatalError(es)
    ensures Run(After(s, a), es).counts.resets == s.counts.resets + Calls(es) / 8
  {
    ResetsCounted(After(s, a), es);
  }

  // ---- progress ----

  predicate Asks(c: Counts, e: Event) {
    e.RequestFires? || (e.ConnectFires? && e.ready) || (e.IncreaseFires? && !ResetDue(c))
  }

  /** The timers, one by one: what arms each of them, and what alone stops it. Only
      the answer timer goes on when it has fired. */
  lemma TimersExactly(t: Timers, c: Counts, e: Event)
    ensures var u := TimersAfter(t, c, e);
            && (u.answer <==> t.answer || e.SendDone? || e.Answered? || Asks(c, e))
            && (u.request <==> (t.request && !e.RequestFires?) || e.Answered?)
            && (u.connect <==> (t.connect && !e.ConnectFires?) || e.Connected? || e.ErrorFires?)
            && (u.error <==> (t.error && !e.ErrorFires?) || (e.IncreaseFires? && ResetDue(c)))
    ensures TimersAfter(t, c, e).increase <==>
            (t.increase && !e.IncreaseFires?) || e.Failed? || e.AnswerFires?
            || (e.ConnectFires? && !e.ready) || (Asks(c, e) && e.result == WriteFailed)
  {
    match e
    case RequestFires(_) =>
    case ConnectFires(_, _) =>
    case IncreaseFires(_) =>
    case _ =>
  }

  /** A server that never answers: the answer timer fires, and the error call that
      it starts comes, n times over. */
  function Silence(n: nat): seq<Event> {
    if n == 0 then [] else [AnswerFires, IncreaseFires(Silent)] + Silence(n - 1)
  }

  lemma SilentRound(s: State, n: nat)
    requires n > 0 && s.timers.answer
    ensures var t := After(After(s, AnswerFires), IncreaseFires(Silent));
            && t.timers.answer
            && (Possible(t, Silence(n - 1)) ==> Possible(s, Silence(n)))
            && Run(s, Silence(n)) == Run(t, Silence(n - 1))
            && Calls(Silence(n)) == 1 + Calls(Silence(n - 1))
  {
    var es := Silence(n);
    assert es[0] == AnswerFires && es[1..] == [IncreaseFires(Silent)] + Silence(n - 1);
    assert es[1..][0] == IncreaseFires(Silent) && es[1..][1..] == Silence(n - 1);
  }

  lemma {:induction false} SilencePossible(s: State, n: nat)
    requires s.timers.answer
    ensures Possible(s, Silence(n)) && Run(s, Silence(n)).timers.answer && Calls(Silence(n)) == n
    decreases n
  {
    if n > 0 {
      SilentRound(s, n);
      SilencePossible(After(After(s, AnswerFires), IncreaseFires(Silent)), n - 1);
    }
  }

  lemma {:induction false} SilenceIsSilent(n: nat)
    ensures Unanswered(Silence(n)) && NoFatalError(Silence(n))
  {
    if n > 0 { SilenceIsSilent(n - 1); }
  }

  /** Once a request has been sent, a server that never answers cannot stop the
      receiver: every error call becomes possible in its turn, each of them asks
      again or resets, eight lead to a reset and 88 to a cleared buffer. */
  lemma SilenceIsNoticed(s: State, n: nat)
    requires InRange(s.counts) && s.timers.answer
    ensures var t := Run(s, Silence(n));
            && Possible(s, Silence(n)) && t.timers.answer
            && t.net.asked + t.counts.resets == s.net.asked + s.counts.resets + n
            && (n >= 8 ==> t.counts.resets > s.counts.resets)
            && (n >= 88 ==> t.counts.clears > s.counts.clears)
  {
    SilencePossible(s, n);
    SilenceIsSilent(n);
    SilentRequests(n);
    RequestsAccounted(s, Silence(n));
    if n >= 8 { ResetWithin8(s, Silence(n)); }
    ClearWithin88(s, Silence(n));
  }

  lemma {:induction false} SilentRequests(n: nat)
    ensures Requests(Silence(n)) == 0
  {
    if n > 0 {
      SilentRequests(n - 1);
      assert Silence(n)[1..] == [IncreaseFires(Silent)] + Silence(n - 1);
      assert ([IncreaseFires(Silent)] + Silence(n - 1))[1..] == Silence(n - 1);
    }
  }

  /** A reset: the error timer fires, the connection is restarted, and as soon as it
      is ready the receiver asks again, with no errors counted. */
  lemma ResetReconnects(s: State, first: SendResult, second: SendResult)
    requires s.timers.increase && ResetDue(s.counts)
    ensures var es := [IncreaseFires(first), ErrorFires, ConnectFires(true, second)];
            var t := Run(s, es);
            && Possible(s, es) && t.timers.answer && t.counts.errors == 0
            && t.counts.resets == s.counts.resets + 1 && t.net == Net(s.net.asked + 1, s.net.restarts + 1)
  {
    ThreeSteps(s, IncreaseFires(first), ErrorFires, ConnectFires(true, second));
  }

  lemma ThreeSteps(s: State, a: Event, b: Event, c: Event)
    ensures Run(s, [a, b, c]) == After(After(After(s, a), b), c)
    ensures Possible(s, [a, b, c]) <==>
            Enabled(s, a) && Enabled(After(s, a), b) && Enabled(After(After(s, a), b), c)
  {
    TwoSteps(After(s, a), b, c);
    assert [a, b, c][1..] == [b, c];
  }

  lemma TwoSteps(s: State, a: Event, b: Event)
    ensures Run(s, [a, b]) == After(After(s, a), b)
    ensures Possible(s, [a, b]) <==> Enabled(s, a) && Enabled(After(s, a), b)
  {
    assert [a, b][1..] == [b] && [b][1..] == [];
    assert Run(After(s, a), [b]) == After(After(s, a), b);
    assert Possible(After(s, a), [b]) <==> Enabled(After(s, a), b);
  }

  /** From the start: connected and ready, the receiver asks for its first image. */
  lemma FirstRequest(result: SendResult)
    ensures var es := [Connected, ConnectFires(true, result)];
            Possible(IDLE, es) && Run(IDLE, es).net.asked == 1 && Run(IDLE, es).timers.answer
  {
    TwoSteps(IDLE, Connected, ConnectFires(true, result));
  }

  /** After every answer, whatever it was, the receiver asks for the next image. */
  lemma AnswerAsksAgain(s: State, a: Event, result: SendResult)
    requires a.Answered? && Enabled(s, a)
    ensures var t := Run(s, [a, RequestFires(result)]);
            && Possible(s, [a, RequestFires(result)])
            && t.net.asked == s.net.asked + 1 && t.counts.errors == 0 && t.timers.answer
  {
    TwoSteps(s, a, RequestFires(result));
  }

  /** A fatal error resets the connection with the very next error call. */
  lemma FatalErrorResets(s: State, e: Event, result: SendResult)
    requires Enabled(s, e) && Fatal(e)
    ensures var t := Run(s, [e, IncreaseFires(result)]);
            && Possible(s, [e, IncreaseFires(result)])
            && t.counts.resets == s.counts.resets + 1 && t.counts.errors == 0 && t.timers.error
  {
    TwoSteps(s, e, IncreaseFires(result));
  }

  // ---- images ----

  /** The images that a run of replies brings to a receiver of images. */
  function Brought(es: seq<Event>): seq<nat> { if es == [] then [] else Bring(es[0]) + Brought(es[1..]) }

  function Bring(e: Event): seq<nat> {
    if e.Answered? && !e.isText && e.taking.NewImage? && e.decodes then [e.taking.id] else []
  }

  /** The id that the last reply left behind, or d. */
  function LeftBehind(es: seq<Event>, d: nat): nat
    decreases |es|
  {
    if es == [] then d
    else LeftBehind(es[1..],
                    if !es[0].Answered? || es[0].isText then d
                    else match es[0].taking
                         case Nothing => d
                         case NewImage(id) => id
                         case Lists => es[0].unset)
  }

  lemma OnePushed(m: Images, e: Event)
    ensures ImagesAfter(m, e).pushed == m.pushed + Bring(e)
  {
  }

  /** Exactly the images that decode are pushed, in the order they come. */
  lemma {:induction false} PushedExactly(s: State, es: seq<Event>)
    ensures Run(s, es).images.pushed == s.images.pushed + Brought(es)
    ensures Run(s, es).images.lastId == LeftBehind(es, s.images.lastId)
    decreases |es|
  {
    if es != [] {
      OnePushed(s.images, es[0]);
      Regroup(s.images.pushed, Bring(es[0]), Brought(es[1..]));
      PushedExactly(After(s, es[0]), es[1..]);
    }
  }

  /** What the server writes is what the receiver is offered. */
  lemma OfferedExactly(h: Hashing, r: Reply, lastId: nat)
    requires SendableReply(r)
    ensures Offered(h, ReplyBytes(h, r), lastId) == if r.id == lastId then Nothing else NewImage(r.id)
  {
    ReplyRoundTrip(h, r, lastId);
  }

  /** The first image of all is taken, unless its id is that of no image. */
  lemma FirstImageTaken(h: Hashing, r: Reply)
    requires SendableReply(r)
    ensures Offered(h, ReplyBytes(h, r), IDLE.images.lastId) == if r.id == 0xFFFF_FFFF then Nothing else NewImage(r.id)
  {
    OfferedExactly(h, r, NO_ID);
  }

  lemma StatusOffered(h: Hashing, info: QString, answer: u32, lists: seq<byte>, lastId: nat)
    requires Sendable(info) && |PutString(info)| + |lists| < 0x7000_0000 && answer != IMAGE_ID
    ensures Offered(h, StatusBytes(h, info, answer, lists), lastId) == if answer == TEXT_BUFFER then Lists else Nothing
  {
    StatusRefused(h, info, answer, lists, lastId);
  }

  /** No id twice in a row. */
  predicate NoRepeats(ids: seq<nat>) { forall i :: 0 < i < |ids| ==> ids[i] != ids[i - 1] }

  predicate LastPushed(m: Images) { m.pushed != [] ==> m.pushed[|m.pushed| - 1] == m.lastId }

  /** The events after which the last id is no longer that of the last image
      pushed: an image that does not decode, or text lists for an image receiver. */
  predicate Drifts(m: Images, e: Event) {
    m.pushed != [] && e.Answered? && !e.isText &&
    match e.taking
    case Nothing => false
    case NewImage(_) => !e.decodes
    case Lists => e.unset != m.lastId
  }

  lemma DriftExactly(s: State, e: Event)
    requires Enabled(s, e) && LastPushed(s.images)
    ensures LastPushed(After(s, e).images) <==> !Drifts(s.images, e)
  {
  }

  /** Whatever comes next pushes no image twice in a row. */
  ghost predicate CannotRepeat(s: State) {
    forall e :: Enabled(s, e) ==> NoRepeats(After(s, e).images.pushed)
  }

  lemma CannotRepeatExactly(s: State)
    requires NoRepeats(s.images.pushed)
    ensures CannotRepeat(s) <==> LastPushed(s.images)
  {
    if !LastPushed(s.images) {
      var last := s.images.pushed[|s.images.pushed| - 1];
      var e := Answered(NewImage(last), false, true, 0);
      assert Enabled(s, e);
      var pushed := After(s, e).images.pushed;
      assert pushed[|pushed| - 1] == pushed[|pushed| - 2];
    }
  }

  /** In no state along the run, the last one included, can a repeat come next. */
  ghost predicate NeverCanRepeat(s: State, es: seq<Event>)
    decreases |es|
  {
    CannotRepeat(s) && (es == [] || NeverCanRepeat(After(s, es[0]), es[1..]))
  }

  predicate NeverDrifts(s: State, es: seq<Event>)
    decreases |es|
  {
    es == [] || (!Drifts(s.images, es[0]) && NeverDrifts(After(s, es[0]), es[1..]))
  }

  /** Over a run, pushing the same image twice in a row stays out of reach exactly
      when no event of it drifts. */
  lemma {:induction false} NeverPushesRepeat(s: State, es: seq<Event>)
    requires Possible(s, es) && NoRepeats(s.images.pushed) && LastPushed(s.images)
    ensures NeverCanRepeat(s, es) <==> NeverDrifts(s, es)
    ensures NeverDrifts(s, es) ==> NoRepeats(Run(s, es).images.pushed)
    decreases |es|
  {
    CannotRepeatExactly(s);
    if es != [] {
      var t := After(s, es[0]);
      DriftExactly(s, es[0]);
      if Drifts(s.images, es[0]) {
        CannotRepeatExactly(t);
      } else {
        NeverPushesRepeat(t, es[1..]);
      }
    }
  }

  /** An image, text lists, the same image again: it is pushed twice in a row, unless
      the unset id happens to be its own. */
  lemma TextListsLetRepeat(id: nat, unset: nat)
    requires id != NO_ID && unset != id
    ensures var image := Answered(NewImage(id), false, true, unset);
            var es := [image, Answered(Lists, false, true, unset), image];
            Possible(IDLE, es) && Run(IDLE, es).images.pushed == [id, id]
  {
    var image, lists := Answered(NewImage(id), false, true, unset), Answered(Lists, false, true, unset);
    var s1 := After(IDLE, image);
    var s2 := After(s1, lists);
    assert [image, lists, image][1..] == [lists, image];
    assert [lists, image][1..] == [image];
    assert [image][1..] == [];
    assert Run(s2, [image]) == After(s2, image) && Possible(s2, [image]);
    assert Run(s1, [lists, image]) == After(s2, image) && Possible(s1, [lists, image]);
  }

  // ---- the object ----

  /** CImageReceiverWorker */
  class ImageReceiver {
    const hashing: Hashing
    const isText: bool
    var timers: Timers
    var errorNumber: nat
    var clearCount: nat
    var resets: nat
    var clears: nat
    var lastId: nat
    var pushed: seq<nat>
    var asked: nat
    var restarts: nat

    function Now(): State
      reads this
    {
      State(timers, Counts(errorNumber, clearCount, resets, clears), Images(lastId, pushed), Net(asked, restarts))
    }

    constructor (hashing: Hashing, isText: bool)
      ensures Now() == IDLE && this.hashing == hashing && this.isText == isText
    {
      this.hashing, this.isText := hashing, isText;
      timers := Timers(false, false, false, false, false);
      errorNumber, clearCount, resets, clears := 0, 0, 0, 0;
      lastId, pushed := NO_ID, [];
      asked, restarts := 0, 0;
    }

    method OnConnect()
      modifies this
      ensures Now() == After(old(Now()), Connected)
    {
      timers := timers.(connect := true);
    }

    method SendCallBack()
      modifies this`timers
      ensures timers == old(timers).(answer := true)
    {
      timers := timers.(answer := true);
    }

    method OnError(fatal: bool)
      modifies this`timers, this`errorNumber
      ensures timers == old(timers).(increase := true)
      ensures errorNumber == if fatal then MAX_NETWORK_ERRORS else old(errorNumber)
    {
      if fatal {
        errorNumber := MAX_NETWORK_ERRORS;
        timers := timers.(increase := true);
      } else {
        timers := timers.(increase := true);
      }
    }

    method SendImageRequest(result: SendResult)
      modifies this`timers, this`errorNumber, this`asked
      ensures timers == Asked(old(timers), result) && errorNumber == old(errorNumber) && asked == old(asked) + 1
    {
      timers := timers.(answer := true);
      asked := asked + 1;
      match result {
        case Silent =>
        case Confirmed => SendCallBack();
        case WriteFailed => OnError(false);
      }
    }

    method IncreaseErrorCount(result: SendResult)
      requires timers.increase
      modifies this
      ensures Now() == After(old(Now()), IncreaseFires(result))
    {
      timers := timers.(increase := false);
      errorNumber := errorNumber + 1;
      if errorNumber >= MAX_NETWORK_ERRORS {
        errorNumber := 0;
        resets := resets + 1;
        var count := clearCount;
        clearCount := clearCount + 1;
        if count >= MAX_NUMBER_FOR_CLEAR {
          clears := clears + 1;
          clearCount := 0;
        }
        timers := timers.(error := true);
      } else {
        SendImageRequest(result);
      }
    }

    method ReceiveCallBack(input: seq<byte>, decodes: bool, unset: nat)
      modifies this
      ensures Now() == After(old(Now()), Answered(Offered(hashing, input, old(lastId)), isText, decodes, unset))
    {
      timers := timers.(answer := false);
      TryLoadMat(input, decodes, unset);
      errorNumber := 0;
      timers := timers.(answer := true);
      timers := timers.(request := true);
    }

    method TryLoadMat(input: seq<byte>, decodes: bool, unset: nat)
      modifies this`lastId, this`pushed
      ensures Images(lastId, pushed) ==
              ImagesAfter(old(Images(lastId, pushed)), Answered(Offered(hashing, input, old(lastId)), isText, decodes, unset))
    {
      var taking := Load(input);
      if isText {
        return;
      }
      if taking.NewImage? {
        lastId := taking.id;
        if decodes {
          pushed := pushed + [lastId];
        }
      } else if taking.Lists? {
        lastId := unset;
      }
    }

    method Load(input: seq<byte>) returns (taking: Taking)
      ensures taking == Offered(hashing, input, lastId)
    {
      var serializer := new Serializer(hashing);
      var reply := serializer.LoadFromServer(input, lastId);
      taking := match reply
                case Accepted(Image(id, _, _)) => NewImage(id)
                case Accepted(TextLists) => Lists
                case _ => Nothing;
    }

    method TimerTimeout()
      requires timers.answer
      modifies this`timers
      ensures Now() == After(old(Now()), AnswerFires)
    {
      timers := timers.(increase := true);
    }

    method TimerErrorTimeout()
      requires timers.error
      modifies this
      ensures Now() == After(old(Now()), ErrorFires)
    {
      timers := timers.(error := false);
      restarts := restarts + 1;
      OnConnect();
    }

    method TimerRequestTimeout(result: SendResult)
      requires timers.request
      modifies this
      ensures Now() == After(old(Now()), RequestFires(result))
    {
      timers := timers.(request := false);
      SendImageRequest(result);
    }

    method TimerConnectTimeout(ready: bool, result: SendResult)
      requires timers.connect
      modifies this
      ensures Now() == After(old(Now()), ConnectFires(ready, result))
    {
      timers := timers.(connect := false);
      if ready {
        timers := timers.(answer := true);
        SendImageRequest(result);
      } else {
        OnError(true);
      }
    }
  }
}
