// What the runs of the frame store have to do with the calls that were made: the
// frames carry what was pushed, and the bookkeeping is that of the calls.

module StoreHistory {
  import opened Pictures
  import opened Frames
  import opened Rings
  import opened FrameStore

  // ---- the calls of a run ----

  function PushesOf(es: seq<Event>): seq<Event> {
    if es == [] then [] else (if es[0].Push? then [es[0]] else []) + PushesOf(es[1..])
  }

  /** For each clear, how many pushes had happened by then, n of them before the run. */
  function ClearsOf(es: seq<Event>, n: nat): seq<nat> {
    if es == [] then []
    else match es[0]
         case Push(_, _, _, _, _) => ClearsOf(es[1..], n + 1)
         case Clear => [n] + ClearsOf(es[1..], n)
         case _ => ClearsOf(es[1..], n)
  }

  /** Lockers taken on frame k, less those given back. */
  function LockersOn(es: seq<Event>, k: nat): int {
    if es == [] then 0
    else (if es[0] == Lock(k) then 1 else if es[0] == Unlock(k) then -1 else 0) + LockersOn(es[1..], k)
  }

  /** A frame that carries what a push brought along. */
  predicate MadeBy(f: FrameState, e: Event) {
    e.Push? && f.scale == e.scale && f.netScale == e.netScale && f.stamp == e.stamp && f.id == e.id
  }

  lemma StepKeepsMaker(f: FrameState, g: FrameState, e: Event)
    requires FrameStep(f, g) && MadeBy(f, e)
    ensures MadeBy(g, e)
  {
  }

  lemma PushedFrame(s: Store, e: Event)
    requires Inv(s) && Enabled(s, e) && e.Push?
    ensures var t := After(s, e);
            && |t.frames| == |s.frames| + 1 && MadeBy(t.frames[|s.frames|], e)
            && t.pics == s.pics + [e.picture] && Coherent(t.frames[|s.frames|])
  {
    ReleasedFrames(s, NewFrame(e.picture, e.scale, e.netScale, e.stamp, e.id));
  }

  // ---- the bookkeeping is that of the calls ----

  lemma StepClears(s: Store, e: Event)
    requires Inv(s) && Enabled(s, e)
    ensures Inv(After(s, e)) && |After(s, e).frames| == |s.frames| + (if e.Push? then 1 else 0)
    ensures After(s, e).clears == s.clears + if e.Clear? then [|s.frames|] else []
  {
    StepKeepsInv(s, e);
    StepGrows(s, e);
  }

  lemma ClearsTail(clears: seq<nat>, es: seq<Event>, n: nat)
    requires es != []
    ensures (clears + if es[0].Clear? then [n] else []) + ClearsOf(es[1..], n + if es[0].Push? then 1 else 0)
            == clears + ClearsOf(es, n)
  {
  }

  lemma {:induction false} ClearsAsCalled(s: Store, es: seq<Event>)
    requires Inv(s) && Possible(s, es)
    ensures Run(s, es).clears == s.clears + ClearsOf(es, |s.frames|)
    decreases |es|
  {
    if es != [] {
      StepClears(s, es[0]);
      ClearsTail(s.clears, es, |s.frames|);
      ClearsAsCalled(After(s, es[0]), es[1..]);
    }
  }

  lemma StepLocks(s: Store, e: Event, k: nat)
    requires Inv(s) && Enabled(s, e)
    ensures Inv(After(s, e))
    ensures After(s, e).locks[k] == s.locks[k] + if e == Lock(k) then 1 else if e == Unlock(k) then -1 else 0
  {
    StepKeepsInv(s, e);
  }

  lemma {:induction false} LocksAsCalled(s: Store, es: seq<Event>, k: nat)
    requires Inv(s) && Possible(s, es)
    ensures Run(s, es).locks[k] == s.locks[k] + LockersOn(es, k)
    decreases |es|
  {
    if es != [] {
      StepLocks(s, es[0], k);
      LocksAsCalled(After(s, es[0]), es[1..], k);
    }
  }

  /** The frame of the i-th push of a run is there at its end, under its number. */
  predicate FrameAsPushed(t: Store, k: nat, e: Event) {
    e.Push? && k < |t.frames| && k < |t.pics| && t.pics[k] == e.picture && MadeBy(t.frames[k], e)
  }

  lemma StepKeepsPushed(s: Store, x: Event, k: nat, e: Event)
    requires Inv(s) && Enabled(s, x) && FrameAsPushed(s, k, e)
    ensures Inv(After(s, x)) && FrameAsPushed(After(s, x), k, e)
  {
    StepKeepsInv(s, x);
    StepGrows(s, x);
    StepOnFrame(s, x, k);
    StepKeepsMaker(s.frames[k], After(s, x).frames[k], e);
  }

  lemma {:induction false} StaysAsPushed(s: Store, es: seq<Event>, k: nat, e: Event)
    requires Inv(s) && Possible(s, es) && FrameAsPushed(s, k, e)
    ensures FrameAsPushed(Run(s, es), k, e)
    decreases |es|
  {
    if es != [] {
      StepKeepsPushed(s, es[0], k, e);
      StaysAsPushed(After(s, es[0]), es[1..], k, e);
    }
  }

  lemma StepPushes(s: Store, e: Event)
    requires Inv(s) && Enabled(s, e)
    ensures Inv(After(s, e)) && |After(s, e).frames| == |s.frames| + (if e.Push? then 1 else 0)
    ensures e.Push? ==> FrameAsPushed(After(s, e), |s.frames|, e)
  {
    StepKeepsInv(s, e);
    StepGrows(s, e);
    if e.Push? {
      PushedFrame(s, e);
    }
  }

  lemma {:induction false} FramesCounted(s: Store, es: seq<Event>)
    requires Inv(s) && Possible(s, es)
    ensures |Run(s, es).frames| == |s.frames| + |PushesOf(es)|
    decreases |es|
  {
    if es != [] {
      StepPushes(s, es[0]);
      FramesCounted(After(s, es[0]), es[1..]);
    }
  }

  /** Which push of the run is meant, seen from behind its first call. */
  lemma PushesTail(es: seq<Event>, i: nat)
    requires i < |PushesOf(es)|
    ensures es != []
    ensures !es[0].Push? ==> PushesOf(es) == PushesOf(es[1..])
    ensures es[0].Push? ==> PushesOf(es) == [es[0]] + PushesOf(es[1..])
  {
  }

  /** The frames after a run are those before it and then one for each push, with
      the picture, factors, stamp and number that the push brought. */
  lemma {:induction false} FramesAsPushed(s: Store, es: seq<Event>, i: nat, k: nat, e: Event)
    requires Inv(s) && Possible(s, es) && i < |PushesOf(es)| && e == PushesOf(es)[i] && k == |s.frames| + i
    ensures FrameAsPushed(Run(s, es), k, e)
    decreases |es|
  {
    PushesTail(es, i);
    StepPushes(s, es[0]);
    if es[0].Push? && i == 0 {
      StaysAsPushed(After(s, es[0]), es[1..], k, e);
    } else {
      FramesAsPushed(After(s, es[0]), es[1..], if es[0].Push? then i - 1 else i, k, e);
    }
  }

  /** The sampling counter survives clears: it counts the evictions of all epochs. */
  function PastEvictions(size: int, clears: seq<nat>): nat
    requires forall i, j :: 0 <= i < j < |clears| ==> clears[i] <= clears[j]
  {
    if clears == [] then 0
    else
      var earlier := clears[..|clears| - 1];
      PastEvictions(size, earlier) + EvictionsAt(size, LastClear(earlier), clears[|clears| - 1])
  }

  predicate PhaseCounted(s: Store)
    requires History(s)
  {
    s.phase == if s.live.Samples() then PastEvictions(s.live.maxSize, s.clears) else 0
  }

  lemma StepKeepsPhase(s: Store, e: Event)
    requires Inv(s) && Enabled(s, e) && PhaseCounted(s)
    ensures Inv(After(s, e)) && PhaseCounted(After(s, e))
  {
    StepKeepsInv(s, e);
    StepGrows(s, e);
    var t := After(s, e);
    if e.Clear? {
      assert t.clears[..|t.clears| - 1] == s.clears;
    }
  }

  lemma {:induction false} RunKeepsPhase(s: Store, es: seq<Event>)
    requires Inv(s) && Possible(s, es) && PhaseCounted(s)
    ensures PhaseCounted(Run(s, es))
    decreases |es|
  {
    if es != [] {
      StepKeepsPhase(s, es[0]);
      RunKeepsPhase(After(s, es[0]), es[1..]);
    }
  }

  /** From the start, with sampling on: the counter is the number of evictions so
      far, and its value at the last clear is what the long list's spacing is
      counted from. */
  lemma SamplingCountsAllEvictions(size: int, longSize: int, skip: int, es: seq<Event>)
    requires Inv(NewStore(size, longSize, skip)) && Possible(NewStore(size, longSize, skip), es)
    requires longSize > 0 && skip > 0
    ensures var t := Run(NewStore(size, longSize, skip), es);
            && t.phase == PastEvictions(size, t.clears)
            && t.live.longId == PastEvictions(size, t.clears) + Evictions(t)
  {
    RunKeepsPhase(NewStore(size, longSize, skip), es);
    RunKeepsSize(NewStore(size, longSize, skip), es);
  }

  // ---- what is read ----

  predicate AllCoherent(s: Store) { forall k :: 0 <= k < |s.frames| && IsRaw(s.frames[k]) ==> Coherent(s.frames[k]) }

  lemma CoherentStep(f: FrameState, g: FrameState)
    requires FrameStep(f, g) && (IsRaw(f) ==> Coherent(f))
    ensures IsRaw(g) ==> Coherent(g)
  {
    if t :| g == Read(f, t).0 {
      ReadKeeps(f, t);
      if IsRaw(f) {
        ReadIsRecomputed(f, t);
      }
    }
  }

  lemma StepKeepsCoherence(s: Store, e: Event)
    requires Inv(s) && Enabled(s, e) && AllCoherent(s)
    ensures AllCoherent(After(s, e))
  {
    StepGrows(s, e);
    var t := After(s, e);
    forall k | 0 <= k < |t.frames| ensures IsRaw(t.frames[k]) ==> Coherent(t.frames[k]) {
      if k < |s.frames| {
        StepOnFrame(s, e, k);
        CoherentStep(s.frames[k], t.frames[k]);
      } else {
        PushedFrame(s, e);
      }
    }
  }

  lemma {:induction false} RunKeepsCoherence(s: Store, es: seq<Event>)
    requires Inv(s) && Possible(s, es) && AllCoherent(s)
    ensures AllCoherent(Run(s, es))
    decreases |es|
  {
    if es != [] {
      StepKeepsInv(s, es[0]);
      StepKeepsCoherence(s, es[0]);
      RunKeepsCoherence(After(s, es[0]), es[1..]);
    }
  }

  /** A picture that was read stays in the frame, and reading it again changes nothing. */
  lemma ReadStays(s: Store, k: nat, t: ImageType)
    requires Inv(s) && k < |s.frames| && IsRaw(s.frames[k])
    ensures var u := After(s, ReadPicture(k, t));
            && Read(s.frames[k], t).1 == Ok(Slot(u.frames[k].mats, t))
            && After(u, ReadPicture(k, t)) == u
  {
    ReadIsCached(s.frames[k], t);
    var u := After(s, ReadPicture(k, t));
    assert u.frames[k := u.frames[k]] == u.frames;
  }

  /** The picture of type t that a push promises. */
  function Promised(e: Event, t: ImageType): Picture
    requires e.Push?
  {
    match t
    case RgbFull => e.picture
    case GrayFull => Gray(e.picture)
    case GrayResized => Shrink(Gray(e.picture), e.scale)
    case RgbResized => Shrink(e.picture, e.scale)
    case RgbFullWithText => Stamped(e.picture, e.stamp, e.id)
    case GrayNetResize => Shrink(Gray(e.picture), e.netScale)
  }

  lemma RecomputedIsPromised(f: FrameState, e: Event, t: ImageType)
    requires MadeBy(f, e) && f.mats.rgbFull == e.picture && IsRaw(f)
    ensures Recomputed(f, t) == Promised(e, t) && !IsEmpty(Promised(e, t))
  {
  }

  /** After any run from the start, reads of a raw frame in any order give what its
      push promised. */
  lemma RawReadsAsPushed(size: int, longSize: int, skip: int, es: seq<Event>, k: nat, ts: seq<ImageType>)
    requires Inv(NewStore(size, longSize, skip)) && Possible(NewStore(size, longSize, skip), es)
    requires var t := Run(NewStore(size, longSize, skip), es); k < |t.frames| && IsRaw(t.frames[k])
    ensures var f := Run(NewStore(size, longSize, skip), es).frames[k];
            && k < |PushesOf(es)| && PushesOf(es)[k].Push? && |ReadAll(f, ts)| == |ts|
            && forall i :: 0 <= i < |ts| ==> ReadAll(f, ts)[i] == Ok(Promised(PushesOf(es)[k], ts[i]))
  {
    var t := Run(NewStore(size, longSize, skip), es);
    RunKeepsCoherence(NewStore(size, longSize, skip), es);
    FramesCounted(NewStore(size, longSize, skip), es);
    FramesAsPushed(NewStore(size, longSize, skip), es, k, k, PushesOf(es)[k]);
    assert FrameOk(t, k);
    ReadAllIsRecomputed(t.frames[k], ts);
    forall i | 0 <= i < |ts| ensures Recomputed(t.frames[k], ts[i]) == Promised(PushesOf(es)[k], ts[i]) {
      RecomputedIsPromised(t.frames[k], PushesOf(es)[k], ts[i]);
    }
  }

  /** The newest three frames of the live ring never throw: every picture that is
      asked of them is there, and is the one that was promised. */
  lemma NewestAreReadable(size: int, longSize: int, skip: int, es: seq<Event>, k: nat, t: ImageType)
    requires Inv(NewStore(size, longSize, skip)) && Possible(NewStore(size, longSize, skip), es)
    requires var s := Run(NewStore(size, longSize, skip), es);
             |s.frames| - |s.live.list| <= k < |s.frames| && |s.frames| - k <= MIN_ALGO_FRAMES
    ensures var f := Run(NewStore(size, longSize, skip), es).frames[k];
            && k < |PushesOf(es)| && PushesOf(es)[k].Push? && !IsEmpty(Promised(PushesOf(es)[k], t))
            && Read(f, t).1 == Ok(Promised(PushesOf(es)[k], t))
  {
    var s := Run(NewStore(size, longSize, skip), es);
    NewestAreRaw(s, k);
    RunKeepsCoherence(NewStore(size, longSize, skip), es);
    FramesCounted(NewStore(size, longSize, skip), es);
    FramesAsPushed(NewStore(size, longSize, skip), es, k, k, PushesOf(es)[k]);
    ReadIsRecomputed(s.frames[k], t);
    RecomputedIsPromised(s.frames[k], PushesOf(es)[k], t);
  }
}
