// Cameras filling their rings while alerts write videos from the live rings or
// from snapshots: the frame stores and the video writer, run together.

module Cameras {
  import Frames
  import Rings
  import FrameStore
  import opened FinalVideo

  const DATE_LENGTH := 10

  /** getDate: the first part of getDateTimeWithMS */
  function DateOf(stamp: string): string { if |stamp| < DATE_LENGTH then stamp else stamp[..DATE_LENGTH] }

  /** A stamp is a day of ten characters, an underscore and a time. */
  lemma DayOfStamp(day: string, time: string)
    requires |day| == 10
    ensures DateOf(day + "_" + time) == day
  {
    assert (day + "_" + time)[..10] == day;
  }

  function ShotsOf(s: FrameStore.Store, ids: seq<nat>): (r: seq<Shot>)
    requires Rings.InRange(ids, |s.frames|)
    ensures |r| == |ids|
    ensures forall i :: 0 <= i < |ids| ==> r[i] == Shot(s.frames[ids[i]].id, DateOf(s.frames[ids[i]].stamp))
  {
    seq(|ids|, i requires 0 <= i < |ids| => Shot(s.frames[ids[i]].id, DateOf(s.frames[ids[i]].stamp)))
  }

  /** Frames are numbered upwards in the order they are pushed. */
  predicate Numbered(frames: seq<Frames.FrameState>) {
    forall i, j :: 0 <= i < j < |frames| ==> frames[i].id < frames[j].id
  }

  /** What the video writer gets to see of a ring. */
  function ViewOf(s: FrameStore.Store, r: Rings.RingState): View
    requires Rings.InRange(r.list, |s.frames|) && Rings.InRange(r.longList, |s.frames|)
  {
    View(ShotsOf(s, r.list), ShotsOf(s, r.longList), r.maxSize)
  }

  lemma ShotsGrow(s: FrameStore.Store, long: seq<nat>, short: seq<nat>)
    requires Rings.InRange(long, |s.frames|) && Rings.InRange(short, |s.frames|)
    requires FrameStore.Increasing(long + short) && Numbered(s.frames)
    ensures Growing(ShotsOf(s, long) + ShotsOf(s, short))
  {
    var all, ids := ShotsOf(s, long) + ShotsOf(s, short), long + short;
    assert forall i :: 0 <= i < |all| ==> all[i].id == s.frames[ids[i]].id;
  }

  /** In every reachable state of a store whose frames are numbered, the view of
      the live ring or of any snapshot is one the video theorems ask for. */
  lemma StoreViewsGrow(s: FrameStore.Store, r: Rings.RingState)
    requires FrameStore.Inv(s) && Numbered(s.frames)
    requires r == s.live || exists x :: x in s.snaps && r == s.snaps[x]
    ensures Rings.InRange(r.list, |s.frames|) && Rings.InRange(r.longList, |s.frames|)
    ensures Growing(ViewOf(s, r).longList + ViewOf(s, r).list)
  {
    FrameStore.LiveOrdered(s);
    assert FrameStore.SnapshotShape(r, |s.frames|);
    ShotsGrow(s, r.longList, r.list);
  }

  /** The live ring counts as full exactly when it has seen as many pushes since the
      last clear as it has places, and its newest frame is the last one pushed. */
  lemma LiveViewIsNewest(s: FrameStore.Store)
    requires FrameStore.Inv(s) && Rings.InRange(s.live.list, |s.frames|) && Rings.InRange(s.live.longList, |s.frames|)
    ensures var v := ViewOf(s, s.live);
            && (v.IsFull() <==> |s.frames| - FrameStore.LastClear(s.clears) >= s.live.maxSize)
            && (v.list != [] ==>
                  s.frames != [] &&
                  v.Last() == Shot(s.frames[|s.frames| - 1].id, DateOf(s.frames[|s.frames| - 1].stamp)))
  {
  }

  // ---- the program: cameras and writer ----

  datatype World = World(stores: seq<FrameStore.Store>, lanes: Lanes)

  /** Where an alert takes the pictures of one camera from. */
  datatype Source = Live | Snap(x: nat)

  datatype Kind = IsAlert | IsWarning | IsCheck

  datatype Act =
    | Camera(camera: nat, e: FrameStore.Event)
    | Videos(kind: Kind, sources: seq<Source>, ids: seq<nat>, canOpen: set<(nat, string)>)

  predicate Sound(w: World) {
    forall c :: 0 <= c < |w.stores| ==> FrameStore.Inv(w.stores[c]) && Numbered(w.stores[c].frames)
  }

  predicate Has(s: FrameStore.Store, source: Source) { source.Snap? ==> source.x in s.snaps }

  function RingOf(s: FrameStore.Store, source: Source): Rings.RingState
    requires Has(s, source)
  {
    match source
    case Live => s.live
    case Snap(x) => s.snaps[x]
  }

  /** A pushed frame has a larger number than all before it; an alert names one
      ring, live or copied, for each camera. */
  predicate Able(w: World, a: Act) {
    match a
    case Camera(c, e) =>
      && c < |w.stores| && FrameStore.Enabled(w.stores[c], e)
      && (e.Push? ==> forall k :: 0 <= k < |w.stores[c].frames| ==> w.stores[c].frames[k].id < e.id)
    case Videos(_, sources, _, _) =>
      |sources| == |w.stores| && forall c :: 0 <= c < |sources| ==> Has(w.stores[c], sources[c])
  }

  function Buff(w: World, sources: seq<Source>): (buff: seq<View>)
    requires Sound(w) && |sources| == |w.stores|
    requires forall c :: 0 <= c < |sources| ==> Has(w.stores[c], sources[c])
    ensures |buff| == |sources|
    ensures forall c :: 0 <= c < |buff| ==> Growing(buff[c].longList + buff[c].list)
    ensures forall c :: 0 <= c < |buff| ==> buff[c] == GrowingView(w.stores[c], RingOf(w.stores[c], sources[c]))
  {
    seq(|sources|, c requires 0 <= c < |sources| => GrowingView(w.stores[c], RingOf(w.stores[c], sources[c])))
  }

  function GrowingView(s: FrameStore.Store, r: Rings.RingState): (v: View)
    requires FrameStore.Inv(s) && Numbered(s.frames)
    requires r == s.live || exists x :: x in s.snaps && r == s.snaps[x]
    ensures Rings.InRange(r.list, |s.frames|) && Rings.InRange(r.longList, |s.frames|)
    ensures Growing(v.longList + v.list) && v == ViewOf(s, r)
  {
    StoreViewsGrow(s, r);
    ViewOf(s, r)
  }

  function AsEvent(w: World, a: Act): (e: FinalVideo.Event)
    requires Sound(w) && Able(w, a) && a.Videos?
    ensures FinalVideo.Enabled(e)
  {
    var buff := Buff(w, a.sources);
    match a.kind
    case IsAlert => Alert(buff, a.ids, a.canOpen)
    case IsWarning => Warning(buff, a.ids, a.canOpen)
    case IsCheck => Check(buff, a.ids)
  }

  function Next(w: World, a: Act, config: Config): World
    requires Sound(w) && Able(w, a)
  {
    match a
    case Camera(c, e) => w.(stores := w.stores[c := FrameStore.After(w.stores[c], e)])
    case Videos(_, _, _, _) => w.(lanes := FinalVideo.Step(w.lanes, AsEvent(w, a), config))
  }

  lemma IdStays(f: Frames.FrameState, g: Frames.FrameState)
    requires FrameStore.FrameStep(f, g)
    ensures g.id == f.id
  {
  }

  lemma IdsAfter(s: FrameStore.Store, e: FrameStore.Event, k: nat)
    requires FrameStore.Inv(s) && FrameStore.Enabled(s, e) && k < |FrameStore.After(s, e).frames|
    ensures k < |s.frames| + (if e.Push? then 1 else 0)
    ensures FrameStore.After(s, e).frames[k].id == if k < |s.frames| then s.frames[k].id else e.id
  {
    FrameStore.StepGrows(s, e);
    if k < |s.frames| {
      FrameStore.StepOnFrame(s, e, k);
      IdStays(s.frames[k], FrameStore.After(s, e).frames[k]);
    } else {
      FrameStore.ReleasedFrames(s, Frames.NewFrame(e.picture, e.scale, e.netScale, e.stamp, e.id));
    }
  }

  lemma NumberedAfter(s: FrameStore.Store, e: FrameStore.Event)
    requires FrameStore.Inv(s) && FrameStore.Enabled(s, e) && Numbered(s.frames)
    requires e.Push? ==> forall k :: 0 <= k < |s.frames| ==> s.frames[k].id < e.id
    ensures Numbered(FrameStore.After(s, e).frames)
  {
    var frames := FrameStore.After(s, e).frames;
    forall i, j | 0 <= i < j < |frames| ensures frames[i].id < frames[j].id {
      IdsAfter(s, e, i);
      IdsAfter(s, e, j);
    }
  }

  lemma NextIsSound(w: World, a: Act, config: Config)
    requires Sound(w) && Able(w, a)
    ensures Sound(Next(w, a, config)) && LanesContinue(w.lanes, Next(w, a, config).lanes)
  {
    match a
    case Camera(c, e) =>
      FrameStore.StepKeepsInv(w.stores[c], e);
      NumberedAfter(w.stores[c], e);
      LanesSame(w.lanes);
    case Videos(_, _, _, _) =>
      StepContinues(w.lanes, AsEvent(w, a), config);
  }

  predicate AllAble(w: World, acts: seq<Act>, config: Config)
    requires Sound(w)
    decreases |acts|
  {
    acts == [] ||
    (Able(w, acts[0]) && (NextIsSound(w, acts[0], config); AllAble(Next(w, acts[0], config), acts[1..], config)))
  }

  function RunAll(w: World, acts: seq<Act>, config: Config): World
    requires Sound(w) && AllAble(w, acts, config)
    decreases |acts|
  {
    if acts == [] then w
    else NextIsSound(w, acts[0], config); RunAll(Next(w, acts[0], config), acts[1..], config)
  }

  lemma {:induction false} RunAllContinues(w: World, acts: seq<Act>, config: Config)
    requires Sound(w) && AllAble(w, acts, config)
    ensures Sound(RunAll(w, acts, config)) && LanesContinue(w.lanes, RunAll(w, acts, config).lanes)
    decreases |acts|
  {
    if acts == [] {
      LanesSame(w.lanes);
    } else {
      var t := Next(w, acts[0], config);
      NextIsSound(w, acts[0], config);
      RunAllContinues(t, acts[1..], config);
      LanesTrans(w.lanes, t.lanes, RunAll(w, acts, config).lanes);
    }
  }

  /** The calls on one camera's store. */
  function Of(acts: seq<Act>, c: nat): seq<FrameStore.Event> {
    if acts == [] then []
    else (if acts[0].Camera? && acts[0].camera == c then [acts[0].e] else []) + Of(acts[1..], c)
  }

  /** What happens around it is nothing to a store: each camera's store runs through
      its own calls, so everything proved about those runs holds here. */
  lemma {:induction false} StoresRunAlone(w: World, acts: seq<Act>, config: Config, c: nat)
    requires Sound(w) && AllAble(w, acts, config) && c < |w.stores|
    ensures FrameStore.Possible(w.stores[c], Of(acts, c))
    ensures |RunAll(w, acts, config).stores| == |w.stores|
    ensures RunAll(w, acts, config).stores[c] == FrameStore.Run(w.stores[c], Of(acts, c))
    decreases |acts|
  {
    if acts != [] {
      var t := Next(w, acts[0], config);
      NextIsSound(w, acts[0], config);
      StoresRunAlone(t, acts[1..], config, c);
      OwnCall(acts, c);
    }
  }

  lemma OwnCall(acts: seq<Act>, c: nat)
    requires acts != []
    ensures Of(acts, c) == if acts[0].Camera? && acts[0].camera == c then [acts[0].e] + Of(acts[1..], c) else Of(acts[1..], c)
  {
  }

  /** The calls on the video writer, each with the rings as they are then. */
  function Calls(w: World, acts: seq<Act>, config: Config): seq<FinalVideo.Event>
    requires Sound(w) && AllAble(w, acts, config)
    decreases |acts|
  {
    if acts == [] then []
    else
      NextIsSound(w, acts[0], config);
      (if acts[0].Videos? then [AsEvent(w, acts[0])] else []) + Calls(Next(w, acts[0], config), acts[1..], config)
  }

  lemma {:induction false} CallsEnabled(w: World, acts: seq<Act>, config: Config)
    requires Sound(w) && AllAble(w, acts, config)
    ensures forall e :: e in Calls(w, acts, config) ==> FinalVideo.Enabled(e)
    decreases |acts|
  {
    if acts != [] {
      NextIsSound(w, acts[0], config);
      CallsEnabled(Next(w, acts[0], config), acts[1..], config);
    }
  }

  /** The writer runs through exactly these calls, so everything proved about its runs
      holds here as well. */
  lemma {:induction false} WriterRunsAlone(w: World, acts: seq<Act>, config: Config)
    requires Sound(w) && AllAble(w, acts, config)
    requires forall e :: e in Calls(w, acts, config) ==> FinalVideo.Enabled(e)
    ensures RunAll(w, acts, config).lanes == FinalVideo.Run(w.lanes, Calls(w, acts, config), config)
    decreases |acts|
  {
    if acts != [] {
      var t := Next(w, acts[0], config);
      NextIsSound(w, acts[0], config);
      CallsEnabled(t, acts[1..], config);
      WriterRunsAlone(t, acts[1..], config);
      if acts[0].Videos? {
        RunFirst(w.lanes, AsEvent(w, acts[0]), Calls(t, acts[1..], config), config);
      } else {
        assert [] + Calls(t, acts[1..], config) == Calls(t, acts[1..], config);
      }
    }
  }

  /** The limits a camera's ring is made with. */
  datatype Size = Size(size: int, longSize: int, skip: int)

  function NewWorld(sizes: seq<Size>): (w: World)
    ensures Sound(w)
  {
    World(seq(|sizes|, c requires 0 <= c < |sizes| => NewSoundStore(sizes[c])), map[])
  }

  function NewSoundStore(z: Size): (s: FrameStore.Store)
    ensures FrameStore.Inv(s) && s.frames == []
  {
    FrameStore.NewStoreInv(z.size, z.longSize, z.skip);
    FrameStore.NewStore(z.size, z.longSize, z.skip)
  }

  /** From program start, however pushes, clears, snapshots, lockers and reads are
      interleaved with alerts, warnings and checks, each on live rings or on old
      snapshots: every video climbs, so no picture is in it twice. */
  lemma NoPictureTwiceInAnyRun(sizes: seq<Size>, acts: seq<Act>, config: Config, b: nat, path: string)
    requires AllAble(NewWorld(sizes), acts, config)
    ensures Climbing(Lane(RunAll(NewWorld(sizes), acts, config).lanes, b, path).log)
  {
    RunAllContinues(NewWorld(sizes), acts, config);
    ReachedOk(RunAll(NewWorld(sizes), acts, config).lanes, b, path);
  }

  /** An alert or warning on the live rings with a file that opens: the newest frame of
      a full ring, if it is new to the video, is in it after any later run. */
  lemma AlertShowsNewest(w: World, a: Act, later: seq<Act>, config: Config, b: nat, path: string)
    requires Sound(w) && LanesContinue(map[], w.lanes) && Able(w, a) && a.Videos? && !a.kind.IsCheck?
    requires AllAble(w, [a] + later, config)
    requires b < |w.stores| && b in a.ids && a.sources[b].Live? && path in config.paths && (b, path) in a.canOpen
    requires var s := w.stores[b];
             && s.live.maxSize > 0 && |s.frames| - FrameStore.LastClear(s.clears) >= s.live.maxSize
             && s.frames[|s.frames| - 1].id > Lane(w.lanes, b, path).lastId
    ensures var newest := w.stores[b].frames[|w.stores[b].frames| - 1].id;
            Shows(Lane(RunAll(w, [a] + later, config).lanes, b, path).log, newest)
  {
    FirstAct(w, a, later, config);
    ActShowsNewest(w, a, config, b, path);
    ShownForGood(Next(w, a, config), later, config, b, path, w.stores[b].frames[|w.stores[b].frames| - 1].id);
  }

  lemma FirstAct(w: World, a: Act, later: seq<Act>, config: Config)
    requires Sound(w) && AllAble(w, [a] + later, config)
    ensures Able(w, a) && Sound(Next(w, a, config)) && AllAble(Next(w, a, config), later, config)
    ensures RunAll(w, [a] + later, config) == RunAll(Next(w, a, config), later, config)
  {
    assert ([a] + later)[1..] == later;
    NextIsSound(w, a, config);
  }

  lemma ActShowsNewest(w: World, a: Act, config: Config, b: nat, path: string)
    requires Sound(w) && LanesContinue(map[], w.lanes) && Able(w, a) && a.Videos? && !a.kind.IsCheck?
    requires b < |w.stores| && b in a.ids && a.sources[b].Live? && path in config.paths && (b, path) in a.canOpen
    requires var s := w.stores[b];
             && s.live.maxSize > 0 && |s.frames| - FrameStore.LastClear(s.clears) >= s.live.maxSize
             && s.frames[|s.frames| - 1].id > Lane(w.lanes, b, path).lastId
    ensures var newest := w.stores[b].frames[|w.stores[b].frames| - 1].id;
            Shows(Lane(Next(w, a, config).lanes, b, path).log, newest)
  {
    ActMeans(w, a, b);
    NewestShown(w.lanes, AsEvent(w, a), w.stores[b], config, b, path);
  }

  lemma ShownForGood(w: World, acts: seq<Act>, config: Config, b: nat, path: string, id: nat)
    requires Sound(w) && AllAble(w, acts, config) && Shows(Lane(w.lanes, b, path).log, id)
    ensures Shows(Lane(RunAll(w, acts, config).lanes, b, path).log, id)
  {
    RunAllContinues(w, acts, config);
    LaneContinues(w.lanes, RunAll(w, acts, config).lanes, b, path);
    StaysShown(Lane(w.lanes, b, path), Lane(RunAll(w, acts, config).lanes, b, path), id);
  }

  lemma StaysShown(v: Video, x: Video, id: nat)
    requires Continues(v, x) && Shows(v.log, id)
    ensures Shows(x.log, id)
  {
    assert x.log == v.log + x.log[|v.log|..];
    ShowsConcat(v.log, x.log[|v.log|..], id);
  }

  lemma NewestShown(lanes: Lanes, e: FinalVideo.Event, s: FrameStore.Store, config: Config, b: nat, path: string)
    requires LanesContinue(map[], lanes) && FinalVideo.Enabled(e) && !e.Check?
    requires FrameStore.Inv(s) && Numbered(s.frames)
    requires b in e.ids && b < |e.buff| && e.buff[b] == GrowingView(s, s.live)
    requires path in config.paths && (b, path) in e.canOpen
    requires s.live.maxSize > 0 && |s.frames| - FrameStore.LastClear(s.clears) >= s.live.maxSize
    requires s.frames[|s.frames| - 1].id > Lane(lanes, b, path).lastId
    ensures Shows(Lane(FinalVideo.Step(lanes, e, config), b, path).log, s.frames[|s.frames| - 1].id)
  {
    NewestReady(s, e.buff[b]);
    AlertShowsLast(lanes, e, config, b, path);
  }

  /** The call that an act makes: its kind, and for each camera the ring it names. */
  lemma ActMeans(w: World, a: Act, b: nat)
    requires Sound(w) && Able(w, a) && a.Videos? && b < |w.stores|
    ensures FrameStore.Inv(w.stores[b]) && Numbered(w.stores[b].frames)
    ensures var e := AsEvent(w, a);
            && (e.Alert? <==> a.kind.IsAlert?) && (e.Check? <==> a.kind.IsCheck?)
            && e.ids == a.ids && (!e.Check? ==> e.canOpen == a.canOpen) && |e.buff| == |w.stores|
            && (a.sources[b].Live? ==> e.buff[b] == GrowingView(w.stores[b], w.stores[b].live))
            && (a.sources[b].Snap? ==> e.buff[b] == GrowingView(w.stores[b], w.stores[b].snaps[a.sources[b].x]))
  {
  }

  lemma NewestReady(s: FrameStore.Store, v: View)
    requires FrameStore.Inv(s) && Numbered(s.frames) && v == GrowingView(s, s.live)
    requires s.live.maxSize > 0 && |s.frames| - FrameStore.LastClear(s.clears) >= s.live.maxSize
    ensures v.IsReady() && v.Last().id == s.frames[|s.frames| - 1].id
  {
    LiveViewIsNewest(s);
    FrameStore.NewestListed(s);
  }
}
