// The final video: what each alert, warning and after-alert check writes, per
// buffer and path, from a copy of the image buffers.

module FinalVideo {
  import Rings

  /** A frame as the video writer sees it. */
  datatype Shot = Shot(id: nat, date: string)

  /** One buffer inside a copy of CImageBuffer. */
  datatype View = View(list: seq<Shot>, longList: seq<Shot>, maxSize: int)
  {
    predicate IsFull() { |list| >= maxSize }

    /** isBufferExistAndFull, for a buffer that exists. */
    predicate IsReady() { IsFull() && list != [] }

    function Last(): Shot
      requires list != []
    {
      list[|list| - 1]
    }
  }

  datatype Config = Config(paths: seq<string>, before: int, after: int, writeMask: bool)

  /** A picture written to a video, by where it came from; Info is the mask picture. */
  datatype Entry =
    | FromLong(id: nat)
    | Prev(id: nat)
    | Current(id: nat)
    | Info(id: nat)
    | After(id: nat)

  /** FinalVideo; log is everything written for its buffer and path, over all files. */
  datatype Video = Video(lastId: nat, isOpen: bool, date: string, log: seq<Entry>)

  const NEW_VIDEO := Video(0, false, "", [])

  /** FinalVideosMap */
  datatype Videos = Videos(byPath: map<string, Video>, count: int)

  const NEW_VIDEOS := Videos(map[], -1)

  type Lanes = map<nat, Videos>

  function VideosOf(s: Lanes, b: nat): Videos { if b in s then s[b] else NEW_VIDEOS }

  function VideoIn(vs: Videos, path: string): Video {
    if path in vs.byPath then vs.byPath[path] else NEW_VIDEO
  }

  function Lane(s: Lanes, b: nat, path: string): Video { VideoIn(VideosOf(s, b), path) }

  // ---- one video ----

  /** The shots in [lo, hi) that are newer than what is already written. */
  function Newer(shots: seq<Shot>, lo: int, hi: int, lastId: nat, long: bool): seq<Entry>
    requires 0 <= lo && hi <= |shots|
    decreases hi - lo
  {
    if lo >= hi then []
    else
      var es := Newer(shots, lo, hi - 1, lastId, long);
      var id := shots[hi - 1].id;
      if id > lastId then es + [if long then FromLong(id) else Prev(id)] else es
  }

  /** Frames before the alert. The long list is read only when even it is too
      short for mFrameBeforeAlertToVideo, and never its newest entry. */
  function Before(view: View, before: int, lastId: nat): seq<Entry> {
    var start := |view.list| - before;
    if start < 0 then
      (if |view.longList| + start < 0 then Newer(view.longList, 0, |view.longList| - 1, lastId, true) else [])
      + Newer(view.list, 0, |view.list| - 1, lastId, false)
    else Newer(view.list, start, |view.list| - 1, lastId, false)
  }

  /** writeFinalVideo; canOpen tells whether VideoWriter::open succeeds. */
  function WriteFinal(view: View, v: Video, config: Config, canOpen: bool): Video
    requires view.list != []
  {
    if !v.isOpen && !canOpen then v
    else
      var id := view.Last().id;
      v.(isOpen := true,
         log := v.log + Before(view, config.before, v.lastId) + [Current(id)]
                + if config.writeMask then [Info(id)] else [])
  }

  /** The part of writeVideo for one buffer and path. */
  function Record(view: View, v: Video, config: Config, canOpen: bool): Video
    requires view.list != []
  {
    var last := view.Last();
    if last.id <= v.lastId then v
    else
      var rotated := if !v.isOpen || v.date != last.date then v.(isOpen := false, date := last.date) else v;
      WriteFinal(view, rotated, config, canOpen).(lastId := last.id)
  }

  /** The part of checkAndSendReply for one buffer and path. */
  function RecordAfter(view: View, v: Video): Video {
    if view.IsReady() && view.Last().id > v.lastId
    then v.(lastId := view.Last().id, log := if v.isOpen then v.log + [After(view.Last().id)] else v.log)
    else v
  }

  /** The after-alert counter: one more, or off when the limit is reached. */
  function Counted(count: int, limit: int): int {
    if count + 1 >= limit then -1 else count + 1
  }

  // ---- whole calls ----

  /** canOpen holds the buffers and paths for which open() succeeds in this call. */
  function OnPath(vs: Videos, view: View, b: nat, path: string, config: Config,
                  newCount: int, canOpen: set<(nat, string)>): Videos
  {
    if !view.IsReady() then vs
    else
      Videos(vs.byPath[path := Record(view, VideoIn(vs, path), config, (b, path) in canOpen)],
             if newCount >= 0 then newCount else vs.count)
  }

  function OnPaths(vs: Videos, view: View, b: nat, paths: seq<string>, config: Config,
                   newCount: int, canOpen: set<(nat, string)>): Videos
  {
    if paths == [] then vs
    else
      var done := OnPaths(vs, view, b, paths[..|paths| - 1], config, newCount, canOpen);
      OnPath(done, view, b, paths[|paths| - 1], config, newCount, canOpen)
  }

  /** writeVideo for the given buffers of the copy; unknown buffers are skipped. */
  function OnBuffers(s: Lanes, buff: seq<View>, ids: seq<nat>, config: Config,
                     newCount: int, canOpen: set<(nat, string)>): Lanes
  {
    if ids == [] then s
    else
      var done := OnBuffers(s, buff, ids[..|ids| - 1], config, newCount, canOpen);
      var b := ids[|ids| - 1];
      if b < |buff| && buff[b].IsReady() && config.paths != []
      then done[b := OnPaths(VideosOf(done, b), buff[b], b, config.paths, config, newCount, canOpen)]
      else done
  }

  function Checked(vs: Videos, view: View, config: Config): Videos {
    if vs.count < 0 then vs
    else Videos(map path | path in vs.byPath :: RecordAfter(view, vs.byPath[path]),
                Counted(vs.count, config.after))
  }

  /** checkAndSendReply. A buffer that the copy does not have is passed over while
      its counter is off; with the counter on, the source reads out of bounds. */
  function OnCheck(s: Lanes, buff: seq<View>, ids: seq<nat>, config: Config): Lanes {
    if ids == [] || config.paths == [] then s
    else
      var done := OnCheck(s, buff, ids[..|ids| - 1], config);
      var b := ids[|ids| - 1];
      done[b := if b < |buff| then Checked(VideosOf(done, b), buff[b], config) else VideosOf(done, b)]
  }

  /** The checks that read only buffers that exist. */
  predicate Checkable(s: Lanes, buff: seq<View>, ids: seq<nat>) {
    forall i :: 0 <= i < |ids| ==> ids[i] < |buff| || VideosOf(s, ids[i]).count < 0
  }

  datatype Event =
    | Alert(buff: seq<View>, ids: seq<nat>, canOpen: set<(nat, string)>)
    | Warning(buff: seq<View>, ids: seq<nat>, canOpen: set<(nat, string)>)
    | Check(buff: seq<View>, ids: seq<nat>)

  /** Copies of rings whose frame ids grow with push order. */
  predicate Enabled(e: Event) {
    forall i :: 0 <= i < |e.buff| ==> Growing(e.buff[i].longList + e.buff[i].list)
  }

  predicate Growing(shots: seq<Shot>) {
    forall i, j :: 0 <= i < j < |shots| ==> shots[i].id < shots[j].id
  }

  function Step(s: Lanes, e: Event, config: Config): Lanes
    requires Enabled(e)
  {
    match e
    case Alert(buff, ids, canOpen) => OnBuffers(s, buff, ids, config, 0, canOpen)
    case Warning(buff, ids, canOpen) => OnBuffers(s, buff, ids, config, -1, canOpen)
    case Check(buff, ids) => OnCheck(s, buff, ids, config)
  }

  function Run(s: Lanes, es: seq<Event>, config: Config): Lanes
    requires forall e :: e in es ==> Enabled(e)
  {
    if es == [] then s else Step(Run(s, es[..|es| - 1], config), es[|es| - 1], config)
  }

  lemma {:induction false} RunFirst(s: Lanes, e: Event, es: seq<Event>, config: Config)
    requires Enabled(e) && forall x :: x in es ==> Enabled(x)
    ensures forall x :: x in [e] + es ==> Enabled(x)
    ensures Run(s, [e] + es, config) == Run(Step(s, e, config), es, config)
  {
    if es == [] {
      assert [e] + es == [e] && [e][..0] == [];
    } else {
      var init := es[..|es| - 1];
      assert ([e] + es)[..|es|] == [e] + init && es[|es| - 1] in es;
      RunFirst(s, e, init, config);
    }
  }

  // ---- no picture twice ----

  /** The pictures climb strictly from above lo to at most hi; Info does not count. */
  predicate Rising(es: seq<Entry>, lo: int, hi: int) {
    if es == [] then lo <= hi
    else
      var e := es[|es| - 1];
      if e.Info? then Rising(es[..|es| - 1], lo, hi)
      else lo < e.id <= hi && Rising(es[..|es| - 1], lo, e.id - 1)
  }

  lemma {:induction false} RisingWiden(es: seq<Entry>, lo: int, mid: int, hi: int)
    requires Rising(es, lo, mid) && mid <= hi
    ensures Rising(es, lo, hi)
  {
    if es != [] && es[|es| - 1].Info? { RisingWiden(es[..|es| - 1], lo, mid, hi); }
  }

  lemma {:induction false} RisingBounds(es: seq<Entry>, lo: int, hi: int)
    requires Rising(es, lo, hi)
    ensures lo <= hi
  {
    if es != [] && es[|es| - 1].Info? { RisingBounds(es[..|es| - 1], lo, hi); }
  }

  lemma {:induction false} RisingAppend(a: seq<Entry>, b: seq<Entry>, lo: int, mid: int, hi: int)
    requires Rising(a, lo, mid) && Rising(b, mid, hi)
    ensures Rising(a + b, lo, hi)
    decreases |b|
  {
    if b == [] {
      assert a + b == a;
      RisingWiden(a, lo, mid, hi);
    } else {
      var e := b[|b| - 1];
      RisingBounds(a, lo, mid);
      assert (a + b)[..|a + b| - 1] == a + b[..|b| - 1];
      RisingAppend(a, b[..|b| - 1], lo, mid, if e.Info? then hi else e.id - 1);
    }
  }

  /** Written out: of any two pictures, the later one has the larger id. */
  lemma {:induction false} RisingMeansIncreasing(es: seq<Entry>, lo: int, hi: int)
    requires Rising(es, lo, hi)
    ensures forall i :: 0 <= i < |es| && !es[i].Info? ==> lo < es[i].id <= hi
    ensures forall i, j :: 0 <= i < j < |es| && !es[i].Info? && !es[j].Info? ==> es[i].id < es[j].id
  {
    if es != [] {
      var e := es[|es| - 1];
      var init := es[..|es| - 1];
      RisingMeansIncreasing(init, lo, if e.Info? then hi else e.id - 1);
      assert forall i :: 0 <= i < |init| ==> es[i] == init[i];
    }
  }

  function Top(shots: seq<Shot>, hi: int, lastId: nat, floor: nat): nat
    requires hi <= |shots|
  {
    if hi > 0 && shots[hi - 1].id > lastId then shots[hi - 1].id else floor
  }

  /** What Newer picks climbs, from any floor that its new shots are above. */
  lemma {:induction false} NewerRises(shots: seq<Shot>, lo: int, hi: int, lastId: nat, floor: nat, long: bool)
    requires Growing(shots) && 0 <= lo && hi <= |shots| && lastId <= floor
    requires forall i :: 0 <= i < hi && shots[i].id > lastId ==> shots[i].id > floor
    ensures Rising(Newer(shots, lo, hi, lastId, long), floor, Top(shots, hi, lastId, floor))
    decreases hi - lo
  {
    if lo < hi {
      var es := Newer(shots, lo, hi - 1, lastId, long);
      NewerRises(shots, lo, hi - 1, lastId, floor, long);
      if shots[hi - 1].id > lastId {
        RisingWiden(es, floor, Top(shots, hi - 1, lastId, floor), shots[hi - 1].id - 1);
        assert Newer(shots, lo, hi, lastId, long)[..|es|] == es;
      }
    }
  }

  /** The frames before the alert come after everything written and before the
      newest frame. */
  lemma BeforeRises(view: View, before: int, lastId: nat)
    requires view.list != [] && Growing(view.longList + view.list) && view.Last().id > lastId
    ensures Rising(Before(view, before, lastId), lastId, view.Last().id - 1)
  {
    var L, R := view.longList, view.list;
    var all := L + R;
    assert forall i :: 0 <= i < |L| ==> L[i] == all[i];
    assert forall i :: 0 <= i < |R| ==> R[i] == all[|L| + i];
    var start := |R| - before;
    if start < 0 && |L| + start < 0 {
      LongThenShort(view, lastId);
    } else {
      var from := if start < 0 then 0 else start;
      ShortRises(view, from, lastId, lastId);
      assert [] + Newer(R, from, |R| - 1, lastId, false) == Newer(R, from, |R| - 1, lastId, false);
    }
  }

  lemma ShortRises(view: View, from: nat, lastId: nat, floor: nat)
    requires view.list != [] && Growing(view.list) && lastId <= floor < view.Last().id
    requires forall i :: 0 <= i < |view.list| && view.list[i].id > lastId ==> view.list[i].id > floor
    ensures Rising(Newer(view.list, from, |view.list| - 1, lastId, false), floor, view.Last().id - 1)
  {
    var R := view.list;
    NewerRises(R, from, |R| - 1, lastId, floor, false);
    RisingWiden(Newer(R, from, |R| - 1, lastId, false), floor,
                Top(R, |R| - 1, lastId, floor), view.Last().id - 1);
  }

  lemma LongThenShort(view: View, lastId: nat)
    requires view.list != [] && Growing(view.longList) && Growing(view.list) && view.Last().id > lastId
    requires forall i, j :: 0 <= i < |view.longList| && 0 <= j < |view.list| ==>
               view.longList[i].id < view.list[j].id
    ensures Rising(Newer(view.longList, 0, |view.longList| - 1, lastId, true)
                   + Newer(view.list, 0, |view.list| - 1, lastId, false), lastId, view.Last().id - 1)
  {
    var L, R := view.longList, view.list;
    NewerRises(L, 0, |L| - 1, lastId, lastId, true);
    var top := Top(L, |L| - 1, lastId, lastId);
    ShortRises(view, 0, lastId, top);
    RisingAppend(Newer(L, 0, |L| - 1, lastId, true), Newer(R, 0, |R| - 1, lastId, false),
                 lastId, top, view.Last().id - 1);
  }

  predicate VideoOk(v: Video) { Rising(v.log, -1, v.lastId) }

  /** The video w continues v: whatever was added climbs on from v's last id. */
  predicate Continues(v: Video, w: Video) {
    v.log <= w.log && Rising(w.log[|v.log|..], v.lastId, w.lastId)
  }

  lemma ContinuesSame(v: Video, w: Video)
    requires w.log == v.log && v.lastId <= w.lastId
    ensures Continues(v, w)
  {
  }

  lemma ContinuesTrans(u: Video, v: Video, w: Video)
    requires Continues(u, v) && Continues(v, w)
    ensures Continues(u, w)
  {
    var first, second := v.log[|u.log|..], w.log[|v.log|..];
    assert w.log[|u.log|..] == first + second;
    RisingAppend(first, second, u.lastId, v.lastId, w.lastId);
  }

  lemma ContinuesOk(v: Video, w: Video)
    requires Continues(v, w) && VideoOk(v)
    ensures VideoOk(w)
  {
    assert w.log == v.log + w.log[|v.log|..];
    RisingAppend(v.log, w.log[|v.log|..], -1, v.lastId, w.lastId);
  }

  lemma RecordContinues(view: View, v: Video, config: Config, canOpen: bool)
    requires view.list != [] && Growing(view.longList + view.list)
    ensures Continues(v, Record(view, v, config, canOpen))
  {
    var last := view.Last();
    var w := Record(view, v, config, canOpen);
    if w.log == v.log {
      ContinuesSame(v, w);
    } else {
      var before := Before(view, config.before, v.lastId);
      BeforeRises(view, config.before, v.lastId);
      RisingWithLast(before, last.id, v.lastId, config.writeMask);
      Appended(v.log, before, [Current(last.id)], if config.writeMask then [Info(last.id)] else []);
    }
  }

  lemma RisingWithLast(es: seq<Entry>, id: nat, lo: int, withInfo: bool)
    requires Rising(es, lo, id - 1)
    ensures Rising(es + [Current(id)] + (if withInfo then [Info(id)] else []), lo, id)
  {
    RisingBounds(es, lo, id - 1);
    var now := es + [Current(id)];
    assert now[..|es|] == es;
    assert Rising(now, lo, id);
    var noted := now + [Info(id)];
    assert noted[..|now|] == now;
    assert now + [] == now;
  }

  lemma Appended<T>(a: seq<T>, b: seq<T>, c: seq<T>, d: seq<T>)
    ensures a <= a + b + c + d && (a + b + c + d)[|a|..] == b + c + d
  {
    assert a + b + c + d == a + (b + c + d);
  }

  lemma RecordAfterContinues(view: View, v: Video)
    ensures Continues(v, RecordAfter(view, v))
  {
    var w := RecordAfter(view, v);
    if w.log == v.log {
      ContinuesSame(v, w);
    } else {
      assert w.log[|v.log|..] == [After(view.Last().id)];
      assert [After(view.Last().id)][..0] == [];
    }
  }

  predicate VideosContinue(vs: Videos, ws: Videos) {
    && vs.byPath.Keys <= ws.byPath.Keys
    && forall path :: path in ws.byPath ==> Continues(VideoIn(vs, path), ws.byPath[path])
  }

  predicate LanesContinue(s: Lanes, t: Lanes) {
    s.Keys <= t.Keys && forall b :: b in t ==> VideosContinue(VideosOf(s, b), t[b])
  }

  lemma VideosTrans(us: Videos, vs: Videos, ws: Videos)
    requires VideosContinue(us, vs) && VideosContinue(vs, ws)
    ensures VideosContinue(us, ws)
  {
    forall path | path in ws.byPath ensures Continues(VideoIn(us, path), ws.byPath[path]) {
      if path in vs.byPath {
        ContinuesTrans(VideoIn(us, path), vs.byPath[path], ws.byPath[path]);
      }
    }
  }

  lemma VideosSame(vs: Videos, ws: Videos)
    requires vs.byPath == ws.byPath
    ensures VideosContinue(vs, ws)
  {
    forall path | path in ws.byPath ensures Continues(VideoIn(vs, path), ws.byPath[path]) {
      ContinuesSame(ws.byPath[path], ws.byPath[path]);
    }
  }

  lemma LanesSame(s: Lanes)
    ensures LanesContinue(s, s)
  {
    forall b | b in s ensures VideosContinue(VideosOf(s, b), s[b]) {
      VideosSame(s[b], s[b]);
    }
  }

  lemma LanesTrans(r: Lanes, s: Lanes, t: Lanes)
    requires LanesContinue(r, s) && LanesContinue(s, t)
    ensures LanesContinue(r, t)
  {
    forall b | b in t ensures VideosContinue(VideosOf(r, b), t[b]) {
      if b in s {
        VideosTrans(VideosOf(r, b), s[b], t[b]);
      }
    }
  }

  /** Replacing the videos of one buffer by a continuation. */
  lemma LaneReplaced(s: Lanes, b: nat, vs: Videos)
    requires VideosContinue(VideosOf(s, b), vs)
    ensures LanesContinue(s, s[b := vs])
  {
    LanesSame(s);
  }

  lemma OnPathContinues(vs: Videos, view: View, b: nat, path: string, config: Config,
                        newCount: int, canOpen: set<(nat, string)>)
    requires Growing(view.longList + view.list)
    ensures VideosContinue(vs, OnPath(vs, view, b, path, config, newCount, canOpen))
  {
    VideosSame(vs, vs);
    if view.IsReady() {
      RecordContinues(view, VideoIn(vs, path), config, (b, path) in canOpen);
    }
  }

  lemma {:induction false} OnPathsContinue(vs: Videos, view: View, b: nat, paths: seq<string>, config: Config,
                                           newCount: int, canOpen: set<(nat, string)>)
    requires Growing(view.longList + view.list)
    ensures VideosContinue(vs, OnPaths(vs, view, b, paths, config, newCount, canOpen))
  {
    if paths == [] {
      VideosSame(vs, vs);
    } else {
      var init, path := paths[..|paths| - 1], paths[|paths| - 1];
      var done := OnPaths(vs, view, b, init, config, newCount, canOpen);
      OnPathsContinue(vs, view, b, init, config, newCount, canOpen);
      OnPathContinues(done, view, b, path, config, newCount, canOpen);
      VideosTrans(vs, done, OnPath(done, view, b, path, config, newCount, canOpen));
    }
  }

  lemma {:induction false} OnBuffersContinue(s: Lanes, buff: seq<View>, ids: seq<nat>, config: Config,
                                             newCount: int, canOpen: set<(nat, string)>)
    requires forall i :: 0 <= i < |buff| ==> Growing(buff[i].longList + buff[i].list)
    ensures LanesContinue(s, OnBuffers(s, buff, ids, config, newCount, canOpen))
  {
    if ids == [] {
      LanesSame(s);
    } else {
      var init, b := ids[..|ids| - 1], ids[|ids| - 1];
      var done := OnBuffers(s, buff, init, config, newCount, canOpen);
      OnBuffersContinue(s, buff, init, config, newCount, canOpen);
      if b < |buff| && buff[b].IsReady() && config.paths != [] {
        var vs := OnPaths(VideosOf(done, b), buff[b], b, config.paths, config, newCount, canOpen);
        OnPathsContinue(VideosOf(done, b), buff[b], b, config.paths, config, newCount, canOpen);
        LaneReplaced(done, b, vs);
        LanesTrans(s, done, done[b := vs]);
      }
    }
  }

  lemma CheckedContinues(vs: Videos, view: View, config: Config)
    ensures VideosContinue(vs, Checked(vs, view, config))
  {
    if vs.count < 0 {
      VideosSame(vs, vs);
    } else {
      forall path | path in vs.byPath ensures Continues(vs.byPath[path], RecordAfter(view, vs.byPath[path])) {
        RecordAfterContinues(view, vs.byPath[path]);
      }
    }
  }

  lemma {:induction false} OnCheckContinues(s: Lanes, buff: seq<View>, ids: seq<nat>, config: Config)
    ensures LanesContinue(s, OnCheck(s, buff, ids, config))
  {
    if ids == [] || config.paths == [] {
      LanesSame(s);
    } else {
      var init, b := ids[..|ids| - 1], ids[|ids| - 1];
      var done := OnCheck(s, buff, init, config);
      OnCheckContinues(s, buff, init, config);
      var vs := VideosOf(done, b);
      var ws := if b < |buff| then Checked(vs, buff[b], config) else vs;
      if b < |buff| {
        CheckedContinues(vs, buff[b], config);
      } else {
        VideosSame(vs, vs);
      }
      LaneReplaced(done, b, ws);
      LanesTrans(s, done, done[b := ws]);
    }
  }

  lemma StepContinues(s: Lanes, e: Event, config: Config)
    requires Enabled(e)
    ensures LanesContinue(s, Step(s, e, config))
  {
    match e
    case Alert(buff, ids, canOpen) => OnBuffersContinue(s, buff, ids, config, 0, canOpen);
    case Warning(buff, ids, canOpen) => OnBuffersContinue(s, buff, ids, config, -1, canOpen);
    case Check(buff, ids) => OnCheckContinues(s, buff, ids, config);
  }

  lemma {:induction false} RunContinues(s: Lanes, es: seq<Event>, config: Config)
    requires forall e :: e in es ==> Enabled(e)
    ensures LanesContinue(s, Run(s, es, config))
  {
    if es == [] {
      LanesSame(s);
    } else {
      var init, e := es[..|es| - 1], es[|es| - 1];
      RunContinues(s, init, config);
      assert e in es && Enabled(e);
      StepContinues(Run(s, init, config), e, config);
      LanesTrans(s, Run(s, init, config), Run(s, es, config));
    }
  }

  lemma LaneContinues(s: Lanes, t: Lanes, b: nat, path: string)
    requires LanesContinue(s, t)
    ensures Continues(Lane(s, b, path), Lane(t, b, path))
  {
    if b in t && path in t[b].byPath {
      assert VideosContinue(VideosOf(s, b), t[b]);
    } else {
      assert b in s ==> VideosContinue(s[b], t[b]);
      ContinuesSame(NEW_VIDEO, NEW_VIDEO);
    }
  }

  /** Of any two pictures the later one has the larger id. */
  predicate Climbing(log: seq<Entry>) {
    forall i, j :: 0 <= i < j < |log| && !log[i].Info? && !log[j].Info? ==> log[i].id < log[j].id
  }

  lemma ReachedOk(t: Lanes, b: nat, path: string)
    requires LanesContinue(map[], t)
    ensures VideoOk(Lane(t, b, path)) && Climbing(Lane(t, b, path).log)
  {
    LaneContinues(map[], t, b, path);
    ContinuesOk(NEW_VIDEO, Lane(t, b, path));
    RisingMeansIncreasing(Lane(t, b, path).log, -1, Lane(t, b, path).lastId);
  }

  /** Over any run, no picture is written twice for a buffer and path: later
      pictures have larger ids, across alerts, files and after-alert frames. */
  lemma NoPictureTwice(es: seq<Event>, config: Config, b: nat, path: string)
    requires forall e :: e in es ==> Enabled(e)
    ensures Climbing(Lane(Run(map[], es, config), b, path).log)
  {
    RunContinues(map[], es, config);
    ReachedOk(Run(map[], es, config), b, path);
  }

  // ---- what exactly is written ----

  /** Newer picks exactly the newer shots of its stretch. */
  lemma {:induction false} NewerExactly(shots: seq<Shot>, lo: int, hi: int, lastId: nat, long: bool, id: nat)
    requires 0 <= lo && hi <= |shots|
    ensures (if long then FromLong(id) else Prev(id)) in Newer(shots, lo, hi, lastId, long) <==>
            exists i :: lo <= i < hi && shots[i].id == id && id > lastId
    ensures (if long then Prev(id) else FromLong(id)) !in Newer(shots, lo, hi, lastId, long)
    decreases hi - lo
  {
    if lo < hi { NewerExactly(shots, lo, hi - 1, lastId, long, id); }
  }

  /** A short-list frame is written before the alert exactly when it is among the
      last `before` frames, not the newest, and not written yet. */
  lemma PrevExactly(view: View, before: int, lastId: nat, id: nat)
    ensures Prev(id) in Before(view, before, lastId) <==>
            exists i :: 0 <= i < |view.list| - 1 && i >= |view.list| - before &&
                        view.list[i].id == id && id > lastId
  {
    var start := |view.list| - before;
    NewerExactly(view.list, if start < 0 then 0 else start, |view.list| - 1, lastId, false, id);
    NewerExactly(view.longList, 0, |view.longList| - 1, lastId, true, id);
  }

  /** Frames of the long list are written only when both lists together are
      shorter than mFrameBeforeAlertToVideo; a long list that is long enough to
      serve the request is not used at all. */
  lemma LongExactly(view: View, before: int, lastId: nat, id: nat)
    ensures FromLong(id) in Before(view, before, lastId) <==>
            |view.list| + |view.longList| < before &&
            exists i :: 0 <= i < |view.longList| - 1 && view.longList[i].id == id && id > lastId
  {
    var start := |view.list| - before;
    NewerExactly(view.list, if start < 0 then 0 else start, |view.list| - 1, lastId, false, id);
    NewerExactly(view.longList, 0, |view.longList| - 1, lastId, true, id);
  }

  /** The pictures of a log. */
  predicate Shows(log: seq<Entry>, id: nat) { exists k :: 0 <= k < |log| && !log[k].Info? && log[k].id == id }

  /** The ids an alert is meant to bring: the newest frame, the last `before` of
      the short list, and the long list when both lists are too short. */
  predicate Wanted(view: View, before: int, id: nat)
    requires view.list != []
  {
    || id == view.Last().id
    || (exists i :: 0 <= i < |view.list| - 1 && i >= |view.list| - before && view.list[i].id == id)
    || (|view.list| + |view.longList| < before &&
        exists i :: 0 <= i < |view.longList| - 1 && view.longList[i].id == id)
  }

  /** An alert on a new frame whose video is open, or can be opened, adds exactly
      the wanted frames above the last id. */
  lemma RecordWritesExactly(view: View, v: Video, config: Config, canOpen: bool, id: nat)
    requires view.list != [] && view.Last().id > v.lastId && VideoOk(v)
    requires canOpen || (v.isOpen && v.date == view.Last().date)
    ensures var r := Record(view, v, config, canOpen);
            Shows(r.log, id) <==> Shows(v.log, id) || (id > v.lastId && Wanted(view, config.before, id))
    ensures v.log <= Record(view, v, config, canOpen).log
  {
    var before := Before(view, config.before, v.lastId);
    var last := view.Last().id;
    var info := if config.writeMask then [Info(last)] else [];
    assert Record(view, v, config, canOpen).log == v.log + before + [Current(last)] + info;
    ShowsConcat(v.log + before + [Current(last)], info, id);
    ShowsConcat(v.log + before, [Current(last)], id);
    ShowsConcat(v.log, before, id);
    assert Shows([Current(last)], id) <==> id == last by {
      assert [Current(last)][0].id == last;
    }
    ShowsBefore(view, config.before, v.lastId, id);
  }

  /** Which entries such an alert adds: the newest frame as the current one, with the
      mask picture behind it when that is asked for, and no after-alert frame. */
  lemma RecordAddsExactly(view: View, v: Video, config: Config, canOpen: bool, e: Entry)
    requires view.list != [] && view.Last().id > v.lastId
    requires canOpen || (v.isOpen && v.date == view.Last().date)
    ensures var r := Record(view, v, config, canOpen);
            var last := view.Last().id;
            && v.log <= r.log
            && (e in r.log[|v.log|..] <==>
                match e
                case FromLong(id) => FromLong(id) in Before(view, config.before, v.lastId)
                case Prev(id) => Prev(id) in Before(view, config.before, v.lastId)
                case Current(id) => id == last
                case Info(id) => id == last && config.writeMask
                case After(_) => false)
            && r.log[|r.log| - 1] == if config.writeMask then Info(last) else Current(last)
  {
    var before, last := Before(view, config.before, v.lastId), view.Last().id;
    var info := if config.writeMask then [Info(last)] else [];
    Appended(v.log, before, [Current(last)], info);
    assert Record(view, v, config, canOpen).log == v.log + before + [Current(last)] + info;
    AddedEntries(before, last, config.writeMask, e);
    BeforeKinds(view, config.before, v.lastId);
  }

  lemma AddedEntries(before: seq<Entry>, last: nat, withInfo: bool, e: Entry)
    ensures var added := before + [Current(last)] + if withInfo then [Info(last)] else [];
            && (e in added <==> e in before || e == Current(last) || (withInfo && e == Info(last)))
            && added[|added| - 1] == if withInfo then Info(last) else Current(last)
  {
  }

  /** After an alert on a new frame the video is open exactly when its file could be
      opened, or was open for the day of that frame; and its day is that one. */
  lemma RecordOpensExactly(view: View, v: Video, config: Config, canOpen: bool)
    requires view.list != [] && view.Last().id > v.lastId
    ensures var r := Record(view, v, config, canOpen);
            && (r.isOpen <==> canOpen || (v.isOpen && v.date == view.Last().date))
            && r.date == view.Last().date && r.lastId == view.Last().id
  {
  }

  lemma ShowsConcat(a: seq<Entry>, b: seq<Entry>, id: nat)
    ensures Shows(a + b, id) <==> Shows(a, id) || Shows(b, id)
  {
    assert forall k :: 0 <= k < |a| ==> (a + b)[k] == a[k];
    assert forall k :: 0 <= k < |b| ==> (a + b)[|a| + k] == b[k];
  }

  lemma ShowsBefore(view: View, before: int, lastId: nat, id: nat)
    requires view.list != []
    ensures Shows(Before(view, before, lastId), id) || (id == view.Last().id && id > lastId)
            <==> id > lastId && Wanted(view, before, id)
  {
    PrevExactly(view, before, lastId, id);
    LongExactly(view, before, lastId, id);
    BeforeKinds(view, before, lastId);
    var es := Before(view, before, lastId);
    assert Shows(es, id) <==> Prev(id) in es || FromLong(id) in es;
  }

  lemma {:induction false} NewerKinds(shots: seq<Shot>, lo: int, hi: int, lastId: nat, long: bool)
    requires 0 <= lo && hi <= |shots|
    ensures forall e :: e in Newer(shots, lo, hi, lastId, long) ==> e == if long then FromLong(e.id) else Prev(e.id)
    decreases hi - lo
  {
    if lo < hi { NewerKinds(shots, lo, hi - 1, lastId, long); }
  }

  lemma BeforeKinds(view: View, before: int, lastId: nat)
    ensures forall e :: e in Before(view, before, lastId) ==> e == FromLong(e.id) || e == Prev(e.id)
  {
    var start := |view.list| - before;
    NewerKinds(view.list, if start < 0 then 0 else start, |view.list| - 1, lastId, false);
    NewerKinds(view.longList, 0, |view.longList| - 1, lastId, true);
  }

  // ---- one lane of a whole call ----

  /** Recording the same copy again changes nothing. */
  lemma RecordTwice(view: View, v: Video, config: Config, canOpen: bool)
    requires view.list != []
    ensures var r := Record(view, v, config, canOpen); Record(view, r, config, canOpen) == r
  {
  }

  lemma {:induction false} OnPathsLane(vs: Videos, view: View, b: nat, paths: seq<string>, config: Config,
                                       newCount: int, canOpen: set<(nat, string)>, path: string)
    requires view.IsReady()
    ensures var t := OnPaths(vs, view, b, paths, config, newCount, canOpen);
            && VideoIn(t, path) == (if path in paths then Record(view, VideoIn(vs, path), config, (b, path) in canOpen)
                                    else VideoIn(vs, path))
            && t.count == (if newCount >= 0 && paths != [] then newCount else vs.count)
            && (path in t.byPath <==> path in vs.byPath || path in paths)
  {
    if paths != [] {
      OnPathsLane(vs, view, b, paths[..|paths| - 1], config, newCount, canOpen, path);
      RecordTwice(view, VideoIn(vs, path), config, (b, path) in canOpen);
    }
  }

  /** A call for any buffers, seen from one video: the buffer may be listed more
      than once, or not at all. */
  lemma {:induction false} OnBuffersLane(s: Lanes, buff: seq<View>, ids: seq<nat>, config: Config,
                                         newCount: int, canOpen: set<(nat, string)>, b: nat, path: string)
    requires b < |buff| && buff[b].IsReady() && path in config.paths
    ensures Lane(OnBuffers(s, buff, ids, config, newCount, canOpen), b, path) ==
            if b in ids then Record(buff[b], Lane(s, b, path), config, (b, path) in canOpen) else Lane(s, b, path)
  {
    if ids != [] {
      var init, last := ids[..|ids| - 1], ids[|ids| - 1];
      assert ids == init + [last];
      var done := OnBuffers(s, buff, init, config, newCount, canOpen);
      OnBuffersLane(s, buff, init, config, newCount, canOpen, b, path);
      if last == b {
        OnPathsLane(VideosOf(done, b), buff[b], b, config.paths, config, newCount, canOpen, path);
        RecordTwice(buff[b], Lane(s, b, path), config, (b, path) in canOpen);
      }
    }
  }

  /** A buffer that is not meant, not there or not ready is left alone. */
  lemma {:induction false} OnBuffersOther(s: Lanes, buff: seq<View>, ids: seq<nat>, config: Config,
                                          newCount: int, canOpen: set<(nat, string)>, b: nat)
    requires b !in ids || b >= |buff| || !buff[b].IsReady() || config.paths == []
    ensures VideosOf(OnBuffers(s, buff, ids, config, newCount, canOpen), b) == VideosOf(s, b)
  {
    if ids != [] {
      var init, last := ids[..|ids| - 1], ids[|ids| - 1];
      assert ids == init + [last];
      OnBuffersOther(s, buff, init, config, newCount, canOpen, b);
    }
  }

  /** The after-alert counter of a buffer: an alert starts it, a warning does not. */
  lemma {:induction false} OnBuffersCount(s: Lanes, buff: seq<View>, ids: seq<nat>, config: Config,
                                          newCount: int, canOpen: set<(nat, string)>, b: nat)
    requires b < |buff| && buff[b].IsReady() && config.paths != []
    ensures VideosOf(OnBuffers(s, buff, ids, config, newCount, canOpen), b).count ==
            if b in ids && newCount >= 0 then newCount else VideosOf(s, b).count
  {
    if ids != [] {
      var init, last := ids[..|ids| - 1], ids[|ids| - 1];
      assert ids == init + [last];
      OnBuffersCount(s, buff, init, config, newCount, canOpen, b);
      if last == b {
        var done := OnBuffers(s, buff, init, config, newCount, canOpen);
        OnPathsLane(VideosOf(done, b), buff[b], b, config.paths, config, newCount, canOpen, config.paths[0]);
      }
    }
  }

  /** An alert starts the after-alert counter of the ready buffers it names, a warning
      leaves every counter as it is. */
  lemma AlertStartsWindow(s: Lanes, e: Event, config: Config, b: nat)
    requires Enabled(e) && !e.Check? && b < |e.buff| && e.buff[b].IsReady() && config.paths != []
    ensures VideosOf(Step(s, e, config), b).count == if e.Alert? && b in e.ids then 0 else VideosOf(s, b).count
  {
    OnBuffersCount(s, e.buff, e.ids, config, if e.Alert? then 0 else -1, e.canOpen, b);
  }

  /** Checks neither open nor close a file. */
  lemma {:induction false} OnCheckKeepsFiles(s: Lanes, buff: seq<View>, ids: seq<nat>, config: Config, b: nat, path: string)
    ensures var v, w := Lane(s, b, path), Lane(OnCheck(s, buff, ids, config), b, path);
            w.isOpen == v.isOpen && w.date == v.date
    ensures b !in ids ==> VideosOf(OnCheck(s, buff, ids, config), b) == VideosOf(s, b)
  {
    if ids != [] && config.paths != [] {
      var init, last := ids[..|ids| - 1], ids[|ids| - 1];
      assert ids == init + [last];
      OnCheckKeepsFiles(s, buff, init, config, b, path);
    }
  }

  /** Every alert or warning on this buffer has its newest frame on that day. */
  predicate OneDay(es: seq<Event>, b: nat, date: string) {
    forall e :: e in es ==> OnDay(e, b, date)
  }

  predicate OnDay(e: Event, b: nat, date: string) {
    !e.Check? && b in e.ids && b < |e.buff| && e.buff[b].IsReady() ==> e.buff[b].Last().date == date
  }

  lemma StepStaysOpen(s: Lanes, e: Event, config: Config, b: nat, path: string, date: string)
    requires Enabled(e) && OnDay(e, b, date) && path in config.paths
    requires Lane(s, b, path).isOpen && Lane(s, b, path).date == date
    ensures var w := Lane(Step(s, e, config), b, path); w.isOpen && w.date == date
  {
    if e.Check? {
      OnCheckKeepsFiles(s, e.buff, e.ids, config, b, path);
    } else {
      var newCount := if e.Alert? then 0 else -1;
      if b in e.ids && b < |e.buff| && e.buff[b].IsReady() {
        OnBuffersLane(s, e.buff, e.ids, config, newCount, e.canOpen, b, path);
      } else {
        OnBuffersOther(s, e.buff, e.ids, config, newCount, e.canOpen, b);
      }
    }
  }

  /** An open file stays open all day, whatever else happens. */
  lemma {:induction false} StaysOpen(s: Lanes, es: seq<Event>, config: Config, b: nat, path: string, date: string)
    requires (forall e :: e in es ==> Enabled(e)) && OneDay(es, b, date) && path in config.paths
    requires Lane(s, b, path).isOpen && Lane(s, b, path).date == date
    ensures var w := Lane(Run(s, es, config), b, path); w.isOpen && w.date == date
  {
    if es != [] {
      var init, e := es[..|es| - 1], es[|es| - 1];
      StaysOpen(s, init, config, b, path, date);
      assert e in es;
      StepStaysOpen(Run(s, init, config), e, config, b, path, date);
    }
  }

  lemma ShownFrom(v: Video, w: Video, id: nat)
    requires Continues(v, w) && id <= v.lastId
    ensures Shows(w.log, id) <==> Shows(v.log, id)
  {
    var added := w.log[|v.log|..];
    assert w.log == v.log + added;
    ShowsConcat(v.log, added, id);
    RisingMeansIncreasing(added, v.lastId, w.lastId);
  }

  lemma NotShownYet(v: Video, id: nat)
    requires VideoOk(v) && id > v.lastId
    ensures !Shows(v.log, id)
  {
    RisingMeansIncreasing(v.log, -1, v.lastId);
  }

  /** What one alert does for the ids up to its newest frame. */
  lemma RecordNowOrNever(view: View, v: Video, config: Config, canOpen: bool, id: nat)
    requires view.list != [] && VideoOk(v) && v.lastId < id <= view.Last().id
    ensures var r := Record(view, v, config, canOpen);
            && r.lastId == view.Last().id
            && (Shows(r.log, id) <==>
                  (canOpen || (v.isOpen && v.date == view.Last().date)) && Wanted(view, config.before, id))
  {
    NotShownYet(v, id);
    if canOpen || (v.isOpen && v.date == view.Last().date) {
      RecordWritesExactly(view, v, config, canOpen, id);
    }
  }

  /** An alert whose file opens shows its newest frame. */
  lemma AlertShowsLast(s: Lanes, e: Event, config: Config, b: nat, path: string)
    requires LanesContinue(map[], s) && Enabled(e) && !e.Check?
    requires b in e.ids && b < |e.buff| && e.buff[b].IsReady() && path in config.paths && (b, path) in e.canOpen
    requires Lane(s, b, path).lastId < e.buff[b].Last().id
    ensures Shows(Lane(Step(s, e, config), b, path).log, e.buff[b].Last().id)
  {
    ReachedOk(s, b, path);
    OnBuffersLane(s, e.buff, e.ids, config, if e.Alert? then 0 else -1, e.canOpen, b, path);
    RecordWritesExactly(e.buff[b], Lane(s, b, path), config, true, e.buff[b].Last().id);
  }

  /** An alert or warning decides once and for all about every frame up to the
      newest one: it is in the video after any later run exactly when the file was
      open, or could be opened, and the frame was wanted then. s is any state that
      a run has led to, as RunContinues shows. */
  lemma NowOrNever(s: Lanes, e: Event, later: seq<Event>, config: Config, b: nat, path: string, id: nat)
    requires LanesContinue(map[], s) && Enabled(e) && (e.Alert? || e.Warning?)
    requires forall x :: x in later ==> Enabled(x)
    requires b in e.ids && b < |e.buff| && e.buff[b].IsReady() && path in config.paths
    requires Lane(s, b, path).lastId < id <= e.buff[b].Last().id
    ensures var v, view := Lane(s, b, path), e.buff[b];
            Shows(Lane(Run(Step(s, e, config), later, config), b, path).log, id) <==>
            ((b, path) in e.canOpen || (v.isOpen && v.date == view.Last().date)) && Wanted(view, config.before, id)
  {
    var t := Step(s, e, config);
    ReachedOk(s, b, path);
    OnBuffersLane(s, e.buff, e.ids, config, if e.Alert? then 0 else -1, e.canOpen, b, path);
    RecordNowOrNever(e.buff[b], Lane(s, b, path), config, (b, path) in e.canOpen, id);
    RunContinues(t, later, config);
    LaneContinues(t, Run(t, later, config), b, path);
    ShownFrom(Lane(t, b, path), Lane(Run(t, later, config), b, path), id);
  }

  /** So when the file cannot be opened, every frame up to the newest one that was
      not in the video before is lost for good. */
  lemma OpenFailureLosesFrames(s: Lanes, e: Event, later: seq<Event>, config: Config, b: nat, path: string, id: nat)
    requires LanesContinue(map[], s) && Enabled(e) && (e.Alert? || e.Warning?)
    requires forall x :: x in later ==> Enabled(x)
    requires b in e.ids && b < |e.buff| && e.buff[b].IsReady() && path in config.paths && (b, path) !in e.canOpen
    requires !Lane(s, b, path).isOpen || Lane(s, b, path).date != e.buff[b].Last().date
    requires Lane(s, b, path).lastId < id <= e.buff[b].Last().id
    ensures !Shows(Lane(Run(Step(s, e, config), later, config), b, path).log, id)
  {
    NowOrNever(s, e, later, config, b, path, id);
  }

  /** One open a day is enough: an alert opens the file, other calls follow, and a
      later alert of the same day writes all that is wanted of it, whether or not
      the file could be opened then. */
  lemma OneOpenADay(s: Lanes, first: Event, between: seq<Event>, second: Event, later: seq<Event>,
                    config: Config, b: nat, path: string, id: nat)
    requires LanesContinue(map[], s) && path in config.paths
    requires Enabled(first) && !first.Check? && Enabled(second) && !second.Check?
    requires (forall x :: x in between ==> Enabled(x)) && (forall x :: x in later ==> Enabled(x))
    requires b in first.ids && b < |first.buff| && first.buff[b].IsReady() && (b, path) in first.canOpen
    requires Lane(s, b, path).lastId < first.buff[b].Last().id
    requires b in second.ids && b < |second.buff| && second.buff[b].IsReady()
    requires OneDay(between, b, first.buff[b].Last().date)
    requires second.buff[b].Last().date == first.buff[b].Last().date
    requires Lane(Run(Step(s, first, config), between, config), b, path).lastId < id <= second.buff[b].Last().id
    ensures var t := Run(Step(s, first, config), between, config);
            Shows(Lane(Run(Step(t, second, config), later, config), b, path).log, id)
            <==> Wanted(second.buff[b], config.before, id)
  {
    var start := Step(s, first, config);
    OnBuffersLane(s, first.buff, first.ids, config, if first.Alert? then 0 else -1, first.canOpen, b, path);
    RecordOpensExactly(first.buff[b], Lane(s, b, path), config, true);
    StaysOpen(start, between, config, b, path, first.buff[b].Last().date);
    var t := Run(start, between, config);
    StepContinues(s, first, config);
    RunContinues(start, between, config);
    LanesTrans(map[], s, start);
    LanesTrans(map[], start, t);
    NowOrNever(t, second, later, config, b, path, id);
  }

  lemma {:induction false} OnCheckLane(s: Lanes, buff: seq<View>, ids: seq<nat>, config: Config, b: nat, path: string)
    requires b < |buff| && config.paths != [] && b in ids && VideosOf(s, b).count >= 0 && Tracked(s, b, path)
    ensures Lane(OnCheck(s, buff, ids, config), b, path) == RecordAfter(buff[b], Lane(s, b, path))
    ensures Tracked(OnCheck(s, buff, ids, config), b, path)
  {
    var init, last := ids[..|ids| - 1], ids[|ids| - 1];
    assert ids == init + [last];
    if b in init {
      OnCheckLane(s, buff, init, config, b, path);
    } else {
      OnCheckKeepsFiles(s, buff, init, config, b, path);
    }
  }

  /** A check while the counter runs decides in the same way: of the frames up to the
      newest one only that one is ever in the video, exactly when the file is open. */
  lemma CheckNowOrNever(s: Lanes, e: Event, later: seq<Event>, config: Config, b: nat, path: string, id: nat)
    requires LanesContinue(map[], s) && Enabled(e) && e.Check? && forall x :: x in later ==> Enabled(x)
    requires b in e.ids && b < |e.buff| && e.buff[b].IsReady() && config.paths != []
    requires Tracked(s, b, path) && VideosOf(s, b).count >= 0
    requires Lane(s, b, path).lastId < id <= e.buff[b].Last().id
    ensures Shows(Lane(Run(Step(s, e, config), later, config), b, path).log, id) <==>
            Lane(s, b, path).isOpen && id == e.buff[b].Last().id
  {
    var v, t := Lane(s, b, path), Step(s, e, config);
    ReachedOk(s, b, path);
    OnCheckLane(s, e.buff, e.ids, config, b, path);
    NotShownYet(v, id);
    var last := After(e.buff[b].Last().id);
    ShowsConcat(v.log, [last], id);
    assert Shows([last], id) <==> id == last.id by {
      assert [last][0] == last;
    }
    RunContinues(t, later, config);
    LaneContinues(t, Run(t, later, config), b, path);
    ShownFrom(Lane(t, b, path), Lane(Run(t, later, config), b, path), id);
  }

  predicate Tracked(s: Lanes, b: nat, path: string) { b in s && path in s[b].byPath }

  /** An alert on one ready buffer, seen from one of its videos. */
  lemma AlertLane(s: Lanes, buff: seq<View>, b: nat, path: string, config: Config, canOpen: set<(nat, string)>)
    requires b < |buff| && buff[b].IsReady() && path in config.paths
    ensures var t := OnBuffers(s, buff, [b], config, 0, canOpen);
            && Tracked(t, b, path) && VideosOf(t, b).count == 0
            && Lane(t, b, path) == Record(buff[b], Lane(s, b, path), config, (b, path) in canOpen)
  {
    assert [b][..0] == [];
    OnPathsLane(VideosOf(s, b), buff[b], b, config.paths, config, 0, canOpen, path);
  }

  /** An after-alert check, seen from one video. */
  lemma CheckLane(s: Lanes, buff: seq<View>, b: nat, path: string, config: Config)
    requires b < |buff| && Tracked(s, b, path) && config.paths != []
    ensures var t := OnCheck(s, buff, [b], config);
            var count := VideosOf(s, b).count;
            && Tracked(t, b, path)
            && VideosOf(t, b).count == (if count < 0 then count else Counted(count, config.after))
            && Lane(t, b, path) == (if count < 0 then Lane(s, b, path)
                                    else RecordAfter(buff[b], Lane(s, b, path)))
  {
    assert [b][..0] == [];
  }

  // ---- the after-alert window ----

  /** One doAlgo call on buffer b: an alert or not, then the check on the same copy. */
  datatype Algo = Algo(buff: seq<View>, alert: bool, canOpen: set<(nat, string)>)

  predicate Runs(a: Algo, b: nat) {
    b < |a.buff| && a.buff[b].IsFull() && |a.buff[b].list| > Rings.MIN_ALGO_FRAMES
  }

  function AlgoStep(s: Lanes, a: Algo, b: nat, config: Config): Lanes
    requires Runs(a, b)
  {
    OnCheck(if a.alert then OnBuffers(s, a.buff, [b], config, 0, a.canOpen) else s, a.buff, [b], config)
  }

  function AlgoRun(s: Lanes, steps: seq<Algo>, b: nat, config: Config): Lanes
    requires forall a :: a in steps ==> Runs(a, b)
    decreases |steps|
  {
    if steps == [] then s else AlgoRun(AlgoStep(s, steps[0], b, config), steps[1..], b, config)
  }

  function Afters(log: seq<Entry>): nat {
    if log == [] then 0 else Afters(log[..|log| - 1]) + if log[|log| - 1].After? then 1 else 0
  }

  lemma {:induction false} AftersAppend(a: seq<Entry>, b: seq<Entry>)
    ensures Afters(a + b) == Afters(a) + Afters(b)
  {
    if b == [] {
      assert a + b == a;
    } else {
      assert (a + b)[..|a + b| - 1] == a + b[..|b| - 1];
      AftersAppend(a, b[..|b| - 1]);
    }
  }

  lemma {:induction false} NewerHasNoAfter(shots: seq<Shot>, lo: int, hi: int, lastId: nat, long: bool)
    requires 0 <= lo && hi <= |shots|
    ensures Afters(Newer(shots, lo, hi, lastId, long)) == 0
    decreases hi - lo
  {
    if lo < hi {
      NewerHasNoAfter(shots, lo, hi - 1, lastId, long);
      var es := Newer(shots, lo, hi - 1, lastId, long);
      assert (es + [FromLong(shots[hi - 1].id)])[..|es|] == es;
      assert (es + [Prev(shots[hi - 1].id)])[..|es|] == es;
    }
  }

  lemma BeforeHasNoAfter(view: View, before: int, lastId: nat)
    ensures Afters(Before(view, before, lastId)) == 0
  {
    var start := |view.list| - before;
    var long := Newer(view.longList, 0, |view.longList| - 1, lastId, true);
    var short := Newer(view.list, 0, |view.list| - 1, lastId, false);
    NewerHasNoAfter(view.longList, 0, |view.longList| - 1, lastId, true);
    NewerHasNoAfter(view.list, if start < 0 then 0 else start, |view.list| - 1, lastId, false);
    if start < 0 {
      AftersAppend(long, short);
      AftersAppend([], short);
    }
  }

  lemma RecordHasNoAfter(view: View, v: Video, config: Config, canOpen: bool)
    requires view.list != []
    ensures Afters(Record(view, v, config, canOpen).log) == Afters(v.log)
    ensures Record(view, v, config, canOpen).lastId >= view.Last().id
  {
    var before := Before(view, config.before, v.lastId);
    var id := view.Last().id;
    BeforeHasNoAfter(view, config.before, v.lastId);
    AftersAppend(v.log, before);
    AftersAppend(v.log + before, [Current(id)]);
    AftersAppend(v.log + before + [Current(id)], [Info(id)]);
    AftersAppend(v.log + before + [Current(id)], []);
  }

  /** Checks that still write, given the counter. */
  function Remaining(count: int, limit: int): nat {
    if 0 <= count < limit then limit - count else 0
  }

  function AtMost(n: nat, m: nat): nat { if n < m then n else m }

  predicate Quiet(steps: seq<Algo>) { forall a :: a in steps ==> !a.alert }

  /** Every step brings a frame newer than any before. */
  predicate Fresh(steps: seq<Algo>, b: nat, lastId: nat)
    requires forall a :: a in steps ==> Runs(a, b)
  {
    if steps == [] then true
    else
      assert Runs(steps[0], b);
      steps[0].buff[b].Last().id > lastId && Fresh(steps[1..], b, steps[0].buff[b].Last().id)
  }

  /** One quiet step, seen from one video. */
  lemma QuietStep(s: Lanes, a: Algo, b: nat, path: string, config: Config)
    requires Runs(a, b) && !a.alert && Tracked(s, b, path) && config.paths != []
    ensures var t := AlgoStep(s, a, b, config);
            var count, v, w := VideosOf(s, b).count, Lane(s, b, path), Lane(t, b, path);
            var isNew := count >= 0 && a.buff[b].Last().id > v.lastId;
            && Tracked(t, b, path)
            && VideosOf(t, b).count == (if count < 0 then count else Counted(count, config.after))
            && Afters(w.log) == Afters(v.log) + (if isNew && v.isOpen then 1 else 0)
            && w.isOpen == v.isOpen && w.lastId == (if isNew then a.buff[b].Last().id else v.lastId)
  {
    CheckLane(s, a.buff, b, path, config);
    AftersAppend(Lane(s, b, path).log, [After(a.buff[b].Last().id)]);
  }

  lemma {:induction false} QuietWindow(s: Lanes, steps: seq<Algo>, b: nat, path: string, config: Config)
    requires forall a :: a in steps ==> Runs(a, b)
    requires Tracked(s, b, path) && config.paths != [] && Quiet(steps)
    requires VideosOf(s, b).count < 0 || VideosOf(s, b).count < config.after
    ensures var t := AlgoRun(s, steps, b, config);
            var written := Afters(Lane(t, b, path).log) - Afters(Lane(s, b, path).log);
            var bound := AtMost(|steps|, Remaining(VideosOf(s, b).count, config.after));
            && 0 <= written <= bound
            && (Lane(s, b, path).isOpen && Fresh(steps, b, Lane(s, b, path).lastId) ==> written == bound)
            && (!Lane(s, b, path).isOpen ==> written == 0)
    decreases |steps|
  {
    if steps != [] {
      assert Runs(steps[0], b) && !steps[0].alert;
      QuietStep(s, steps[0], b, path, config);
      var s1 := AlgoStep(s, steps[0], b, config);
      QuietWindow(s1, steps[1..], b, path, config);
    }
  }

  /** With the counter off nothing is written until the next alert. */
  lemma {:induction false} SilentWindow(s: Lanes, steps: seq<Algo>, b: nat, path: string, config: Config)
    requires forall a :: a in steps ==> Runs(a, b)
    requires Tracked(s, b, path) && config.paths != [] && Quiet(steps) && VideosOf(s, b).count < 0
    ensures Lane(AlgoRun(s, steps, b, config), b, path) == Lane(s, b, path)
    decreases |steps|
  {
    if steps != [] {
      assert Runs(steps[0], b) && !steps[0].alert;
      CheckLane(s, steps[0].buff, b, path, config);
      SilentWindow(AlgoStep(s, steps[0], b, config), steps[1..], b, path, config);
    }
  }

  /** Whether the video is open after an alert on this view, and its last id then. */
  predicate OpenAfter(view: View, v: Video, canOpen: bool)
    requires view.list != []
  {
    if view.Last().id > v.lastId then canOpen || (v.isOpen && v.date == view.Last().date) else v.isOpen
  }

  function LastAfter(view: View, v: Video): nat
    requires view.list != []
  {
    if view.Last().id > v.lastId then view.Last().id else v.lastId
  }

  /** The alert's own step, seen from one video. */
  lemma AlertStep(s: Lanes, a: Algo, b: nat, path: string, config: Config)
    requires Runs(a, b) && a.alert && path in config.paths
    ensures var t := AlgoStep(s, a, b, config);
            var v, w := Lane(s, b, path), Lane(t, b, path);
            && Tracked(t, b, path) && VideosOf(t, b).count == Counted(0, config.after)
            && Afters(w.log) == Afters(v.log)
            && (w.isOpen <==> OpenAfter(a.buff[b], v, (b, path) in a.canOpen))
            && w.lastId == LastAfter(a.buff[b], v)
  {
    var view, v := a.buff[b], Lane(s, b, path);
    AlertLane(s, a.buff, b, path, config, a.canOpen);
    RecordHasNoAfter(view, v, config, (b, path) in a.canOpen);
    if view.Last().id > v.lastId {
      RecordOpensExactly(view, v, config, (b, path) in a.canOpen);
    }
    CheckLane(OnBuffers(s, a.buff, [b], config, 0, a.canOpen), a.buff, b, path, config);
  }

  /** After an alert, doAlgo runs without another alert write at most
      mFrameAfterAlertToVideo - 1 after-alert frames, none in the alert's own step,
      and exactly that many when every step brings a new frame and the alert's file
      was open for its day or could be opened. */
  lemma AfterAlertWindow(s: Lanes, first: Algo, steps: seq<Algo>, b: nat, path: string, config: Config)
    requires Runs(first, b) && first.alert && path in config.paths
    requires (forall a :: a in steps ==> Runs(a, b)) && Quiet(steps)
    ensures var v := Lane(s, b, path);
            var t := AlgoRun(AlgoStep(s, first, b, config), steps, b, config);
            var written := Afters(Lane(t, b, path).log) - Afters(v.log);
            var bound := AtMost(|steps|, if config.after >= 1 then config.after - 1 else 0);
            && 0 <= written <= bound
            && (OpenAfter(first.buff[b], v, (b, path) in first.canOpen) && Fresh(steps, b, LastAfter(first.buff[b], v))
                ==> written == bound)
            && (!OpenAfter(first.buff[b], v, (b, path) in first.canOpen) ==> written == 0)
  {
    AlertStep(s, first, b, path, config);
    QuietWindow(AlgoStep(s, first, b, config), steps, b, path, config);
  }

  // ---- the writer object ----

  /** CFinalVideoWriter */
  class FinalVideoWriter {
    const config: Config
    var lanes: Lanes

    constructor (config: Config)
      ensures this.config == config && lanes == map[]
    {
      this.config := config;
      lanes := map[];
    }

    method OnAlert(buff: seq<View>, ids: seq<nat>, canOpen: set<(nat, string)>)
      modifies this`lanes
      ensures lanes == OnBuffers(old(lanes), buff, ids, config, 0, canOpen)
    {
      WriteVideo(buff, ids, 0, canOpen);
    }

    method OnWarning(buff: seq<View>, ids: seq<nat>, canOpen: set<(nat, string)>)
      modifies this`lanes
      ensures lanes == OnBuffers(old(lanes), buff, ids, config, -1, canOpen)
    {
      WriteVideo(buff, ids, -1, canOpen);
    }

    method WriteVideo(buff: seq<View>, ids: seq<nat>, newCount: int, canOpen: set<(nat, string)>)
      modifies this`lanes
      ensures lanes == OnBuffers(old(lanes), buff, ids, config, newCount, canOpen)
    {
      for n := 0 to |ids|
        invariant lanes == OnBuffers(old(lanes), buff, ids[..n], config, newCount, canOpen)
      {
        assert ids[..n + 1][..n] == ids[..n] && ids[..n + 1][n] == ids[n];
        var b := ids[n];
        if b < |buff| && buff[b].IsReady() {
          var vs := VideosOf(lanes, b);
          ghost var start, before := vs, lanes;
          for i := 0 to |config.paths|
            invariant lanes == before
            invariant vs == OnPaths(start, buff[b], b, config.paths[..i], config, newCount, canOpen)
          {
            assert config.paths[..i + 1][..i] == config.paths[..i];
            var path := config.paths[i];
            var v := VideoIn(vs, path);
            var last := buff[b].Last();
            if last.id > v.lastId {
              if !v.isOpen || v.date != last.date {
                v := v.(isOpen := false, date := last.date);
              }
              v := WriteFinalVideo(buff[b], v, (b, path) in canOpen);
              v := v.(lastId := last.id);
            }
            vs := Videos(vs.byPath[path := v], if newCount >= 0 then newCount else vs.count);
          }
          assert config.paths[..|config.paths|] == config.paths;
          assert vs == OnPaths(start, buff[b], b, config.paths, config, newCount, canOpen);
          if config.paths != [] {
            lanes := lanes[b := vs];
          }
        }
      }
      assert ids[..|ids|] == ids;
    }

    method WriteFinalVideo(view: View, v: Video, canOpen: bool) returns (r: Video)
      requires view.list != []
      ensures r == WriteFinal(view, v, config, canOpen)
    {
      r := v;
      if !r.isOpen {
        if !canOpen {
          return;
        }
        r := r.(isOpen := true);
      }
      ghost var log := r.log;
      var imageId := |view.list| - config.before;
      var fromLong := [];
      if imageId < 0 {
        var longId := |view.longList| + imageId;
        if longId < 0 {
          fromLong := CopyNewer(view.longList, 0, v.lastId, true);
        }
        imageId := 0;
      }
      var previous := CopyNewer(view.list, imageId, v.lastId, false);
      assert Before(view, config.before, v.lastId) ==
             (if |view.list| < config.before then fromLong + previous else previous);
      assert [] + previous == previous;
      r := r.(log := r.log + (fromLong + previous) + [Current(view.Last().id)]);
      if config.writeMask {
        r := r.(log := r.log + [Info(view.Last().id)]);
      }
    }

    /** The two copy loops of writeFinalVideo: all but the newest shot. */
    method CopyNewer(shots: seq<Shot>, from: nat, lastId: nat, long: bool) returns (es: seq<Entry>)
      ensures es == Newer(shots, from, |shots| - 1, lastId, long)
    {
      es := [];
      var i := from;
      while i < |shots| - 1
        invariant from <= i && (i <= |shots| - 1 || i == from)
        invariant i <= |shots| - 1 ==> es == Newer(shots, from, i, lastId, long)
        invariant i > |shots| - 1 ==> es == []
      {
        if shots[i].id > lastId {
          es := es + [if long then FromLong(shots[i].id) else Prev(shots[i].id)];
        }
        i := i + 1;
      }
    }

    method CheckAndSendReply(buff: seq<View>, ids: seq<nat>)
      requires Checkable(lanes, buff, ids)
      modifies this`lanes
      ensures lanes == OnCheck(old(lanes), buff, ids, config)
    {
      if config.paths == [] {
        return;
      }
      for n := 0 to |ids|
        invariant lanes == OnCheck(old(lanes), buff, ids[..n], config)
        invariant forall i :: n <= i < |ids| ==> ids[i] < |buff| || VideosOf(lanes, ids[i]).count < 0
      {
        assert ids[..n + 1][..n] == ids[..n];
        var b := ids[n];
        var vs := VideosOf(lanes, b);
        if vs.count >= 0 {
          var count := vs.count + 1;
          if count >= config.after {
            count := -1;
          }
          var written := WriteAfter(vs.byPath, buff[b]);
          vs := Videos(written, count);
        }
        lanes := lanes[b := vs];
      }
      assert ids[..|ids|] == ids;
    }

    /** The loop over the videos of one buffer. */
    method WriteAfter(byPath: map<string, Video>, view: View) returns (r: map<string, Video>)
      ensures r == map path | path in byPath :: RecordAfter(view, byPath[path])
    {
      r := byPath;
      var left := byPath.Keys;
      while left != {}
        invariant left <= byPath.Keys && r.Keys == byPath.Keys
        invariant forall path :: path in r ==>
                    r[path] == if path in left then byPath[path] else RecordAfter(view, byPath[path])
        decreases left
      {
        var path :| path in left;
        left := left - {path};
        var v := r[path];
        if view.IsReady() && view.Last().id > v.lastId {
          if v.isOpen {
            v := v.(log := v.log + [After(view.Last().id)]);
          }
          v := v.(lastId := view.Last().id);
        }
        r := r[path := v];
      }
    }
  }
}
