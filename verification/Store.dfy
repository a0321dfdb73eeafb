// The frame store of one camera: the live ring, its snapshots and the lockers,
// as a state machine over the public calls, and what holds in every state.

module FrameStore {
  import opened Pictures
  import opened Frames
  import opened Rings
  import opened Arithmetic

  /** frames, live, snaps and locks are the program's state. pics (the picture
      each push brought), clears (how many pushes had happened at each clear)
      and phase (longId at the last clear) record history for the statements. */
  datatype Store = Store(frames: seq<FrameState>, live: RingState, snaps: map<nat, RingState>,
                         nextSnap: nat, locks: multiset<nat>,
                         pics: seq<Picture>, clears: seq<nat>, phase: nat)

  datatype Event =
    | Push(picture: Picture, scale: real, netScale: real, stamp: string, id: nat)
    | Clear
    | Snapshot               // copy of the live buffer
    | Resnapshot(of: nat)    // copy of a copy
    | Drop(snap: nat)        // a copy is destroyed
    | Lock(frame: nat)
    | Unlock(frame: nat)
    | ReadPicture(frame: nat, t: ImageType)

  function NewStore(size: int, longSize: int, skip: int): Store {
    Store([], NewRing(size, longSize, skip), map[], 0, multiset{}, [], [], 0)
  }

  /** Only non-empty pictures are pushed, copies and lockers are released once. */
  predicate Enabled(s: Store, e: Event) {
    match e
    case Push(p, _, _, _, _) => !IsEmpty(p)
    case Clear => true
    case Snapshot => InRange(s.live.list, |s.frames|)
    case Resnapshot(x) => x in s.snaps && InRange(s.snaps[x].list, |s.frames|)
    case Drop(x) => x in s.snaps && InRange(s.snaps[x].list, |s.frames|)
    case Lock(k) => k < |s.frames|
    case Unlock(k) => k < |s.frames| && k in s.locks
    case ReadPicture(k, _) => k < |s.frames|
  }

  function Copied(s: Store, r: RingState): Store
    requires InRange(r.list, |s.frames|)
  {
    s.(frames := PinNewest(s.frames, r.list, true, |r.list|),
       snaps := s.snaps[s.nextSnap := r], nextSnap := s.nextSnap + 1)
  }

  function PushOn(s: Store, f: FrameState): Store
    requires InRange(s.live.list, |s.frames|)
  {
    var k := |s.frames|;
    s.(frames := Released(s.frames + [f], s.live, k), live := Pushed(s.live, k),
       pics := s.pics + [f.mats.rgbFull])
  }

  function After(s: Store, e: Event): Store
    requires Enabled(s, e) && InRange(s.live.list, |s.frames|)
  {
    match e
    case Push(p, scale, netScale, stamp, id) => PushOn(s, NewFrame(p, scale, netScale, stamp, id))
    case Clear => s.(live := Emptied(s.live), clears := s.clears + [|s.frames|], phase := s.live.longId)
    case Snapshot => Copied(s, s.live)
    case Resnapshot(x) => Copied(s, s.snaps[x])
    case Drop(x) => s.(frames := PinNewest(s.frames, s.snaps[x].list, false, |s.snaps[x].list|),
                       snaps := s.snaps - {x})
    case Lock(k) => s.(frames := s.frames[k := Increase(s.frames[k])], locks := s.locks + multiset{k})
    case Unlock(k) => s.(frames := s.frames[k := Decrease(s.frames[k])], locks := s.locks - multiset{k})
    case ReadPicture(k, t) => s.(frames := s.frames[k := Read(s.frames[k], t).0])
  }

  // ---- closed forms ----

  /** Pushes before the last clear at or before frame k. */
  function EpochStart(clears: seq<nat>, k: nat): nat {
    if clears == [] then 0
    else if clears[|clears| - 1] <= k then clears[|clears| - 1]
    else EpochStart(clears[..|clears| - 1], k)
  }

  /** Pushes up to the first clear after frame k, or all n of them. */
  function EpochEnd(clears: seq<nat>, k: nat, n: nat): nat {
    if clears == [] || clears[|clears| - 1] <= k then n
    else EpochEnd(clears[..|clears| - 1], k, clears[|clears| - 1])
  }

  function Capacity(size: int): nat { if size < 0 then 0 else size }

  /** The claim the ring itself has left on frame k. With T pushes between the
      clears around it and i of them before it: one, less the early release of
      the fourth newest frame, less the eviction. */
  function Base(size: int, clears: seq<nat>, n: nat, k: nat): int {
    var i := k - EpochStart(clears, k);
    var T := EpochEnd(clears, k, n) - EpochStart(clears, k);
    1 - (if size >= 5 && 1 <= i <= T - 4 then 1 else 0) - (if i < T - Capacity(size) then 1 else 0)
  }

  function Claim(s: Store, k: nat): int { Base(s.live.maxSize, s.clears, |s.frames|, k) }

  function LastClear(clears: seq<nat>): nat { if clears == [] then 0 else clears[|clears| - 1] }

  function Range(lo: nat, hi: nat): (r: seq<nat>)
    requires lo <= hi
  {
    seq(hi - lo, i requires 0 <= i < hi - lo => lo + i)
  }

  /** Evictions since the last clear, which start pushes came before. */
  function EvictionsAt(size: int, start: nat, n: nat): nat {
    if n - start < Capacity(size) then 0 else n - start - Capacity(size)
  }

  function Evictions(s: Store): nat { EvictionsAt(s.live.maxSize, LastClear(s.clears), |s.frames|) }

  /** Which evictions the long list samples: the first L, then every S-th. */
  predicate Kept(L: int, S: int, phase: nat, e: nat) {
    e < L || (L > 0 && S > 0 && Divides(S, phase + e))
  }

  function KeptBelow(L: int, S: int, phase: nat, E: nat): seq<nat> {
    if E == 0 then []
    else
      var r := KeptBelow(L, S, phase, E - 1);
      if Kept(L, S, phase, E - 1) then r + [E - 1] else r
  }

  function LastOf(r: seq<nat>, L: int): seq<nat> {
    if |r| <= L then r else if L <= 0 then [] else r[|r| - L..]
  }

  function Shift(r: seq<nat>, offset: nat): (t: seq<nat>)
    ensures |t| == |r| && forall i :: 0 <= i < |r| ==> t[i] == r[i] + offset
  {
    seq(|r|, i requires 0 <= i < |r| => r[i] + offset)
  }

  // ---- the invariant ----

  predicate History(s: Store) {
    && |s.pics| == |s.frames|
    && (forall i :: 0 <= i < |s.clears| ==> s.clears[i] <= |s.frames|)
    && (forall i, j :: 0 <= i < j < |s.clears| ==> s.clears[i] <= s.clears[j])
    && (forall k :: k in s.locks ==> k < |s.frames|)
  }

  /** The long list that the closed form asks for after E evictions. */
  function LongAfter(L: int, S: int, phase: nat, start: nat, E: nat): seq<nat> {
    Shift(LastOf(KeptBelow(L, S, phase, E), L), start)
  }

  /** The closed form of a ring that has seen n pushes, start of them before the
      last clear, and E evictions since. */
  predicate RingShape(r: RingState, start: nat, n: nat, E: nat, phase: nat) {
    && start + E <= n
    && r.list == Range(start + E, n)
    && r.longList == LongAfter(r.maxLongSize, r.skip, phase, start, E)
    && r.longId == phase + if r.Samples() then E else 0
  }

  /** The two lists are exactly what the pushes since the last clear determine. */
  predicate LiveShape(s: Store)
    requires History(s)
  {
    RingShape(s.live, LastClear(s.clears), |s.frames|, Evictions(s), s.phase)
  }

  predicate Increasing(ids: seq<nat>) { forall i, j :: 0 <= i < j < |ids| ==> ids[i] < ids[j] }

  predicate SnapshotShape(r: RingState, n: nat) {
    InRange(r.list, n) && Increasing(r.longList + r.list) && InRange(r.longList, n)
  }

  predicate SnapshotShapes(s: Store) {
    && (forall x :: x in s.snaps ==> SnapshotShape(s.snaps[x], |s.frames|))
    && (forall x :: x in s.snaps ==> x < s.nextSnap)
  }

  /** Frame k's counter is the ring's remaining claim plus the live lockers. */
  predicate Accounted(s: Store, k: nat)
    requires k < |s.frames|
  {
    s.frames[k].counter == Claim(s, k) + s.locks[k]
  }

  /** Frame k still has its picture: the raw one it was pushed with, never
      encoded, or the JPEG of exactly that picture, no raw one and no derived one. */
  predicate Pictured(s: Store, k: nat)
    requires k < |s.frames| && |s.pics| == |s.frames|
  {
    !IsEmpty(s.pics[k]) && HasPicture(s.frames[k], s.pics[k])
  }

  predicate HasPicture(f: FrameState, p: Picture) {
    if f.buffer.NoJpeg? then f.mats.rgbFull == p
    else f.buffer == Encoded(p, JPEG_QUALITY) && f.mats.rgbFull == NoPicture && Underived(f)
  }

  /** Raw pixels are held only by claims, and the ring's full claim keeps them. */
  predicate Held(s: Store, k: nat)
    requires k < |s.frames|
  {
    (IsRaw(s.frames[k]) ==> s.frames[k].counter >= 1) && (Claim(s, k) == 1 ==> IsRaw(s.frames[k]))
  }

  predicate FrameOk(s: Store, k: nat)
    requires k < |s.frames| && |s.pics| == |s.frames|
  {
    Accounted(s, k) && Pictured(s, k) && Held(s, k)
  }

  predicate Inv(s: Store) {
    History(s) && LiveShape(s) && SnapshotShapes(s) && forall k :: 0 <= k < |s.frames| ==> FrameOk(s, k)
  }

  // ---- the pinning loop never runs ----

  /** Its guard is false for the first index, so however many rounds it is
      given, copying or destroying a buffer changes no counter. */
  lemma PinLoopIsDead(fs: seq<FrameState>, list: seq<nat>, pin: bool, fuel: nat)
    requires InRange(list, |fs|)
    ensures PinNewest(fs, list, pin, fuel) == fs
  {
  }

  // ---- steps ----

  lemma EpochsOnPush(clears: seq<nat>, n: nat, k: nat)
    requires forall i, j :: 0 <= i < j < |clears| ==> clears[i] <= clears[j]
    ensures k >= LastClear(clears) ==> EpochStart(clears, k) == LastClear(clears) && EpochEnd(clears, k, n) == n
    ensures k < LastClear(clears) ==> EpochEnd(clears, k, n) == EpochEnd(clears, k, n + 1)
  {
  }

  /** Which frames a push takes a claim from. */
  predicate Evicts(s: Store, k: nat) {
    var T := |s.frames| - LastClear(s.clears);
    T >= Capacity(s.live.maxSize) && k == |s.frames| - Capacity(s.live.maxSize)
  }

  predicate ReleasesEarly(s: Store, k: nat) {
    s.live.maxSize >= 5 && |s.frames| - LastClear(s.clears) >= 4 && k == |s.frames| - 3
  }

  lemma ReleasedFrames(s: Store, f: FrameState)
    requires History(s) && LiveShape(s)
    ensures var gs := Released(s.frames + [f], s.live, |s.frames|);
            |gs| == |s.frames| + 1 &&
            forall k :: 0 <= k < |gs| ==>
              gs[k] == if Evicts(s, k) || ReleasesEarly(s, k)
                       then Decrease((s.frames + [f])[k]) else (s.frames + [f])[k]
  {
    var n := |s.frames|;
    var M := Capacity(s.live.maxSize);
    var list := s.live.list + [n];
    assert |list| > s.live.maxSize <==> n - LastClear(s.clears) >= M;
    if |list| > s.live.maxSize {
      assert list[0] == n - M;
    }
    var kept := Pushed(s.live, n).list;
    assert |kept| > 4 <==> s.live.maxSize >= 5 && n - LastClear(s.clears) >= 4;
    if |kept| > 4 {
      assert kept[|kept| - 4] == n - 3;
    }
  }

  /** How a push changes the ring's claims: by one, for exactly those frames. */
  lemma ClaimsOnPush(s: Store, k: nat)
    requires History(s) && k < |s.frames|
    ensures Base(s.live.maxSize, s.clears, |s.frames| + 1, k) == Claim(s, k)
            - (if Evicts(s, k) then 1 else 0) - (if ReleasesEarly(s, k) then 1 else 0)
    ensures !(Evicts(s, k) && ReleasesEarly(s, k))
  {
    EpochsOnPush(s.clears, |s.frames|, k);
    EpochsOnPush(s.clears, |s.frames| + 1, k);
    EpochWithin(s.clears, |s.frames|, k);
  }

  lemma EpochWithin(clears: seq<nat>, n: nat, k: nat)
    requires forall i, j :: 0 <= i < j < |clears| ==> clears[i] <= clears[j]
    requires forall i :: 0 <= i < |clears| ==> clears[i] <= n
    requires k < n
    ensures EpochStart(clears, k) <= k < EpochEnd(clears, k, n) <= n
    ensures k < LastClear(clears) ==> EpochEnd(clears, k, n) <= LastClear(clears)
  {
  }

  lemma {:induction false} KeptCount(L: int, S: int, phase: nat, E: nat)
    ensures |KeptBelow(L, S, phase, E)| <= E
    ensures E <= L ==> |KeptBelow(L, S, phase, E)| == E
    ensures E >= L ==> |KeptBelow(L, S, phase, E)| >= L
    ensures L <= 0 ==> KeptBelow(L, S, phase, E) == []
  {
    if E > 0 { KeptCount(L, S, phase, E - 1); }
  }

  /** Entering the long list commutes with cutting the kept evictions to size. */
  lemma EvictToLast(kept: seq<nat>, L: int, start: nat, e: nat)
    requires L > 0
    ensures EvictTo(Shift(LastOf(kept, L), start), L, start + e) == Shift(LastOf(kept + [e], L), start)
  {
    var last, next := LastOf(kept, L), LastOf(kept + [e], L);
    assert next == if |kept| < L then last + [e] else last[1..] + [e];
    assert Shift(last, start) + [start + e] == Shift(last + [e], start);
  }

  /** What push_back does to the long list for eviction number E. */
  lemma LongOnEvict(L: int, S: int, phase: nat, start: nat, E: nat)
    requires L > 0
    ensures var long := LongAfter(L, S, phase, start, E);
            LongAfter(L, S, phase, start, E + 1) ==
            if Enters(L, S, phase, E, |long|) then EvictTo(long, L, start + E) else long
  {
    KeptCount(L, S, phase, E);
    EvictToLast(KeptBelow(L, S, phase, E), L, start, E);
  }

  lemma RangeOnEvict(lo: nat, n: nat)
    requires lo <= n
    ensures (Range(lo, n) + [n])[0] == lo && (Range(lo, n) + [n])[1..] == Range(lo + 1, n + 1)
  {
  }

  lemma RingOnEvict(r: RingState, start: nat, n: nat, E: nat, phase: nat)
    requires RingShape(r, start, n, E, phase)
    ensures RingShape(Evicted(r.(list := r.list + [n])), start, n + 1, E + 1, phase)
  {
    var grown := r.(list := r.list + [n]);
    var t := Evicted(grown);
    assert grown.list[0] == start + E && t.list == Range(start + E + 1, n + 1) by {
      RangeOnEvict(start + E, n);
    }
    assert t.longList == LongAfter(r.maxLongSize, r.skip, phase, start, E + 1) by {
      LongListOnEvict(grown, start, E, phase);
    }
    EvictedCounts(grown);
  }

  lemma EvictedCounts(r: RingState)
    requires |r.list| > 0
    ensures var t := Evicted(r);
            && t.maxSize == r.maxSize && t.maxLongSize == r.maxLongSize && t.skip == r.skip
            && t.longId == r.longId + if r.Samples() then 1 else 0
  {
  }

  lemma NoLongList(L: int, S: int, phase: nat, start: nat, E: nat)
    requires L <= 0
    ensures LongAfter(L, S, phase, start, E) == []
  {
    KeptCount(L, S, phase, E);
  }

  /** Which evictions enter the long list, read from its closed form. */
  predicate Enters(L: int, S: int, phase: nat, E: nat, size: nat) {
    (S > 0 && Divides(S, phase + E)) || size < L
  }

  lemma EvictedLong(r: RingState, E: nat, phase: nat)
    requires |r.list| > 0 && r.maxLongSize > 0 && r.longId == phase + if r.Samples() then E else 0
    ensures Evicted(r).longList ==
            if Enters(r.maxLongSize, r.skip, phase, E, |r.longList|) then EvictTo(r.longList, r.maxLongSize, r.list[0])
            else r.longList
  {
  }

  lemma LongListOnEvict(r: RingState, start: nat, E: nat, phase: nat)
    requires |r.list| > 0 && r.list[0] == start + E
    requires r.longList == LongAfter(r.maxLongSize, r.skip, phase, start, E)
    requires r.longId == phase + if r.Samples() then E else 0
    ensures Evicted(r).longList == LongAfter(r.maxLongSize, r.skip, phase, start, E + 1)
  {
    if r.maxLongSize > 0 {
      EvictedLong(r, E, phase);
      LongOnEvict(r.maxLongSize, r.skip, phase, start, E);
    } else {
      NoLongList(r.maxLongSize, r.skip, phase, start, E);
      NoLongList(r.maxLongSize, r.skip, phase, start, E + 1);
    }
  }

  lemma LiveOnPush(s: Store, f: FrameState)
    requires History(s) && LiveShape(s)
    ensures History(PushOn(s, f)) && LiveShape(PushOn(s, f))
  {
    HistoryOnPush(s, f);
    RingOnPush(s.live, LastClear(s.clears), |s.frames|, s.phase);
  }

  lemma HistoryOnPush(s: Store, f: FrameState)
    requires History(s) && InRange(s.live.list, |s.frames|)
    ensures History(PushOn(s, f)) && |PushOn(s, f).frames| == |s.frames| + 1
  {
  }

  lemma RingOnPush(r: RingState, start: nat, n: nat, phase: nat)
    requires start <= n && RingShape(r, start, n, EvictionsAt(r.maxSize, start, n), phase)
    ensures Pushed(r, n).maxSize == r.maxSize
    ensures RingShape(Pushed(r, n), start, n + 1, EvictionsAt(r.maxSize, start, n + 1), phase)
  {
    if n - start < Capacity(r.maxSize) {
      assert r.list + [n] == Range(start, n + 1);
    } else {
      RingOnEvict(r, start, n, EvictionsAt(r.maxSize, start, n), phase);
      EvictedCounts(r.(list := r.list + [n]));
    }
  }

  lemma {:induction false} KeptOrdered(L: int, S: int, phase: nat, E: nat)
    ensures var r := KeptBelow(L, S, phase, E);
            Increasing(r) && forall i :: 0 <= i < |r| ==> r[i] < E && Kept(L, S, phase, r[i])
  {
    if E > 0 { KeptOrdered(L, S, phase, E - 1); }
  }

  /** mLongList ++ mList is strictly ordered by push order. */
  lemma LiveOrdered(s: Store)
    requires History(s) && LiveShape(s)
    ensures SnapshotShape(s.live, |s.frames|)
  {
    KeptOrdered(s.live.maxLongSize, s.live.skip, s.phase, Evictions(s));
  }

  // ---- one step keeps the invariant ----

  lemma DecreaseKeepsPicture(f: FrameState, p: Picture)
    requires HasPicture(f, p) && !IsEmpty(p) && (IsRaw(f) ==> f.counter >= 1)
    ensures var g := Decrease(f);
            && HasPicture(g, p) && g.counter == f.counter - 1
            && (IsRaw(g) <==> IsRaw(f) && g.counter >= 1)
  {
  }

  lemma PushKeepsOld(s: Store, f: FrameState, k: nat)
    requires Inv(s) && k < |s.frames| && |PushOn(s, f).frames| == |s.frames| + 1
    requires PushOn(s, f).frames[k] == if Evicts(s, k) || ReleasesEarly(s, k) then Decrease(s.frames[k]) else s.frames[k]
    ensures FrameOk(PushOn(s, f), k)
  {
    assert FrameOk(s, k);
    ClaimsOnPush(s, k);
    assert Claim(PushOn(s, f), k) == Base(s.live.maxSize, s.clears, |s.frames| + 1, k);
    if Evicts(s, k) || ReleasesEarly(s, k) {
      DecreaseKeepsPicture(s.frames[k], s.pics[k]);
    }
  }

  lemma PushKeepsFrame(s: Store, f: FrameState, k: nat)
    requires Inv(s) && k <= |s.frames|
    requires !IsEmpty(f.mats.rgbFull) && f.counter == 1 && f.buffer.NoJpeg?
    requires |PushOn(s, f).frames| == |s.frames| + 1
    ensures FrameOk(PushOn(s, f), k)
  {
    ReleasedFrames(s, f);
    if k < |s.frames| {
      PushKeepsOld(s, f, k);
    } else {
      EpochsOnPush(s.clears, k + 1, k);
    }
  }

  lemma PushKeepsInv(s: Store, f: FrameState)
    requires Inv(s) && !IsEmpty(f.mats.rgbFull) && f.counter == 1 && f.buffer.NoJpeg?
    ensures Inv(PushOn(s, f))
  {
    LiveOnPush(s, f);
    forall k | 0 <= k < |PushOn(s, f).frames| ensures FrameOk(PushOn(s, f), k) {
      PushKeepsFrame(s, f, k);
    }
  }

  lemma CopyKeepsInv(s: Store, r: RingState)
    requires Inv(s) && SnapshotShape(r, |s.frames|)
    ensures Inv(Copied(s, r)) && Copied(s, r).frames == s.frames
  {
    PinLoopIsDead(s.frames, r.list, true, |r.list|);
    var t := Copied(s, r);
    forall k | 0 <= k < |t.frames| ensures FrameOk(t, k) {
      assert FrameOk(s, k);
    }
  }

  lemma DropKeepsInv(s: Store, x: nat)
    requires Inv(s) && x in s.snaps
    ensures Inv(After(s, Drop(x))) && After(s, Drop(x)).frames == s.frames
  {
    PinLoopIsDead(s.frames, s.snaps[x].list, false, |s.snaps[x].list|);
    FramesKept(s, After(s, Drop(x)), |s.frames|);
  }

  lemma ClearKeepsInv(s: Store)
    requires Inv(s)
    ensures Inv(After(s, Clear))
  {
    var t := After(s, Clear);
    assert KeptBelow(t.live.maxLongSize, t.live.skip, t.phase, 0) == [];
    FramesKept(s, t, |s.frames|);
  }

  /** A step on one frame's counter or cache. */
  lemma TouchKeepsInv(s: Store, e: Event, k: nat)
    requires Inv(s) && Enabled(s, e)
    requires e == Lock(k) || e == Unlock(k) || (e.ReadPicture? && e.frame == k)
    ensures Inv(After(s, e))
  {
    var t := After(s, e);
    FramesKept(s, t, k);
    assert FrameOk(s, k);
    if e.ReadPicture? {
      ReadKeeps(s.frames[k], e.t);
    }
    assert FrameOk(t, k);
  }

  /** Every call keeps the invariant. */
  lemma StepKeepsInv(s: Store, e: Event)
    requires Inv(s) && Enabled(s, e)
    ensures Inv(After(s, e))
  {
    match e
    case Push(p, scale, netScale, stamp, id) =>
      PushKeepsInv(s, NewFrame(p, scale, netScale, stamp, id));
    case Snapshot =>
      LiveOrdered(s);
      CopyKeepsInv(s, s.live);
    case Resnapshot(x) => CopyKeepsInv(s, s.snaps[x]);
    case Drop(x) => DropKeepsInv(s, x);
    case Clear => ClearKeepsInv(s);
    case Lock(k) => TouchKeepsInv(s, e, k);
    case Unlock(k) => TouchKeepsInv(s, e, k);
    case ReadPicture(k, _) => TouchKeepsInv(s, e, k);
  }

  /** Frames other than k that a step leaves alone stay as they should be. */
  lemma FramesKept(s: Store, t: Store, k: nat)
    requires Inv(s) && |t.frames| == |s.frames| && t.pics == s.pics
    requires t.live.maxSize == s.live.maxSize
    requires t.clears == s.clears || t.clears == s.clears + [|s.frames|]
    requires forall j :: 0 <= j < |s.frames| && j != k ==> t.frames[j] == s.frames[j] && t.locks[j] == s.locks[j]
    ensures forall j :: 0 <= j < |t.frames| && j != k ==> FrameOk(t, j)
    ensures forall j :: 0 <= j < |t.frames| ==> Claim(t, j) == Claim(s, j)
  {
    forall j | 0 <= j < |t.frames|
      ensures Claim(t, j) == Claim(s, j) && (j != k ==> FrameOk(t, j))
    {
      assert FrameOk(s, j);
      if t.clears != s.clears {
        assert t.clears[..|t.clears| - 1] == s.clears;
      }
    }
  }

  // ---- whole runs ----

  predicate Possible(s: Store, es: seq<Event>)
    requires Inv(s)
    decreases |es|
  {
    es == [] || (Enabled(s, es[0]) && (StepKeepsInv(s, es[0]); Possible(After(s, es[0]), es[1..])))
  }

  function Run(s: Store, es: seq<Event>): (t: Store)
    requires Inv(s) && Possible(s, es)
    ensures Inv(t)
    decreases |es|
  {
    if es == [] then s else StepKeepsInv(s, es[0]); Run(After(s, es[0]), es[1..])
  }

  lemma NewStoreInv(size: int, longSize: int, skip: int)
    ensures Inv(NewStore(size, longSize, skip))
  {
    assert KeptBelow(longSize, skip, 0, 0) == [];
  }

  // ---- counter accounting ----

  /** After any run every counter is the ring's claim plus the live lockers, and
      live snapshots contribute nothing. */
  lemma CounterAccounting(size: int, longSize: int, skip: int, es: seq<Event>, k: nat)
    requires Inv(NewStore(size, longSize, skip)) && Possible(NewStore(size, longSize, skip), es)
    requires k < |Run(NewStore(size, longSize, skip), es).frames|
    ensures var t := Run(NewStore(size, longSize, skip), es);
            t.frames[k].counter == Base(size, t.clears, |t.frames|, k) + t.locks[k]
  {
    RunKeepsSize(NewStore(size, longSize, skip), es);
    assert FrameOk(Run(NewStore(size, longSize, skip), es), k);
  }

  predicate SameSizes(r: RingState, t: RingState) {
    r.maxSize == t.maxSize && r.maxLongSize == t.maxLongSize && r.skip == t.skip
  }

  lemma {:induction false} RunKeepsSize(s: Store, es: seq<Event>)
    requires Inv(s) && Possible(s, es)
    ensures SameSizes(s.live, Run(s, es).live)
    ensures |Run(s, es).frames| >= |s.frames| && |Run(s, es).pics| >= |s.pics|
    ensures s.pics <= Run(s, es).pics
    decreases |es|
  {
    if es != [] {
      StepKeepsInv(s, es[0]);
      StepGrows(s, es[0]);
      RunKeepsSize(After(s, es[0]), es[1..]);
    }
  }

  lemma StepGrows(s: Store, e: Event)
    requires Inv(s) && Enabled(s, e)
    ensures SameSizes(s.live, After(s, e).live)
    ensures |After(s, e).frames| == |s.frames| + if e.Push? then 1 else 0
    ensures s.pics <= After(s, e).pics
  {
    StepKeepsInv(s, e);
  }

  /** The live snapshots that hold frame k among their newest three. */
  function Holders(s: Store, k: nat): set<nat> {
    set x | x in s.snaps && k in s.snaps[x].Newest()
  }

  /** The accounting the copy constructor was written for: each snapshot pins its
      newest three frames. It holds of a frame exactly when no snapshot holds it. */
  lemma IntendedAccountingExactlyUnheld(s: Store, k: nat)
    requires Inv(s) && k < |s.frames|
    ensures s.frames[k].counter == Claim(s, k) + |Holders(s, k)| + s.locks[k] <==> Holders(s, k) == {}
  {
    assert FrameOk(s, k);
  }

  // ---- raw pixels ----

  lemma ClaimsOnStep(s: Store, e: Event, k: nat)
    requires Inv(s) && Enabled(s, e) && k < |s.frames|
    ensures |After(s, e).frames| >= |s.frames|
    ensures Claim(After(s, e), k) <= Claim(s, k)
    ensures !e.Push? ==> Claim(After(s, e), k) == Claim(s, k)
  {
    StepGrows(s, e);
    match e
    case Push(_, _, _, _, _) => ClaimsOnPush(s, k);
    case Clear => FramesKept(s, After(s, e), |s.frames|);
    case _ =>
  }

  /** What one call can do to one frame. */
  predicate FrameStep(f: FrameState, g: FrameState) {
    g == f || g == Increase(f) || g == Decrease(f) || exists t :: g == Read(f, t).0
  }

  lemma RawByCounter(f: FrameState, g: FrameState)
    requires FrameStep(f, g) && (IsRaw(f) ==> f.counter >= 1)
    ensures IsRaw(g) <==> IsRaw(f) && g.counter >= 1
  {
    if t :| g == Read(f, t).0 {
      ReadKeeps(f, t);
    }
  }

  lemma StepOnFrame(s: Store, e: Event, k: nat)
    requires Inv(s) && Enabled(s, e) && k < |s.frames| <= |After(s, e).frames|
    ensures FrameStep(s.frames[k], After(s, e).frames[k])
  {
    match e {
      case Push(p, scale, netScale, stamp, id) => ReleasedFrames(s, NewFrame(p, scale, netScale, stamp, id));
      case Snapshot => PinLoopIsDead(s.frames, s.live.list, true, |s.live.list|);
      case Resnapshot(x) => PinLoopIsDead(s.frames, s.snaps[x].list, true, |s.snaps[x].list|);
      case Drop(x) => PinLoopIsDead(s.frames, s.snaps[x].list, false, |s.snaps[x].list|);
      case _ =>
    }
  }

  /** A raw frame stays raw through a step exactly when a claim or a locker is
      left on it afterwards; a frame that lost its raw pixels never gets them back. */
  lemma RawAfterStep(s: Store, e: Event, k: nat)
    requires Inv(s) && Enabled(s, e) && k < |s.frames|
    ensures k < |After(s, e).frames|
    ensures IsRaw(After(s, e).frames[k]) <==>
            IsRaw(s.frames[k]) && Claim(After(s, e), k) + After(s, e).locks[k] >= 1
  {
    StepGrows(s, e);
    StepOnFrame(s, e, k);
    assert FrameOk(s, k);
    StepKeepsInv(s, e);
    assert FrameOk(After(s, e), k);
    RawByCounter(s.frames[k], After(s, e).frames[k]);
  }

  /** Every state along the run leaves a claim or a locker on frame k. */
  predicate ClaimedThroughout(s: Store, es: seq<Event>, k: nat)
    requires Inv(s) && Possible(s, es)
    decreases |es|
  {
    es == [] ||
    (StepKeepsInv(s, es[0]);
     var t := After(s, es[0]);
     Claim(t, k) + t.locks[k] >= 1 && ClaimedThroughout(t, es[1..], k))
  }

  /** Over any run, raw pixels survive exactly while claimed or locked. */
  lemma {:induction false} RawExactlyWhileClaimed(s: Store, es: seq<Event>, k: nat)
    requires Inv(s) && Possible(s, es) && k < |s.frames|
    ensures k < |Run(s, es).frames|
    ensures IsRaw(Run(s, es).frames[k]) <==> IsRaw(s.frames[k]) && ClaimedThroughout(s, es, k)
    decreases |es|
  {
    if es != [] {
      StepKeepsInv(s, es[0]);
      RawAfterStep(s, es[0], k);
      RawExactlyWhileClaimed(After(s, es[0]), es[1..], k);
    }
  }

  /** When the ring has let go of a frame twice: the early release and the eviction,
      which both come only in a ring of five or more, and not to the first push
      after a clear. */
  lemma ClaimOverdrawnExactly(s: Store, k: nat)
    requires Inv(s) && k < |s.frames|
    ensures Claim(s, k) < 0 <==>
            s.live.maxSize >= 5 && k > EpochStart(s.clears, k)
            && EpochEnd(s.clears, k, |s.frames|) - k > s.live.maxSize
  {
    EpochWithin(s.clears, |s.frames|, k);
  }

  /** Somebody holds a locker on frame k in every state along the run. */
  predicate LockedThroughout(s: Store, es: seq<Event>, k: nat)
    requires Inv(s) && Possible(s, es)
    decreases |es|
  {
    s.locks[k] >= 1 &&
    (es == [] || (StepKeepsInv(s, es[0]); LockedThroughout(After(s, es[0]), es[1..], k)))
  }

  /** In some state along the run the ring has let go twice, and there is only one
      locker to make up for it. */
  predicate LosesLock(s: Store, es: seq<Event>, k: nat)
    requires Inv(s) && Possible(s, es)
    decreases |es|
  {
    || (Claim(s, k) < 0 && s.locks[k] == 1)
    || (es != [] && (StepKeepsInv(s, es[0]); LosesLock(After(s, es[0]), es[1..], k)))
  }

  /** A raw frame that is always locked by somebody, not always by the same one,
      stays raw exactly unless the ring lets go of it twice while there is only one
      locker: then it is cleared under the locker's hands. */
  lemma {:induction false} LockedFrameStaysRaw(s: Store, es: seq<Event>, k: nat)
    requires Inv(s) && Possible(s, es) && k < |s.frames| && IsRaw(s.frames[k]) && LockedThroughout(s, es, k)
    ensures k < |Run(s, es).frames|
    ensures IsRaw(Run(s, es).frames[k]) <==> !LosesLock(s, es, k)
    decreases |es|
  {
    LockedState(s, k);
    if es != [] {
      StepKeepsInv(s, es[0]);
      RawAfterStep(s, es[0], k);
      var t := After(s, es[0]);
      LockedState(t, k);
      if IsRaw(t.frames[k]) {
        LockedFrameStaysRaw(t, es[1..], k);
      } else {
        RawExactlyWhileClaimed(t, es[1..], k);
      }
    }
  }

  /** A locked frame is claimed or locked enough unless its only locker faces a
      ring that has let go twice. */
  lemma LockedState(s: Store, k: nat)
    requires Inv(s) && k < |s.frames| && s.locks[k] >= 1
    ensures Claim(s, k) + s.locks[k] >= 1 <==> !(Claim(s, k) < 0 && s.locks[k] == 1)
    ensures IsRaw(s.frames[k]) ==> Claim(s, k) + s.locks[k] >= 1
  {
    assert FrameOk(s, k);
  }

  /** Exactly one locker in every state along the run. */
  predicate LockedOnce(s: Store, es: seq<Event>, k: nat)
    requires Inv(s) && Possible(s, es)
    decreases |es|
  {
    s.locks[k] == 1 && (es == [] || (StepKeepsInv(s, es[0]); LockedOnce(After(s, es[0]), es[1..], k)))
  }

  /** One locker protects a raw frame exactly until the ring has let go twice. */
  lemma OneLockerProtects(s: Store, es: seq<Event>, k: nat)
    requires Inv(s) && Possible(s, es) && k < |s.frames| && IsRaw(s.frames[k]) && LockedOnce(s, es, k)
    ensures var t := Run(s, es);
            && k < |t.frames|
            && (IsRaw(t.frames[k]) <==>
                  !(t.live.maxSize >= 5 && k > EpochStart(t.clears, k)
                    && EpochEnd(t.clears, k, |t.frames|) - k > t.live.maxSize))
  {
    LockedFrameStaysRaw(s, es, k) by { OnceIsThroughout(s, es, k); }
    LostAtTheEnd(s, es, k);
    ClaimOverdrawnExactly(Run(s, es), k);
  }

  lemma {:induction false} OnceIsThroughout(s: Store, es: seq<Event>, k: nat)
    requires Inv(s) && Possible(s, es) && LockedOnce(s, es, k)
    ensures LockedThroughout(s, es, k)
    decreases |es|
  {
    if es != [] {
      StepKeepsInv(s, es[0]);
      OnceIsThroughout(After(s, es[0]), es[1..], k);
    }
  }

  /** Claims only ever go, so under a single locker the last state decides. */
  lemma {:induction false} LostAtTheEnd(s: Store, es: seq<Event>, k: nat)
    requires Inv(s) && Possible(s, es) && k < |s.frames| && LockedOnce(s, es, k)
    ensures k < |Run(s, es).frames|
    ensures LosesLock(s, es, k) <==> Claim(Run(s, es), k) < 0
    decreases |es|
  {
    ClaimsOnRun(s, es, k);
    if es != [] {
      StepKeepsInv(s, es[0]);
      StepGrows(s, es[0]);
      LostAtTheEnd(After(s, es[0]), es[1..], k);
    }
  }

  lemma {:induction false} ClaimsOnRun(s: Store, es: seq<Event>, k: nat)
    requires Inv(s) && Possible(s, es) && k < |s.frames|
    ensures Claim(Run(s, es), k) <= Claim(s, k)
    decreases |es|
  {
    if es != [] {
      StepKeepsInv(s, es[0]);
      ClaimsOnStep(s, es[0], k);
      ClaimsOnRun(After(s, es[0]), es[1..], k);
    }
  }

  /** How many pushes from its own on a frame stays raw when nobody locks it: only
      the first one after a clear lasts until the eviction in a longer ring. */
  function Window(size: int, firstOfAll: bool): nat {
    if size >= 5 && !firstOfAll then MIN_ALGO_FRAMES else Capacity(size)
  }

  /** In every reachable state an unlocked frame is raw exactly when it is among
      that many newest pushes before the clear that follows it, whatever snapshots
      hold it and whoever locked it before. */
  lemma UnlockedFrameBound(s: Store, k: nat)
    requires Inv(s) && k < |s.frames| && s.locks[k] == 0
    ensures IsRaw(s.frames[k]) <==>
            EpochEnd(s.clears, k, |s.frames|) - k <= Window(s.live.maxSize, k == EpochStart(s.clears, k))
  {
    assert FrameOk(s, k);
    EpochWithin(s.clears, |s.frames|, k);
  }

  /** Pushes up to the first clear of the run. */
  function PushesUntilClear(es: seq<Event>): nat {
    if es == [] || es[0].Clear? then 0 else (if es[0].Push? then 1 else 0) + PushesUntilClear(es[1..])
  }

  predicate Drops(es: seq<Event>, x: nat) { exists i :: 0 <= i < |es| && es[i] == Drop(x) }

  /** Where the epoch of frame k begins and, so far, ends. */
  predicate EpochIs(s: Store, k: nat, start: nat, end: nat) {
    EpochStart(s.clears, k) == start && EpochEnd(s.clears, k, |s.frames|) == end
  }

  lemma OpenEpoch(s: Store, k: nat)
    requires Inv(s) && LastClear(s.clears) <= k < |s.frames|
    ensures EpochIs(s, k, LastClear(s.clears), |s.frames|)
  {
    EpochsOnPush(s.clears, |s.frames|, k);
  }

  /** A clear closes the epoch, any other call leaves it open. */
  lemma EpochOnStep(s: Store, e: Event, k: nat)
    requires Inv(s) && Enabled(s, e) && LastClear(s.clears) <= k < |s.frames|
    ensures var t := After(s, e);
            && Inv(t)
            && |t.frames| == |s.frames| + (if e.Push? then 1 else 0)
            && (!e.Clear? ==> LastClear(t.clears) == LastClear(s.clears))
            && (e.Clear? ==> k < LastClear(t.clears) && EpochIs(t, k, LastClear(s.clears), |s.frames|))
  {
    StepKeepsInv(s, e);
    StepGrows(s, e);
    OpenEpoch(s, k);
    if e.Clear? {
      assert After(s, e).clears[..|s.clears|] == s.clears;
    }
  }

  lemma {:induction false} EpochOverRun(s: Store, es: seq<Event>, k: nat)
    requires Inv(s) && Possible(s, es) && LastClear(s.clears) <= k < |s.frames|
    ensures EpochIs(Run(s, es), k, LastClear(s.clears), |s.frames| + PushesUntilClear(es))
    decreases |es|
  {
    if es == [] {
      OpenEpoch(s, k);
    } else {
      EpochOnStep(s, es[0], k);
      var t := After(s, es[0]);
      if es[0].Clear? {
        ClosedEpoch(t, es[1..], k, LastClear(s.clears), |s.frames|);
      } else {
        EpochOverRun(t, es[1..], k);
      }
    }
  }

  lemma ClosedOnStep(s: Store, e: Event, k: nat, start: nat, end: nat)
    requires Inv(s) && Enabled(s, e) && k < LastClear(s.clears) && EpochIs(s, k, start, end)
    ensures Inv(After(s, e)) && k < LastClear(After(s, e).clears) && EpochIs(After(s, e), k, start, end)
  {
    StepKeepsInv(s, e);
    StepGrows(s, e);
    if e.Clear? {
      assert After(s, e).clears[..|s.clears|] == s.clears;
    }
  }

  lemma {:induction false} ClosedEpoch(s: Store, es: seq<Event>, k: nat, start: nat, end: nat)
    requires Inv(s) && Possible(s, es) && k < LastClear(s.clears) && EpochIs(s, k, start, end)
    ensures EpochIs(Run(s, es), k, start, end)
    decreases |es|
  {
    if es != [] {
      ClosedOnStep(s, es[0], k, start, end);
      ClosedEpoch(After(s, es[0]), es[1..], k, start, end);
    }
  }

  /** A copy stays as it was made until it is dropped, and its name is not given
      to another. */
  lemma {:induction false} SnapshotUnchanged(s: Store, es: seq<Event>, x: nat)
    requires Inv(s) && Possible(s, es) && x in s.snaps
    ensures x in Run(s, es).snaps <==> !Drops(es, x)
    ensures x in Run(s, es).snaps ==> Run(s, es).snaps[x] == s.snaps[x]
    decreases |es|
  {
    if es != [] {
      StepKeepsInv(s, es[0]);
      DropsTail(es, x);
      if es[0] == Drop(x) {
        SnapshotGone(After(s, es[0]), es[1..], x);
      } else {
        SnapshotUnchanged(After(s, es[0]), es[1..], x);
      }
    }
  }

  lemma DropsTail(es: seq<Event>, x: nat)
    requires es != []
    ensures Drops(es, x) <==> es[0] == Drop(x) || Drops(es[1..], x)
  {
    if Drops(es[1..], x) {
      var i :| 0 <= i < |es[1..]| && es[1..][i] == Drop(x);
      assert es[i + 1] == Drop(x);
    }
    if Drops(es, x) && es[0] != Drop(x) {
      var i :| 0 <= i < |es| && es[i] == Drop(x);
      assert es[1..][i - 1] == Drop(x);
    }
  }

  lemma {:induction false} SnapshotGone(s: Store, es: seq<Event>, x: nat)
    requires Inv(s) && Possible(s, es) && x !in s.snaps && x < s.nextSnap
    ensures x !in Run(s, es).snaps
    decreases |es|
  {
    if es != [] {
      StepKeepsInv(s, es[0]);
      SnapshotGone(After(s, es[0]), es[1..], x);
    }
  }

  function Copying(e: Event): nat { if e.Snapshot? || e.Resnapshot? then 1 else 0 }

  /** The copies that stem from those in `family` after some calls, as far as they
      have not been dropped: copies of them, copies of those, and so on. `next` is
      the name of the next copy. */
  function Family(es: seq<Event>, next: nat, family: set<nat>): set<nat> {
    if es == [] then family else Family(es[1..], next + Copying(es[0]), FamilyStep(es[0], next, family))
  }

  function FamilyStep(e: Event, next: nat, family: set<nat>): set<nat> {
    match e
    case Resnapshot(x) => if x in family then family + {next} else family
    case Drop(x) => family - {x}
    case _ => family
  }

  predicate AllHold(s: Store, family: set<nat>, r: RingState) {
    forall y :: y in family ==> y in s.snaps && s.snaps[y] == r
  }

  /** Through any chain of copies: they all hold what the first of them held,
      whatever the live ring has seen meanwhile. */
  lemma {:induction false} FamilyHoldsTheSame(s: Store, es: seq<Event>, family: set<nat>, r: RingState)
    requires Inv(s) && Possible(s, es) && AllHold(s, family, r)
    ensures AllHold(Run(s, es), Family(es, s.nextSnap, family), r)
    decreases |es|
  {
    if es != [] {
      StepKeepsFamily(s, es[0], family, r);
      FamilyHoldsTheSame(After(s, es[0]), es[1..], FamilyStep(es[0], s.nextSnap, family), r);
    }
  }

  lemma StepKeepsFamily(s: Store, e: Event, family: set<nat>, r: RingState)
    requires Inv(s) && Enabled(s, e) && AllHold(s, family, r)
    ensures Inv(After(s, e)) && After(s, e).nextSnap == s.nextSnap + Copying(e)
    ensures AllHold(After(s, e), FamilyStep(e, s.nextSnap, family), r)
  {
    StepKeepsInv(s, e);
  }

  /** A snapshot is taken in s; after any run, every copy that stems from it holds
      both lists as the live ring had them in s. */
  lemma CopiesHoldTheSnapshot(s: Store, es: seq<Event>, y: nat)
    requires Inv(s) && Enabled(s, Snapshot) && Inv(After(s, Snapshot)) && Possible(After(s, Snapshot), es)
    requires y in Family(es, s.nextSnap + 1, {s.nextSnap})
    ensures y in Run(After(s, Snapshot), es).snaps && Run(After(s, Snapshot), es).snaps[y] == s.live
  {
    FamilyHoldsTheSame(After(s, Snapshot), es, {s.nextSnap}, s.live);
  }

  /** A copy of a copy: a snapshot in s, anything but its end, a copy of it, anything
      but the end of that. */
  lemma CopyOfCopy(s: Store, before: seq<Event>, after: seq<Event>)
    requires Inv(s) && Enabled(s, Snapshot) && Inv(After(s, Snapshot))
    requires Possible(After(s, Snapshot), before) && !Drops(before, s.nextSnap)
    requires var t := Run(After(s, Snapshot), before);
             && Enabled(t, Resnapshot(s.nextSnap)) && Inv(After(t, Resnapshot(s.nextSnap)))
             && Possible(After(t, Resnapshot(s.nextSnap)), after) && !Drops(after, t.nextSnap)
    ensures var t := Run(After(s, Snapshot), before);
            var u := Run(After(t, Resnapshot(s.nextSnap)), after);
            && t.nextSnap in u.snaps
            && u.snaps[t.nextSnap].list == s.live.list && u.snaps[t.nextSnap].longList == s.live.longList
  {
    SnapshotUnchanged(After(s, Snapshot), before, s.nextSnap);
    var t := Run(After(s, Snapshot), before);
    SnapshotUnchanged(After(t, Resnapshot(s.nextSnap)), after, t.nextSnap);
  }

  lemma {:induction false} StaysInFamily(es: seq<Event>, next: nat, family: set<nat>, x: nat)
    requires x in family && !Drops(es, x)
    ensures x in Family(es, next, family)
  {
    if es != [] {
      DropsTail(es, x);
      StaysInFamily(es[1..], next + Copying(es[0]), FamilyStep(es[0], next, family), x);
    }
  }

  /** A snapshot is taken, the run goes on, and y, the snapshot or a copy that stems
      from it, is still there: its j-th newest frame, when nobody locks it at the
      end, is raw exactly when the pushes behind the snapshot's back left it in the
      window. */
  lemma UnlockedSnapshotFrame(s: Store, es: seq<Event>, y: nat, j: nat)
    requires Inv(s) && Enabled(s, Snapshot) && Inv(After(s, Snapshot)) && Possible(After(s, Snapshot), es)
    requires y in Family(es, s.nextSnap + 1, {s.nextSnap}) && j < |s.live.list|
    requires Run(After(s, Snapshot), es).locks[|s.frames| - 1 - j] == 0
    ensures var t := Run(After(s, Snapshot), es);
            var k := |s.frames| - 1 - j;
            && y in t.snaps && t.snaps[y] == s.live && s.live.list[|s.live.list| - 1 - j] == k
            && k < |t.frames|
            && (IsRaw(t.frames[k]) <==>
                  j + 1 + PushesUntilClear(es) <= Window(s.live.maxSize, k == LastClear(s.clears)))
  {
    var u := After(s, Snapshot);
    var k := |s.frames| - 1 - j;
    PinLoopIsDead(s.frames, s.live.list, true, |s.live.list|);
    CopiesHoldTheSnapshot(s, es, y);
    EpochOverRun(u, es, k);
    RunKeepsSize(u, es);
    UnlockedFrameBound(Run(u, es), k);
  }

  /** So an algorithm that works on a snapshot without a locker gets an exception
      for a gray picture of its j-th newest frame, or a reduced one, exactly when too
      many frames have been pushed behind its back. */
  lemma UnlockedSnapshotReadThrows(s: Store, es: seq<Event>, y: nat, j: nat, t: ImageType)
    requires Inv(s) && Enabled(s, Snapshot) && Inv(After(s, Snapshot)) && Possible(After(s, Snapshot), es)
    requires y in Family(es, s.nextSnap + 1, {s.nextSnap}) && j < |s.live.list|
    requires Run(After(s, Snapshot), es).locks[|s.frames| - 1 - j] == 0
    ensures var u := Run(After(s, Snapshot), es);
            var k := |s.frames| - 1 - j;
            && k < |u.frames| && y in u.snaps && k in u.snaps[y].list
            && (Read(u.frames[k], t).1 == Thrown <==>
                  NeedsPixels(t, u.frames[k].scale) &&
                  j + 1 + PushesUntilClear(es) > Window(s.live.maxSize, k == LastClear(s.clears)))
  {
    UnlockedSnapshotFrame(s, es, y, j);
    ReadOutcome(Run(After(s, Snapshot), es), |s.frames| - 1 - j, t,
                j + 1 + PushesUntilClear(es) <= Window(s.live.maxSize, |s.frames| - 1 - j == LastClear(s.clears)));
  }

  lemma ReadOutcome(s: Store, k: nat, t: ImageType, raw: bool)
    requires Inv(s) && k < |s.frames| && (IsRaw(s.frames[k]) <==> raw)
    ensures Read(s.frames[k], t).1 == Thrown <==> NeedsPixels(t, s.frames[k].scale) && !raw
  {
    ThrowsExactly(s, k, t);
  }

  /** In every reachable state a request throws exactly when it needs the raw pixels
      of a frame that has lost them. */
  lemma ThrowsExactly(s: Store, k: nat, t: ImageType)
    requires Inv(s) && k < |s.frames|
    ensures Read(s.frames[k], t).1 == Thrown <==> NeedsPixels(t, s.frames[k].scale) && !IsRaw(s.frames[k])
  {
    assert FrameOk(s, k);
    if IsRaw(s.frames[k]) {
      RawReads(s.frames[k], t);
    } else {
      BareReads(s.frames[k], t);
    }
  }

  /** n captures in a row. */
  function Captures(n: nat): (es: seq<Event>)
    ensures |es| == n
    ensures forall i :: 0 <= i < n ==> es[i].Push?
  {
    if n == 0 then [] else [Push(Captured(n), 1.0, 1.0, "", n)] + Captures(n - 1)
  }

  lemma CapturesDropNothing(n: nat, x: nat)
    ensures !Drops(Captures(n), x)
  {
  }

  lemma {:induction false} CapturesRun(s: Store, n: nat)
    requires Inv(s)
    ensures Possible(s, Captures(n)) && PushesUntilClear(Captures(n)) == n
    ensures var t := Run(s, Captures(n));
            && |t.frames| == |s.frames| + n && t.clears == s.clears && t.locks == s.locks
            && t.nextSnap == s.nextSnap && SameSizes(s.live, t.live)
    decreases n
  {
    if n > 0 {
      var e := Captures(n)[0];
      StepKeepsInv(s, e);
      StepGrows(s, e);
      CapturesRun(After(s, e), n - 1);
      assert Captures(n)[1..] == Captures(n - 1);
    }
  }

  lemma SnapshotTaken(s: Store)
    requires Inv(s)
    ensures Enabled(s, Snapshot) && Inv(After(s, Snapshot))
    ensures After(s, Snapshot).frames == s.frames && After(s, Snapshot).locks == s.locks
  {
    LiveOrdered(s);
    CopyKeepsInv(s, s.live);
  }

  lemma NewestListed(s: Store)
    requires Inv(s) && s.live.maxSize > 0 && |s.frames| > LastClear(s.clears)
    ensures s.live.list != [] && s.live.list[|s.live.list| - 1] == |s.frames| - 1
  {
  }

  lemma NewestHeld(s: Store, n: nat)
    requires Inv(s) && s.clears == [] && s.nextSnap == 0 && s.live.maxSize > 0 && |s.frames| == n + 1
    ensures 0 in Holders(After(s, Snapshot), n)
  {
    NewestListed(s);
    SnapshotTaken(s);
    var newest := s.live.Newest();
    assert newest[|newest| - 1] == n;
  }

  /** Captures and one snapshot already break the accounting. */
  lemma IntendedAccountingFails(size: int, n: nat)
    requires size > 0
    ensures var s := NewStore(size, 0, 0);
            && Inv(s) && Possible(s, Captures(n + 1))
            && var t := Run(s, Captures(n + 1));
            && Enabled(t, Snapshot)
            && var u := After(t, Snapshot);
            && n < |u.frames| && u.frames[n].counter != Claim(u, n) + |Holders(u, n)| + u.locks[n]
  {
    NewStoreInv(size, 0, 0);
    CapturesRun(NewStore(size, 0, 0), n + 1);
    var t := Run(NewStore(size, 0, 0), Captures(n + 1));
    SnapshotTaken(t);
    NewestHeld(t, n);
    IntendedAccountingExactlyUnheld(After(t, Snapshot), n);
  }

  /** The newest frame, n, of a snapshot that nobody ever locks. */
  lemma NewestOfSnapshot(s: Store, es: seq<Event>, y: nat, n: nat)
    requires Inv(s) && s.clears == [] && s.live.maxSize >= 5 && |s.frames| == n + 1 >= 2
    requires Enabled(s, Snapshot) && Inv(After(s, Snapshot)) && Possible(After(s, Snapshot), es)
    requires y in Family(es, s.nextSnap + 1, {s.nextSnap}) && s.live.list != []
    requires Run(After(s, Snapshot), es).locks == multiset{}
    ensures var u := Run(After(s, Snapshot), es);
            && n < |u.frames| && y in u.snaps && n in u.snaps[y].list
            && (Read(u.frames[n], GrayFull).1 == Thrown <==> PushesUntilClear(es) >= 3)
  {
    UnlockedSnapshotReadThrows(s, es, y, 0, GrayFull);
  }

  /** From program start: n + 1 captures into a ring of at least five, a snapshot,
      more captures. The gray picture of the snapshot's newest frame can be had
      after two more captures, and not after three. */
  lemma SnapshotReadFails(size: int, n: nat, more: nat)
    requires size >= 5 && n >= 1
    ensures var s := NewStore(size, 0, 0);
            && Inv(s) && Possible(s, Captures(n + 1))
            && var t := Run(s, Captures(n + 1));
            && Enabled(t, Snapshot) && Inv(After(t, Snapshot)) && Possible(After(t, Snapshot), Captures(more))
            && var u := Run(After(t, Snapshot), Captures(more));
            && 0 in u.snaps && n in u.snaps[0].list && n < |u.frames|
            && (Read(u.frames[n], GrayFull).1 == Thrown <==> more >= 3)
  {
    NewStoreInv(size, 0, 0);
    CapturesRun(NewStore(size, 0, 0), n + 1);
    var t := Run(NewStore(size, 0, 0), Captures(n + 1));
    SnapshotTaken(t);
    NewestListed(t);
    CapturesDropNothing(more, 0);
    CapturesRun(After(t, Snapshot), more);
    StaysInFamily(Captures(more), t.nextSnap + 1, {t.nextSnap}, 0);
    NewestOfSnapshot(t, Captures(more), 0, n);
  }

  lemma PushKeepsLocks(s: Store, e: Event)
    requires Inv(s) && Enabled(s, e) && e.Push?
    ensures Inv(After(s, e)) && After(s, e).locks == s.locks
  {
    StepKeepsInv(s, e);
  }

  lemma LockedOnceMore(s: Store, es: seq<Event>, k: nat)
    requires Inv(s) && es != [] && Possible(s, es) && s.locks[k] == 1
    requires Inv(After(s, es[0])) && Possible(After(s, es[0]), es[1..]) && LockedOnce(After(s, es[0]), es[1..], k)
    ensures LockedOnce(s, es, k)
  {
  }

  lemma {:induction false} CapturesKeepLocks(s: Store, n: nat, k: nat)
    requires Inv(s) && Possible(s, Captures(n)) && s.locks[k] == 1
    ensures LockedOnce(s, Captures(n), k)
    decreases n
  {
    if n > 0 {
      var es := Captures(n);
      assert es[1..] == Captures(n - 1);
      PushKeepsLocks(s, es[0]);
      CapturesKeepLocks(After(s, es[0]), n - 1, k);
      LockedOnceMore(s, es, k);
    }
  }

  /** The newest frame, n, is locked once, and more captures follow. */
  lemma LockThenCaptures(s: Store, n: nat, more: nat)
    requires Inv(s) && s.clears == [] && s.locks == multiset{} && s.live.maxSize >= 5 && |s.frames| == n + 1 >= 2
    ensures Enabled(s, Lock(n)) && Inv(After(s, Lock(n))) && Possible(After(s, Lock(n)), Captures(more))
    ensures var u := Run(After(s, Lock(n)), Captures(more));
            && n < |u.frames| && u.locks[n] == 1
            && (IsRaw(u.frames[n]) <==> more < s.live.maxSize)
  {
    StepKeepsInv(s, Lock(n));
    var t := After(s, Lock(n));
    CapturesRun(t, more);
    CapturesKeepLocks(t, more, n);
    FreshlyLocked(s, n);
    OneLockerProtects(t, Captures(more), n);
  }

  lemma FreshlyLocked(s: Store, n: nat)
    requires Inv(s) && s.clears == [] && s.live.maxSize >= 5 && |s.frames| == n + 1
    requires Inv(After(s, Lock(n)))
    ensures IsRaw(After(s, Lock(n)).frames[n])
  {
    assert FrameOk(s, n);
  }

  /** From program start: two captures or more into a ring of M >= 5, a locker on
      the newest frame, more captures. After M of them the frame is cleared although
      it is still locked, and its gray picture throws; after M - 1 it is not. */
  lemma LockedReadFails(M: int, n: nat, more: nat)
    requires M >= 5 && n >= 1
    ensures var s := NewStore(M, 0, 0);
            && Inv(s) && Possible(s, Captures(n + 1))
            && var t := Run(s, Captures(n + 1));
            && Enabled(t, Lock(n)) && Inv(After(t, Lock(n))) && Possible(After(t, Lock(n)), Captures(more))
            && var u := Run(After(t, Lock(n)), Captures(more));
            && n < |u.frames| && u.locks[n] == 1
            && (Read(u.frames[n], GrayFull).1 == Thrown <==> more >= M)
  {
    NewStoreInv(M, 0, 0);
    CapturesRun(NewStore(M, 0, 0), n + 1);
    var t := Run(NewStore(M, 0, 0), Captures(n + 1));
    LockThenCaptures(t, n, more);
    ThrowsExactly(Run(After(t, Lock(n)), Captures(more)), n, GrayFull);
  }

  // ---- pictures ----

  /** The picture of every pushed frame is there after any run, raw or as the
      JPEG of exactly the pushed pixels, and once encoded it is never encoded again. */
  lemma {:induction false} PictureNeverLost(s: Store, es: seq<Event>, k: nat)
    requires Inv(s) && Possible(s, es) && k < |s.frames|
    ensures var t := Run(s, es);
            k < |t.frames| && !IsEmpty(FullPicture(t.frames[k])) &&
            FullPicture(t.frames[k]) == (if IsRaw(t.frames[k]) then s.pics[k]
                                         else Decoded(Encoded(s.pics[k], 75)))
    ensures !s.frames[k].buffer.NoJpeg? ==> Run(s, es).frames[k].buffer == s.frames[k].buffer
  {
    RunKeepsSize(s, es);
    assert FrameOk(s, k);
    var t := Run(s, es);
    assert FrameOk(t, k);
    assert t.pics[k] == s.pics[k];
    if !s.frames[k].buffer.NoJpeg? {
      RawExactlyWhileClaimed(s, es, k);
    }
  }

  /** The newest min(3, M) frames of the live ring have never been cleared. */
  lemma NewestAreRaw(s: Store, k: nat)
    requires Inv(s)
    requires |s.frames| - |s.live.list| <= k < |s.frames| && |s.frames| - k <= MIN_ALGO_FRAMES
    ensures IsRaw(s.frames[k]) && s.frames[k].buffer.NoJpeg? && s.frames[k].mats.rgbFull == s.pics[k]
  {
    EpochsOnPush(s.clears, |s.frames|, k);
    assert FrameOk(s, k);
  }

  // ---- the long list ----

  /** After any run the live list is exactly the last min(T, size) of the T pushes
      since the last clear, and the long list the last longSize of the evictions
      that are among the first longSize or hit the skip count; the long list
      followed by the list is strictly ordered by push order. */
  lemma ListsClosedForm(size: int, longSize: int, skip: int, es: seq<Event>)
    requires Inv(NewStore(size, longSize, skip)) && Possible(NewStore(size, longSize, skip), es)
    ensures var t := Run(NewStore(size, longSize, skip), es);
            var start, n := LastClear(t.clears), |t.frames|;
            var E := if n - start < Capacity(size) then 0 else n - start - Capacity(size);
            && start + E <= n
            && t.live.list == Range(start + E, n)
            && t.live.longList == Shift(LastOf(KeptBelow(longSize, skip, t.phase, E), longSize), start)
            && Increasing(t.live.longList + t.live.list)
  {
    var t := Run(NewStore(size, longSize, skip), es);
    RunKeepsSize(NewStore(size, longSize, skip), es);
    LiveOrdered(t);
  }

  /** Once the long list has been filled twice over by kept evictions, its
      neighbours are exactly S evictions apart. */
  lemma LongListSpacing(s: Store)
    requires Inv(s) && s.live.Samples()
    requires Evictions(s) >= s.live.maxLongSize + s.live.maxLongSize * s.live.skip
    ensures |s.live.longList| == s.live.maxLongSize
    ensures forall i :: 0 <= i < |s.live.longList| - 1 ==>
              s.live.longList[i + 1] == s.live.longList[i] + s.live.skip
  {
    var L, S, E := s.live.maxLongSize, s.live.skip, Evictions(s);
    KeptSpacing(L, S, s.phase, E);
    KeptDensity(L, S, s.phase, L);
    KeptMonotone(L, S, s.phase, L + L * S, E);
  }

  /** Beyond the first L, kept evictions are the multiples, S apart, and the
      newest is at most S behind. */
  predicate Spaced(r: seq<nat>, L: int, S: int, phase: nat, E: nat)
    requires L > 0 && S > 0
  {
    && (forall i :: L <= i < |r| ==> Divides(S, phase + r[i]) && r[i] >= L)
    && (forall i :: L <= i < |r| - 1 ==> r[i + 1] == r[i] + S)
    && (|r| > L ==> 0 < E - r[|r| - 1] <= S)
  }

  lemma {:induction false} KeptSpacing(L: int, S: int, phase: nat, E: nat)
    requires L > 0 && S > 0
    ensures Spaced(KeptBelow(L, S, phase, E), L, S, phase, E)
  {
    if E > 0 {
      KeptSpacing(L, S, phase, E - 1);
      KeptCount(L, S, phase, E - 1);
      SpacedOnStep(KeptBelow(L, S, phase, E - 1), L, S, phase, E - 1);
    }
  }

  lemma SpacedOnStep(r: seq<nat>, L: int, S: int, phase: nat, e: nat)
    requires L > 0 && S > 0 && Spaced(r, L, S, phase, e)
    requires e < L ==> |r| == e
    requires e >= L ==> |r| >= L
    ensures Spaced(if Kept(L, S, phase, e) then r + [e] else r, L, S, phase, e + 1)
  {
    if |r| > L {
      NextMultiple(phase + r[|r| - 1], phase + e, S);
    }
  }

  lemma NextMultiple(m: nat, x: nat, S: nat)
    requires S > 0 && Divides(S, m) && m < x <= m + S
    ensures Divides(S, x) <==> x == m + S
  {
    if x == m + S {
      DivMod(x, m / S + 1, 0, S);
    } else {
      DivMod(x, m / S, x - m, S);
    }
  }

  /** Every S evictions beyond the first L bring at least one kept one. */
  lemma {:induction false} KeptDensity(L: int, S: int, phase: nat, m: nat)
    requires L > 0 && S > 0
    ensures m * S >= 0 && |KeptBelow(L, S, phase, L + m * S)| >= L + m
  {
    if m == 0 {
      KeptCount(L, S, phase, L);
    } else {
      KeptDensity(L, S, phase, m - 1);
      var a := L + (m - 1) * S;
      assert L + m * S == a + S;
      var d := MultipleWithin(phase + a, S);
      KeptMonotone(L, S, phase, a, a + d);
      assert Kept(L, S, phase, a + d);
      KeptMonotone(L, S, phase, a + d + 1, a + S);
    }
  }

  lemma {:induction false} KeptMonotone(L: int, S: int, phase: nat, a: nat, b: nat)
    requires a <= b
    ensures |KeptBelow(L, S, phase, a)| <= |KeptBelow(L, S, phase, b)|
    decreases b
  {
    if a < b { KeptMonotone(L, S, phase, a, b - 1); }
  }
}
