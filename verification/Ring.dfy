// The bounded ring of the newest frames and the down-sampled long list that
// takes its evictions. Frames are named by the order in which they were pushed.

module Rings {
  import opened Frames
  import opened Arithmetic

  // IAlertAlgorithm::sMinAlgoFrameCount and the offset in push_back
  const MIN_ALGO_FRAMES := 3
  const RELEASE_OFFSET := 1

  datatype RingState = RingState(list: seq<nat>, longList: seq<nat>, maxSize: int,
                                 maxLongSize: int, skip: int, longId: nat)
  {
    /** The long-list counter runs only when sampling is switched on. */
    predicate Samples() { maxLongSize > 0 && skip > 0 }

    /** The frames that snapshots are meant to pin. */
    function Newest(): seq<nat> {
      if |list| <= MIN_ALGO_FRAMES then list else list[|list| - MIN_ALGO_FRAMES..]
    }
  }

  function NewRing(size: int, longSize: int, skip: int): RingState {
    RingState([], [], size, longSize, skip, 0)
  }

  /** An evicted frame enters the long list, which never outgrows its limit. */
  function EvictTo(longList: seq<nat>, limit: int, frame: nat): seq<nat> {
    var grown := longList + [frame];
    if |grown| > limit then grown[1..] else grown
  }

  /** push_back on the two lists. */
  function Pushed(r: RingState, frame: nat): RingState {
    var list := r.list + [frame];
    if |list| <= r.maxSize then r.(list := list) else Evicted(r.(list := list))
  }

  function Evicted(r: RingState): RingState
    requires |r.list| > 0
  {
    var sampled := r.Samples() && Divides(r.skip, r.longId);
    var longId := if r.Samples() then r.longId + 1 else r.longId;
    var longList := if sampled || |r.longList| < r.maxLongSize
                    then EvictTo(r.longList, r.maxLongSize, r.list[0]) else r.longList;
    r.(list := r.list[1..], longList := longList, longId := longId)
  }

  /** push_back on the pin counters: the evicted frame, then the fourth newest. */
  function Released(fs: seq<FrameState>, r: RingState, frame: nat): seq<FrameState>
    requires frame < |fs| && InRange(r.list, |fs|)
  {
    ReleasedEarly(ReleasedOnEviction(fs, r, frame), Pushed(r, frame).list)
  }

  function ReleasedEarly(fs: seq<FrameState>, list: seq<nat>): seq<FrameState>
    requires InRange(list, |fs|)
  {
    if |list| > MIN_ALGO_FRAMES + RELEASE_OFFSET
    then DecreaseAt(fs, list[|list| - (MIN_ALGO_FRAMES + RELEASE_OFFSET)])
    else fs
  }

  function ReleasedOnEviction(fs: seq<FrameState>, r: RingState, frame: nat): seq<FrameState>
    requires frame < |fs| && InRange(r.list, |fs|)
  {
    var list := r.list + [frame];
    if |list| > r.maxSize then DecreaseAt(fs, list[0]) else fs
  }

  predicate InRange(ids: seq<nat>, n: nat) { forall i :: 0 <= i < |ids| ==> ids[i] < n }

  function DecreaseAt(fs: seq<FrameState>, k: nat): seq<FrameState>
    requires k < |fs|
  {
    fs[k := Decrease(fs[k])]
  }

  function Emptied(r: RingState): RingState { r.(list := [], longList := []) }

  /** The loop shared by the copy constructor and the destructor, cut off after
      `fuel` rounds: it starts at the last index and steps down while the index
      is still BELOW the stop bound. */
  function PinLoop(fs: seq<FrameState>, list: seq<nat>, i: int, stop: int, pin: bool, fuel: nat): seq<FrameState>
    requires InRange(list, |fs|)
    requires i < |list|
    decreases fuel
  {
    if fuel == 0 || i >= stop then fs
    else
      var gs := if i < 0 then fs
                else fs[list[i] := if pin then Increase(fs[list[i]]) else Decrease(fs[list[i]])];
      PinLoop(gs, list, i - 1, stop, pin, fuel - 1)
  }

  function PinNewest(fs: seq<FrameState>, list: seq<nat>, pin: bool, fuel: nat): seq<FrameState>
    requires InRange(list, |fs|)
  {
    PinLoop(fs, list, |list| - 1, |list| - 1 - MIN_ALGO_FRAMES, pin, fuel)
  }

  // ---- the heap objects ----

  ghost predicate Distinct(frames: seq<Frame>) {
    forall i, j :: 0 <= i < j < |frames| ==> frames[i] != frames[j]
  }

  ghost function States(frames: seq<Frame>): (s: seq<FrameState>)
    reads frames
    ensures |s| == |frames|
    ensures forall i :: 0 <= i < |frames| ==> s[i] == frames[i].State()
  {
    seq(|frames|, i requires 0 <= i < |frames| reads frames => frames[i].State())
  }

  /** `list` holds exactly the frames that `ids` names. */
  ghost predicate Names(list: seq<Frame>, ids: seq<nat>, frames: seq<Frame>) {
    |list| == |ids| && forall i :: 0 <= i < |ids| ==> ids[i] < |frames| && list[i] == frames[ids[i]]
  }

  method Release(f: Frame, ghost frames: seq<Frame>, ghost k: nat)
    requires Distinct(frames) && k < |frames| && f == frames[k]
    modifies f
    ensures States(frames) == DecreaseAt(old(States(frames)), k)
  {
    f.DecreaseRefCounter();
  }

  /** CImageBuffer::CRingBuffer */
  class Ring {
    var list: seq<Frame>
    var longList: seq<Frame>
    const maxSize: int
    const maxLongSize: int
    const skip: int
    var longId: nat

    ghost predicate Is(r: RingState, frames: seq<Frame>)
      reads this
    {
      && Names(list, r.list, frames) && Names(longList, r.longList, frames)
      && maxSize == r.maxSize && maxLongSize == r.maxLongSize && skip == r.skip && longId == r.longId
    }

    constructor (size: int, longSize: int, skip: int)
      ensures forall frames :: Is(NewRing(size, longSize, skip), frames)
    {
      list, longList, longId := [], [], 0;
      maxSize, maxLongSize, this.skip := size, longSize, skip;
    }

    /** The pinning loop of the source starts at the last index i and runs while
        i < last - 3, so it stops before its first round and no counter moves. */
    constructor Copy(other: Ring)
      ensures forall r, frames :: other.Is(r, frames) ==> Is(r, frames)
    {
      list, longList, longId := other.list, other.longList, other.longId;
      maxSize, maxLongSize, skip := other.maxSize, other.maxLongSize, other.skip;
    }

    method PushBack(elem: Frame, ghost r: RingState, ghost frames: seq<Frame>, ghost k: nat)
      requires Distinct(frames) && Is(r, frames)
      requires k < |frames| && elem == frames[k]
      modifies this, frames
      ensures Is(Pushed(r, k), frames)
      ensures States(frames) == Released(old(States(frames)), r, k)
    {
      Append(elem, r, frames, k);
      ReleaseOlder(Pushed(r, k), frames);
    }

    /** The last part: the fourth newest frame loses the ring's claim early. */
    method ReleaseOlder(ghost r: RingState, ghost frames: seq<Frame>)
      requires Distinct(frames) && Is(r, frames)
      modifies frames
      ensures States(frames) == ReleasedEarly(old(States(frames)), r.list)
    {
      if |list| > MIN_ALGO_FRAMES + RELEASE_OFFSET {
        var i := |list| - (MIN_ALGO_FRAMES + RELEASE_OFFSET);
        Release(list[i], frames, r.list[i]);
      }
    }

    /** The first part of push_back: append, and evict when the list outgrows its size. */
    method Append(elem: Frame, ghost r: RingState, ghost frames: seq<Frame>, ghost k: nat)
      requires Distinct(frames) && Is(r, frames)
      requires k < |frames| && elem == frames[k]
      modifies this, frames
      ensures Is(Pushed(r, k), frames)
      ensures States(frames) == ReleasedOnEviction(old(States(frames)), r, k)
    {
      list := list + [elem];
      ghost var grown := r.(list := r.list + [k]);
      if |list| > maxSize {
        Release(list[0], frames, grown.list[0]);
        Evict(grown, frames);
      }
    }

    /** The part of push_back that runs when the list has outgrown its size. */
    method Evict(ghost r: RingState, ghost frames: seq<Frame>)
      requires Is(r, frames) && |r.list| > 0
      modifies this
      ensures Is(Evicted(r), frames)
    {
      var sampled := false;
      if maxLongSize > 0 && skip > 0 {
        sampled := longId % skip == 0;
        longId := longId + 1;
      }
      if sampled || |longList| < maxLongSize {
        longList := longList + [list[0]];
        assert Names(longList, r.longList + [r.list[0]], frames);
        if |longList| > maxLongSize {
          longList := longList[1..];
        }
      }
      list := list[1..];
    }

    method Clear(ghost r: RingState, ghost frames: seq<Frame>)
      requires Is(r, frames)
      modifies this
      ensures Is(Emptied(r), frames)
    {
      list, longList := [], [];
    }

    /** operator[]: null outside the list */
    method At(i: int) returns (r: Frame?)
      ensures r == if 0 <= i < |list| then list[i] else null
    {
      if i < 0 || i >= |list| {
        return null;
      }
      r := list[i];
    }
  }
}
