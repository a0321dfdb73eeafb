// The buffer object callers use: every call on the heap objects is one step of
// the state machine of FrameStore, so all its run theorems hold of the objects.

module ImageBuffers {
  import opened Pictures
  import opened Frames
  import opened Rings
  import opened FrameStore

  /** CMatWithTimeStampLocker */
  class Locker {
    const mat: Frame

    constructor (mat: Frame)
      modifies mat
      ensures this.mat == mat && mat.State() == Increase(old(mat.State()))
    {
      this.mat := mat;
      new;
      mat.IncreaseRefCounter();
    }

    /** The destructor. */
    method Destroy()
      modifies mat
      ensures mat.State() == Decrease(old(mat.State()))
    {
      mat.DecreaseRefCounter();
    }
  }

  /** CImageBuffer for one camera, with the copies made of it. */
  class ImageBuffer {
    var frames: seq<Frame>
    var live: Ring
    var snaps: map<nat, Ring>
    var nextSnap: nat
    ghost var store: Store

    ghost predicate Valid()
      reads this, live, snaps.Values, frames
    {
      Inv(store) && Shows(store)
    }

    /** The heap objects are in the state s. */
    ghost predicate Shows(s: Store)
      reads `frames, `live, `snaps, `nextSnap, live, snaps.Values, frames
    {
      && Distinct(frames) && States(frames) == s.frames
      && live.Is(s.live, frames)
      && snaps.Keys == s.snaps.Keys && nextSnap == s.nextSnap
      && (forall x :: x in snaps ==> snaps[x] != live && snaps[x].Is(s.snaps[x], frames))
    }

    constructor (size: int, longSize: int, skip: int)
      ensures Valid() && fresh(live) && store == NewStore(size, longSize, skip)
    {
      NewStoreInv(size, longSize, skip);
      frames, snaps, nextSnap := [], map[], 0;
      live := new Ring(size, longSize, skip);
      store := NewStore(size, longSize, skip);
    }

    method Push(p: Picture, scale: real, netScale: real, stamp: string, id: nat)
      requires Valid() && !IsEmpty(p)
      modifies this, live, frames
      ensures Valid() && store == After(old(store), Event.Push(p, scale, netScale, stamp, id))
    {
      ghost var next := PushOn(store, NewFrame(p, scale, netScale, stamp, id));
      PushKeepsInv(store, NewFrame(p, scale, netScale, stamp, id));
      var frame := new Frame(p, scale, netScale, stamp, id);
      Append(frame);
      Becomes(next);
    }

    ghost method Becomes(next: Store)
      requires Inv(next) && Shows(next)
      modifies this`store
      ensures Valid() && store == next
    {
      store := next;
    }

    method Append(frame: Frame)
      requires Shows(store) && InRange(store.live.list, |store.frames|) && frame !in frames
      modifies this`frames, live, frames, frame
      ensures Shows(PushOn(store, old(frame.State())))
    {
      Extends(frame);
      ghost var grown := frames + [frame];
      live.PushBack(frame, store.live, grown, |frames|);
      frames := frames + [frame];
      assert forall x :: x in snaps ==> snaps[x].Is(store.snaps[x], grown);
    }

    /** Appending a new frame to the push order changes no name in use. */
    lemma Extends(f: Frame)
      requires Shows(store) && f !in frames
      ensures Distinct(frames + [f]) && States(frames + [f]) == store.frames + [f.State()]
      ensures live.Is(store.live, frames + [f])
      ensures forall x :: x in snaps ==> snaps[x].Is(store.snaps[x], frames + [f])
    {
    }

    method ClearAll()
      requires Valid()
      modifies this`store, live
      ensures Valid() && store == After(old(store), Clear)
    {
      StepKeepsInv(store, Clear);
      live.Clear(store.live, frames);
      store := After(store, Clear);
    }

    /** The copy constructor on the live buffer. */
    method TakeSnapshot() returns (x: nat)
      requires Valid()
      modifies this
      ensures Valid() && x == old(nextSnap) && store == After(old(store), Snapshot)
    {
      LiveOrdered(store);
      CopyKeepsInv(store, store.live);
      x := nextSnap;
      var copy := new Ring.Copy(live);
      snaps := snaps[x := copy];
      nextSnap := nextSnap + 1;
      store := After(store, Snapshot);
    }

    /** The copy constructor on a copy. */
    method TakeResnapshot(of: nat) returns (x: nat)
      requires Valid() && of in snaps
      modifies this
      ensures Valid() && x == old(nextSnap) && store == After(old(store), Resnapshot(of))
    {
      CopyKeepsInv(store, store.snaps[of]);
      x := nextSnap;
      var copy := new Ring.Copy(snaps[of]);
      snaps := snaps[x := copy];
      nextSnap := nextSnap + 1;
      store := After(store, Resnapshot(of));
    }

    /** The destructor of a copy. */
    method DropSnapshot(x: nat)
      requires Valid() && x in snaps
      modifies this
      ensures Valid() && store == After(old(store), Drop(x))
    {
      DropKeepsInv(store, x);
      snaps := snaps - {x};
      store := After(store, Drop(x));
    }

    method LockFrame(k: nat) returns (lock: Locker)
      requires Valid() && k < |frames|
      modifies this`store, frames[k]
      ensures Valid() && store == After(old(store), Lock(k)) && lock.mat == frames[k]
    {
      ghost var next := After(store, Lock(k));
      StepKeepsInv(store, Lock(k));
      lock := new Locker(frames[k]);
      assert States(frames) == next.frames;
      store := next;
    }

    method UnlockFrame(lock: Locker, ghost k: nat)
      requires Valid() && k < |frames| && lock.mat == frames[k] && k in store.locks
      modifies this`store, lock.mat
      ensures Valid() && store == After(old(store), Unlock(k))
    {
      ghost var next := After(store, Unlock(k));
      StepKeepsInv(store, Unlock(k));
      lock.Destroy();
      assert States(frames) == next.frames;
      store := next;
    }

    method GetMat(k: nat, t: ImageType) returns (r: Outcome)
      requires Valid() && k < |frames|
      modifies this`store, frames[k]
      ensures Valid() && store == After(old(store), ReadPicture(k, t))
      ensures r == Read(old(store).frames[k], t).1
    {
      ghost var next := After(store, ReadPicture(k, t));
      StepKeepsInv(store, ReadPicture(k, t));
      r := frames[k].GetMat(t);
      assert States(frames) == next.frames;
      store := next;
    }

    /** getLast: null for an empty buffer. */
    method GetLast() returns (r: Frame?)
      requires Valid()
      ensures store.live.list == [] ==> r == null
      ensures store.live.list != [] ==> r == frames[|frames| - 1]
    {
      r := live.At(|live.list| - 1);
    }
  }
}
