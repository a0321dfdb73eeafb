// One camera frame: its pictures, the lazily filled cache of derived pictures
// and the hand-written pin counter that decides when raw pixels are dropped.

/** OpenCV images as free terms: two pictures are equal exactly when they were
    made by the same operations from the same captures. */
module Pictures {
  datatype Picture =
    | NoPicture
    | Captured(serial: int)
    | Decoded(jpeg: Jpeg)
    | Gray(of: Picture)
    | Resized(of: Picture, factor: real)
    | WithText(of: Picture, stamp: string, id: nat)

  datatype Jpeg = NoJpeg | Encoded(of: Picture, quality: nat)

  datatype ImageType = GrayResized | GrayFull | RgbFull | RgbResized | RgbFullWithText | GrayNetResize

  const JPEG_QUALITY := 75

  /** cv::Mat::empty */
  predicate IsEmpty(p: Picture) {
    match p
    case NoPicture => true
    case Captured(_) => false
    case Decoded(j) => j.NoJpeg? || IsEmpty(j.of)
    case Gray(q) => IsEmpty(q)
    case Resized(q, _) => IsEmpty(q)
    case WithText(q, _, _) => IsEmpty(q)
  }

  /** cv::imencode, which leaves the buffer empty for an empty image. */
  function Encode(p: Picture): Jpeg {
    if IsEmpty(p) then NoJpeg else Encoded(p, JPEG_QUALITY)
  }

  /** Down-scaling by 1/factor; a factor of at most one keeps the picture. */
  function Shrink(p: Picture, factor: real): Picture {
    if factor > 1.0 then Resized(p, factor) else p
  }

  /** CMatWithTimeStamp::writeText, which skips empty pictures. */
  function Stamped(p: Picture, stamp: string, id: nat): Picture {
    if IsEmpty(p) then p else WithText(p, stamp, id)
  }
}

module Frames {
  import opened Pictures

  /** mMatArray, one field for each ImageType. */
  datatype Mats = Mats(grayResized: Picture, grayFull: Picture, rgbFull: Picture,
                       rgbResized: Picture, rgbText: Picture, grayNet: Picture)

  const NO_MATS := Mats(NoPicture, NoPicture, NoPicture, NoPicture, NoPicture, NoPicture)

  /** sharesRgb: rgbResized is the same memory as rgbFull. */
  datatype FrameState = FrameState(counter: int, mats: Mats, sharesRgb: bool, mask: Picture, buffer: Jpeg,
                                   scale: real, netScale: real, stamp: string, id: nat)

  /** The outcome of an OpenCV call that may throw. */
  datatype Outcome = Ok(picture: Picture) | Thrown

  function NewFrame(p: Picture, scale: real, netScale: real, stamp: string, id: nat): FrameState {
    FrameState(1, NO_MATS.(rgbFull := p), false, NoPicture, NoJpeg, scale, netScale, stamp, id)
  }

  predicate IsRaw(f: FrameState) { !IsEmpty(f.mats.rgbFull) }

  // ---- the pin counter ----

  function Increase(f: FrameState): FrameState { f.(counter := f.counter + 1) }

  /** Encode once, then drop every picture and the mask. */
  function Cleared(f: FrameState): FrameState {
    f.(buffer := if f.buffer.NoJpeg? then Encode(f.mats.rgbFull) else f.buffer,
       mats := NO_MATS, sharesRgb := false, mask := NoPicture)
  }

  function Decrease(f: FrameState): FrameState {
    var g := f.(counter := f.counter - 1);
    if g.counter == 0 then Cleared(g) else g
  }

  // ---- the picture cache ----

  /** The cache after a processing step, or the exception OpenCV throws on an empty image. */
  datatype Step = Done(f: FrameState) | Raised

  function WithGray(f: FrameState): Step {
    if !IsEmpty(f.mats.grayFull) then Done(f)
    else if IsEmpty(f.mats.rgbFull) then Raised
    else Done(f.(mats := f.mats.(grayFull := Gray(f.mats.rgbFull))))
  }

  function WithGrayResized(f: FrameState): Step {
    match WithGray(f)
    case Raised => Raised
    case Done(g) =>
      if !IsEmpty(g.mats.grayResized) then Done(g)
      else Done(g.(mats := g.mats.(grayResized := Shrink(g.mats.grayFull, g.scale))))
  }

  function WithRgbResized(f: FrameState): Step {
    if !IsEmpty(f.mats.rgbResized) then Done(f)
    else if f.scale > 1.0 && IsEmpty(f.mats.rgbFull) then Raised
    else Done(f.(mats := f.mats.(rgbResized := Shrink(f.mats.rgbFull, f.scale)), sharesRgb := f.scale <= 1.0))
  }

  function WithGrayNet(f: FrameState): Step {
    if !IsEmpty(f.mats.grayNet) then Done(f)
    else match WithGray(f)
         case Raised => Raised
         case Done(g) => Done(g.(mats := g.mats.(grayNet := Shrink(g.mats.grayFull, g.netScale))))
  }

  /** The full colour picture: the raw pixels, or the stored JPEG decoded again. */
  function FullPicture(f: FrameState): Picture {
    if IsRaw(f) then f.mats.rgbFull else Decoded(f.buffer)
  }

  function WithTextPicture(f: FrameState): FrameState {
    f.(mats := f.mats.(rgbText := Stamped(FullPicture(f), f.stamp, f.id)))
  }

  function AfterRead(f: FrameState, step: Step, slot: FrameState -> Picture): (FrameState, Outcome) {
    match step
    case Raised => (f, Thrown)
    case Done(g) => (g, Ok(slot(g)))
  }

  /** getMat: the new cache and the picture handed out. */
  function Read(f: FrameState, t: ImageType): (FrameState, Outcome) {
    match t
    case RgbFull => (f, Ok(FullPicture(f)))
    case GrayFull => AfterRead(f, WithGray(f), (g: FrameState) => g.mats.grayFull)
    case GrayResized => AfterRead(f, WithGrayResized(f), (g: FrameState) => g.mats.grayResized)
    case RgbResized => AfterRead(f, WithRgbResized(f), (g: FrameState) => g.mats.rgbResized)
    case RgbFullWithText => (WithTextPicture(f), Ok(WithTextPicture(f).mats.rgbText))
    case GrayNetResize => AfterRead(f, WithGrayNet(f), (g: FrameState) => g.mats.grayNet)
  }

  /** What a picture of type t should be, computed afresh from the raw pixels. */
  function Recomputed(f: FrameState, t: ImageType): Picture {
    var rgb := f.mats.rgbFull;
    match t
    case RgbFull => rgb
    case GrayFull => Gray(rgb)
    case GrayResized => Shrink(Gray(rgb), f.scale)
    case RgbResized => Shrink(rgb, f.scale)
    case RgbFullWithText => Stamped(rgb, f.stamp, f.id)
    case GrayNetResize => Shrink(Gray(rgb), f.netScale)
  }

  /** Every cached derived picture is the one the raw pixels give now. */
  predicate Coherent(f: FrameState) {
    && (IsEmpty(f.mats.grayFull) || f.mats.grayFull == Recomputed(f, GrayFull))
    && (IsEmpty(f.mats.grayResized) || f.mats.grayResized == Recomputed(f, GrayResized))
    && (IsEmpty(f.mats.rgbResized) || f.mats.rgbResized == Recomputed(f, RgbResized))
    && (IsEmpty(f.mats.grayNet) || f.mats.grayNet == Recomputed(f, GrayNetResize))
  }

  /** No derived picture is cached. */
  predicate Underived(f: FrameState) {
    IsEmpty(f.mats.grayFull) && IsEmpty(f.mats.grayResized) &&
    IsEmpty(f.mats.rgbResized) && IsEmpty(f.mats.grayNet)
  }

  /** The pictures a sequence of reads hands out. */
  function ReadAll(f: FrameState, ts: seq<ImageType>): seq<Outcome>
    decreases |ts|
  {
    if ts == [] then [] else [Read(f, ts[0]).1] + ReadAll(Read(f, ts[0]).0, ts[1..])
  }

  /** One read of a coherent raw frame is exact and keeps the frame coherent. */
  lemma ReadIsRecomputed(f: FrameState, t: ImageType)
    requires IsRaw(f) && Coherent(f)
    ensures Read(f, t).1 == Ok(Recomputed(f, t))
    ensures Coherent(Read(f, t).0)
    ensures Read(f, t).0.mats.rgbFull == f.mats.rgbFull
    ensures forall u :: Recomputed(Read(f, t).0, u) == Recomputed(f, u)
  {
  }

  /** Where a picture of type t is kept. */
  function Slot(m: Mats, t: ImageType): Picture {
    match t
    case GrayResized => m.grayResized
    case GrayFull => m.grayFull
    case RgbFull => m.rgbFull
    case RgbResized => m.rgbResized
    case RgbFullWithText => m.rgbText
    case GrayNetResize => m.grayNet
  }

  /** What was handed out once is kept, so reading again changes nothing. */
  lemma ReadIsCached(f: FrameState, t: ImageType)
    requires IsRaw(f)
    ensures var (g, r) := Read(f, t);
            r == Ok(Slot(g.mats, t)) && Read(g, t) == (g, r)
  {
  }

  /** The full pictures are never stale, whatever the cache holds. */
  lemma FullReadsAreFresh(f: FrameState)
    requires IsRaw(f)
    ensures Read(f, RgbFull).1 == Ok(f.mats.rgbFull)
    ensures Read(f, RgbFullWithText).1 == Ok(Stamped(f.mats.rgbFull, f.stamp, f.id))
  {
  }

  /** Any reads in any order give what direct recomputation gives. */
  lemma {:induction false} ReadAllIsRecomputed(f: FrameState, ts: seq<ImageType>)
    requires IsRaw(f) && Coherent(f)
    ensures |ReadAll(f, ts)| == |ts|
    ensures forall i :: 0 <= i < |ts| ==> ReadAll(f, ts)[i] == Ok(Recomputed(f, ts[i]))
    decreases |ts|
  {
    if ts != [] {
      ReadIsRecomputed(f, ts[0]);
      ReadAllIsRecomputed(Read(f, ts[0]).0, ts[1..]);
    }
  }

  /** copyToThis: a picture of the old one's size and type is written over it in
      place, and then shows in every matrix that shares the memory. */
  function Overwritten(f: FrameState, p: Picture, inPlace: bool): FrameState {
    if inPlace then f.(mats := f.mats.(rgbFull := p, rgbResized := if f.sharesRgb then p else f.mats.rgbResized))
    else f.(mats := f.mats.(rgbFull := p), sharesRgb := false)
  }

  /** Memory is shared only where the scale factor keeps the picture. */
  predicate SoundlyShared(f: FrameState) {
    f.sharesRgb ==> f.scale <= 1.0 && f.mats.rgbResized == f.mats.rgbFull
  }

  lemma SharingStaysSound(f: FrameState, t: ImageType, p: Picture, inPlace: bool)
    requires SoundlyShared(f)
    ensures SoundlyShared(Read(f, t).0) && SoundlyShared(Overwritten(f, p, inPlace))
    ensures SoundlyShared(Increase(f)) && SoundlyShared(Decrease(f))
  {
  }

  /** Overwriting the pixels keeps the cache coherent exactly when they do not
      change, or nothing gray was derived before and the small colour picture was
      not derived either or shares the memory that is written to. */
  lemma OverwriteCoherent(f: FrameState, p: Picture, inPlace: bool)
    requires IsRaw(f) && Coherent(f) && SoundlyShared(f)
    ensures Coherent(Overwritten(f, p, inPlace)) <==>
            p == f.mats.rgbFull ||
            (&& IsEmpty(f.mats.grayFull) && IsEmpty(f.mats.grayResized) && IsEmpty(f.mats.grayNet)
             && (IsEmpty(f.mats.rgbResized) || (inPlace && f.sharesRgb)))
  {
  }

  /** After the raw pixels are gone and the derived ones with them, exactly these
      requests still succeed; the colour picture then comes from the JPEG. */
  lemma ClearedReads(f: FrameState, t: ImageType)
    ensures Read(Cleared(f), t).1 ==
            match t
            case RgbFull => Ok(Decoded(Cleared(f).buffer))
            case RgbFullWithText => Ok(Stamped(Decoded(Cleared(f).buffer), f.stamp, f.id))
            case RgbResized => if f.scale > 1.0 then Thrown else Ok(NoPicture)
            case GrayFull => Thrown
            case GrayResized => Thrown
            case GrayNetResize => Thrown
  {
  }

  /** Only the decrease to zero clears, and then the mask goes with the pictures. */
  lemma DecreasedFrame(f: FrameState)
    ensures var g := Decrease(f);
            && g.counter == f.counter - 1
            && (f.counter != 1 ==> g.mats == f.mats && g.mask == f.mask && g.buffer == f.buffer)
            && (f.counter == 1 ==> IsEmpty(g.mask) && forall t: ImageType :: IsEmpty(Slot(g.mats, t)))
  {
  }

  /** Reading never touches what the pin counter protects. */
  lemma ReadKeeps(f: FrameState, t: ImageType)
    ensures Read(f, t).0.counter == f.counter
    ensures Read(f, t).0.buffer == f.buffer
    ensures Read(f, t).0.mats.rgbFull == f.mats.rgbFull
    ensures !IsRaw(f) && Underived(f) ==> Underived(Read(f, t).0)
  {
  }

  /** Types whose pictures can be made from raw pixels only. */
  predicate NeedsPixels(t: ImageType, scale: real) {
    t == GrayFull || t == GrayResized || t == GrayNetResize || (t == RgbResized && scale > 1.0)
  }

  /** Without raw pixels and derived pictures exactly these requests throw. */
  lemma BareReads(f: FrameState, t: ImageType)
    requires !IsRaw(f) && Underived(f)
    ensures Read(f, t).1 == Thrown <==> NeedsPixels(t, f.scale)
  {
  }

  lemma RawReads(f: FrameState, t: ImageType)
    requires IsRaw(f)
    ensures Read(f, t).1 != Thrown
  {
  }

  /** CMatWithTimeStampImpl */
  class Frame {
    var counter: int
    var mats: Mats
    var sharesRgb: bool
    var mask: Picture
    var buffer: Jpeg
    const scale: real
    const netScale: real
    const stamp: string
    const id: nat

    function State(): FrameState
      reads this
    {
      FrameState(counter, mats, sharesRgb, mask, buffer, scale, netScale, stamp, id)
    }

    constructor (p: Picture, scale: real, netScale: real, stamp: string, id: nat)
      ensures State() == NewFrame(p, scale, netScale, stamp, id)
    {
      counter := 1;
      mats := NO_MATS.(rgbFull := p);
      sharesRgb := false;
      mask := NoPicture;
      buffer := NoJpeg;
      this.scale, this.netScale, this.stamp, this.id := scale, netScale, stamp, id;
    }

    method IncreaseRefCounter()
      modifies this
      ensures State() == Increase(old(State()))
    {
      counter := counter + 1;
    }

    method DecreaseRefCounter()
      modifies this
      ensures State() == Decrease(old(State()))
    {
      counter := counter - 1;
      if counter == 0 {
        Clear();
      }
    }

    method Clear()
      modifies this
      ensures State() == Cleared(old(State()))
    {
      if buffer.NoJpeg? {
        buffer := Encode(mats.rgbFull);
      }
      mats := NO_MATS;
      sharesRgb := false;
      mask := NoPicture;
    }

    method CopyToThis(p: Picture, inPlace: bool)
      modifies this
      ensures State() == Overwritten(old(State()), p, inPlace)
    {
      mats := mats.(rgbFull := p);
      if !inPlace {
        sharesRgb := false;
      } else if sharesRgb {
        mats := mats.(rgbResized := p);
      }
    }

    method SetMask(p: Picture)
      modifies this
      ensures State() == old(State()).(mask := p)
    {
      mask := p;
    }

    /** Returns false where cvtColor throws on an empty image. */
    method ProcessGrayImg() returns (ok: bool)
      modifies this
      ensures WithGray(old(State())) == if ok then Done(State()) else Raised
      ensures !ok ==> State() == old(State())
    {
      ok := true;
      if IsEmpty(mats.grayFull) {
        if IsEmpty(mats.rgbFull) {
          return false;
        }
        mats := mats.(grayFull := Gray(mats.rgbFull));
      }
    }

    method ProcessGrayImgResized() returns (ok: bool)
      modifies this
      ensures WithGrayResized(old(State())) == if ok then Done(State()) else Raised
      ensures !ok ==> State() == old(State())
    {
      ok := ProcessGrayImg();
      if ok && IsEmpty(mats.grayResized) {
        if scale > 1.0 {
          mats := mats.(grayResized := Resized(mats.grayFull, scale));
        } else {
          mats := mats.(grayResized := mats.grayFull);
        }
      }
    }

    method ProcessColorImgResized() returns (ok: bool)
      modifies this
      ensures WithRgbResized(old(State())) == if ok then Done(State()) else Raised
      ensures !ok ==> State() == old(State())
    {
      ok := true;
      if IsEmpty(mats.rgbResized) {
        if scale > 1.0 {
          if IsEmpty(mats.rgbFull) {
            return false;
          }
          mats := mats.(rgbResized := Resized(mats.rgbFull, scale));
          sharesRgb := false;
        } else {
          mats := mats.(rgbResized := mats.rgbFull);
          sharesRgb := true;
        }
      }
    }

    method GetMat(t: ImageType) returns (r: Outcome)
      modifies this
      ensures (State(), r) == Read(old(State()), t)
    {
      var ok := true;
      match t {
        case RgbFull =>
          if IsEmpty(mats.rgbFull) {
            return Ok(Decoded(buffer));
          }
          r := Ok(mats.rgbFull);
        case GrayFull =>
          ok := ProcessGrayImg();
          r := Ok(mats.grayFull);
        case GrayResized =>
          ok := ProcessGrayImgResized();
          r := Ok(mats.grayResized);
        case RgbResized =>
          ok := ProcessColorImgResized();
          r := Ok(mats.rgbResized);
        case RgbFullWithText =>
          var full := if IsEmpty(mats.rgbFull) then Decoded(buffer) else mats.rgbFull;
          mats := mats.(rgbText := Stamped(full, stamp, id));
          r := Ok(mats.rgbText);
        case GrayNetResize =>
          if IsEmpty(mats.grayNet) {
            ok := ProcessGrayImg();
            if ok {
              mats := mats.(grayNet := Shrink(mats.grayFull, netScale));
            }
          }
          r := Ok(mats.grayNet);
      }
      if !ok {
        r := Thrown;
      }
    }
  }
}
