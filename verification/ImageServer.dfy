// The image server's answer to one request: which of its buffers is meant, what
// the single reply carries, and what the client makes of it.

module ImageServer {
  import opened Bytes
  import opened Framing
  import opened Codec
  import Strings

  // CNetProtocol::ANSVER
  const CODE_PARSE_FAIL: u32 := 3
  const IMAGE_TYPE_OUT_OF_RANGE: u32 := 7
  const NOT_IMPLEMENTED: u32 := 10

  const IMAGE_TYPES := 6

  type Jpeg = b: seq<byte> | 0 < |b| < 0x5000_0000 witness [0]
  type Lists = b: seq<byte> | |b| < 0x5000_0000
  type Note = s: QString | Sendable(s) && |PutString(s)| < 0x1000_0000 witness NullString

  /** What the newest frame of a buffer is good for: its pictures of each type,
      encoded with the quality asked for. */
  datatype Slot = Empty | Holding(id: u32, date: DateTime, encode: (i32, u32) -> Jpeg)

  /** All that a reply depends on besides the request: the buffers, the text
      buffer, the memory use, the text written into this reply, and what the
      variables hold that load fills, in case it fails. */
  datatype Scene = Scene(slots: seq<Slot>, lists: Lists, memory: i32, note: Note, leftover: Loaded)

  function Ascii(units: seq<u16>): (s: string)
    ensures |s| == |units|
  {
    seq(|units|, i requires 0 <= i < |units| => if units[i] < 0x80 then units[i] as char else '?')
  }

  function Units(s: string): (u: seq<u16>)
    requires forall i :: 0 <= i < |s| ==> s[i] as int < 0x80
    ensures |u| == |s|
  {
    seq(|s|, i requires 0 <= i < |s| => s[i] as int)
  }

  datatype BufferId = Buffer(id: nat) | NotANumber

  /** toUInt */
  function ToUInt(text: QString): BufferId {
    if text.NullString? then NotANumber
    else
      var s := Strings.Unsigned(Strings.Trimmed(Ascii(text.units)));
      if Strings.AllDigits(s) && Strings.Number(s) < 0x1_0000_0000 then Buffer(Strings.Number(s)) else NotANumber
  }

  /** parse, on a server with that many buffers */
  function Parsed(answer: u32, text: QString, buffers: nat): u32 {
    if answer != IMAGE_ID then answer
    else match ToUInt(text)
         case NotANumber => CODE_PARSE_FAIL
         case Buffer(id) => if id < buffers then IMAGE_ID else BUFFER_INDEX_OUT_OF_RANGE
  }

  /** The call of save that receiveCallBack makes: for which buffer, with which code. */
  datatype Call = Call(buffer: nat, code: u32)

  function CallFor(r: Loaded, buffers: nat): (c: Call)
    ensures buffers > 0 ==> c.buffer < buffers
  {
    var result := Parsed(r.answer, r.text, buffers);
    if result == IMAGE_ID then
      if 0 <= r.imageType < IMAGE_TYPES then Call(ToUInt(r.text).id, IMAGE_ID) else Call(0, IMAGE_TYPE_OUT_OF_RANGE)
    else if result == BUFFER_INDEX_OUT_OF_RANGE || result == TEXT_BUFFER then Call(0, result)
    else Call(0, NOT_IMPLEMENTED)
  }

  /** save: a buffer without a frame turns every code into MAT_NULL_PTR. */
  function Saved(h: Hashing, scene: Scene, c: Call, imageType: i32, quality: u32): Payload
    requires c.buffer < |scene.slots|
  {
    match scene.slots[c.buffer]
    case Empty => StatusBytes(h, scene.note, MAT_NULL_PTR, [])
    case Holding(id, date, encode) =>
      if c.code == IMAGE_ID then ImageBytes(h, Reply(scene.note, id, date, encode(imageType, quality), scene.memory))
      else StatusBytes(h, scene.note, c.code, if c.code == TEXT_BUFFER then scene.lists else [])
  }

  function ImageBytes(h: Hashing, r: Reply): Payload
    requires Sendable(r.info) && |PutString(r.info)| < 0x1000_0000 && 0 < |r.image| < 0x5000_0000
  {
    FitsFrame(r);
    ReplyBytes(h, r)
  }

  lemma FitsFrame(r: Reply)
    requires Sendable(r.info) && |PutString(r.info)| < 0x1000_0000 && 0 < |r.image| < 0x5000_0000
    ensures SendableReply(r)
  {
  }

  function Taken(h: Hashing, scene: Scene, input: seq<byte>): Loaded {
    var got := LoadRequest(h, input);
    if got.Accepted? then got.value else scene.leftover
  }

  /** The one reply that receiveCallBack sends when there is a buffer at all. */
  function ReplyTo(h: Hashing, scene: Scene, input: seq<byte>): Payload
    requires scene.slots != []
  {
    var r := Taken(h, scene, input);
    Saved(h, scene, CallFor(r, |scene.slots|), r.imageType, r.answerData)
  }

  // ---- the client's side ----

  /** An image request as the client configures it. */
  datatype Wish = Wish(user: QString, pass: QString, imageId: u32, imageType: i32, quality: u32)

  /** sendImageRequest */
  function ImageRequest(w: Wish): Request {
    Request(w.user, w.pass, w.imageType, IMAGE_ID, w.quality, NumberText(w.imageId))
  }

  /** The same for a receiver of the text buffer, which asks with image type MAX_VALUE. */
  function TextRequest(w: Wish): Request {
    Request(w.user, w.pass, IMAGE_TYPES, TEXT_BUFFER, w.quality, NumberText(w.imageId))
  }

  /** QString::number */
  function NumberText(n: nat): QString {
    DigitsAreAscii(n);
    Text(Units(Strings.Decimal(n)))
  }

  lemma DigitsAreAscii(n: nat)
    ensures forall i :: 0 <= i < |Strings.Decimal(n)| ==> Strings.IsDigit(Strings.Decimal(n)[i])
    ensures forall i :: 0 <= i < |Strings.Decimal(n)| ==> Strings.Decimal(n)[i] as int < 0x80
  {
  }

  lemma NumberSurvives(n: nat)
    requires n < 0x1_0000_0000
    ensures ToUInt(NumberText(n)) == Buffer(n)
  {
    DigitsAreAscii(n);
    var s := Strings.Decimal(n);
    assert Ascii(Units(s)) == s;
    assert Strings.IsDigit(s[0]) && Strings.IsDigit(s[|s| - 1]);
    Strings.NumberOfDecimal(n);
  }

  predicate Served(w: Wish, slots: seq<Slot>) {
    w.imageId < |slots| && 0 <= w.imageType < IMAGE_TYPES && slots[w.imageId].Holding?
  }

  /** Why an image is not served. */
  function WhyNot(w: Wish, slots: seq<Slot>): u32 {
    if w.imageId >= |slots| then BUFFER_INDEX_OUT_OF_RANGE
    else if w.imageType < 0 || w.imageType >= IMAGE_TYPES then IMAGE_TYPE_OUT_OF_RANGE
    else MAT_NULL_PTR
  }

  /** What the client gets to see: the image, unless it has it already; otherwise
      the reason, as long as buffer 0 holds a frame. */
  function Seen(w: Wish, slots: seq<Slot>, lastId: nat): LoadResult<Received>
    requires slots != []
  {
    if Served(w, slots) then
      var slot := slots[w.imageId];
      if slot.id == lastId then Rejected(Repeated)
      else Accepted(Image(slot.id, slot.date, slot.encode(w.imageType, w.quality)))
    else if slots[0].Empty? then Rejected(Refused(MAT_NULL_PTR))
    else Rejected(Refused(WhyNot(w, slots)))
  }

  /** What load makes of what save wrote. */
  lemma SavedSeen(h: Hashing, scene: Scene, c: Call, imageType: i32, quality: u32, lastId: nat)
    requires c.buffer < |scene.slots|
    ensures LoadReply(h, Saved(h, scene, c, imageType, quality), lastId) ==
            match scene.slots[c.buffer]
            case Empty => Rejected(Refused(MAT_NULL_PTR))
            case Holding(id, date, encode) =>
              if c.code == TEXT_BUFFER then Accepted(TextLists)
              else if c.code != IMAGE_ID then Rejected(Refused(c.code))
              else if id == lastId then Rejected(Repeated)
              else Accepted(Image(id, date, encode(imageType, quality)))
  {
    match scene.slots[c.buffer]
    case Empty =>
      StatusRefused(h, scene.note, MAT_NULL_PTR, [], lastId);
    case Holding(id, date, encode) =>
      if c.code == IMAGE_ID {
        var r := Reply(scene.note, id, date, encode(imageType, quality), scene.memory);
        FitsFrame(r);
        ReplyRoundTrip(h, r, lastId);
      } else {
        StatusRefused(h, scene.note, c.code, if c.code == TEXT_BUFFER then scene.lists else [], lastId);
      }
  }

  function Asked(w: Wish): Loaded { Loaded(IMAGE_ID, NumberText(w.imageId), w.imageType, w.quality) }

  lemma CallForWish(w: Wish, buffers: nat)
    ensures CallFor(Asked(w), buffers) ==
            if w.imageId >= buffers then Call(0, BUFFER_INDEX_OUT_OF_RANGE)
            else if 0 <= w.imageType < IMAGE_TYPES then Call(w.imageId, IMAGE_ID)
            else Call(0, IMAGE_TYPE_OUT_OF_RANGE)
  {
    NumberSurvives(w.imageId);
  }

  /** From the client's request to what its load makes of the reply. */
  lemma ImageServedExactly(h: Hashing, w: Wish, scene: Scene, lastId: nat)
    requires SendableRequest(ImageRequest(w)) && scene.slots != []
    ensures LoadReply(h, ReplyTo(h, scene, RequestBytes(h, ImageRequest(w))), lastId) == Seen(w, scene.slots, lastId)
  {
    WishTaken(h, w, scene);
    WishSaved(h, w, scene, lastId);
  }

  lemma WishTaken(h: Hashing, w: Wish, scene: Scene)
    requires SendableRequest(ImageRequest(w))
    ensures Taken(h, scene, RequestBytes(h, ImageRequest(w))) == Asked(w)
  {
    RequestRoundTrip(h, ImageRequest(w));
  }

  lemma WishSaved(h: Hashing, w: Wish, scene: Scene, lastId: nat)
    requires scene.slots != []
    ensures LoadReply(h, Saved(h, scene, CallFor(Asked(w), |scene.slots|), w.imageType, w.quality), lastId)
            == Seen(w, scene.slots, lastId)
  {
    CallForWish(w, |scene.slots|);
    SavedSeen(h, scene, CallFor(Asked(w), |scene.slots|), w.imageType, w.quality, lastId);
  }

  /** A client that gets no image is told why exactly when nothing but the frame
      is missing or buffer 0, whatever buffer was meant, holds a frame. */
  lemma ReasonGivenExactly(h: Hashing, w: Wish, scene: Scene, lastId: nat)
    requires SendableRequest(ImageRequest(w)) && scene.slots != [] && !Served(w, scene.slots)
    ensures LoadReply(h, ReplyTo(h, scene, RequestBytes(h, ImageRequest(w))), lastId)
            == Rejected(Refused(WhyNot(w, scene.slots)))
            <==> WhyNot(w, scene.slots) == MAT_NULL_PTR || scene.slots[0].Holding?
  {
    ImageServedExactly(h, w, scene, lastId);
  }

  /** One camera without a frame yet, and a request for a camera that is not there:
      the client is told that the image is empty. */
  lemma WrongReasonGiven(h: Hashing, lists: Lists, memory: i32, note: Note, leftover: Loaded)
    ensures var w := Wish(NullString, NullString, 1, 2, 95);
            var scene := Scene([Empty], lists, memory, note, leftover);
            && SendableRequest(ImageRequest(w)) && WhyNot(w, scene.slots) == BUFFER_INDEX_OUT_OF_RANGE
            && LoadReply(h, ReplyTo(h, scene, RequestBytes(h, ImageRequest(w))), NO_LAST)
               == Rejected(Refused(MAT_NULL_PTR))
  {
    var w := Wish(NullString, NullString, 1, 2, 95);
    ImageServedExactly(h, w, Scene([Empty], lists, memory, note, leftover), NO_LAST);
  }

  const NO_LAST: nat := 0xFFFF_FFFF

  /** The text buffer, which belongs to no camera, is served exactly while camera 0
      has a frame. */
  lemma TextServedExactly(h: Hashing, w: Wish, scene: Scene, lastId: nat)
    requires SendableRequest(TextRequest(w)) && scene.slots != []
    ensures LoadReply(h, ReplyTo(h, scene, RequestBytes(h, TextRequest(w))), lastId) ==
            if scene.slots[0].Holding? then Accepted(TextLists) else Rejected(Refused(MAT_NULL_PTR))
  {
    RequestRoundTrip(h, TextRequest(w));
    var r := Loaded(TEXT_BUFFER, NumberText(w.imageId), IMAGE_TYPES, w.quality);
    assert Taken(h, scene, RequestBytes(h, TextRequest(w))) == r;
    SavedSeen(h, scene, CallFor(r, |scene.slots|), IMAGE_TYPES, w.quality, lastId);
  }

  /** The very bytes of the reply to an image request. */
  lemma ReplyBytesExactly(h: Hashing, w: Wish, scene: Scene)
    requires SendableRequest(ImageRequest(w)) && scene.slots != []
    ensures var reply := ReplyTo(h, scene, RequestBytes(h, ImageRequest(w)));
            if Served(w, scene.slots) then
              var slot := scene.slots[w.imageId];
              reply == ImageBytes(h, Reply(scene.note, slot.id, slot.date, slot.encode(w.imageType, w.quality), scene.memory))
            else
              reply == StatusBytes(h, scene.note,
                                   if scene.slots[0].Empty? then MAT_NULL_PTR else WhyNot(w, scene.slots), [])
  {
    WishTaken(h, w, scene);
    CallForWish(w, |scene.slots|);
  }

  /** And of the reply to a request for the text buffer. */
  lemma TextBytesExactly(h: Hashing, w: Wish, scene: Scene)
    requires SendableRequest(TextRequest(w)) && scene.slots != [] && scene.slots[0].Holding?
    ensures ReplyTo(h, scene, RequestBytes(h, TextRequest(w))) == StatusBytes(h, scene.note, TEXT_BUFFER, scene.lists)
  {
    RequestRoundTrip(h, TextRequest(w));
  }

  // ---- any request whatever ----

  /** What a client gets to see of buffer 0, through which every code is sent. */
  function CodeSeen(slots: seq<Slot>, code: u32): LoadResult<Received>
    requires slots != []
  {
    if slots[0].Empty? then Rejected(Refused(MAT_NULL_PTR))
    else if code == TEXT_BUFFER then Accepted(TextLists)
    else Rejected(Refused(code))
  }

  /** What a client deserves, however it asked: an image request with a number of a
      buffer and one of the six types is served from that buffer; one with a number
      too large, or another type, is told so; BUFFER_INDEX_OUT_OF_RANGE comes back as
      it was sent and the text buffer is served; all the rest, texts that are no
      number among them, is not implemented. */
  function Deserved(r: Loaded, slots: seq<Slot>, lastId: nat): LoadResult<Received>
    requires slots != []
  {
    var number := ToUInt(r.text);
    if r.answer == TEXT_BUFFER || r.answer == BUFFER_INDEX_OUT_OF_RANGE then CodeSeen(slots, r.answer)
    else if r.answer != IMAGE_ID || number.NotANumber? then CodeSeen(slots, NOT_IMPLEMENTED)
    else if number.id >= |slots| then CodeSeen(slots, BUFFER_INDEX_OUT_OF_RANGE)
    else if r.imageType < 0 || r.imageType >= IMAGE_TYPES then CodeSeen(slots, IMAGE_TYPE_OUT_OF_RANGE)
    else match slots[number.id]
         case Empty => Rejected(Refused(MAT_NULL_PTR))
         case Holding(id, date, encode) =>
           if id == lastId then Rejected(Repeated)
           else Accepted(Image(id, date, encode(r.imageType, r.answerData)))
  }

  /** Whatever string arrives: a string that load rejects is answered like the values
      left over. */
  lemma AnyRequestSeen(h: Hashing, scene: Scene, input: seq<byte>, lastId: nat)
    requires scene.slots != []
    ensures var got := LoadRequest(h, input);
            LoadReply(h, ReplyTo(h, scene, input), lastId) ==
            Deserved(if got.Accepted? then got.value else scene.leftover, scene.slots, lastId)
  {
    LoadedSeen(h, scene, Taken(h, scene, input), lastId);
  }

  lemma LoadedSeen(h: Hashing, scene: Scene, r: Loaded, lastId: nat)
    requires scene.slots != []
    ensures LoadReply(h, Saved(h, scene, CallFor(r, |scene.slots|), r.imageType, r.answerData), lastId)
            == Deserved(r, scene.slots, lastId)
  {
    var c := CallFor(r, |scene.slots|);
    SavedSeen(h, scene, c, r.imageType, r.answerData, lastId);
    if c.code != IMAGE_ID {
      assert c.buffer == 0 && Deserved(r, scene.slots, lastId) == CodeSeen(scene.slots, c.code);
    }
  }

  /** A text with anything else in it is no number. */
  lemma OtherTextsAreNoNumber(text: string, i: nat)
    requires forall k :: 0 <= k < |text| ==> text[k] as int < 0x80
    requires i < |text| && !Strings.IsSpace(text[i]) && !Strings.IsDigit(text[i]) && text[i] != '+'
    ensures ToUInt(Text(Units(text))) == NotANumber
  {
    assert Ascii(Units(text)) == text;
    Strings.ForeignCharacter(text, i);
  }

  /** The number of a buffer may have white space around it and a plus in front; one
      that does not fit 32 bits is none, and neither is an empty or a null text. */
  lemma NumbersRead(a: string, plus: bool, n: nat, b: string)
    requires Strings.AllSpace(a) && Strings.AllSpace(b)
    requires forall i :: 0 <= i < |Strings.Spelling(a, plus, n, b)| ==> Strings.Spelling(a, plus, n, b)[i] as int < 0x80
    ensures ToUInt(Text(Units(Strings.Spelling(a, plus, n, b)))) ==
            if n < 0x1_0000_0000 then Buffer(n) else NotANumber
    ensures ToUInt(NullString) == ToUInt(Text([])) == NotANumber
  {
    var s := Strings.Spelling(a, plus, n, b);
    assert Ascii(Units(s)) == s;
    Strings.SpellingRead(a, plus, n, b);
    assert Ascii([]) == [] && Strings.Trimmed([]) == [];
  }

  // ---- the object ----

  /** CImageSenderWorker; replies records every string it has sent. */
  class ImageSender {
    const serializer: Serializer
    var replies: seq<Payload>

    constructor (hashing: Hashing)
      ensures replies == [] && serializer.hashing == hashing
    {
      serializer := new Serializer(hashing);
      replies := [];
    }

    /** receiveCallBack: one reply to every string received. On a server without
        buffers save asks for the last frame of buffer 0, and the program ends. */
    method ReceiveCallBack(input: seq<byte>, scene: Scene) returns (alive: bool)
      modifies this
      ensures alive <==> scene.slots != []
      ensures replies == if alive then old(replies) + [ReplyTo(serializer.hashing, scene, input)] else old(replies)
    {
      var got := serializer.Load(input);
      var r := scene.leftover;
      if got.Accepted? {
        r := got.value;
      }
      var result := Parse(r.answer, r.text, |scene.slots|);
      var call;
      if result == IMAGE_ID {
        if 0 <= r.imageType < IMAGE_TYPES {
          call := Call(ToUInt(r.text).id, IMAGE_ID);
        } else {
          call := Call(0, IMAGE_TYPE_OUT_OF_RANGE);
        }
      } else if result == BUFFER_INDEX_OUT_OF_RANGE {
        call := Call(0, BUFFER_INDEX_OUT_OF_RANGE);
      } else if result == TEXT_BUFFER {
        call := Call(0, TEXT_BUFFER);
      } else {
        call := Call(0, NOT_IMPLEMENTED);
      }
      if call.buffer >= |scene.slots| {
        return false;
      }
      var str := Save(scene, call, r.imageType, r.answerData);
      replies := replies + [str];
      alive := true;
    }

    /** save, past the bounds check on the buffer */
    method Save(scene: Scene, call: Call, imageType: i32, quality: u32) returns (str: Payload)
      requires call.buffer < |scene.slots|
      ensures str == Saved(serializer.hashing, scene, call, imageType, quality)
    {
      match scene.slots[call.buffer] {
        case Empty =>
          str := serializer.SaveStatus(scene.note, MAT_NULL_PTR, []);
        case Holding(id, date, encode) =>
          if call.code == IMAGE_ID {
            var r := Reply(scene.note, id, date, encode(imageType, quality), scene.memory);
            FitsFrame(r);
            str := serializer.SaveImage(r);
          } else {
            str := serializer.SaveStatus(scene.note, call.code, if call.code == TEXT_BUFFER then scene.lists else []);
          }
      }
    }

    method Parse(answer: u32, text: QString, buffers: nat) returns (code: u32)
      ensures code == Parsed(answer, text, buffers)
    {
      if answer == IMAGE_ID {
        var number := ToUInt(text);
        if number.Buffer? {
          if number.id < buffers {
            return IMAGE_ID;
          }
          return BUFFER_INDEX_OUT_OF_RANGE;
        }
        return CODE_PARSE_FAIL;
      }
      code := answer;
    }
  }
}
