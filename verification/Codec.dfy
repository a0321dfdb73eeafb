// The request and reply bodies, and the hash trailer that closes each of them.

module Codec {
  import opened Bytes
  import opened Framing

  const VERSION: u32 := 1
  const HASH_OFFSET := 8
  const TRAILER := 12

  // CNetProtocol::ANSVER
  const IMAGE_ID: u32 := 0
  const BUFFER_INDEX_OUT_OF_RANGE: u32 := 4
  const MAT_NULL_PTR: u32 := 6
  const TEXT_BUFFER: u32 := 8

  /** mIsCheckHash and the CRC of zlib, an unspecified function of the covered bytes. */
  datatype Hashing = Hashing(check: bool, crc: seq<byte> -> u64)

  /** generateHash over the bytes from `from`, without the last `without` bytes. */
  function Hash(h: Hashing, input: seq<byte>, from: nat, without: nat): u64
    requires from + without <= |input|
  {
    if h.check then h.crc(input[from..|input| - without]) else 0
  }

  /** writeHash: where the body ends, and the hash of it. */
  function Trailer(h: Hashing, body: seq<byte>): (t: seq<byte>)
    requires HASH_OFFSET <= |body| < 0x8000_0000
    ensures |t| == TRAILER
  {
    PutI32(|body|) + Be(Hash(h, body, HASH_OFFSET, 0), 8)
  }

  /** checkHash on an input long enough to hold a trailer. */
  predicate HashAccepted(h: Hashing, input: seq<byte>, hash: u64, position: i32)
    requires |input| >= HASH_OFFSET + TRAILER
  {
    h.check ==> 0 <= position <= |input| && Hash(h, input, HASH_OFFSET, TRAILER) == hash
  }

  /** Both sides hash the same bytes: a body with its own trailer is accepted. */
  lemma TrailerAccepted(h: Hashing, body: seq<byte>)
    requires HASH_OFFSET <= |body| < 0x8000_0000
    ensures HashAccepted(h, body + Trailer(h, body), Hash(h, body, HASH_OFFSET, 0), |body|)
  {
    var input := body + Trailer(h, body);
    assert input[HASH_OFFSET..|input| - TRAILER] == body[HASH_OFFSET..|body|];
  }

  // ---- requests ----

  datatype Request = Request(user: QString, pass: QString, imageType: i32,
                             answer: u32, answerData: u32, text: QString)

  predicate SendableRequest(r: Request) {
    && Sendable(r.user) && Sendable(r.pass) && Sendable(r.text)
    && |RequestBody(r, [])| + TRAILER + SIZE_OF_BEGIN < 0x8000_0000
  }

  function RequestBody(r: Request, tail: seq<byte>): (b: seq<byte>)
    requires Sendable(r.user) && Sendable(r.pass) && Sendable(r.text)
    ensures |b| >= HASH_OFFSET
  {
    Be(VERSION, 4) + (PutString(r.user) + (PutString(r.pass) + (PutI32(r.imageType) +
    (Be(r.answer, 4) + (Be(r.answerData, 4) + (PutString(r.text) + tail))))))
  }

  function RequestBytes(h: Hashing, r: Request): Payload
    requires SendableRequest(r)
  {
    var body := RequestBody(r, []);
    body + Trailer(h, body)
  }

  datatype Loaded = Loaded(answer: u32, text: QString, imageType: i32, answerData: u32)

  /** Undefined stands for inputs too short to hold what is hashed, where the
      source hands zlib a negative length. */
  datatype LoadError = WrongVersion | WrongHash | Repeated | WrongSize | Refused(answer: u32) | Undefined

  datatype LoadResult<T> = Accepted(value: T) | Rejected(error: LoadError)

  /** What load reads off the stream before it checks anything. */
  datatype Fields = Fields(version: u32, value: Loaded, position: i32, hash: u64)

  function RequestFields(input: seq<byte>): Fields {
    var (version, r1) := GetU32(input);
    var (user, r2) := GetString(r1);
    var (pass, r3) := GetString(r2);
    var (imageType, r4) := GetI32(r3);
    var (answer, r5) := GetU32(r4);
    var (answerData, r6) := GetU32(r5);
    var (text, r7) := GetString(r6);
    var (position, r8) := GetI32(r7);
    var (hash, r9) := GetU64(r8);
    Fields(version, Loaded(answer, text, imageType, answerData), position, hash)
  }

  /** CSerializer::load */
  function LoadRequest(h: Hashing, input: seq<byte>): LoadResult<Loaded> {
    var f := RequestFields(input);
    if f.version != VERSION then Rejected(WrongVersion) else Verdict(h, input, f.hash, f.position, f.value)
  }

  function Verdict<T>(h: Hashing, input: seq<byte>, hash: u64, position: i32, value: T): LoadResult<T> {
    if !h.check then Accepted(value)
    else if |input| < HASH_OFFSET + TRAILER then Rejected(Undefined)
    else if HashAccepted(h, input, hash, position) then Accepted(value)
    else Rejected(WrongHash)
  }

  lemma RequestBodyAppend(r: Request, tail: seq<byte>)
    requires Sendable(r.user) && Sendable(r.pass) && Sendable(r.text)
    ensures RequestBody(r, []) + tail == RequestBody(r, tail)
  {
    var a := PutString(r.text) + [];
    Regroup(PutString(r.text), [], tail);
    assert [] + tail == tail;
    var b := Be(r.answerData, 4) + a;
    Regroup(Be(r.answerData, 4), a, tail);
    var c := Be(r.answer, 4) + b;
    Regroup(Be(r.answer, 4), b, tail);
    var d := PutI32(r.imageType) + c;
    Regroup(PutI32(r.imageType), c, tail);
    var e := PutString(r.pass) + d;
    Regroup(PutString(r.pass), d, tail);
    var f := PutString(r.user) + e;
    Regroup(PutString(r.user), e, tail);
    Regroup(Be(VERSION, 4), f, tail);
  }

  /** The server takes over every field but the user's name and password. */
  function Echoed(r: Request): LoadResult<Loaded> {
    Accepted(Loaded(r.answer, r.text, r.imageType, r.answerData))
  }

  /** The covered bytes have the hash that came with them. */
  predicate Matches(h: Hashing, input: seq<byte>, position: i32, hash: u64)
    requires |input| >= HASH_OFFSET + TRAILER
  {
    0 <= position <= |input| && h.crc(input[HASH_OFFSET..|input| - TRAILER]) == hash
  }

  /** A message that the client lays out as it should, but with any values in it. */
  function RequestLayout(version: u32, r: Request, position: i32, hash: u64): (b: seq<byte>)
    requires Sendable(r.user) && Sendable(r.pass) && Sendable(r.text)
    ensures |b| >= HASH_OFFSET + TRAILER
  {
    Be(version, 4) + (PutString(r.user) + (PutString(r.pass) + (PutI32(r.imageType) +
    (Be(r.answer, 4) + (Be(r.answerData, 4) + (PutString(r.text) + (PutI32(position) + (Be(hash, 8) + []))))))))
  }

  /** load on any such message: accepted exactly with the right version and, when
      hashes are checked, the right hash. */
  lemma LoadRequestDecides(h: Hashing, version: u32, r: Request, position: i32, hash: u64)
    requires Sendable(r.user) && Sendable(r.pass) && Sendable(r.text)
    ensures var input := RequestLayout(version, r, position, hash);
            LoadRequest(h, input) ==
            if version != VERSION then Rejected(WrongVersion)
            else if h.check && !Matches(h, input, position, hash) then Rejected(WrongHash)
            else Echoed(r)
  {
    FieldsRead(version, r, position, hash);
    FieldsDecide(h, RequestLayout(version, r, position, hash),
                 Fields(version, Loaded(r.answer, r.text, r.imageType, r.answerData), position, hash));
  }

  lemma FieldsDecide(h: Hashing, input: seq<byte>, f: Fields)
    requires |input| >= HASH_OFFSET + TRAILER && RequestFields(input) == f
    ensures LoadRequest(h, input) ==
            if f.version != VERSION then Rejected(WrongVersion)
            else if h.check && !Matches(h, input, f.position, f.hash) then Rejected(WrongHash)
            else Accepted(f.value)
  {
  }

  lemma FieldsRead(version: u32, r: Request, position: i32, hash: u64)
    requires Sendable(r.user) && Sendable(r.pass) && Sendable(r.text)
    ensures RequestFields(RequestLayout(version, r, position, hash))
            == Fields(version, Loaded(r.answer, r.text, r.imageType, r.answerData), position, hash)
  {
    var t8 := Be(hash, 8) + [];
    var t7 := PutI32(position) + t8;
    var t6 := PutString(r.text) + t7;
    var t5 := Be(r.answerData, 4) + t6;
    var t4 := Be(r.answer, 4) + t5;
    var t3 := PutI32(r.imageType) + t4;
    var t2 := PutString(r.pass) + t3;
    GetPutU32(version, PutString(r.user) + t2);
    GetPutString(r.user, t2);
    GetPutString(r.pass, t3);
    GetPutI32(r.imageType, t4);
    GetPutU32(r.answer, t5);
    GetPutU32(r.answerData, t6);
    GetPutString(r.text, t7);
    GetPutI32(position, t8);
    GetPutU64(hash, []);
  }

  /** Any request behind the trailer of another. */
  lemma RequestWithTrailer(h: Hashing, r: Request, other: seq<byte>)
    requires SendableRequest(r) && HASH_OFFSET <= |other| < 0x8000_0000
    ensures RequestBody(r, []) + Trailer(h, other)
            == RequestLayout(VERSION, r, |other|, Hash(h, other, HASH_OFFSET, 0))
  {
    var hash := Hash(h, other, HASH_OFFSET, 0);
    var t := PutI32(|other|) + (Be(hash, 8) + []);
    assert Trailer(h, other) == t;
    RequestBodyAppend(r, t);
  }

  lemma Covered(body: seq<byte>, trailer: seq<byte>)
    requires |body| >= HASH_OFFSET && |trailer| == TRAILER
    ensures (body + trailer)[HASH_OFFSET..|body + trailer| - TRAILER] == body[HASH_OFFSET..]
  {
  }

  lemma OwnHash(h: Hashing, body: seq<byte>)
    requires h.check && |body| >= HASH_OFFSET
    ensures Hash(h, body, HASH_OFFSET, 0) == h.crc(body[HASH_OFFSET..])
  {
    assert body[HASH_OFFSET..|body| - 0] == body[HASH_OFFSET..];
  }

  /** A request changed on its way to another of the same length is taken for good
      exactly when hashes are not checked or the CRCs of the covered bytes agree. */
  lemma TamperedRequest(h: Hashing, r: Request, changed: Request)
    requires SendableRequest(r) && SendableRequest(changed)
    requires |RequestBody(changed, [])| == |RequestBody(r, [])|
    ensures var body, other := RequestBody(r, []), RequestBody(changed, []);
            LoadRequest(h, other + Trailer(h, body)) ==
            if !h.check || h.crc(other[HASH_OFFSET..]) == h.crc(body[HASH_OFFSET..]) then Echoed(changed)
            else Rejected(WrongHash)
  {
    var body, other := RequestBody(r, []), RequestBody(changed, []);
    RequestWithTrailer(h, changed, body);
    LoadRequestDecides(h, VERSION, changed, |body|, Hash(h, body, HASH_OFFSET, 0));
    Covered(other, Trailer(h, body));
    if h.check { OwnHash(h, body); }
  }

  /** What the server reads is what the client wrote, for every request. */
  lemma RequestRoundTrip(h: Hashing, r: Request)
    requires SendableRequest(r)
    ensures LoadRequest(h, RequestBytes(h, r)) == Echoed(r)
  {
    TamperedRequest(h, r, r);
  }

  // ---- replies ----

  /** An image reply; memory is the sender's memory use. */
  datatype Reply = Reply(info: QString, id: u32, date: DateTime, image: seq<byte>, memory: i32)

  predicate SendableReply(r: Reply) {
    && Sendable(r.info) && 0 < |r.image| < 0x8000_0000
    && |ReplyBody(r, [])| + TRAILER + SIZE_OF_BEGIN < 0x8000_0000
  }

  function ReplyBody(r: Reply, tail: seq<byte>): (b: seq<byte>)
    requires Sendable(r.info) && |r.image| < 0x8000_0000
    ensures |b| >= HASH_OFFSET + |r.image|
  {
    Be(VERSION, 4) + (PutString(r.info) + (Be(IMAGE_ID, 4) + (Be(r.id, 4) + (PutDate(r.date) +
    (PutI32(|r.image|) + (r.image + (PutI32(r.memory) + tail)))))))
  }

  function ReplyBytes(h: Hashing, r: Reply): Payload
    requires SendableReply(r)
  {
    var body := ReplyBody(r, []);
    body + Trailer(h, body)
  }

  /** The body of a reply without an image; only a text buffer carries more than
      its answer code. */
  function StatusBody(info: QString, answer: u32, lists: seq<byte>): (b: seq<byte>)
    requires Sendable(info)
    ensures |b| == 8 + |PutString(info)| + |lists|
  {
    Be(VERSION, 4) + (PutString(info) + (Be(answer, 4) + lists))
  }

  function StatusBytes(h: Hashing, info: QString, answer: u32, lists: seq<byte>): Payload
    requires Sendable(info) && |PutString(info)| + |lists| < 0x7000_0000
  {
    var body := StatusBody(info, answer, lists);
    body + Trailer(h, body)
  }

  datatype Received = Image(id: u32, date: DateTime, image: seq<byte>) | TextLists

  function GetRaw(rest: seq<byte>, n: nat): (seq<byte>, seq<byte>) {
    if |rest| < n then (rest + seq(n - |rest|, _ => 0), []) else (rest[..n], rest[n..])
  }

  /** CDeSerializer::load; lastId is the id of the last image taken. */
  function LoadReply(h: Hashing, input: seq<byte>, lastId: nat): LoadResult<Received> {
    var (version, r1) := GetU32(input);
    var (info, r2) := GetString(r1);
    var (answer, r3) := GetU32(r2);
    if version != VERSION then Rejected(WrongVersion)
    else if answer == IMAGE_ID then LoadImage(h, input, r3, lastId)
    else if answer == TEXT_BUFFER then Accepted(TextLists)
    else Rejected(Refused(answer))
  }

  function LoadImage(h: Hashing, input: seq<byte>, rest: seq<byte>, lastId: nat): LoadResult<Received> {
    var (id, r1) := GetU32(rest);
    if lastId == id then Rejected(Repeated)
    else
      var (date, r2) := GetDate(r1);
      var (size, r3) := GetI32(r2);
      if size <= 0 || |input| < size then Rejected(WrongSize)
      else
        var (image, r4) := GetRaw(r3, size);
        var (memory, r5) := GetI32(r4);
        var (position, r6) := GetI32(r5);
        var (hash, r7) := GetU64(r6);
        Verdict(h, input, hash, position, Image(id, date, image))
  }

  lemma ReplyBodyAppend(r: Reply, tail: seq<byte>)
    requires Sendable(r.info) && |r.image| < 0x8000_0000
    ensures ReplyBody(r, []) + tail == ReplyBody(r, tail)
  {
    var a := PutI32(r.memory) + [];
    Regroup(PutI32(r.memory), [], tail);
    assert [] + tail == tail;
    var b := r.image + a;
    Regroup(r.image, a, tail);
    var c := PutI32(|r.image|) + b;
    Regroup(PutI32(|r.image|), b, tail);
    var d := PutDate(r.date) + c;
    Regroup(PutDate(r.date), c, tail);
    var e := Be(r.id, 4) + d;
    Regroup(Be(r.id, 4), d, tail);
    var f := Be(IMAGE_ID, 4) + e;
    Regroup(Be(IMAGE_ID, 4), e, tail);
    var g := PutString(r.info) + f;
    Regroup(PutString(r.info), f, tail);
    Regroup(Be(VERSION, 4), g, tail);
  }

  /** Past the id: an image, or what claims to be one, with any trailer. */
  function ImageTail(size: i32, image: seq<byte>, memory: i32, position: i32, hash: u64): seq<byte> {
    PutI32(size) + (image + (PutI32(memory) + (PutI32(position) + (Be(hash, 8) + []))))
  }

  /** A reply laid out as the server does it, but with any values in it. */
  function ReplyLayout(version: u32, r: Reply, answer: u32, size: i32, position: i32, hash: u64): (b: seq<byte>)
    requires Sendable(r.info)
    ensures |b| >= HASH_OFFSET + TRAILER + |r.image|
  {
    Be(version, 4) + (PutString(r.info) + (Be(answer, 4) + (Be(r.id, 4) +
    (PutDate(r.date) + ImageTail(size, r.image, r.memory, position, hash)))))
  }

  lemma VerdictDecides<T>(h: Hashing, input: seq<byte>, hash: u64, position: i32, value: T)
    requires |input| >= HASH_OFFSET + TRAILER
    ensures Verdict(h, input, hash, position, value) ==
            if h.check && !Matches(h, input, position, hash) then Rejected(WrongHash) else Accepted(value)
  {
  }

  lemma ImageRead(h: Hashing, input: seq<byte>, r: Reply, position: i32, hash: u64, lastId: nat)
    requires 0 < |r.image| < 0x8000_0000 && |r.image| <= |input|
    ensures LoadImage(h, input, Be(r.id, 4) + (PutDate(r.date) + ImageTail(|r.image|, r.image, r.memory, position, hash)), lastId) ==
            if r.id == lastId then Rejected(Repeated)
            else Verdict(h, input, hash, position, Image(r.id, r.date, r.image))
  {
    var t9 := Be(hash, 8) + [];
    var t8 := PutI32(position) + t9;
    var t7 := PutI32(r.memory) + t8;
    var t6 := r.image + t7;
    var t5 := PutI32(|r.image|) + t6;
    GetPutU32(r.id, PutDate(r.date) + t5);
    GetPutDate(r.date, t5);
    GetPutI32(|r.image|, t6);
    assert t6[..|r.image|] == r.image && t6[|r.image|..] == t7;
    GetPutI32(r.memory, t8);
    GetPutI32(position, t9);
    GetPutU64(hash, []);
  }

  lemma WrongSizeRead(h: Hashing, input: seq<byte>, r: Reply, size: i32, position: i32, hash: u64, lastId: nat)
    requires size <= 0 || size > |input|
    ensures LoadImage(h, input, Be(r.id, 4) + (PutDate(r.date) + ImageTail(size, r.image, r.memory, position, hash)), lastId) ==
            Rejected(if r.id == lastId then Repeated else WrongSize)
  {
    var tail := r.image + (PutI32(r.memory) + (PutI32(position) + (Be(hash, 8) + [])));
    GetPutU32(r.id, PutDate(r.date) + (PutI32(size) + tail));
    GetPutDate(r.date, PutI32(size) + tail);
    GetPutI32(size, tail);
  }

  /** load on any such reply, whose size field is that of the image, not positive, or
      larger than the whole message: the checks in their order. */
  lemma LoadReplyDecides(h: Hashing, version: u32, r: Reply, answer: u32, size: i32, position: i32, hash: u64, lastId: nat)
    requires Sendable(r.info)
    requires size == |r.image| || size <= 0 || size > |ReplyLayout(version, r, answer, size, position, hash)|
    ensures var input := ReplyLayout(version, r, answer, size, position, hash);
            LoadReply(h, input, lastId) ==
            if version != VERSION then Rejected(WrongVersion)
            else if answer == TEXT_BUFFER then Accepted(TextLists)
            else if answer != IMAGE_ID then Rejected(Refused(answer))
            else if r.id == lastId then Rejected(Repeated)
            else if size <= 0 || size > |input| then Rejected(WrongSize)
            else if h.check && !Matches(h, input, position, hash) then Rejected(WrongHash)
            else Accepted(Image(r.id, r.date, r.image))
  {
    var input := ReplyLayout(version, r, answer, size, position, hash);
    var t3 := Be(r.id, 4) + (PutDate(r.date) + ImageTail(size, r.image, r.memory, position, hash));
    var t2 := Be(answer, 4) + t3;
    GetPutU32(version, PutString(r.info) + t2);
    GetPutString(r.info, t2);
    GetPutU32(answer, t3);
    if size <= 0 || size > |input| {
      WrongSizeRead(h, input, r, size, position, hash, lastId);
    } else {
      ImageRead(h, input, r, position, hash, lastId);
      VerdictDecides(h, input, hash, position, Image(r.id, r.date, r.image));
    }
  }

  /** A reply that ends inside its image. */
  function CutReply(r: Reply, part: seq<byte>): (b: seq<byte>)
    requires Sendable(r.info) && |r.image| < 0x8000_0000
    ensures |b| >= HASH_OFFSET + TRAILER
  {
    Be(VERSION, 4) + (PutString(r.info) + (Be(IMAGE_ID, 4) + (Be(r.id, 4) +
    (PutDate(r.date) + (PutI32(|r.image|) + part)))))
  }

  lemma CutImageRead(h: Hashing, input: seq<byte>, r: Reply, part: seq<byte>, lastId: nat)
    requires part < r.image && |r.image| < 0x8000_0000 && HASH_OFFSET + TRAILER <= |input| && |r.image| <= |input|
    ensures LoadImage(h, input, Be(r.id, 4) + (PutDate(r.date) + (PutI32(|r.image|) + part)), lastId) ==
            if r.id == lastId then Rejected(Repeated)
            else if h.check && !Matches(h, input, 0, 0) then Rejected(WrongHash)
            else Accepted(Image(r.id, r.date, part + seq(|r.image| - |part|, _ => 0)))
  {
    var t6 := PutI32(|r.image|) + part;
    GetPutU32(r.id, PutDate(r.date) + t6);
    GetPutDate(r.date, t6);
    GetPutI32(|r.image|, part);
  }

  /** A reply cut off inside its image, with enough left that its size passes: what
      is missing is filled with zeros, and so is the hash. Without hash checks the
      damaged image is taken for good. */
  lemma TruncatedReply(h: Hashing, r: Reply, part: seq<byte>, lastId: nat)
    requires Sendable(r.info) && part < r.image && |r.image| < 0x8000_0000 && |r.image| <= |CutReply(r, part)|
    ensures LoadReply(h, CutReply(r, part), lastId) ==
            if r.id == lastId then Rejected(Repeated)
            else if h.check && !Matches(h, CutReply(r, part), 0, 0) then Rejected(WrongHash)
            else Accepted(Image(r.id, r.date, part + seq(|r.image| - |part|, _ => 0)))
  {
    var t3 := Be(r.id, 4) + (PutDate(r.date) + (PutI32(|r.image|) + part));
    var t2 := Be(IMAGE_ID, 4) + t3;
    GetPutU32(VERSION, PutString(r.info) + t2);
    GetPutString(r.info, t2);
    GetPutU32(IMAGE_ID, t3);
    CutImageRead(h, CutReply(r, part), r, part, lastId);
  }

  lemma ReplyWithTrailer(h: Hashing, r: Reply, other: seq<byte>)
    requires SendableReply(r) && HASH_OFFSET <= |other| < 0x8000_0000
    ensures ReplyBody(r, []) + Trailer(h, other)
            == ReplyLayout(VERSION, r, IMAGE_ID, |r.image|, |other|, Hash(h, other, HASH_OFFSET, 0))
  {
    var hash := Hash(h, other, HASH_OFFSET, 0);
    var t := PutI32(|other|) + (Be(hash, 8) + []);
    assert Trailer(h, other) == t;
    ReplyBodyAppend(r, t);
  }

  /** An image reply changed on its way to another of the same length and with a new
      id is taken for good exactly when hashes are not checked or the CRCs of the
      covered bytes agree. */
  lemma TamperedReply(h: Hashing, r: Reply, changed: Reply, lastId: nat)
    requires SendableReply(r) && SendableReply(changed)
    requires |ReplyBody(changed, [])| == |ReplyBody(r, [])|
    ensures var body, other := ReplyBody(r, []), ReplyBody(changed, []);
            LoadReply(h, other + Trailer(h, body), lastId) ==
            if changed.id == lastId then Rejected(Repeated)
            else if !h.check || h.crc(other[HASH_OFFSET..]) == h.crc(body[HASH_OFFSET..])
            then Accepted(Image(changed.id, changed.date, changed.image))
            else Rejected(WrongHash)
  {
    var body, other := ReplyBody(r, []), ReplyBody(changed, []);
    ReplyWithTrailer(h, changed, body);
    LoadReplyDecides(h, VERSION, changed, IMAGE_ID, |changed.image|, |body|, Hash(h, body, HASH_OFFSET, 0), lastId);
    Covered(other, Trailer(h, body));
    if h.check { OwnHash(h, body); }
  }

  /** An image reply gives back its id, date and bytes exactly when the id is new. */
  lemma ReplyRoundTrip(h: Hashing, r: Reply, lastId: nat)
    requires SendableReply(r)
    ensures LoadReply(h, ReplyBytes(h, r), lastId) ==
            if r.id == lastId then Rejected(Repeated) else Accepted(Image(r.id, r.date, r.image))
  {
    TamperedReply(h, r, r, lastId);
  }

  /** Whatever arrives, an image with the last id is never accepted. */
  lemma LoadNeverRepeats(h: Hashing, input: seq<byte>, lastId: nat)
    ensures var r := LoadReply(h, input, lastId);
            r.Accepted? && r.value.Image? ==> r.value.id != lastId
  {
  }

  /** The head of a reply decides its fate when it carries no image. */
  lemma HeadRead(h: Hashing, info: QString, answer: u32, tail: seq<byte>, lastId: nat)
    requires Sendable(info) && answer != IMAGE_ID
    ensures LoadReply(h, Be(VERSION, 4) + (PutString(info) + (Be(answer, 4) + tail)), lastId) ==
            if answer == TEXT_BUFFER then Accepted(TextLists) else Rejected(Refused(answer))
  {
    var t2 := Be(answer, 4) + tail;
    GetPutU32(VERSION, PutString(info) + t2);
    GetPutString(info, t2);
    GetPutU32(answer, tail);
  }

  /** A reply that carries another answer code is refused, unless it is a text buffer. */
  lemma StatusRefused(h: Hashing, info: QString, answer: u32, lists: seq<byte>, lastId: nat)
    requires Sendable(info) && |PutString(info)| + |lists| < 0x7000_0000 && answer != IMAGE_ID
    ensures LoadReply(h, StatusBytes(h, info, answer, lists), lastId) ==
            if answer == TEXT_BUFFER then Accepted(TextLists) else Rejected(Refused(answer))
  {
    var s, a := PutString(info), Be(answer, 4);
    var t := Trailer(h, StatusBody(info, answer, lists));
    Regroup(Be(VERSION, 4), s + (a + lists), t);
    Regroup(s, a + lists, t);
    Regroup(a, lists, t);
    HeadRead(h, info, answer, lists + t, lastId);
  }

  // ---- what every message ends with ----

  /** The last twelve bytes hold the length of the body and, when hashes are checked,
      the CRC of its covered part. */
  predicate Closed(h: Hashing, bytes: seq<byte>) {
    |bytes| >= HASH_OFFSET + TRAILER &&
    var n := |bytes| - TRAILER;
    var (position, rest) := GetI32(bytes[n..]);
    position == n && GetU64(rest).0 == if h.check then h.crc(bytes[HASH_OFFSET..n]) else 0
  }

  lemma TrailerCloses(h: Hashing, body: seq<byte>)
    requires HASH_OFFSET <= |body| < 0x8000_0000
    ensures Closed(h, body + Trailer(h, body))
  {
    var bytes, hash := body + Trailer(h, body), Hash(h, body, HASH_OFFSET, 0);
    assert bytes[|body|..] == PutI32(|body|) + Be(hash, 8);
    GetPutI32(|body|, Be(hash, 8));
    assert Be(hash, 8) + [] == Be(hash, 8);
    GetPutU64(hash, []);
    assert bytes[HASH_OFFSET..|body|] == body[HASH_OFFSET..|body|];
  }

  /** Requests, images, refusals and text lists alike. */
  lemma EveryMessageClosed(h: Hashing, request: Request, reply: Reply, info: QString, answer: u32, lists: seq<byte>)
    requires SendableRequest(request) && SendableReply(reply)
    requires Sendable(info) && |PutString(info)| + |lists| < 0x7000_0000
    ensures Closed(h, RequestBytes(h, request)) && Closed(h, ReplyBytes(h, reply))
    ensures Closed(h, StatusBytes(h, info, answer, lists))
  {
    TrailerCloses(h, RequestBody(request, []));
    TrailerCloses(h, ReplyBody(reply, []));
    TrailerCloses(h, StatusBody(info, answer, lists));
  }

  /** A reply without image, read back piece by piece: version, text, answer code, and
      then the lists and nothing else up to the trailer. */
  lemma StatusLayout(h: Hashing, info: QString, answer: u32, lists: seq<byte>)
    requires Sendable(info) && |PutString(info)| + |lists| < 0x7000_0000
    ensures var (version, r1) := GetU32(StatusBytes(h, info, answer, lists));
            var (text, r2) := GetString(r1);
            var (code, r3) := GetU32(r2);
            && version == VERSION && text == info && code == answer
            && |r3| >= TRAILER && r3[..|r3| - TRAILER] == lists
  {
    var s, a := PutString(info), Be(answer, 4);
    var t := Trailer(h, StatusBody(info, answer, lists));
    Regroup(Be(VERSION, 4), s + (a + lists), t);
    Regroup(s, a + lists, t);
    Regroup(a, lists, t);
    GetPutU32(VERSION, s + (a + (lists + t)));
    GetPutString(info, a + (lists + t));
    GetPutU32(answer, lists + t);
    assert (lists + t)[..|lists + t| - TRAILER] == lists;
  }

  // ---- end to end ----

  /** A request on its way, with the pieces its frame is cut into. */
  datatype Trip = Trip(request: Request, cut: seq<seq<byte>>)

  predicate Travels(h: Hashing, t: Trip) {
    SendableRequest(t.request) && SafeCut(t.cut, RequestBytes(h, t.request))
  }

  predicate AllTravel(h: Hashing, ts: seq<Trip>) {
    ts == [] || (Travels(h, ts[0]) && AllTravel(h, ts[1..]))
  }

  function Frames(h: Hashing, ts: seq<Trip>): seq<Carried>
    requires AllTravel(h, ts)
  {
    if ts == [] then []
    else [Carried(RequestBytes(h, ts[0].request), ts[0].cut)] + Frames(h, ts[1..])
  }

  function LoadAll(h: Hashing, inputs: seq<seq<byte>>): seq<LoadResult<Loaded>> {
    if inputs == [] then [] else [LoadRequest(h, inputs[0])] + LoadAll(h, inputs[1..])
  }

  function Echoes(ts: seq<Trip>): seq<LoadResult<Loaded>> {
    if ts == [] then [] else [Echoed(ts[0].request)] + Echoes(ts[1..])
  }

  /** Requests serialized, framed, cut and read come out of the server's load
      unchanged, once each and in order, whatever the receiver had read before. */
  lemma RequestsEndToEnd(h: Hashing, l: Link, ts: seq<Trip>)
    requires AllTravel(h, ts)
    ensures var read := OnReadAll(l, Pieces(Frames(h, ts))).delivered;
            l.delivered <= read && LoadAll(h, read[|l.delivered|..]) == Echoes(ts)
  {
    FramesAreSafe(h, ts);
    StreamDelivered(l, Frames(h, ts));
    var ps := Payloads(Frames(h, ts));
    assert (l.delivered + ps)[|l.delivered|..] == ps;
    PayloadsLoaded(h, ts);
  }

  lemma {:induction false} FramesAreSafe(h: Hashing, ts: seq<Trip>)
    requires AllTravel(h, ts)
    ensures SafeCuts(Frames(h, ts))
  {
    if ts != [] { FramesAreSafe(h, ts[1..]); }
  }

  lemma {:induction false} PayloadsLoaded(h: Hashing, ts: seq<Trip>)
    requires AllTravel(h, ts)
    ensures LoadAll(h, Payloads(Frames(h, ts))) == Echoes(ts)
  {
    if ts != [] {
      RequestRoundTrip(h, ts[0].request);
      PayloadsLoaded(h, ts[1..]);
      var ps := Payloads(Frames(h, ts));
      assert ps[0] == RequestBytes(h, ts[0].request);
      assert ps[1..] == Payloads(Frames(h, ts[1..]));
    }
  }

  /** The same for one image reply on its way back, from any receiver state. */
  lemma ReplyEndToEnd(h: Hashing, r: Reply, lastId: nat, l: Link, cut: seq<seq<byte>>)
    requires SendableReply(r) && SafeCut(cut, ReplyBytes(h, r))
    ensures var inputs := OnReadAll(l, cut).delivered;
            |inputs| == |l.delivered| + 1 &&
            LoadReply(h, inputs[|l.delivered|], lastId) ==
            if r.id == lastId then Rejected(Repeated) else Accepted(Image(r.id, r.date, r.image))
  {
    FrameDelivered(l, ReplyBytes(h, r), cut);
    ReplyRoundTrip(h, r, lastId);
  }

  // ---- the serializer methods ----

  class Serializer {
    const hashing: Hashing

    constructor (hashing: Hashing)
      ensures this.hashing == hashing
    {
      this.hashing := hashing;
    }

    method WriteHash(stream: DataStream)
      requires HASH_OFFSET <= |stream.data| < 0x8000_0000
      modifies stream
      ensures stream.data == old(stream.data) + Trailer(hashing, old(stream.data))
    {
      var body := stream.data;
      stream.WriteI32(|body|);
      stream.WriteU64(Hash(hashing, body, HASH_OFFSET, 0));
    }

    method CheckHash(input: seq<byte>, hash: u64, position: i32) returns (ok: bool)
      requires |input| >= HASH_OFFSET + TRAILER
      ensures ok == HashAccepted(hashing, input, hash, position)
    {
      if hashing.check {
        var current := Hash(hashing, input, HASH_OFFSET, TRAILER);
        if position < 0 || position > |input| {
          return false;
        }
        if current != hash {
          return false;
        }
      }
      ok := true;
    }

    method ClientSerialize(r: Request) returns (outStr: seq<byte>)
      requires SendableRequest(r)
      ensures outStr == RequestBytes(hashing, r)
    {
      var stream := new DataStream([]);
      stream.WriteU32(VERSION);
      stream.WriteString(r.user);
      stream.WriteString(r.pass);
      stream.WriteI32(r.imageType);
      stream.WriteU32(r.answer);
      stream.WriteU32(r.answerData);
      stream.WriteString(r.text);
      FlatRequest(r);
      WriteHash(stream);
      outStr := stream.data;
    }

    lemma FlatRequest(r: Request)
      requires SendableRequest(r)
      ensures RequestBody(r, []) ==
              [] + Be(VERSION, 4) + PutString(r.user) + PutString(r.pass) + PutI32(r.imageType)
              + Be(r.answer, 4) + Be(r.answerData, 4) + PutString(r.text)
    {
      var a, b, c, d := Be(VERSION, 4), PutString(r.user), PutString(r.pass), PutI32(r.imageType);
      var e, f, g := Be(r.answer, 4), Be(r.answerData, 4), PutString(r.text);
      Neutral(a);
      Neutral(g);
      FlatFour(a, b, c, d + (e + (f + g)));
      FlatFour(a + b + c, d, e, f + g);
      Regroup(a + b + c + d + e, f, g);
    }

    method Load(input: seq<byte>) returns (r: LoadResult<Loaded>)
      ensures r == LoadRequest(hashing, input)
    {
      var stream := new DataStream(input);
      var version := stream.ReadU32();
      var user := stream.ReadString();
      var pass := stream.ReadString();
      var imageType := stream.ReadI32();
      var answer := stream.ReadU32();
      var answerData := stream.ReadU32();
      var text := stream.ReadString();
      var position := stream.ReadI32();
      var hash := stream.ReadU64();
      if version != VERSION {
        return Rejected(WrongVersion);
      }
      if hashing.check && |input| < HASH_OFFSET + TRAILER {
        return Rejected(Undefined);
      }
      if hashing.check {
        var ok := CheckHash(input, hash, position);
        if !ok {
          return Rejected(WrongHash);
        }
      }
      r := Accepted(Loaded(answer, text, imageType, answerData));
    }

    /** CSerializer::save with an image to send. */
    method SaveImage(r: Reply) returns (outArray: seq<byte>)
      requires SendableReply(r)
      ensures outArray == ReplyBytes(hashing, r)
    {
      var stream := new DataStream([]);
      stream.WriteU32(VERSION);
      stream.WriteString(r.info);
      stream.WriteU32(IMAGE_ID);
      stream.WriteU32(r.id);
      stream.WriteDate(r.date);
      stream.WriteI32(|r.image|);
      stream.WriteRaw(r.image);
      stream.WriteI32(r.memory);
      FlatReply(r);
      WriteHash(stream);
      outArray := stream.data;
    }

    lemma FlatReply(r: Reply)
      requires SendableReply(r)
      ensures ReplyBody(r, []) ==
              [] + Be(VERSION, 4) + PutString(r.info) + Be(IMAGE_ID, 4) + Be(r.id, 4) + PutDate(r.date)
              + PutI32(|r.image|) + r.image + PutI32(r.memory)
    {
      var a, b, c, d := Be(VERSION, 4), PutString(r.info), Be(IMAGE_ID, 4), Be(r.id, 4);
      var e, f, g, m := PutDate(r.date), PutI32(|r.image|), r.image, PutI32(r.memory);
      Neutral(a);
      Neutral(m);
      FlatFour(a, b, c, d + (e + (f + (g + m))));
      FlatFour(a + b + c, d, e, f + (g + m));
      FlatFour(a + b + c + d + e, f, g, m);
    }

    lemma Neutral(a: seq<byte>)
      ensures [] + a == a && a + [] == a
    {
    }

    lemma FlatFour(a: seq<byte>, b: seq<byte>, c: seq<byte>, d: seq<byte>)
      ensures a + (b + (c + d)) == a + b + c + d
    {
      Regroup(a, b, c + d);
      Regroup(a + b, c, d);
    }

    /** CSerializer::save with another answer code. */
    method SaveStatus(info: QString, answer: u32, lists: seq<byte>) returns (outArray: seq<byte>)
      requires Sendable(info) && |PutString(info)| + |lists| < 0x7000_0000
      ensures outArray == StatusBytes(hashing, info, answer, lists)
    {
      var stream := new DataStream([]);
      stream.WriteU32(VERSION);
      stream.WriteString(info);
      stream.WriteU32(answer);
      stream.WriteRaw(lists);
      Neutral(Be(VERSION, 4));
      FlatFour(Be(VERSION, 4), PutString(info), Be(answer, 4), lists);
      WriteHash(stream);
      outArray := stream.data;
    }

    /** CDeSerializer::load */
    method LoadFromServer(input: seq<byte>, lastId: nat) returns (r: LoadResult<Received>)
      ensures r == LoadReply(hashing, input, lastId)
    {
      var stream := new DataStream(input);
      var version := stream.ReadU32();
      var info := stream.ReadString();
      var answer := stream.ReadU32();
      if version != VERSION {
        return Rejected(WrongVersion);
      }
      if answer == TEXT_BUFFER {
        return Accepted(TextLists);
      }
      if answer != IMAGE_ID {
        return Rejected(Refused(answer));
      }
      r := LoadImageFrom(stream, input, lastId);
    }

    method LoadImageFrom(stream: DataStream, input: seq<byte>, lastId: nat) returns (r: LoadResult<Received>)
      requires stream.Valid()
      modifies stream
      ensures r == LoadImage(hashing, input, old(stream.Rest()), lastId)
    {
      var id := stream.ReadU32();
      if lastId == id {
        return Rejected(Repeated);
      }
      var date := stream.ReadDate();
      var size := stream.ReadI32();
      if size <= 0 || |input| < size {
        return Rejected(WrongSize);
      }
      var image := ReadRawData(stream, size);
      var memory := stream.ReadI32();
      var position := stream.ReadI32();
      var hash := stream.ReadU64();
      if hashing.check && |input| < HASH_OFFSET + TRAILER {
        return Rejected(Undefined);
      }
      if hashing.check {
        var ok := CheckHash(input, hash, position);
        if !ok {
          return Rejected(WrongHash);
        }
      }
      r := Accepted(Image(id, date, image));
    }

    /** readRawData into a zero-filled buffer of n bytes. */
    method ReadRawData(stream: DataStream, n: nat) returns (image: seq<byte>)
      requires stream.Valid()
      modifies stream`pos
      ensures stream.Valid() && (image, stream.Rest()) == GetRaw(old(stream.Rest()), n)
    {
      ghost var before := stream.Rest();
      image := stream.ReadBytes(n);
      if |image| < n {
        assert image == before && stream.Rest() == [];
        image := image + seq(n - |image|, _ => 0);
      } else {
        assert before[..n] == image && before[n..] == stream.Rest();
      }
    }
  }
}
