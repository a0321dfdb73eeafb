// Length-prefixed framing and the reassembly of what the socket delivers.

module Framing {
  import opened Bytes

  const MAGIC := 0xA0B0_C0D0
  const SIZE_OF_BEGIN := 8

  /** What fits the signed 32-bit length field together with the header. */
  type Payload = p: seq<byte> | |p| + SIZE_OF_BEGIN < 0x8000_0000

  /** insertBeginInfo into an empty array. */
  function FrameOf(p: Payload): (f: seq<byte>)
    ensures |f| == SIZE_OF_BEGIN + |p|
  {
    Be(MAGIC, 4) + PutI32(SIZE_OF_BEGIN + |p|) + p
  }

  predicate StartsWithMagic(chunk: seq<byte>) { GetU32(chunk).0 == MAGIC }

  /** Receiver state, and every byte string handed to the worker so far. */
  datatype Link = Link(buffer: seq<byte>, size: i32, delivered: seq<seq<byte>>)

  /** QByteArray::mid(0, n): a negative count means everything. */
  function Prefix(b: seq<byte>, n: int): seq<byte> {
    if n < 0 || n > |b| then b else b[..n]
  }

  /** QByteArray::mid(8) */
  function WithoutHeader(b: seq<byte>): seq<byte> {
    if |b| < SIZE_OF_BEGIN then [] else b[SIZE_OF_BEGIN..]
  }

  function Deliver(l: Link, b: seq<byte>): Link { l.(delivered := l.delivered + [b]) }

  /** onReadFinished without encryption. */
  function OnRead(l: Link, chunk: seq<byte>): Link {
    if StartsWithMagic(chunk) then OnHeader(l, GetI32(GetU32(chunk).1).0, chunk) else OnMore(l, chunk)
  }

  function OnHeader(l: Link, size: i32, chunk: seq<byte>): Link {
    var sized := l.(size := size);
    if size <= 0 then sized
    else
      var started := sized.(buffer := WithoutHeader(chunk));
      if size != |chunk| then started else Deliver(started, started.buffer)
  }

  function OnMore(l: Link, chunk: seq<byte>): Link {
    var grown := l.(buffer := l.buffer + chunk);
    if |grown.buffer| == l.size - SIZE_OF_BEGIN then Deliver(grown, grown.buffer)
    else if |grown.buffer| > l.size - SIZE_OF_BEGIN then Deliver(grown, Prefix(grown.buffer, l.size))
    else grown
  }

  function OnReadAll(l: Link, chunks: seq<seq<byte>>): Link
    decreases |chunks|
  {
    if chunks == [] then l else OnReadAll(OnRead(l, chunks[0]), chunks[1..])
  }

  function Concat(chunks: seq<seq<byte>>): seq<byte> {
    if chunks == [] then [] else chunks[0] + Concat(chunks[1..])
  }

  /** A cut whose header arrives in one piece; later pieces may be empty. */
  predicate HeaderWhole(chunks: seq<seq<byte>>, frame: seq<byte>) {
    chunks != [] && Concat(chunks) == frame && |chunks[0]| >= SIZE_OF_BEGIN
  }

  predicate NoLaterMagic(chunks: seq<seq<byte>>) {
    forall i :: 1 <= i < |chunks| ==> !StartsWithMagic(chunks[i])
  }

  /** The cut does not end in an empty piece. */
  predicate EndsFilled(chunks: seq<seq<byte>>) {
    |chunks| == 1 || (|chunks| > 1 && chunks[|chunks| - 1] != [])
  }

  predicate SafeCut(chunks: seq<seq<byte>>, p: Payload) {
    HeaderWhole(chunks, FrameOf(p)) && NoLaterMagic(chunks) && EndsFilled(chunks)
  }

  // ---- headers ----

  lemma HeaderRead(p: Payload, tail: seq<byte>)
    ensures StartsWithMagic(FrameOf(p) + tail)
    ensures GetI32(GetU32(FrameOf(p) + tail).1).0 == SIZE_OF_BEGIN + |p|
    ensures WithoutHeader(FrameOf(p) + tail) == p + tail
  {
    var size: i32 := SIZE_OF_BEGIN + |p|;
    assert FrameOf(p) + tail == Be(MAGIC, 4) + (PutI32(size) + (p + tail));
    GetPutU32(MAGIC, PutI32(size) + (p + tail));
    GetPutI32(size, p + tail);
  }

  /** The header survives in any piece of at least eight bytes. */
  lemma HeaderOfPiece(p: Payload, piece: seq<byte>)
    requires |piece| >= SIZE_OF_BEGIN && piece <= FrameOf(p)
    ensures StartsWithMagic(piece)
    ensures GetI32(GetU32(piece).1).0 == SIZE_OF_BEGIN + |p|
    ensures WithoutHeader(piece) == p[..|piece| - SIZE_OF_BEGIN]
  {
    HeaderRead(p, []);
    var f := FrameOf(p);
    assert f + [] == f;
    assert piece[..4] == f[..4];
    assert piece[4..][..4] == f[4..][..4];
    assert piece == f[..|piece|];
  }

  /** The eight bytes of a header, written out. */
  lemma HeaderBytes(p: Payload)
    ensures var n, f := SIZE_OF_BEGIN + |p|, FrameOf(p);
            && f[..8] == [0xA0, 0xB0, 0xC0, 0xD0] + [n / 0x100 / 0x100 / 0x100 % 0x100, n / 0x100 / 0x100 % 0x100, n / 0x100 % 0x100, n % 0x100]
            && f[8..] == p
  {
    FourBytes(MAGIC);
    FourBytes(SIZE_OF_BEGIN + |p|);
    assert FrameOf(p)[..8] == Be(MAGIC, 4) + Be(SIZE_OF_BEGIN + |p|, 4);
  }

  // ---- one frame ----

  /** Reading frame p, of which the bytes in `rest` are still to come. */
  predicate Underway(l: Link, p: Payload, rest: seq<byte>) {
    l.size == SIZE_OF_BEGIN + |p| && l.buffer + rest == p
  }

  function Copies<T>(x: T, n: nat): (r: seq<T>)
    ensures |r| == n
  {
    if n == 0 then [] else [x] + Copies(x, n - 1)
  }

  /** The pieces after which nothing of the cut is left: the last filled one and
      the empty ones behind it. */
  function Finals(chunks: seq<seq<byte>>): nat {
    if chunks == [] then 0
    else (if Concat(chunks[1..]) == [] then 1 else 0) + Finals(chunks[1..])
  }

  lemma {:induction false} FinalsOfFilled(chunks: seq<seq<byte>>)
    requires chunks != []
    ensures Finals(chunks) >= 1
    ensures Finals(chunks) == 1 <==> EndsFilled(chunks)
    ensures |chunks| > 1 && EndsFilled(chunks) ==> Concat(chunks[1..]) != []
  {
    if |chunks| > 1 {
      var rest := chunks[1..];
      FinalsOfFilled(rest);
      assert rest[|rest| - 1] == chunks[|chunks| - 1];
      if |rest| == 1 {
        assert rest[1..] == [];
        assert Concat(rest) == rest[0];
      }
    }
  }

  lemma OnePiece(l: Link, p: Payload, chunk: seq<byte>, rest: seq<byte>)
    requires Underway(l, p, chunk + rest) && !StartsWithMagic(chunk)
    ensures var next := OnRead(l, chunk);
            && Underway(next, p, rest)
            && next.delivered == if rest == [] then l.delivered + [p] else l.delivered
  {
    assert (l.buffer + chunk) + rest == p;
    if rest == [] {
      assert l.buffer + chunk == p;
    }
  }

  /** As long as the end of a frame is missing, nothing is delivered. */
  lemma HeadDeliversNothing(l: Link, p: Payload, at: nat)
    requires SIZE_OF_BEGIN <= at < |FrameOf(p)|
    ensures OnRead(l, FrameOf(p)[..at]).delivered == l.delivered
  {
    HeaderOfPiece(p, FrameOf(p)[..at]);
  }

  /** The header in one datagram and the payload in the next is a safe cut. */
  lemma CutBehindHeader(p: Payload)
    requires p != [] && !StartsWithMagic(p)
    ensures SafeCut([FrameOf(p)[..SIZE_OF_BEGIN], p], p)
  {
    var cut := [FrameOf(p)[..SIZE_OF_BEGIN], p];
    assert FrameOf(p)[SIZE_OF_BEGIN..] == p;
    assert cut[1..] == [p] && [p][1..] == [];
    assert Concat([p]) == p + [];
    assert Concat(cut) == FrameOf(p)[..SIZE_OF_BEGIN] + p;
  }

  lemma {:induction false} RestOfFrame(l: Link, p: Payload, chunks: seq<seq<byte>>)
    requires Underway(l, p, Concat(chunks))
    requires forall i :: 0 <= i < |chunks| ==> !StartsWithMagic(chunks[i])
    ensures OnReadAll(l, chunks).delivered == l.delivered + Copies<seq<byte>>(p, Finals(chunks))
    decreases |chunks|
  {
    if chunks != [] {
      var rest := chunks[1..];
      OnePiece(l, p, chunks[0], Concat(rest));
      RestOfFrame(OnRead(l, chunks[0]), p, rest);
      Regroup(l.delivered, [p], Copies<seq<byte>>(p, Finals(rest)));
    }
  }

  lemma FirstPiece(l: Link, p: Payload, chunks: seq<seq<byte>>)
    requires HeaderWhole(chunks, FrameOf(p))
    ensures var next := OnRead(l, chunks[0]);
            && Underway(next, p, Concat(chunks[1..]))
            && next.delivered == if Concat(chunks[1..]) == [] then l.delivered + [p] else l.delivered
  {
    var rest := Concat(chunks[1..]);
    var n := |chunks[0]|;
    assert FrameOf(p) == chunks[0] + rest;
    HeaderOfPiece(p, chunks[0]);
    assert rest == FrameOf(p)[n..] == p[n - SIZE_OF_BEGIN..];
    assert (n == |FrameOf(p)|) == (rest == []);
    assert p[..|p|] == p;
  }

  /** Whatever state the receiver was in, a frame cut with its header whole and no
      later piece posing as a header is delivered once for its last filled piece
      and once more for every empty piece behind that. */
  lemma FrameDeliveries(l: Link, p: Payload, chunks: seq<seq<byte>>)
    requires HeaderWhole(chunks, FrameOf(p)) && NoLaterMagic(chunks)
    ensures OnReadAll(l, chunks).delivered == l.delivered + Copies<seq<byte>>(p, Finals(chunks))
  {
    FirstPiece(l, p, chunks);
    RestOfFrame(OnRead(l, chunks[0]), p, chunks[1..]);
    Regroup(l.delivered, [p], Copies<seq<byte>>(p, Finals(chunks[1..])));
  }

  lemma FrameDelivered(l: Link, p: Payload, chunks: seq<seq<byte>>)
    requires SafeCut(chunks, p)
    ensures OnReadAll(l, chunks).delivered == l.delivered + [p]
  {
    FinalsOfFilled(chunks);
    FrameDeliveries(l, p, chunks);
    assert Copies<seq<byte>>(p, 1) == [p];
  }

  // ---- the exact condition ----

  /** Once bytes of the frame have been lost, everything delivered is shorter. */
  lemma {:induction false} OnlyShortDeliveries(l: Link, chunks: seq<seq<byte>>, n: nat)
    requires |l.buffer| + |Concat(chunks)| < n
    ensures var t := OnReadAll(l, chunks);
            l.delivered <= t.delivered &&
            forall i :: |l.delivered| <= i < |t.delivered| ==> |t.delivered[i]| < n
    decreases |chunks|
  {
    if chunks != [] {
      OnlyShortDeliveries(OnRead(l, chunks[0]), chunks[1..], n);
    }
  }

  lemma {:induction false} RestOfFrameBroken(l: Link, p: Payload, chunks: seq<seq<byte>>)
    requires Underway(l, p, Concat(chunks))
    requires exists i :: 0 <= i < |chunks| && StartsWithMagic(chunks[i])
    ensures OnReadAll(l, chunks).delivered != l.delivered + [p]
    decreases |chunks|
  {
    var rest := chunks[1..];
    var next := OnRead(l, chunks[0]);
    var t := OnReadAll(next, rest);
    if StartsWithMagic(chunks[0]) {
      BrokenPiece(l, p, chunks[0], Concat(rest));
      OnlyShortDeliveries(next, rest, |p|);
      assert |t.delivered| > |l.delivered| ==> |t.delivered[|l.delivered|]| < |p|;
      assert (l.delivered + [p])[|l.delivered|] == p;
    } else {
      var i :| 0 <= i < |chunks| && StartsWithMagic(chunks[i]);
      assert rest[i - 1] == chunks[i];
      MagicIsThere(rest, i - 1);
      OnePiece(l, p, chunks[0], Concat(rest));
      RestOfFrameBroken(next, p, rest);
    }
  }

  lemma {:induction false} MagicIsThere(chunks: seq<seq<byte>>, i: nat)
    requires i < |chunks| && StartsWithMagic(chunks[i])
    ensures Concat(chunks) != []
  {
    if i > 0 {
      MagicIsThere(chunks[1..], i - 1);
    }
  }

  /** A later piece that poses as a header loses bytes of the frame. */
  lemma BrokenPiece(l: Link, p: Payload, chunk: seq<byte>, rest: seq<byte>)
    requires Underway(l, p, chunk + rest) && StartsWithMagic(chunk)
    ensures var next := OnRead(l, chunk);
            && |next.buffer| + |rest| < |p|
            && l.delivered <= next.delivered
            && forall i :: |l.delivered| <= i < |next.delivered| ==> |next.delivered[i]| < |p|
  {
    assert |chunk| >= 4;
    assert |l.buffer| + |chunk + rest| == |p|;
  }

  /** Among all cuts with the header whole, a frame is delivered exactly once, and
      nothing else with it, exactly when no later piece begins with the magic
      number and the cut does not end in an empty piece. */
  lemma FrameDeliveredExactly(l: Link, p: Payload, chunks: seq<seq<byte>>)
    requires HeaderWhole(chunks, FrameOf(p))
    ensures OnReadAll(l, chunks).delivered == l.delivered + [p] <==> NoLaterMagic(chunks) && EndsFilled(chunks)
  {
    if NoLaterMagic(chunks) {
      FrameDeliveries(l, p, chunks);
      FinalsOfFilled(chunks);
      assert Copies<seq<byte>>(p, 1) == [p];
      assert |l.delivered + [p]| == |l.delivered| + 1;
    } else {
      var rest := chunks[1..];
      var i :| 1 <= i < |chunks| && StartsWithMagic(chunks[i]);
      assert rest[i - 1] == chunks[i];
      MagicIsThere(rest, i - 1);
      FirstPiece(l, p, chunks);
      RestOfFrameBroken(OnRead(l, chunks[0]), p, rest);
    }
  }

  // ---- streams of frames ----

  lemma {:induction false} ReadAllConcat(l: Link, a: seq<seq<byte>>, b: seq<seq<byte>>)
    ensures OnReadAll(l, a + b) == OnReadAll(OnReadAll(l, a), b)
    decreases |a|
  {
    if a == [] {
      assert a + b == b;
    } else {
      assert (a + b)[1..] == a[1..] + b;
      ReadAllConcat(OnRead(l, a[0]), a[1..], b);
    }
  }

  /** One frame of a stream and the pieces the network cuts it into. */
  datatype Carried = Carried(payload: Payload, cut: seq<seq<byte>>)

  function Payloads(cs: seq<Carried>): seq<seq<byte>> {
    if cs == [] then [] else [cs[0].payload] + Payloads(cs[1..])
  }

  function Pieces(cs: seq<Carried>): seq<seq<byte>> {
    if cs == [] then [] else cs[0].cut + Pieces(cs[1..])
  }

  lemma Regroup<T>(a: seq<T>, b: seq<T>, c: seq<T>)
    ensures (a + b) + c == a + (b + c)
  {
  }

  predicate SafeCuts(cs: seq<Carried>) {
    cs == [] || (SafeCut(cs[0].cut, cs[0].payload) && SafeCuts(cs[1..]))
  }

  /** Every payload of a stream arrives exactly once and in order. */
  lemma {:induction false} StreamDelivered(l: Link, cs: seq<Carried>)
    requires SafeCuts(cs)
    ensures OnReadAll(l, Pieces(cs)).delivered == l.delivered + Payloads(cs)
    decreases |cs|
  {
    if cs != [] {
      FrameDelivered(l, cs[0].payload, cs[0].cut);
      ReadAllConcat(l, cs[0].cut, Pieces(cs[1..]));
      StreamDelivered(OnReadAll(l, cs[0].cut), cs[1..]);
      Regroup(l.delivered, [cs[0].payload], Payloads(cs[1..]));
    }
  }

  // ---- what the cuts outside that condition do ----

  lemma CoalescedRead(l: Link, a: Payload, b: Payload)
    ensures OnRead(l, FrameOf(a) + FrameOf(b)) ==
            Link(a + FrameOf(b), SIZE_OF_BEGIN + |a|, l.delivered)
  {
    HeaderRead(a, FrameOf(b));
  }

  /** Two frames read in one piece are both lost: that read delivers nothing, and
      until the next header every piece whatever delivers the first payload with
      the eight header bytes of the second frame behind it. */
  lemma {:induction false} CoalescedFramesLost(l: Link, a: Payload, b: Payload, chunks: seq<seq<byte>>)
    requires forall i :: 0 <= i < |chunks| ==> !StartsWithMagic(chunks[i])
    ensures OnReadAll(l, [FrameOf(a) + FrameOf(b)] + chunks).delivered ==
            l.delivered + Copies<seq<byte>>(a + FrameOf(b)[..SIZE_OF_BEGIN], |chunks|)
  {
    CoalescedRead(l, a, b);
    var all := [FrameOf(a) + FrameOf(b)] + chunks;
    assert all[1..] == chunks;
    OverfullDeliveries(OnRead(l, FrameOf(a) + FrameOf(b)), a, b, [], chunks);
  }

  lemma {:induction false} OverfullDeliveries(l: Link, a: Payload, b: Payload, more: seq<byte>, chunks: seq<seq<byte>>)
    requires l.size == SIZE_OF_BEGIN + |a| && l.buffer == a + FrameOf(b) + more
    requires forall i :: 0 <= i < |chunks| ==> !StartsWithMagic(chunks[i])
    ensures OnReadAll(l, chunks).delivered ==
            l.delivered + Copies<seq<byte>>(a + FrameOf(b)[..SIZE_OF_BEGIN], |chunks|)
    decreases |chunks|
  {
    if chunks != [] {
      var wrong := a + FrameOf(b)[..SIZE_OF_BEGIN];
      var grown := l.buffer + chunks[0];
      assert grown == a + FrameOf(b) + (more + chunks[0]);
      assert Prefix(grown, l.size) == wrong;
      OverfullDeliveries(OnRead(l, chunks[0]), a, b, more + chunks[0], chunks[1..]);
      Regroup(l.delivered, [wrong], Copies<seq<byte>>(wrong, |chunks| - 1));
    }
  }

  /** The next frame that is cut safely arrives again, and nothing of the two. */
  lemma NextFrameRecovers(l: Link, a: Payload, b: Payload, chunks: seq<seq<byte>>, c: Payload, cut: seq<seq<byte>>)
    requires forall i :: 0 <= i < |chunks| ==> !StartsWithMagic(chunks[i])
    requires SafeCut(cut, c)
    ensures OnReadAll(l, [FrameOf(a) + FrameOf(b)] + chunks + cut).delivered ==
            l.delivered + Copies<seq<byte>>(a + FrameOf(b)[..SIZE_OF_BEGIN], |chunks|) + [c]
  {
    var lost := [FrameOf(a) + FrameOf(b)] + chunks;
    CoalescedFramesLost(l, a, b, chunks);
    ReadAllConcat(l, lost, cut);
    FrameDelivered(OnReadAll(l, lost), c, cut);
  }

  /** A header that announces any size, and what comes with it. */
  function Announcing(size: i32, rest: seq<byte>): seq<byte> { Be(MAGIC, 4) + (PutI32(size) + rest) }

  /** Whatever size a header announces: with none it only sets the size; when it is
      the length of this very string the rest is delivered at once; otherwise the
      rest is kept and nothing is delivered, also when it is more than announced. */
  lemma AnnouncedSize(l: Link, size: i32, rest: seq<byte>)
    ensures var chunk := Announcing(size, rest);
            OnRead(l, chunk) ==
            Link(if size <= 0 then l.buffer else rest, size,
                 if size > 0 && size == |chunk| then l.delivered + [rest] else l.delivered)
  {
    GetPutU32(MAGIC, PutI32(size) + rest);
    GetPutI32(size, rest);
    assert Announcing(size, rest)[SIZE_OF_BEGIN..] == rest;
  }

  /** What a further string then delivers: nothing while bytes are missing, the buffer
      when it is complete, and when it is too long as much of it as the announced
      size, header included, or all of it for a negative size. */
  lemma FurtherString(l: Link, more: seq<byte>)
    requires !StartsWithMagic(more)
    ensures var b := l.buffer + more;
            OnRead(l, more) ==
            Link(b, l.size,
                 if |b| < l.size - SIZE_OF_BEGIN then l.delivered
                 else if |b| == l.size - SIZE_OF_BEGIN || l.size < 0 || l.size > |b| then l.delivered + [b]
                 else l.delivered + [b[..l.size]])
  {
  }

  /** A header split after the magic number delivers an empty string in place of
      the payload, whatever the rest of the frame was. */
  lemma SplitHeaderDeliversEmpty(l: Link, p: Payload, at: nat)
    requires 4 <= at < SIZE_OF_BEGIN && !StartsWithMagic(FrameOf(p)[at..])
    ensures OnReadAll(l, [FrameOf(p)[..at], FrameOf(p)[at..]]).delivered == l.delivered + [[]]
  {
    HeaderRead(p, []);
    assert FrameOf(p) + [] == FrameOf(p);
    var head, tail := FrameOf(p)[..at], FrameOf(p)[at..];
    assert head[..4] == FrameOf(p)[..4];
    assert |head[4..]| < 4;
    var next := OnRead(l, head);
    assert next == l.(size := 0);
    assert Prefix(next.buffer + tail, 0) == [];
    assert [head, tail][1..] == [tail];
    assert OnReadAll(next, [tail]) == OnRead(next, tail);
  }

  /** Every empty read after a complete frame hands the payload over again. */
  lemma {:induction false} EmptyReadRepeats(l: Link, p: Payload, n: nat)
    ensures OnReadAll(l, [FrameOf(p)] + Copies<seq<byte>>([], n)).delivered == l.delivered + Copies<seq<byte>>(p, 1 + n)
  {
    var chunks := [FrameOf(p)] + Copies<seq<byte>>([], n);
    assert chunks[1..] == Copies<seq<byte>>([], n);
    EmptyPieces(n);
    assert FrameOf(p) + [] == FrameOf(p);
    FrameDeliveries(l, p, chunks);
  }

  lemma {:induction false} EmptyPieces(n: nat)
    ensures Concat(Copies<seq<byte>>([], n)) == [] && Finals(Copies<seq<byte>>([], n)) == n
    ensures forall i :: 0 <= i < n ==> Copies<seq<byte>>([], n)[i] == []
  {
    if n > 0 {
      EmptyPieces(n - 1);
      assert Copies<seq<byte>>([], n)[1..] == Copies<seq<byte>>([], n - 1);
    }
  }

  // ---- the object ----

  /** CNetBase, with the worker's receiveCallBack recorded. */
  class NetBase {
    var buffer: seq<byte>
    var size: i32
    var delivered: seq<seq<byte>>

    function State(): Link
      reads this
    {
      Link(buffer, size, delivered)
    }

    constructor ()
      ensures State() == Link([], 0, [])
    {
      buffer, size, delivered := [], 0, [];
    }

    static method InsertBeginInfo(p: Payload) returns (strForSend: seq<byte>)
      ensures strForSend == FrameOf(p)
    {
      var stream := new DataStream([]);
      stream.WriteU32(MAGIC);
      stream.WriteI32(SIZE_OF_BEGIN + |p|);
      strForSend := stream.data + p;
    }

    method OnReadFinished(receiveStr: seq<byte>)
      modifies this
      ensures State() == OnRead(old(State()), receiveStr)
    {
      var stream := new DataStream(receiveStr);
      var mn := stream.ReadU32();
      if mn == MAGIC {
        size := stream.ReadI32();
        if size > 0 {
          buffer := WithoutHeader(receiveStr);
          if size == |receiveStr| {
            Decrypt(buffer);
          }
        }
      } else {
        Append(receiveStr);
      }
    }

    /** The branch for a string without the magic number. */
    method Append(receiveStr: seq<byte>)
      modifies this
      ensures State() == OnMore(old(State()), receiveStr)
    {
      buffer := buffer + receiveStr;
      if |buffer| == size - SIZE_OF_BEGIN {
        Decrypt(buffer);
      } else if |buffer| > size - SIZE_OF_BEGIN {
        Decrypt(Prefix(buffer, size));
      }
    }

    /** CAES::decrypt with encryption off. */
    method Decrypt(b: seq<byte>)
      modifies this`delivered
      ensures delivered == old(delivered) + [b]
    {
      delivered := delivered + [b];
    }
  }
}
