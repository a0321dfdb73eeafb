// Image clients and the image server over UDP: what each client gets to see.

module Service {
  import opened Bytes
  import opened Framing
  import opened Codec
  import opened UdpServers
  import opened ImageServer

  /** An image request in one datagram, and the server's buffers when it is read. */
  datatype Visit = Visit(client: Address, wish: Wish, scene: Scene)

  predicate Possible(v: Visit) { SendableRequest(ImageRequest(v.wish)) && v.scene.slots != [] }

  predicate AllPossible(visits: seq<Visit>) {
    visits == [] || (Possible(visits[0]) && AllPossible(visits[1..]))
  }

  function AskOf(h: Hashing, v: Visit): Ask
    requires Possible(v)
  {
    Ask(v.client, RequestBytes(h, ImageRequest(v.wish)), input => ReplyTo(h, v.scene, input))
  }

  function AsksOf(h: Hashing, visits: seq<Visit>): (r: seq<Ask>)
    requires AllPossible(visits)
    ensures |r| == |visits|
  {
    if visits == [] then [] else [AskOf(h, visits[0])] + AsksOf(h, visits[1..])
  }

  function Clients(visits: seq<Visit>): (r: seq<Address>)
    ensures |r| == |visits|
  {
    if visits == [] then [] else [visits[0].client] + Clients(visits[1..])
  }

  /** What a client makes of one datagram: its receiver has read l so far, and the
      last image it took is lastId. */
  function Understood(h: Hashing, bytes: seq<byte>, l: Link, lastId: nat): LoadResult<Received> {
    var inputs := OnRead(l, bytes).delivered;
    if |inputs| == |l.delivered| + 1 then LoadReply(h, inputs[|l.delivered|], lastId) else Rejected(Undefined)
  }

  /** Whoever gets these bytes sees what v asked for, as it was when v asked. */
  ghost predicate Answering(h: Hashing, bytes: seq<byte>, v: Visit)
    requires v.scene.slots != []
  {
    forall l: Link, lastId: nat :: Understood(h, bytes, l, lastId) == Seen(v.wish, v.scene.slots, lastId)
  }

  /** The i-th datagram goes to the i-th address and answers the i-th visit. */
  ghost predicate AllAnswered(h: Hashing, visits: seq<Visit>, served: seq<Address>, sent: seq<Sent>)
    requires AllPossible(visits) && |served| == |visits| == |sent|
  {
    visits == [] ||
    (sent[0].to == served[0] && Answering(h, sent[0].bytes, visits[0])
     && AllAnswered(h, visits[1..], served[1..], sent[1..]))
  }

  lemma AnswerSeen(h: Hashing, v: Visit, to: Address)
    requires Possible(v)
    ensures Answering(h, Answer(AskOf(h, v), to).bytes, v)
  {
    var reply := ReplyTo(h, v.scene, RequestBytes(h, ImageRequest(v.wish)));
    forall l: Link, lastId: nat
      ensures Understood(h, FrameOf(reply), l, lastId) == Seen(v.wish, v.scene.slots, lastId)
    {
      WholeFrameRead(l, reply);
      ImageServedExactly(h, v.wish, v.scene, lastId);
    }
  }

  lemma {:induction false} AnswersSeen(h: Hashing, visits: seq<Visit>, served: seq<Address>)
    requires AllPossible(visits) && |served| == |visits|
    ensures AllAnswered(h, visits, served, Answers(AsksOf(h, visits), served))
    ensures Askers(AsksOf(h, visits)) == Clients(visits)
  {
    if visits != [] {
      AnswerSeen(h, visits[0], served[0]);
      AnswersSeen(h, visits[1..], served[1..]);
      var asks := AsksOf(h, visits);
      assert asks[1..] == AsksOf(h, visits[1..]);
      assert Answers(asks, served)[1..] == Answers(asks[1..], served[1..]);
    }
  }

  /** Requests in one datagram each: every client sees the newest frame of the
      buffer it asked for, or the reason as far as it is given. */
  lemma EveryClientServed(h: Hashing, s: Server, visits: seq<Visit>)
    requires s.queue == [] && AllPossible(visits)
    ensures var t := OnArrivals(s, Arrivals(AsksOf(h, visits)));
            && t.queue == [] && |t.sent| == |s.sent| + |visits| && s.sent <= t.sent
            && AllAnswered(h, visits, Clients(visits), t.sent[|s.sent|..])
  {
    var asks := AsksOf(h, visits);
    WholeFramesAnswered(s, asks);
    AnswersSeen(h, visits, Clients(visits));
    assert (s.sent + Answers(asks, Clients(visits)))[|s.sent|..] == Answers(asks, Clients(visits));
  }

  /** After one client has split its request over k datagrams, everybody sees what
      was asked for k - 1 visits later. */
  lemma SplitRequestMisleads(h: Hashing, s: Server, client: Address, p: Payload, pieces: seq<Arrival>,
                             visits: seq<Visit>, served: seq<Address>, left: seq<Address>)
    requires s.queue == [] && PiecesFrom(client, pieces) && SafeCut(BytesOf(pieces), p) && AllPossible(visits)
    requires |served| == |visits| && Copies(client, |pieces| - 1) + Clients(visits) == served + left
    ensures var t := OnArrivals(s, pieces + Arrivals(AsksOf(h, visits)));
            && t.queue == left && |t.sent| == |s.sent| + 1 + |visits|
            && AllAnswered(h, visits, served, t.sent[|s.sent| + 1..])
  {
    var asks := AsksOf(h, visits);
    AnswersSeen(h, visits, served);
    SplitRequestShiftsReplies(s, client, p, pieces, asks, served, left);
    var before := s.sent + [Sent(client, FrameOf(LastAnswer(pieces, p)))];
    assert (before + Answers(asks, served))[|before|..] == Answers(asks, served);
  }
}
