// The UDP server: one queue of sender addresses, replies taken from its front.

module UdpServers {
  import opened Bytes
  import opened Framing

  datatype Address = Address(host: string, port: u16)
  datatype Datagram = Datagram(sender: Address, bytes: seq<byte>)
  datatype Sent = Sent(to: Address, bytes: seq<byte>)

  /** The worker at one moment: what it would answer to a delivered request then. */
  type Worker = seq<byte> -> Payload

  /** A datagram, and the worker as it is when the datagram is read. */
  datatype Arrival = Arrival(datagram: Datagram, worker: Worker)

  datatype Server = Server(link: Link, queue: seq<Address>, sent: seq<Sent>)

  /** sendImplementation: to the first address waiting, or nowhere. */
  function Send(s: Server, p: Payload): Server {
    if s.queue == [] then s
    else s.(queue := s.queue[1..], sent := s.sent + [Sent(s.queue[0], FrameOf(p))])
  }

  /** readyRead: enqueue the sender, reassemble, answer what was delivered. */
  function OnArrival(s: Server, a: Arrival): Server {
    var waiting := s.(queue := s.queue + [a.datagram.sender]);
    var link := OnRead(s.link, a.datagram.bytes);
    var read := waiting.(link := link);
    if |link.delivered| > |s.link.delivered| then Send(read, a.worker(link.delivered[|link.delivered| - 1]))
    else read
  }

  function OnArrivals(s: Server, arrivals: seq<Arrival>): Server
    decreases |arrivals|
  {
    if arrivals == [] then s else OnArrivals(OnArrival(s, arrivals[0]), arrivals[1..])
  }

  function Senders(arrivals: seq<Arrival>): (r: seq<Address>)
    ensures |r| == |arrivals|
  {
    if arrivals == [] then [] else [arrivals[0].datagram.sender] + Senders(arrivals[1..])
  }

  function Receivers(sent: seq<Sent>): (r: seq<Address>)
    ensures |r| == |sent|
    ensures forall i :: 0 <= i < |r| ==> r[i] == sent[i].to
  {
    seq(|sent|, i requires 0 <= i < |sent| => sent[i].to)
  }

  lemma ReceiversOf(first: Sent, rest: seq<Sent>)
    ensures Receivers([first] + rest) == [first.to] + Receivers(rest)
  {
  }

  lemma OneArrival(s: Server, a: Arrival)
    ensures var t := OnArrival(s, a);
            Receivers(t.sent) + t.queue == Receivers(s.sent) + s.queue + [a.datagram.sender]
  {
    var t := OnArrival(s, a);
    var queue := s.queue + [a.datagram.sender];
    if t.queue != queue {
      assert t.queue == queue[1..];
      assert Receivers(t.sent) == Receivers(s.sent) + [queue[0]];
    } else {
      assert t.sent == s.sent;
    }
  }

  /** For any datagrams, whole frames or not, and whatever the worker does: the
      addresses answered, followed by those still waiting, are the senders in
      arrival order. */
  lemma {:induction false} RepliesFollowArrival(s: Server, arrivals: seq<Arrival>)
    ensures var t := OnArrivals(s, arrivals);
            && Receivers(t.sent) + t.queue == Receivers(s.sent) + s.queue + Senders(arrivals)
            && |t.sent| + |t.queue| == |s.sent| + |s.queue| + |arrivals|
    decreases |arrivals|
  {
    if arrivals != [] {
      var t := OnArrival(s, arrivals[0]);
      OneArrival(s, arrivals[0]);
      RepliesFollowArrival(t, arrivals[1..]);
      Regroup(Receivers(s.sent) + s.queue, [arrivals[0].datagram.sender], Senders(arrivals[1..]));
      assert |Receivers(t.sent) + t.queue| == |Receivers(s.sent) + s.queue| + 1;
    }
  }

  // ---- one frame in every datagram ----

  /** A datagram that holds exactly one frame, and the worker that answers it. */
  datatype Ask = Ask(sender: Address, payload: Payload, worker: Worker)

  function AsArrival(a: Ask): Arrival { Arrival(Datagram(a.sender, FrameOf(a.payload)), a.worker) }

  function Arrivals(asks: seq<Ask>): (r: seq<Arrival>)
    ensures |r| == |asks|
  {
    if asks == [] then [] else [AsArrival(asks[0])] + Arrivals(asks[1..])
  }

  function Askers(asks: seq<Ask>): (r: seq<Address>)
    ensures |r| == |asks|
  {
    if asks == [] then [] else [asks[0].sender] + Askers(asks[1..])
  }

  /** The replies, one to each request, sent to these addresses. */
  function Answers(asks: seq<Ask>, to: seq<Address>): (r: seq<Sent>)
    requires |to| == |asks|
    ensures |r| == |asks|
  {
    if asks == [] then [] else [Answer(asks[0], to[0])] + Answers(asks[1..], to[1..])
  }

  function Answer(a: Ask, to: Address): Sent { Sent(to, FrameOf(a.worker(a.payload))) }

  lemma WholeFrameRead(l: Link, p: Payload)
    ensures OnRead(l, FrameOf(p)).delivered == l.delivered + [p]
  {
    assert Concat([FrameOf(p)]) == FrameOf(p) + [];
    FrameDelivered(l, p, [FrameOf(p)]);
    assert OnReadAll(l, [FrameOf(p)]) == OnRead(l, FrameOf(p));
  }

  lemma OneWholeFrame(s: Server, a: Ask)
    ensures var line := s.queue + [a.sender];
            var t := OnArrival(s, AsArrival(a));
            t.queue == line[1..] && t.sent == s.sent + [Answer(a, line[0])]
  {
    WholeFrameRead(s.link, a.payload);
  }

  /** The line of addresses: those left over from before and then the askers,
      seen as those who get a reply and those left over afterwards. */
  predicate Line(waiting: seq<Address>, asks: seq<Ask>, served: seq<Address>, left: seq<Address>) {
    |served| == |asks| && waiting + Askers(asks) == served + left
  }

  lemma LineMoves(waiting: seq<Address>, asks: seq<Ask>, served: seq<Address>, left: seq<Address>)
    requires Line(waiting, asks, served, left) && asks != []
    ensures var queue := waiting + [asks[0].sender];
            queue[0] == served[0] && Line(queue[1..], asks[1..], served[1..], left)
  {
    Regroup(waiting, [asks[0].sender], Askers(asks[1..]));
    FrontMoves(waiting + [asks[0].sender], Askers(asks[1..]), served, left);
  }

  lemma FrontMoves<T>(line: seq<T>, later: seq<T>, served: seq<T>, left: seq<T>)
    requires line != [] && served != [] && line + later == served + left
    ensures line[0] == served[0] && line[1..] + later == served[1..] + left
  {
    var all := line + later;
    assert line[0] == all[0] == served[0];
    assert all[1..] == line[1..] + later;
    assert all[1..] == served[1..] + left;
  }

  /** Every request is answered at once, to whoever has waited longest: with n
      addresses left over from before, the i-th reply goes to the sender n requests
      earlier, and n addresses are left over again. */
  lemma {:induction false} RepliesGoDownTheLine(s: Server, asks: seq<Ask>, served: seq<Address>, left: seq<Address>)
    requires Line(s.queue, asks, served, left)
    ensures var t := OnArrivals(s, Arrivals(asks));
            t.sent == s.sent + Answers(asks, served) && t.queue == left
    decreases |asks|
  {
    if asks != [] {
      var t := OnArrival(s, AsArrival(asks[0]));
      OneWholeFrame(s, asks[0]);
      LineMoves(s.queue, asks, served, left);
      RepliesGoDownTheLine(t, asks[1..], served[1..], left);
      assert Arrivals(asks)[1..] == Arrivals(asks[1..]);
      Regroup(s.sent, [Answer(asks[0], served[0])], Answers(asks[1..], served[1..]));
    } else {
      assert s.queue + [] == [] + left;
      assert s.queue == s.queue + [] && left == [] + left;
    }
  }

  lemma {:induction false} AnswersGoTo(asks: seq<Ask>, served: seq<Address>)
    requires |served| == |asks|
    ensures Receivers(Answers(asks, served)) == served
  {
    if asks != [] {
      AnswersGoTo(asks[1..], served[1..]);
      ReceiversOf(Answer(asks[0], served[0]), Answers(asks[1..], served[1..]));
    }
  }

  /** With whole frames only, every client gets the answer to its own request
      exactly when those served are those who asked, in particular when nobody is
      left over from before. */
  lemma EachToItsOwnExactly(s: Server, asks: seq<Ask>, served: seq<Address>, left: seq<Address>)
    requires Line(s.queue, asks, served, left)
    ensures OnArrivals(s, Arrivals(asks)).sent == s.sent + Answers(asks, Askers(asks)) <==> served == Askers(asks)
  {
    RepliesGoDownTheLine(s, asks, served, left);
    AnswersGoTo(asks, served);
    AnswersGoTo(asks, Askers(asks));
    SamePrefix(s.sent, Answers(asks, served), Answers(asks, Askers(asks)));
  }

  lemma SamePrefix<T>(a: seq<T>, b: seq<T>, c: seq<T>)
    ensures a + b == a + c <==> b == c
  {
    if a + b == a + c {
      assert b == (a + b)[|a|..] == c;
    }
  }

  lemma WholeFramesAnswered(s: Server, asks: seq<Ask>)
    requires s.queue == []
    ensures var t := OnArrivals(s, Arrivals(asks));
            t.queue == [] && t.sent == s.sent + Answers(asks, Askers(asks))
  {
    assert s.queue + Askers(asks) == Askers(asks) + [];
    RepliesGoDownTheLine(s, asks, Askers(asks), []);
  }

  // ---- a request in several datagrams ----

  /** The pieces of one client's request, in arrival order. */
  predicate PiecesFrom(client: Address, arrivals: seq<Arrival>) {
    arrivals == [] || (arrivals[0].datagram.sender == client && PiecesFrom(client, arrivals[1..]))
  }

  function BytesOf(arrivals: seq<Arrival>): (r: seq<seq<byte>>)
    ensures |r| == |arrivals|
    ensures forall i :: 0 <= i < |arrivals| ==> r[i] == arrivals[i].datagram.bytes
  {
    if arrivals == [] then [] else [arrivals[0].datagram.bytes] + BytesOf(arrivals[1..])
  }

  /** What the worker answers to the last piece. */
  function LastAnswer(arrivals: seq<Arrival>, p: Payload): Payload
    requires arrivals != []
  {
    arrivals[|arrivals| - 1].worker(p)
  }

  lemma {:induction false} RestOfRequest(s: Server, client: Address, p: Payload, pieces: seq<Arrival>)
    requires pieces != [] && PiecesFrom(client, pieces) && Underway(s.link, p, Concat(BytesOf(pieces)))
    requires EndsFilled(BytesOf(pieces)) && forall i :: 0 <= i < |pieces| ==> !StartsWithMagic(BytesOf(pieces)[i])
    ensures var line := s.queue + Copies(client, |pieces|);
            var t := OnArrivals(s, pieces);
            t.queue == line[1..] && t.sent == s.sent + [Sent(line[0], FrameOf(LastAnswer(pieces, p)))]
    decreases |pieces|
  {
    var rest := pieces[1..];
    assert BytesOf(pieces)[1..] == BytesOf(rest);
    OnePiece(s.link, p, pieces[0].datagram.bytes, Concat(BytesOf(rest)));
    PieceArrives(s, client, p, pieces);
    if rest != [] {
      var t := OnArrival(s, pieces[0]);
      RestOfRequest(t, client, p, rest);
      Regroup(s.queue, [client], Copies(client, |rest|));
    }
  }

  /** One arrival, of which the link is known to deliver only with the last. */
  lemma PieceArrives(s: Server, client: Address, p: Payload, pieces: seq<Arrival>)
    requires pieces != [] && PiecesFrom(client, pieces) && EndsFilled(BytesOf(pieces))
    requires var rest := Concat(BytesOf(pieces)[1..]);
             OnRead(s.link, BytesOf(pieces)[0]).delivered ==
             if rest == [] then s.link.delivered + [p] else s.link.delivered
    ensures var t := OnArrival(s, pieces[0]);
            var line := s.queue + Copies(client, |pieces|);
            && (|pieces| == 1 ==>
                  t.queue == line[1..] && t.sent == s.sent + [Sent(line[0], FrameOf(LastAnswer(pieces, p)))])
            && (|pieces| > 1 ==> t.queue == s.queue + [client] && t.sent == s.sent
                                 && EndsFilled(BytesOf(pieces[1..])))
  {
    FinalsOfFilled(BytesOf(pieces));
    if |pieces| == 1 {
      assert BytesOf(pieces)[1..] == [];
      assert Copies(client, 1) == [client];
    } else {
      assert BytesOf(pieces)[1..] == BytesOf(pieces[1..]);
    }
  }

  /** A request cut into k datagrams is answered once, with its last piece, and
      leaves k - 1 more addresses waiting than before. */
  lemma SplitRequest(s: Server, client: Address, p: Payload, pieces: seq<Arrival>)
    requires PiecesFrom(client, pieces) && SafeCut(BytesOf(pieces), p)
    ensures var line := s.queue + Copies(client, |pieces|);
            var t := OnArrivals(s, pieces);
            t.queue == line[1..] && t.sent == s.sent + [Sent(line[0], FrameOf(LastAnswer(pieces, p)))]
  {
    var rest := pieces[1..];
    assert BytesOf(pieces)[1..] == BytesOf(rest);
    FirstPiece(s.link, p, BytesOf(pieces));
    PieceArrives(s, client, p, pieces);
    if rest != [] {
      var t := OnArrival(s, pieces[0]);
      RestOfRequest(t, client, p, rest);
      Regroup(s.queue, [client], Copies(client, |rest|));
    }
  }

  lemma {:induction false} ArrivalsConcat(s: Server, a: seq<Arrival>, b: seq<Arrival>)
    ensures OnArrivals(s, a + b) == OnArrivals(OnArrivals(s, a), b)
    decreases |a|
  {
    if a == [] {
      assert a + b == b;
    } else {
      assert (a + b)[1..] == a[1..] + b;
      ArrivalsConcat(OnArrival(s, a[0]), a[1..], b);
    }
  }

  /** A client that splits its request over k datagrams gets the first k replies,
      and from then on, for as long as whole frames keep coming, every reply goes
      to the sender k - 1 requests before the one that asked for it. */
  lemma SplitRequestShiftsReplies(s: Server, client: Address, p: Payload, pieces: seq<Arrival>, asks: seq<Ask>,
                                  served: seq<Address>, left: seq<Address>)
    requires s.queue == [] && PiecesFrom(client, pieces) && SafeCut(BytesOf(pieces), p)
    requires Line(Copies(client, |pieces| - 1), asks, served, left)
    ensures var t := OnArrivals(s, pieces + Arrivals(asks));
            && t.sent == s.sent + [Sent(client, FrameOf(LastAnswer(pieces, p)))] + Answers(asks, served)
            && t.queue == left
  {
    var k := |pieces|;
    var t := OnArrivals(s, pieces);
    SplitRequest(s, client, p, pieces);
    assert s.queue + Copies(client, k) == [client] + Copies(client, k - 1);
    assert t.queue == Copies(client, k - 1);
    ArrivalsConcat(s, pieces, Arrivals(asks));
    RepliesGoDownTheLine(t, asks, served, left);
  }

  /** A request of which the end never arrives is not answered at all, and every
      later reply goes to the sender one request before. */
  lemma LostRequestShiftsReplies(s: Server, a: Arrival, asks: seq<Ask>, last: Ask)
    requires s.queue == [] && OnRead(s.link, a.datagram.bytes).delivered == s.link.delivered
    ensures var t := OnArrivals(s, [a] + Arrivals(asks + [last]));
            && t.sent == s.sent + Answers(asks + [last], [a.datagram.sender] + Askers(asks))
            && t.queue == [last.sender]
  {
    var all := asks + [last];
    var t := OnArrival(s, a);
    assert ([a] + Arrivals(all))[1..] == Arrivals(all);
    AskersConcat(asks, last);
    var client := a.datagram.sender;
    assert t.queue == [client];
    Regroup([client], Askers(asks), [last.sender]);
    RepliesGoDownTheLine(t, all, [client] + Askers(asks), [last.sender]);
  }

  lemma {:induction false} AskersConcat(asks: seq<Ask>, last: Ask)
    ensures Askers(asks + [last]) == Askers(asks) + [last.sender]
  {
    if asks != [] {
      assert (asks + [last])[1..] == asks[1..] + [last];
      AskersConcat(asks[1..], last);
    }
  }

  // ---- any requests, whole or in pieces ----

  /** A request and the datagrams that carry it. */
  datatype Asking = Asking(client: Address, payload: Payload, pieces: seq<Arrival>)

  predicate AllSafe(rs: seq<Asking>) {
    rs == [] || (PiecesFrom(rs[0].client, rs[0].pieces) && SafeCut(BytesOf(rs[0].pieces), rs[0].payload) && AllSafe(rs[1..]))
  }

  function AllPieces(rs: seq<Asking>): seq<Arrival> {
    if rs == [] then [] else rs[0].pieces + AllPieces(rs[1..])
  }

  function ClientsOf(rs: seq<Asking>): (r: seq<Address>)
    ensures |r| == |rs|
  {
    if rs == [] then [] else [rs[0].client] + ClientsOf(rs[1..])
  }

  /** The replies, one to each request with its last piece, sent to these addresses. */
  function AnswersTo(rs: seq<Asking>, to: seq<Address>): (r: seq<Sent>)
    requires AllSafe(rs) && |to| == |rs|
    ensures |r| == |rs|
  {
    if rs == [] then [] else [Sent(to[0], FrameOf(LastAnswer(rs[0].pieces, rs[0].payload)))] + AnswersTo(rs[1..], to[1..])
  }

  lemma {:induction false} PiecesSenders(client: Address, pieces: seq<Arrival>)
    requires PiecesFrom(client, pieces)
    ensures Senders(pieces) == Copies(client, |pieces|)
  {
    if pieces != [] { PiecesSenders(client, pieces[1..]); }
  }

  lemma {:induction false} SendersConcat(a: seq<Arrival>, b: seq<Arrival>)
    ensures Senders(a + b) == Senders(a) + Senders(b)
    decreases |a|
  {
    if a == [] {
      assert a + b == b;
    } else {
      assert (a + b)[1..] == a[1..] + b;
      SendersConcat(a[1..], b);
    }
  }

  /** The senders in arrival order, behind those left over from before, seen as
      those who get a reply and those left over afterwards. */
  predicate Queue(waiting: seq<Address>, rs: seq<Asking>, served: seq<Address>, left: seq<Address>) {
    |served| == |rs| && waiting + Senders(AllPieces(rs)) == served + left
  }

  lemma QueueMoves(waiting: seq<Address>, rs: seq<Asking>, served: seq<Address>, left: seq<Address>)
    requires rs != [] && AllSafe(rs) && Queue(waiting, rs, served, left)
    ensures var line := waiting + Copies(rs[0].client, |rs[0].pieces|);
            line[0] == served[0] && Queue(line[1..], rs[1..], served[1..], left)
  {
    var pieces, later := rs[0].pieces, AllPieces(rs[1..]);
    PiecesSenders(rs[0].client, pieces);
    SendersConcat(pieces, later);
    Regroup(waiting, Senders(pieces), Senders(later));
    FrontMoves(waiting + Senders(pieces), Senders(later), served, left);
  }

  /** Every request is answered once, with its last datagram, to whoever has waited
      longest then: the i-th reply goes to the i-th address of the line. */
  lemma {:induction false} RequestsGoDownTheLine(s: Server, rs: seq<Asking>, served: seq<Address>, left: seq<Address>)
    requires AllSafe(rs) && Queue(s.queue, rs, served, left)
    ensures var t := OnArrivals(s, AllPieces(rs));
            t.sent == s.sent + AnswersTo(rs, served) && t.queue == left
    decreases |rs|
  {
    if rs != [] {
      var t := OnArrivals(s, rs[0].pieces);
      SplitRequest(s, rs[0].client, rs[0].payload, rs[0].pieces);
      QueueMoves(s.queue, rs, served, left);
      RequestsGoDownTheLine(t, rs[1..], served[1..], left);
      ArrivalsConcat(s, rs[0].pieces, AllPieces(rs[1..]));
      Regroup(s.sent, [Sent(served[0], FrameOf(LastAnswer(rs[0].pieces, rs[0].payload)))], AnswersTo(rs[1..], served[1..]));
    } else {
      assert s.queue + [] == [] + left;
      assert s.queue == s.queue + [] && left == [] + left;
    }
  }

  lemma {:induction false} RepliesGoTo(rs: seq<Asking>, served: seq<Address>)
    requires AllSafe(rs) && |served| == |rs|
    ensures Receivers(AnswersTo(rs, served)) == served
  {
    if rs != [] {
      RepliesGoTo(rs[1..], served[1..]);
      ReceiversOf(Sent(served[0], FrameOf(LastAnswer(rs[0].pieces, rs[0].payload))), AnswersTo(rs[1..], served[1..]));
    }
  }

  /** Every client gets the answer to its own request exactly when the first
      addresses of the line are the clients in order. */
  lemma OwnAnswersExactly(s: Server, rs: seq<Asking>, served: seq<Address>, left: seq<Address>)
    requires AllSafe(rs) && Queue(s.queue, rs, served, left)
    ensures OnArrivals(s, AllPieces(rs)).sent == s.sent + AnswersTo(rs, ClientsOf(rs)) <==> served == ClientsOf(rs)
  {
    RequestsGoDownTheLine(s, rs, served, left);
    RepliesGoTo(rs, served);
    RepliesGoTo(rs, ClientsOf(rs));
    SamePrefix(s.sent, AnswersTo(rs, served), AnswersTo(rs, ClientsOf(rs)));
  }

  /** No client asks twice in a row. */
  predicate NeighboursDiffer(rs: seq<Asking>) {
    |rs| <= 1 || (rs[0].client != rs[1].client && NeighboursDiffer(rs[1..]))
  }

  /** Every request but the last comes in one datagram. */
  predicate WholeButLast(rs: seq<Asking>) {
    |rs| <= 1 || (|rs[0].pieces| == 1 && WholeButLast(rs[1..]))
  }

  lemma {:induction false} ServedInOrder(rs: seq<Asking>, served: seq<Address>, left: seq<Address>)
    requires AllSafe(rs) && NeighboursDiffer(rs) && Queue([], rs, served, left)
    ensures served == ClientsOf(rs) <==> WholeButLast(rs)
  {
    if rs != [] {
      var client, k := rs[0].client, |rs[0].pieces|;
      QueueMoves([], rs, served, left);
      assert [] + Copies(client, k) == [client] + Copies(client, k - 1);
      assert served[0] == client;
      assert served == [client] + served[1..];
      if |rs| > 1 && k > 1 {
        var line := Copies(client, k - 1);
        assert ([client] + line)[1..] == line;
        QueueMoves(line, rs[1..], served[1..], left);
        assert served[1] == client;
        assert ClientsOf(rs)[1] == rs[1].client;
      } else if |rs| > 1 {
        assert ([client] + Copies(client, 0))[1..] == [];
        ServedInOrder(rs[1..], served[1..], left);
        assert ClientsOf(rs)[1..] == ClientsOf(rs[1..]);
      }
    }
  }

  /** From an empty queue, when no client asks twice in a row, every client gets the
      answer to its own request exactly when every request but the last comes in
      one datagram. */
  lemma OwnAnswersExactlyWhole(s: Server, rs: seq<Asking>, served: seq<Address>, left: seq<Address>)
    requires s.queue == [] && AllSafe(rs) && NeighboursDiffer(rs) && Queue([], rs, served, left)
    ensures OnArrivals(s, AllPieces(rs)).sent == s.sent + AnswersTo(rs, ClientsOf(rs)) <==> WholeButLast(rs)
  {
    OwnAnswersExactly(s, rs, served, left);
    ServedInOrder(rs, served, left);
  }

  // ---- inputs on which replies go astray ----

  const STARTED := Server(Link([], 0, []), [], [])

  /** a sends a frame of nine bytes as eight and one, then b asks in one datagram:
      a gets both answers and b is left waiting. */
  lemma SplitRequestMisdirects(a: Address, b: Address, q: Payload, worker: Worker)
    ensures var p := [7];
            var head := Arrival(Datagram(a, FrameOf(p)[..SIZE_OF_BEGIN]), worker);
            var t := OnArrivals(STARTED, [head, Arrival(Datagram(a, p), worker)] + Arrivals([Ask(b, q, worker)]));
            t.sent == [Sent(a, FrameOf(worker(p))), Sent(a, FrameOf(worker(q)))] && t.queue == [b]
  {
    var p: Payload := [7];
    var head, tail := Arrival(Datagram(a, FrameOf(p)[..SIZE_OF_BEGIN]), worker), Arrival(Datagram(a, p), worker);
    var pieces := [head, tail];
    assert pieces[1..] == [tail] && [tail][1..] == [];
    CutBehindHeader(p);
    assert BytesOf([tail]) == [p];
    assert BytesOf(pieces) == [FrameOf(p)[..SIZE_OF_BEGIN], p];
    assert PiecesFrom(a, [tail]);
    var asks := [Ask(b, q, worker)];
    assert asks[1..] == [];
    assert Copies(a, 1) == [a] && Askers(asks) == [b];
    SplitRequestShiftsReplies(STARTED, a, p, pieces, asks, [a], [b]);
    assert Answers(asks, [a]) == [Answer(asks[0], a)];
  }

  /** a sends only the header of a frame, then b asks in one datagram: b's answer
      goes to a. */
  lemma LostRequestMisdirects(a: Address, b: Address, q: Payload, worker: Worker)
    ensures var head := Arrival(Datagram(a, FrameOf([7])[..SIZE_OF_BEGIN]), worker);
            var t := OnArrivals(STARTED, [head] + Arrivals([] + [Ask(b, q, worker)]));
            t.sent == [Sent(a, FrameOf(worker(q)))] && t.queue == [b]
  {
    var head := Arrival(Datagram(a, FrameOf([7])[..SIZE_OF_BEGIN]), worker);
    HeadDeliversNothing(STARTED.link, [7], SIZE_OF_BEGIN);
    var asks := [] + [Ask(b, q, worker)];
    assert asks[1..] == [];
    LostRequestShiftsReplies(STARTED, head, [], asks[0]);
    assert [a] + Askers([]) == [a];
    assert Answers(asks, [a]) == [Answer(asks[0], a)];
  }

  /** CUDPServer on top of CNetBase. */
  class UdpServer {
    const net: NetBase
    var queue: seq<Address>
    var sent: seq<Sent>

    function State(): Server
      reads this, net
    {
      Server(net.State(), queue, sent)
    }

    constructor ()
      ensures State() == Server(Link([], 0, []), [], []) && fresh(net)
    {
      net := new NetBase();
      queue, sent := [], [];
    }

    method AfterRead(sender: Address)
      modifies this`queue
      ensures queue == old(queue) + [sender]
    {
      queue := queue + [sender];
    }

    method SendImplementation(p: Payload)
      modifies this
      ensures State() == Send(old(State()), p)
    {
      if queue != [] {
        var to := queue[0];
        queue := queue[1..];
        var strForSend := NetBase.InsertBeginInfo(p);
        sent := sent + [Sent(to, strForSend)];
      }
    }

    method ReadyRead(d: Datagram, worker: Worker)
      modifies this, net
      ensures State() == OnArrival(old(State()), Arrival(d, worker))
    {
      AfterRead(d.sender);
      var before := |net.delivered|;
      net.OnReadFinished(d.bytes);
      if |net.delivered| > before {
        SendImplementation(worker(net.delivered[|net.delivered| - 1]));
      }
    }
  }
}
