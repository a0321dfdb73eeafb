# CameraAlerts, verified model

A Dafny 4.11 model of the stateful parts of CameraAlerts, with proofs about all
of their runs. `dafny verify dfyconfig.toml` checks the whole project.

| file | models |
|---|---|
| `Frame.dfy` | a frame: raw pixels, JPEG buffer, picture cache, pin counter |
| `Ring.dfy` | the bounded ring and its long list (`CRingBuffer`) |
| `Store.dfy` | live ring, snapshots and lockers as one state machine, and its run theorems |
| `History.dfy` | what those runs have to do with the calls that were made |
| `ImageBuffer.dfy` | the heap objects; every call is one step of that state machine |
| `Bytes.dfy` | `QDataStream` integers, strings and dates |
| `Framing.dfy` | length-prefixed framing and reassembly (`CNetBase`) |
| `Codec.dfy` | request and reply bodies with the hash trailer, end-to-end theorems |
| `UdpServer.dfy` | the UDP reply queue on top of the framing |
| `ImageServer.dfy` | the server's one reply to each request, and what the client makes of it |
| `Service.dfy` | many image clients and the server over UDP, end to end |
| `Receiver.dfy` | the client's timers and error counters on top of the codec |
| `FinalVideo.dfy` | the final video writer, fed with copies of the rings |
| `Cameras.dfy` | frame stores and video writer run together, in any interleaving |
| `Mail.dfy` | alert, reply and forced mails |
| `Recorder.dfy` | the dead-band sensor recorder |
| `PHash.dfy` | hash building and Hamming distance on 64-bit words |
| `FaceStreak.dfy` | the face detector's skip logic |
| `Connections.dfy` | the connection-string parser |
| `Arithmetic.dfy` | division facts shared by the sampling rules |

Classes carry the source's fields and methods; each method is proved equal to a
pure step function, and the run theorems are lemmas about those functions. A
public call is one atomic step. Pictures are free terms over the OpenCV
operations, so equal terms are equal pictures under any implementation of them;
the CRC is an arbitrary function of the covered bytes.

## Where the code does not do what it is meant to do

- **Snapshots pin nothing.** The loops in the copy constructor and the destructor
  of the ring (`Image/private/CRingBuffer.cpp:17-24` and `:149-156`) start at the
  last index and run while the index is *below* last − 3, so they stop before
  their first round. The accounting "each live snapshot adds one to its newest
  three frames" therefore holds of a frame exactly when no live snapshot holds it
  (`IntendedAccountingExactlyUnheld`), one push and one snapshot break it
  (`IntendedAccountingFails`). The j-th newest frame of a snapshot (j from 0) that
  nobody locks is raw exactly while j + 1 plus the pushes since the snapshot, up to
  the next clear, is at most three, or at most M if it was the first push after a
  clear or the ring has fewer than five places (`UnlockedSnapshotFrame`); after that
  its gray pictures, and a reduced colour picture, can no longer be made and the
  request throws (`UnlockedSnapshotReadThrows`). In a ring of five or more, three
  captures behind a snapshot's back are enough, two are not (`SnapshotReadFails`).
- **A locker does not always protect.** A ring of five places or more lets go of a
  frame twice, at the early release and at the eviction, unless the frame was the
  first push after a clear. One locker then leaves the counter at zero and the frame
  is cleared while it is locked: under a single locker a raw frame stays raw exactly
  until the ring has evicted it, and in a smaller ring, or as the first push, for
  ever (`OneLockerProtects`). With several lockers it is lost exactly when only one
  of them is left after that (`LockedFrameStaysRaw`). In a ring of M >= 5, M captures
  after the lock are enough, M - 1 are not (`LockedReadFails`).
- **The image server gives the wrong reason while camera 0 has no frame.** Every
  reply without an image is written through buffer 0
  (`ImageServer/private/CSerializer.cpp:72-97`), and a buffer without a frame turns
  every answer code into MAT_NULL_PTR. A client that gets no image is told why
  exactly when buffer 0 holds a frame or the frame is all that is missing
  (`ReasonGivenExactly`; with one empty camera, a request for camera 1 is answered
  with MAT_NULL_PTR, `WrongReasonGiven`), and the text buffer is served only while
  camera 0 has a frame (`TextServedExactly`). On a server without buffers any
  request ends in the assertion of `getLast`.
- **One split UDP request shifts all later replies.** Every datagram puts its
  sender into the queue, but only a complete frame is answered. A request in k
  datagrams, or one whose end is lost, leaves addresses behind, and from then on
  every client sees what somebody else asked for (`SplitRequestShiftsReplies`,
  `LostRequestShiftsReplies`, `SplitRequestMisleads`; on an input each:
  `SplitRequestMisdirects`, `LostRequestMisdirects`). For any requests cut safely,
  from any queue, every client gets its own answer exactly when the first addresses
  of the line are the clients in order (`OwnAnswersExactly`); from an empty queue,
  when no client asks twice in a row, exactly when every request but the last comes
  in one datagram (`OwnAnswersExactlyWhole`).
- **A truncated image is accepted while hashes are not checked**, its missing bytes
  filled with zeros (`TruncatedReply`).
- **Text lists are accepted whatever follows the answer code**, the hash included
  (`HeadRead`), and text lists that reach a receiver of images overwrite its last
  id with an unset one, after which the same image can be pushed twice in a row
  (`NeverPushesRepeat` is the exact condition, `TextListsLetRepeat` a run).
- **The Hamming distance of hashes whose sign bits differ subtracts one from the
  smallest integer**, an overflow that C++ leaves undefined (`CalcHammingDistance`).
- **Coalesced frames are lost, a split header delivers an empty string**, and
  empty reads behind a frame repeat its payload (`CoalescedFramesLost`,
  `SplitHeaderDeliversEmpty`, `EmptyReadRepeats`); with the header whole, delivery
  is exact if and only if no later piece begins with the magic number and the cut
  does not end in an empty piece (`FrameDeliveredExactly`).
- **A failed `open` loses frames for good**: all that the alert should have brought
  is passed over by every later call (`OpenFailureLosesFrames`; `NowOrNever` is the
  exact condition).
- **The double append of the text algorithm never marks its record as an alert**
  (`DoubleAppendAddsOne`).

## Model

| member | source | states |
|---|---|---|
| Frames.ReadAllIsRecomputed | Image/private/CMatWithTimeStampImpl.cpp:94-193 | any sequence of getMat calls on a raw, coherent frame returns, for each type, the picture recomputed from the raw pixels, in any order and for any scale factors |
| Frames.OverwriteCoherent | Image/private/CMatWithTimeStampImpl.cpp:89-92 | overwriting the pixels keeps the cache right exactly when they stay the same, or nothing gray was derived and the small colour picture was not derived either or, at a scale factor of at most 1, shares the memory that is written in place |
| Frames.SharingStaysSound | Image/private/CMatWithTimeStampImpl.cpp:178-193 | reads, overwrites and counter changes keep memory shared only where the scale factor keeps the picture |
| Frames.FullReadsAreFresh | Image/private/CMatWithTimeStampImpl.cpp:98-127 | the full pictures come from the pixels, whatever the cache holds |
| Frames.DecreasedFrame | Image/private/CMatWithTimeStampImpl.cpp:47-74 | only the decrease to zero clears, and then the mask goes with every picture |
| Frames.ClearedReads | Image/private/CMatWithTimeStampImpl.cpp:57-74 | which requests still succeed on a cleared frame and what they return |
| Frames.Frame.DecreaseRefCounter | Image/private/CMatWithTimeStampImpl.cpp:47-74 | reaching zero encodes once and drops every picture and the mask |
| Frames.Frame.GetMat | Image/private/CMatWithTimeStampImpl.cpp:94-147 | the picture handed out and the cache left behind, including where OpenCV throws |
| Rings.Ring.PushBack | Image/private/CRingBuffer.cpp:32-59 | both lists, the sampling counter and every frame's counter after a push |
| Rings.Ring.Copy | Image/private/CRingBuffer.cpp:133-157 | a copy has the same lists and sizes and changes no frame |
| FrameStore.PinLoopIsDead | Image/private/CRingBuffer.cpp:149-156 | the pinning loop changes no counter, however many rounds it is given |
| FrameStore.CounterAccounting | Image/private/CRingBuffer.cpp:14-59 | after any run every counter is the ring's remaining claim in closed form plus the live lockers |
| FrameStore.IntendedAccountingExactlyUnheld | Image/private/CRingBuffer.cpp:149-156 | the accounting with one pin for each snapshot holds exactly of frames no snapshot holds |
| FrameStore.IntendedAccountingFails | Image/private/CRingBuffer.cpp:149-156 | from program start, any number of captures and one snapshot break that accounting for the newest frame |
| FrameStore.FamilyHoldsTheSame | Image/private/CImageBuffer.cpp:73-84 | through any chain of copies and over any run, all copies that stem from one hold what it held |
| FrameStore.CopiesHoldTheSnapshot | Image/private/CImageBuffer.cpp:73-84 | after any run, every copy that stems from a snapshot holds both lists as the live ring had them then |
| FrameStore.CopyOfCopy | Image/private/CImageBuffer.cpp:73-84 | a snapshot, any calls, a copy of it, any calls: the copy holds the two lists of the first snapshot |
| FrameStore.SnapshotUnchanged | Image/private/CRingBuffer.cpp:14-25 | a copy is there and unchanged exactly until it is dropped |
| StoreHistory.FramesAsPushed | Image/private/CMatWithTimeStampImpl.cpp:10-30 | the frames after a run are those of its pushes, each with the picture, factors, stamp and id it was pushed with |
| StoreHistory.ClearsAsCalled | Image/private/CRingBuffer.cpp:72-76 | the epochs of the closed forms are those of the clear calls |
| StoreHistory.LocksAsCalled | Image/private/CMatWithTimeStamp.cpp:178-187 | the lockers on a frame are those taken less those destroyed |
| StoreHistory.SamplingCountsAllEvictions | Image/private/CRingBuffer.cpp:36-50 | the sampling counter survives clears: it is the number of all evictions so far |
| FrameStore.StepKeepsInv | Image/private/CRingBuffer.cpp:32-76 | every call keeps list shapes, accounting, pictures and raw pixels as the invariant says |
| FrameStore.RawExactlyWhileClaimed | Image/private/CMatWithTimeStampImpl.cpp:47-55 | over any run a frame keeps its raw pixels exactly while every state leaves a claim or a locker on it |
| FrameStore.LockedFrameStaysRaw | Image/private/CMatWithTimeStampImpl.cpp:41-55 | a raw frame that is locked by somebody in every state of a run stays raw exactly unless in some state the ring has let go of it twice and only one locker is left |
| FrameStore.ClaimOverdrawnExactly | Image/private/CRingBuffer.cpp:34-58 | the ring has let go twice exactly of the frames that a ring of five or more has evicted and that were not the first push after a clear |
| FrameStore.OneLockerProtects | Image/private/CMatWithTimeStamp.cpp:178-187 | under exactly one locker over any run a raw frame stays raw exactly until then |
| FrameStore.LockedReadFails | Image/private/CRingBuffer.cpp:37-58 | from program start, captures, a locker on the newest frame, more captures: the gray picture of the still locked frame throws exactly after M or more |
| FrameStore.UnlockedFrameBound | Image/private/CRingBuffer.cpp:34-58 | in every reachable state an unlocked frame is raw exactly when it is among the newest three pushes before the next clear (the newest M in rings below five and for the first push after a clear), whatever snapshots hold it |
| FrameStore.UnlockedSnapshotFrame | Image/private/CRingBuffer.cpp:133-157 | a snapshot is taken, and it or a copy that stems from it is there after any run: its j-th newest frame, unlocked at the end, is raw exactly when j + 1 plus the pushes since, up to the next clear, is within that window |
| FrameStore.UnlockedSnapshotReadThrows | Image/private/CMatWithTimeStampImpl.cpp:94-193 | a request on an unlocked snapshot frame throws exactly when those pushes have left that window and the type is gray, or is the small colour picture at a scale factor above 1 |
| FrameStore.ThrowsExactly | Image/private/CMatWithTimeStampImpl.cpp:94-193 | in every reachable state a request throws exactly when it needs the raw pixels of a frame that has lost them |
| FrameStore.SnapshotReadFails | Image/private/CRingBuffer.cpp:53-58 | from program start, captures, a snapshot, more captures: the gray picture of the snapshot's newest frame throws exactly after three or more |
| FrameStore.PictureNeverLost | Image/private/CMatWithTimeStampImpl.cpp:57-74 | every pushed picture is there after any run, raw or as the JPEG of exactly the pushed pixels, and is encoded at most once |
| FrameStore.NewestAreRaw | Image/motionAlgorithms/IAlertAlgorithm.hpp:32 | the newest min(3, M) frames of the live ring have never been cleared |
| StoreHistory.RawReadsAsPushed | Image/private/CMatWithTimeStampImpl.cpp:94-193 | after any run, reads of any types in any order from a raw frame give what its push promised: computed from the pushed pixels with the pushed factors, stamp and id |
| StoreHistory.ReadStays | Image/private/CMatWithTimeStampImpl.cpp:94-193 | a picture that was read stays in the frame, and reading it again changes nothing |
| StoreHistory.NewestAreReadable | Image/private/CMatWithTimeStampImpl.cpp:94-193 | after any run no request on one of the newest three frames of the live ring throws, and every picture is there and the promised one |
| FrameStore.ListsClosedForm | Image/private/CRingBuffer.cpp:32-51 | after any run the list is the last min(T, M) pushes, the long list the last L sampled evictions, and both together are in push order |
| FrameStore.LongListSpacing | Image/private/CRingBuffer.cpp:41-49 | after L + L * S evictions the long list is full and its neighbours are exactly S evictions apart |
| ImageBuffers.ImageBuffer.Push | Image/private/CImageBuffer.cpp:86-90 | pushing on the heap objects is the Push step of the state machine |
| ImageBuffers.ImageBuffer.TakeSnapshot | Image/private/CImageBuffer.cpp:73-84 | copying the live buffer is the Snapshot step |
| ImageBuffers.ImageBuffer.UnlockFrame | Image/private/CMatWithTimeStamp.cpp:184-187 | destroying a locker is the Unlock step |
| ImageBuffers.ImageBuffer.GetLast | Image/private/CImageBuffer.cpp:13-20 | the newest frame, or null when the ring is empty |
| Bytes.GetPutString | client/private/CDeSerializer.cpp:28-34 | a written string, null or not, is read back with nothing else consumed |
| Bytes.GetPutDate | client/private/CDeSerializer.cpp:57-63 | the same for a date |
| Bytes.BrokenString | client/private/CDeSerializer.cpp:28-34 | a string length that is odd or too large leaves a null string |
| Framing.FrameDeliveredExactly | Net/private/CNetBase.cpp:32-71 | from any state, a frame cut anywhere with its header whole, empty pieces included, is delivered once exactly when no later piece begins with the magic number and the cut does not end in an empty piece |
| Framing.FrameDeliveries | Net/private/CNetBase.cpp:58-70 | without a later magic number it is delivered once for its last filled piece and once more for every empty piece behind it |
| Framing.StreamDelivered | Net/private/CNetBase.cpp:32-71 | a stream of frames cut that way delivers all payloads once each and in order |
| Framing.CoalescedFramesLost | Net/private/CNetBase.cpp:38-70 | two frames in one read deliver nothing, and every following piece up to the next header delivers the first payload with eight header bytes of the second frame |
| Framing.NextFrameRecovers | Net/private/CNetBase.cpp:38-70 | the next frame that is cut safely arrives again |
| Framing.SplitHeaderDeliversEmpty | Net/private/CNetBase.cpp:34-70 | a header cut after the magic number delivers an empty string instead of the payload |
| Framing.EmptyReadRepeats | Net/private/CNetBase.cpp:58-64 | n empty reads after a frame hand its payload over n more times |
| Framing.AnnouncedSize | Net/private/CNetBase.cpp:38-57 | what a header does that announces any size whatever |
| Framing.FurtherString | Net/private/CNetBase.cpp:58-70 | what a string without magic number delivers, for every announced size and buffer |
| Framing.NetBase.OnReadFinished | Net/private/CNetBase.cpp:32-71 | the method is the step function the theorems speak about |
| Framing.HeaderBytes | Net/private/CNetBase.cpp:93-103 | the eight bytes of the header, written out |
| Framing.NetBase.InsertBeginInfo | Net/private/CNetBase.cpp:93-103 | the framed string is magic, total size and payload |
| Codec.TrailerAccepted | common/private/CHashFunctions.cpp:29-64 | a body with its own trailer is accepted: both sides hash the same bytes |
| Codec.TamperedRequest | ImageServer/private/CSerializer.cpp:99-144 | a request changed to another of the same length is accepted by load exactly when hashes are not checked or the CRCs of the covered bytes agree, and refused with WrongHash otherwise |
| Codec.TamperedReply | client/private/CDeSerializer.cpp:16-97 | the same for an image reply with a new id |
| Codec.LoadRequestDecides | ImageServer/private/CSerializer.cpp:108-144 | load on any values in the layout of a request: version, then hash |
| Codec.LoadReplyDecides | client/private/CDeSerializer.cpp:16-97 | load on any values in the layout of a reply: version, answer code, repeated id, size, hash, in that order |
| Codec.TruncatedReply | client/private/CDeSerializer.cpp:68-90 | a reply that ends inside its image is filled with zeros, and accepted when hashes are not checked |
| Codec.EveryMessageClosed | common/private/CHashFunctions.cpp:9-57 | requests, images, refusals and text lists all end with the length of the body and the CRC of its covered part |
| Codec.StatusLayout | ImageServer/private/CSerializer.cpp:34-68 | a reply without image reads back as version, text, answer code, and the lists up to the trailer |
| Codec.RequestRoundTrip | client/private/CDeSerializer.cpp:133-156 | the server's load gives back answer code, image type, data and string of every request |
| Codec.ReplyRoundTrip | ImageServer/private/CSerializer.cpp:29-69 | the client's load gives back id, date and image bytes exactly when the id differs from the last one |
| Codec.StatusRefused | client/private/CDeSerializer.cpp:98-129 | a reply without image is refused with its code, unless it is a text buffer |
| Codec.HeadRead | client/private/CDeSerializer.cpp:108-118 | text lists are accepted whatever follows the answer code |
| Codec.RequestsEndToEnd | ImageServer/private/CSerializer.cpp:99-144 | requests serialized, framed, cut and read come out of load unchanged, once each and in order |
| Codec.ReplyEndToEnd | client/private/CDeSerializer.cpp:16-97 | the same for an image reply, from any receiver state |
| Codec.Serializer.ClientSerialize | client/private/CDeSerializer.cpp:133-156 | the written bytes are the request body with its trailer |
| Codec.Serializer.SaveImage | ImageServer/private/CSerializer.cpp:29-59 | the written bytes are the image reply with its trailer |
| Codec.Serializer.SaveStatus | ImageServer/private/CSerializer.cpp:34-68 | the written bytes are the reply without image, with the text lists if there are any |
| Codec.Serializer.LoadFromServer | client/private/CDeSerializer.cpp:16-130 | the stream reads and checks in the order of the source give the load function, up to the text lists |
| UdpServers.RepliesFollowArrival | Net/servers/CUDPServer.cpp:21-41 | for any datagrams, addresses answered followed by those waiting are the senders in arrival order; replies plus queue equal datagrams |
| UdpServers.RepliesGoDownTheLine | Net/servers/CUDPServer.cpp:21-41 | with n addresses left over, the i-th whole request is answered to the sender n requests before, whatever the worker does at each moment, and n are left over again |
| UdpServers.EachToItsOwnExactly | Net/servers/CUDPServer.cpp:21-41 | every client gets the answer to its own request exactly when those served are those who asked |
| UdpServers.WholeFramesAnswered | Net/private/CUDPNetObject.cpp:17-31 | with one whole frame for each datagram and an empty queue every sender gets the answer to its own request |
| UdpServers.SplitRequest | Net/private/CUDPNetObject.cpp:17-31 | a request cut into k datagrams is answered once, with its last piece, and leaves k - 1 more addresses waiting |
| UdpServers.SplitRequestShiftsReplies | Net/servers/CUDPServer.cpp:21-41 | after it, over any list of whole requests, every reply goes to the sender k - 1 requests before |
| UdpServers.LostRequestShiftsReplies | Net/servers/CUDPServer.cpp:21-41 | a request whose end never arrives shifts all later replies by one |
| UdpServers.RequestsGoDownTheLine | Net/servers/CUDPServer.cpp:21-41 | any requests, each cut safely into datagrams of its client: the i-th reply answers the i-th request and goes to the i-th address of the line |
| UdpServers.OwnAnswersExactly | Net/servers/CUDPServer.cpp:21-41 | so every client gets its own answer exactly when the first addresses of the line are the clients in order |
| UdpServers.OwnAnswersExactlyWhole | Net/private/CUDPNetObject.cpp:17-31 | from an empty queue, when no client asks twice in a row, exactly when every request but the last comes in one datagram |
| UdpServers.SplitRequestMisdirects | Net/servers/CUDPServer.cpp:21-41 | two clients and three datagrams on which the first gets both answers |
| UdpServers.LostRequestMisdirects | Net/servers/CUDPServer.cpp:21-41 | two clients and two datagrams on which the first gets the other's answer |
| UdpServers.UdpServer.ReadyRead | Net/private/CUDPNetObject.cpp:17-31 | enqueue, reassemble, reply, in the order of the source |
| ImageServer.ImageServedExactly | ImageServer/private/CSerializer.cpp:72-97 | request, server and client's load together: the image exactly when buffer, type and frame exist and the id is new; otherwise the refusal code the client sees, with buffer 0 taken into account |
| ImageServer.ReasonGivenExactly | ImageServer/private/CImageSenderWorker.cpp:53-103 | a client that gets no image is told the reason exactly when only the frame is missing or buffer 0 holds a frame |
| ImageServer.WrongReasonGiven | ImageServer/private/CSerializer.cpp:84-97 | an input on which a wrong reason is given |
| ImageServer.TextServedExactly | ImageServer/private/CImageSenderWorker.cpp:78-91 | the text buffer is served exactly while camera 0 has a frame |
| ImageServer.AnyRequestSeen | ImageServer/private/CImageSenderWorker.cpp:20-148 | for every string whatever, load rejecting it included, what the client makes of the reply |
| ImageServer.ReplyBytesExactly | ImageServer/private/CSerializer.cpp:21-97 | the bytes of the reply to an image request |
| ImageServer.NumbersRead | ImageServer/private/CImageSenderWorker.cpp:118-147 | which spellings of a buffer number are read, and which numbers are too large |
| ImageServer.OtherTextsAreNoNumber | ImageServer/private/CImageSenderWorker.cpp:118-147 | a text with any other character is no number |
| ImageServer.ImageSender.ReceiveCallBack | ImageServer/private/CImageSenderWorker.cpp:20-104 | exactly one reply, byte for byte, to every string received, and none exactly when the server has no buffer |
| Service.EveryClientServed | Net/private/CUDPNetObject.cpp:17-31 | any clients and requests in one datagram each, with the buffers changing in between: each client sees the newest frame of the buffer it asked for, or the reason as far as it is given |
| Service.SplitRequestMisleads | Net/servers/CUDPServer.cpp:21-41 | after one split request every client sees what was asked for k - 1 visits later |
| FinalVideo.NoPictureTwice | alerts/private/CFinalVideoWriter.cpp:26-151 | over any run the picture ids written for a buffer and path strictly increase, across files and after-alert frames |
| FinalVideo.RecordWritesExactly | alerts/private/CFinalVideoWriter.cpp:181-234 | an alert whose file is or can be opened adds exactly the wanted frames above the last id, which written frames and those passed over by a failed open both move |
| FinalVideo.RecordAddsExactly | alerts/private/CFinalVideoWriter.cpp:181-260 | which kinds of entries such an alert adds, the mask picture behind the newest frame included |
| FinalVideo.RecordOpensExactly | alerts/private/CFinalVideoWriter.cpp:53-80 | after an alert on a new frame the video is open exactly when its file could be opened or was open for the day of that frame |
| FinalVideo.OneOpenADay | alerts/private/CFinalVideoWriter.cpp:53-80 | a later alert of the same day writes all that is wanted of it, whether or not the file could be opened then |
| FinalVideo.LongExactly | alerts/private/CFinalVideoWriter.cpp:182-215 | the long list is written only when both lists are shorter than the request, without its newest entry |
| FinalVideo.NowOrNever | alerts/private/CFinalVideoWriter.cpp:26-93 | after an alert, a frame up to the newest one is in the video after any later run exactly when the file was or could be opened and the frame was wanted then |
| FinalVideo.OpenFailureLosesFrames | alerts/private/CFinalVideoWriter.cpp:167-178 | when the file cannot be opened, no frame up to the newest one that was not written before is ever written by any later run |
| FinalVideo.CheckNowOrNever | alerts/private/CFinalVideoWriter.cpp:109-151 | of the frames up to the newest one at a check with the counter on, exactly that one is ever in the video, when the file is open |
| FinalVideo.AlertStartsWindow | alerts/private/CFinalVideoWriter.cpp:26-93 | an alert starts the after-alert counter of the ready buffers it names, a warning leaves every counter alone |
| FinalVideo.AfterAlertWindow | alerts/private/CFinalVideoWriter.cpp:109-151 | at most max(0, F - 1) after-alert frames follow an alert: exactly that many when every step brings a new frame and the alert's file could be opened or was open for its day, none when the video is closed |
| FinalVideo.SilentWindow | alerts/private/CFinalVideoWriter.cpp:119-127 | once the counter is off nothing is written until another alert |
| Cameras.StoreViewsGrow | Image/private/CRingBuffer.cpp:32-51 | copies taken from any reachable frame store with growing ids are the inputs these theorems need |
| Cameras.NoPictureTwiceInAnyRun | alerts/private/CFinalVideoWriter.cpp:26-151 | from program start, over any interleaving of pushes, clears, snapshots, lockers and reads on all cameras with alerts, warnings and checks on live rings or old snapshots, every video climbs |
| Cameras.AlertShowsNewest | alerts/private/CFinalVideoWriter.cpp:26-93 | an alert on live rings whose file opens brings the newest frame of a full ring into the video for good |
| Cameras.StoresRunAlone | Image/private/CImageBuffer.cpp:86-90 | in any such interleaving each camera's store runs through its own calls |
| Cameras.WriterRunsAlone | alerts/private/CFinalVideoWriter.cpp:26-151 | and the writer through exactly the alerts, warnings and checks, each with the rings as they are then |
| Cameras.LiveViewIsNewest | Image/private/CRingBuffer.cpp:27-30 | a live ring is full exactly after as many pushes since the last clear as it has places, and its newest shot is the last push |
| FinalVideo.FinalVideoWriter.WriteVideo | alerts/private/CFinalVideoWriter.cpp:26-93 | the nested loops over buffers and paths give the step function |
| FinalVideo.FinalVideoWriter.CheckAndSendReply | alerts/private/CFinalVideoWriter.cpp:109-151 | the same for the after-alert check, unknown buffers included while their counter is off |
| Mail.MailBound | alerts/private/CSMTPAlert.cpp:413-474 | within W seconds of construction at most (1 + max(0, R)) * (W / (Min + 1)) alert and reply mails |
| Mail.MailsAreSpaced | alerts/private/CSMTPAlert.cpp:413-530 | alerts more than Min apart, the first also after FirstTimeSkip, replies numbered without gaps and late enough |
| Mail.AlertSentExactly | alerts/private/CSMTPAlert.cpp:420-431 | on any run an alert mail is sent exactly when those two delays have passed |
| Mail.ReplySentExactly | alerts/private/CSMTPAlert.cpp:506-521 | on any run a reply, naming the algorithm of the last alert mail, is sent exactly when that has a name and a reply to come and the delay has passed |
| Mail.ForcedSentExactly | alerts/private/CSMTPAlert.cpp:461-503 | after any run of constructions and force calls, a call sends exactly when it gets the lock, its interval is positive and more than that has passed since the later of the last forced mail and the last construction |
| Mail.ForcedFarApart | alerts/private/CSMTPAlert.cpp:461-474 | forced mails of all objects are more than their object's interval apart |
| Mail.SmtpAlert.Alert | alerts/private/CSMTPAlert.cpp:413-459 | the method is the alert step |
| Receiver.NeverStuck | client/private/CImageReceiverWorker.cpp:134-235 | from the first connect on some timer is armed, counters stay in range, every eleventh reset clears |
| Receiver.AnswerTimerStaysArmed | client/private/CImageReceiverWorker.cpp:237-252 | once a request went out the answer timer is always armed again |
| Receiver.SilenceIsNoticed | client/private/CImageReceiverWorker.cpp:154-206 | against a server that never answers, every error call becomes possible in turn and asks again or resets; eight lead to a reset, 88 to a cleared buffer |
| Receiver.ResetReconnects | client/private/CImageReceiverWorker.cpp:208-235 | a reset leads to a restart and, once connected, to the next request, with no errors counted |
| Receiver.AnswerAsksAgain | client/private/CImageReceiverWorker.cpp:104-138 | after every answer the next image can be asked for and is |
| Receiver.AnswerStartsOver | client/private/CImageReceiverWorker.cpp:104-138 | after an answer the connection is reset once in eight unanswered calls, no earlier |
| Receiver.FatalErrorResets | client/private/CImageReceiverWorker.cpp:176-199 | a fatal error resets with the very next error call |
| Receiver.FirstRequest | client/private/CImageReceiverWorker.cpp:140-147 | connected and ready, the receiver asks for its first image |
| Receiver.RequestsAccounted | client/private/CImageReceiverWorker.cpp:154-174 | over any run, requests sent plus resets are the request and connect timers fired plus the error calls |
| Receiver.TimersExactly | client/private/CImageReceiverWorker.cpp:102-252 | for each timer, what arms it and what alone stops it |
| Receiver.CallsPushOn | client/private/CImageReceiverWorker.cpp:154-174 | without answers every error call counts exactly once towards a clear and fatal errors only push further |
| Receiver.ClearWithin88 | client/private/CImageReceiverWorker.cpp:154-174 | at most 88 unanswered calls pass before the buffer is cleared, without fatal errors exactly one clear in 88 |
| Receiver.ResetWithin8 | Net/CNetValues.hpp:18 | at most eight unanswered calls pass before a reset |
| Receiver.PushedExactly | client/private/CImageReceiverWorker.cpp:50-102 | over any run exactly the images that decode are pushed, in order, and the last id is what the last reply left behind |
| Receiver.OfferedExactly | client/private/CDeSerializer.cpp:43-97 | what the server writes as an image is what the receiver is offered, unless it is the one it has |
| Receiver.FirstImageTaken | client/private/CImageReceiverWorker.cpp:41-43 | the first image is taken unless its id is that of no image |
| Receiver.CannotRepeatExactly | client/private/CDeSerializer.cpp:51-56 | no event can push a repeat exactly when the last id is that of the last image pushed |
| Receiver.DriftExactly | client/private/CImageReceiverWorker.cpp:50-102 | the events that break this are an image that does not decode and text lists for a receiver of images |
| Receiver.NeverPushesRepeat | client/private/CImageReceiverWorker.cpp:50-102 | over any run, pushing an image twice in a row stays out of reach exactly when none of those events occurs |
| Receiver.TextListsLetRepeat | client/private/CImageReceiverWorker.cpp:50-102 | a run of three replies on which an image is pushed twice in a row |
| Receiver.ImageReceiver.ReceiveCallBack | client/private/CImageReceiverWorker.cpp:102-138 | the handler is the answer step with what load offers |
| Receiver.ImageReceiver.IncreaseErrorCount | client/private/CImageReceiverWorker.cpp:154-174 | the handler is the error step |
| Recorder.RecordsAreFiltered | Text/private/CTextBuffer.cpp:14-50 | the records are the inputs that a plain dead-band filter keeps, each with its value and its alert mark, and every id used is accounted for |
| Recorder.RecordingIsSound | Text/private/CTextBuffer.cpp:14-50 | ids strictly grow, neighbours are at least the band apart, the last value lies in the band of the last record |
| Recorder.InsideTheBand | Text/private/CTextBuffer.cpp:24-39 | with a real dead band every value is strictly inside it |
| Recorder.BoundedIsLastFifty | Text/private/CTextBuffer.cpp:52-55 | the bounded list is always the last fifty of the unbounded recording |
| Recorder.DoubleAppendAddsOne | common/private/CMainFunctions.cpp:209-264 | the two appends of one value add at most one record, never one marked as an alert |
| Recorder.TextBuffer.Append | Text/private/CTextBuffer.cpp:9-56 | append on the map of lists with the shared id counter, other patterns untouched |
| Words.Minus1Subtracts | Image/motionAlgorithms/private/CPHash.cpp:73-73 | the bit-level decrement is subtraction modulo the word size |
| Words.ClearingRemovesOne | Image/motionAlgorithms/private/CPHash.cpp:70-74 | v & (v - 1) removes exactly one set bit |
| PHash.PHashValue | Image/motionAlgorithms/private/CPHash.cpp:49-64 | cell j of row i of the mask is bit 8 i + j of the hash |
| Words.SignClearedLast | Image/motionAlgorithms/private/CPHash.cpp:70-74 | the sign bit is cleared exactly when no other bit is left |
| PHash.CalcHammingDistance | Image/motionAlgorithms/private/CPHash.cpp:67-76 | the loop terminates with the number of differing cells, and subtracts one from the smallest integer exactly when the sign bits differ |
| PHash.HashDistanceIsMetric | Image/motionAlgorithms/private/CPHash.cpp:67-76 | on masks the distance is at most 64, zero only for equal masks, symmetric, with the triangle inequality |
| FaceStreak.AlertExactly | Image/motionAlgorithms/private/CFaceDetect.cpp:157-185 | an alert comes exactly when a long enough run, counted from a frame whose index is a multiple of S, is going on |
| FaceStreak.EnoughPositives | Image/motionAlgorithms/private/CFaceDetect.cpp:157-185 | S + N - 1 positive frames in a row always raise an alert |
| FaceStreak.OneFewerMayMiss | Image/motionAlgorithms/private/CFaceDetect.cpp:157-185 | one frame fewer is not always enough |
| FaceStreak.TooFewPositives | Image/motionAlgorithms/private/CFaceDetect.cpp:157-185 | fewer than N positive frames in a row never do |
| FaceStreak.FaceDetect.HasAlertWithSkip | Image/motionAlgorithms/private/CFaceDetect.cpp:157-185 | the method is the counter step |
| Strings.ReadSpelling | common/private/CXMLParser.cpp:405-430 | a number with white space and a plus is read as itself as long as it fits, as zero otherwise |
| Strings.ForeignCharacter | common/private/CXMLParser.cpp:405-430 | a text with any other character is no number |
| Connections.EntryRoundTrip | common/private/CXMLParser.cpp:395-461 | a well-formed entry, with any image type or with no target, is read back with the same protocol, host, port and target |
| Connections.NoColonSkipped | common/private/CXMLParser.cpp:395-400 | both parsers skip a text without a colon |
| Connections.ForeignSkipped | common/private/CXMLParser.cpp:436-461 | and one with another protocol |
| Connections.IdWithoutType | common/private/CXMLParser.cpp:417-428 | an image number without a type is taken for type 0 |
| Connections.ListRoundTrip | common/private/CXMLParser.cpp:392-468 | a list of entries with blanks, line ends, semicolons and pieces that are no entries strewn in is read back in order |
| Connections.SingleAgrees | common/private/CXMLParser.cpp:498-556 | the single parser agrees on TCP and UDP entries without text buffer, refuses TCP_SSL and takes a text buffer for image 0 of type 0 |
| Connections.ParseInputConfigEntry | common/private/CXMLParser.cpp:490-556 | the single entry is parsed by its function, and the old connection stays when the text is no good |
| Connections.ParseInputURLList | common/private/CXMLParser.cpp:387-469 | the loop over the split list gives the list function |

## Left out

- Rings.Ring.Copy: the pinning loop is not written out in the class, because its guard is false for the first index; `Rings.PinLoop` models it, cut off after any number of rounds, and the state machine runs that.
- ImageBuffers.ImageBuffer: one camera; the vector of rings adds only an index, since rings share no frames. The alert flag and its date, buffer names and `getNextId` carry no property here.
- The destructor of the live buffer, a static object that lives until the program ends, and pushes or clears on a copy, which the program never makes.
- Frames.Frame.CopyToThis: whether the new picture has the size and type of the old one, and is written over it in place, is an input; memory shared with matrices outside the frame is not modelled.
- Frames.FullPicture: decoding an empty JPEG buffer is taken to give an empty picture.
- Codec.LoadRequest: inputs too short to hold body and trailer are marked `Undefined` when hashes are checked, because the source then passes a negative length to zlib.
- Codec.LoadReply: the map of a text-buffer reply is not decoded; it is accepted as the source accepts it.
- Codec.Serializer.LoadFromServer: accepts a text-buffer reply without reading the map or storing its lists, because the wire format of QMap belongs to Qt.
- ImageServer.Scene: the JPEG bytes that a frame gives for a type and quality, the text lists as bytes, the memory use and the text of the reply are inputs; exceptions of the encoder on empty pictures are not modelled.
- Codec.Serializer.ClientSerialize: the output array is empty, as its one live caller leaves it.
- Bytes.DateTime: the date is the fixed triple that stream version 5.0 stores; conversions between time zones are not part of this model.
- Strings.ToUShort: decimal digits with an optional plus sign and white space around them; white space and digits outside ASCII count as invalid.
- ImageServer.ToUInt: the same spellings of a number as in `Strings.ToUShort`.
- ImageServer.ImageSender.ReceiveCallBack: a buffer number written with white space or digits outside ASCII counts as no number.
- FinalVideo.WriteFinal: exceptions thrown while a picture is copied or written, and null frames in a list, are not modelled; nor are the texts painted on the pictures and the file names.
- FinalVideo.FinalVideoWriter.CheckAndSendReply: a buffer that the copy does not have must have its counter off, since the source then reads out of bounds; likewise a ring of size at most 0, whose empty list counts as full, is passed over where the source takes its last entry.
- Cameras.NoPictureTwiceInAnyRun: frame numbers grow with the pushes of a camera; a remote server that restarts and numbers its frames anew is not covered.
- Mail: contents, attachments and transport of the mails; the multiplication of the configured intervals by coefficients happens before the model starts.
- Receiver: timers are armed or not, their intervals and real time are not modelled; the motion and text algorithms run on received data are not called.
- Recorder: values are reals, so rounding of floats is not modelled; the database copy of each record is left out.
- FaceStreak: what makes a frame positive (the cascades) is an input.
- Encryption, threads and data races, integer overflow of ids and counters, GUI, Telegram, MJPEG pages, database, zip, SMTP, serial port, speech and script conditions.
