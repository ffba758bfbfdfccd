/** The command connection of libfranka/src/network.h. */
module Network {
  import opened TcpFrames

  const ID_RANGE := 0x1_0000_0000

  // sizeof of the pointer that tcpReceiveResponse compares message sizes with.
  const POINTER_SIZE := 8

  // What one poll of the socket meets: whether the connection is broken, the bytes
  // that arrived before it and during it, and how many bytes beyond the first one
  // receiveBytes delivers at most.
  datatype Poll = Poll(broken: bool, before: seq<Byte>, during: seq<Byte>, extra: nat)

  datatype ReadResult = ReadDone | ConnectionInterrupted | IncorrectSize

  datatype Receipt = NotReceived | Handled(frame: seq<Byte>) | HandlerThrew(frame: seq<Byte>)
      | ReadFailed(why: ReadResult)

  datatype Reply =
    | StillWaiting
    | Reply(frame: seq<Byte>, variable: seq<Byte>)
    | ReplyTooShort(frame: seq<Byte>)
    | ReplyFailed(why: ReadResult)

  function Shorter(a: nat, b: nat): nat { if a <= b then a else b }

  // ----- Streams -----

  // Taking some of the unread bytes loses none.
  lemma SplitArrived(consumed: seq<Byte>, incoming: seq<Byte>, during: seq<Byte>, got: nat)
    requires got <= |incoming + during|
    ensures var bytes := incoming + during;
            consumed + incoming + during == consumed + bytes[..got] + bytes[got..]
  {
    var bytes := incoming + during;
    assert bytes[..got] + bytes[got..] == bytes;
  }

  // A malformed stream stays malformed, whatever follows.
  lemma {:induction false} MalformedStays(s: seq<Byte>, t: seq<Byte>)
    requires ParseStream(s).malformed
    ensures ParseStream(s + t).malformed
    decreases |s|
  {
    hide FrameSize;
    SizeOfConcatenation(s, t);
    if FrameSize(s) >= HEADER_SIZE {
      var n := FrameSize(s);
      assert (s + t)[n..] == s[n..] + t;
      MalformedStays(s[n..], t);
    }
  }

  // No prefix of a stream of frames is malformed.
  lemma FramesAreNeverMalformed(frames: seq<seq<Byte>>, s: seq<Byte>)
    requires (forall f :: f in frames ==> IsFrame(f)) && s <= Concat(frames)
    ensures !ParseStream(s).malformed
  {
    ParseRecovers(frames);
    var t := Concat(frames)[|s|..];
    assert s + t == Concat(frames);
    if ParseStream(s).malformed {
      MalformedStays(s, t);
      assert false;
    }
  }

  lemma ParseOne(b: seq<Byte>)
    requires HEADER_SIZE <= |b| <= FrameSize(b)
    ensures ParseStream(b) == if |b| < FrameSize(b) then Parse([], b, false) else Parse([b], [], false)
  {
    hide FrameSize;
    if |b| == FrameSize(b) {
      assert b[..|b|] == b && b[|b|..] == [];
      assert ParseStream([]) == Parse([], [], false);
    }
  }

  ghost predicate IsRequest(f: seq<Byte>, command: nat, id: nat, payload: seq<Byte>) {
    IsFrame(f) && U32(f, 0) == command && FrameId(f) == id && f[HEADER_SIZE..] == payload
  }

  // The last event takes the response of the given id out of the mailbox.
  ghost predicate ClaimedFrom(before: seq<Event>, after: seq<Event>, id: nat, frame: seq<Byte>) {
    && before < after && after[|after| - 1] == Claimed(id)
    && var h := after[..|after| - 1];
       before <= h && WellFormed(h) && id in Mailbox(h) && Mailbox(h)[id] == frame
  }

  // ----- The connection -----

  class Network {
    var commandId: nat
    var incoming: seq<Byte>
    var outgoing: seq<Byte>
    var pendingResponse: seq<Byte>
    var pendingResponseOffset: nat
    var pendingCommandId: nat
    var receivedResponses: map<nat, seq<Byte>>
    ghost var arrived: seq<Byte>
    ghost var consumed: seq<Byte>
    ghost var history: seq<Event>

    // All bytes that arrived are consumed or unread; the consumed ones are the frames
    // that completed, followed by the filled part of the pending response; the stored
    // responses are those frames that nobody claimed.
    ghost predicate Valid()
      reads this
    {
      && commandId < ID_RANGE
      && arrived == consumed + incoming
      && pendingResponseOffset <= |pendingResponse|
      && ParseStream(consumed) == Parse(ArrivedFrames(history), pendingResponse[..pendingResponseOffset], false)
      && (pendingResponse != [] ==>
            && HEADER_SIZE <= pendingResponseOffset < |pendingResponse| == FrameSize(pendingResponse)
            && pendingCommandId == FrameId(pendingResponse))
      && WellFormed(history)
      && receivedResponses == Mailbox(history)
    }

    constructor ()
      ensures Valid() && arrived == [] && history == [] && commandId == 0
    {
      commandId, incoming, outgoing, arrived, consumed := 0, [], [], [], [];
      pendingResponse, pendingResponseOffset, pendingCommandId := [], 0, 0;
      receivedResponses, history := map[], [];
    }

    // Enough bytes are there to start a response, or to go on with the pending one.
    ghost predicate CanProgress(available: nat)
      reads this
    {
      available >= if pendingResponse == [] then HEADER_SIZE else 1
    }

    method TcpReadFromBuffer(poll: Poll) returns (r: ReadResult)
      requires Valid()
      modifies this
      ensures commandId == old(commandId) && outgoing == old(outgoing)
      ensures r.ConnectionInterrupted? <==> poll.broken
      ensures !r.IncorrectSize? ==> Valid() && old(consumed) <= consumed
      ensures r.ReadDone? ==>
                arrived == old(arrived) + poll.before || arrived == old(arrived) + poll.before + poll.during
      ensures !r.IncorrectSize? ==> history == old(history) || exists f :: history == old(history) + [Arrived(f)]
      ensures r.ConnectionInterrupted? ==>
                history == old(history) && arrived == old(arrived) && consumed == old(consumed)
      ensures r.IncorrectSize? ==> ParseStream(old(arrived) + poll.before).malformed
                                   && history == old(history) && receivedResponses == old(receivedResponses)
      ensures var unread := old(incoming) + poll.before;
              r.IncorrectSize? <==>
                !poll.broken && old(pendingResponse) == [] && |unread| >= HEADER_SIZE && FrameSize(unread) < HEADER_SIZE
      // A read that can make progress does.
      ensures r.ReadDone? && old(CanProgress(|incoming| + |poll.before|)) ==> |old(consumed)| < |consumed|
    {
      hide FrameSize, FrameId, ParseStream, Mailbox, ArrivedFrames, WellFormed;
      if poll.broken {
        return ConnectionInterrupted;
      }
      arrived, incoming := arrived + poll.before, incoming + poll.before;
      if incoming == [] {
        return ReadDone;
      }
      ghost var start, rest := consumed, pendingResponse[..pendingResponseOffset];
      ghost var unread := incoming;
      var available := |incoming|;
      if pendingResponse == [] && available >= HEADER_SIZE {
        var header := incoming[..HEADER_SIZE];
        incoming := incoming[HEADER_SIZE..];
        SizeOfPrefix(unread, HEADER_SIZE);
        if FrameSize(header) < HEADER_SIZE {
          MalformedHere(start, unread, header);
          assert start + unread == old(arrived) + poll.before;
          return IncorrectSize;
        }
        pendingResponse := header + seq(FrameSize(header) - HEADER_SIZE, _ => 0 as Byte);
        SameHeader(header, pendingResponse);
        pendingResponseOffset := HEADER_SIZE;
        pendingCommandId := FrameId(header);
        consumed := consumed + header;
      }
      if pendingResponse != [] && available > 0 {
        ReceivePayload(poll, start, rest);
      }
      return ReadDone;
    }

    // The second half of a read: payload bytes, and the completed response if it is one.
    method ReceivePayload(poll: Poll, ghost start: seq<Byte>, ghost rest: seq<Byte>)
      requires commandId < ID_RANGE && arrived == consumed + incoming && WellFormed(history)
               && receivedResponses == Mailbox(history)
      requires HEADER_SIZE <= pendingResponseOffset <= |pendingResponse| == FrameSize(pendingResponse)
      requires pendingCommandId == FrameId(pendingResponse)
      requires ParseStream(start) == Parse(ArrivedFrames(history), rest, false)
      requires rest <= pendingResponse[..pendingResponseOffset]
               && consumed == start + pendingResponse[|rest|..pendingResponseOffset]
      modifies this
      ensures Valid() && commandId == old(commandId) && outgoing == old(outgoing)
      ensures old(consumed) <= consumed && arrived == old(arrived) + poll.during
      ensures old(pendingResponseOffset) < |old(pendingResponse)| && old(incoming) != [] ==>
                |old(consumed)| < |consumed|
      ensures history == old(history) || exists f :: history == old(history) + [Arrived(f)]
    {
      hide FrameSize, FrameId, ParseStream, Mailbox, ArrivedFrames, WellFormed;
      var bytes, offset := incoming + poll.during, pendingResponseOffset;
      var wanted := Shorter(|bytes|, |pendingResponse| - offset);
      var got := if wanted == 0 then 0 else Shorter(wanted, 1 + poll.extra);
      var more := bytes[..got];
      var after := pendingResponse[..offset] + more + pendingResponse[offset + got..];
      ghost var filled := pendingResponse[..offset] + more;
      FillKeepsHeader(pendingResponse, offset, more);
      FillBuffer(pendingResponse, offset, more, start, rest);
      ResumeParse(start, rest, filled, consumed + more);
      SplitArrived(consumed, incoming, poll.during, got);
      arrived, consumed, incoming := arrived + poll.during, consumed + more, bytes[got..];
      pendingResponse, pendingResponseOffset := after, offset + got;
      if pendingResponseOffset == |pendingResponse| {
        assert pendingResponse == filled;
        StoreResponse();
      }
    }

    // The completed response goes into the mailbox, unless one of its id is there.
    method StoreResponse()
      requires WellFormed(history) && receivedResponses == Mailbox(history)
      requires HEADER_SIZE <= |pendingResponse| && pendingCommandId == FrameId(pendingResponse)
      modifies this`receivedResponses, this`history, this`pendingResponse, this`pendingResponseOffset,
          this`pendingCommandId
      ensures WellFormed(history) && receivedResponses == Mailbox(history)
      ensures history == old(history) + [Arrived(old(pendingResponse))]
      ensures ArrivedFrames(history) == ArrivedFrames(old(history)) + [old(pendingResponse)]
      ensures pendingResponse == [] && pendingResponseOffset == 0
    {
      hide FrameId, Mailbox, ArrivedFrames, WellFormed;
      ArrivalRecorded(history, pendingResponse);
      if pendingCommandId !in receivedResponses {
        receivedResponses := receivedResponses[pendingCommandId := pendingResponse];
      }
      history := history + [Arrived(pendingResponse)];
      pendingResponse, pendingResponseOffset, pendingCommandId := [], 0, 0;
    }

    method TcpSendRequest(command: nat, payload: seq<Byte>) returns (id: nat)
      requires Valid() && command < ID_RANGE && HEADER_SIZE + |payload| < ID_RANGE
      modifies this`commandId, this`outgoing
      ensures Valid() && id == old(commandId) && commandId == (id + 1) % ID_RANGE
      ensures exists f :: outgoing == old(outgoing) + f && IsRequest(f, command, id, payload)
    {
      id := commandId;
      commandId := (commandId + 1) % ID_RANGE;
      var frame := EncodeHeader(command, id, HEADER_SIZE + |payload|) + payload;
      HeaderRoundTrip(command, id, HEADER_SIZE + |payload|, payload);
      outgoing := outgoing + frame;
    }

    // The non-blocking receive: one read, and the response if it is there.
    method TcpReceiveResponse(id: nat, lockFree: bool, poll: Poll, handlerThrows: bool) returns (r: Receipt)
      requires Valid()
      modifies this
      ensures !lockFree ==> r == NotReceived && history == old(history)
      ensures r != ReadFailed(IncorrectSize) ==> Valid()
      ensures r == ReadFailed(ConnectionInterrupted) <==> lockFree && poll.broken
      ensures r.NotReceived? && lockFree ==> id !in receivedResponses
      ensures r.Handled? || r.HandlerThrew? ==> HEADER_SIZE <= |r.frame| && FrameId(r.frame) == id
      ensures r.Handled? ==> ClaimedFrom(old(history), history, id, r.frame)
      ensures r.HandlerThrew? ==> id in receivedResponses && receivedResponses[id] == r.frame
      ensures r.HandlerThrew? ==> handlerThrows
      ensures r.ReadFailed? ==> !r.why.ReadDone?
      ensures r == ReadFailed(IncorrectSize) ==> ParseStream(old(arrived) + poll.before).malformed
      ensures lockFree && !r.ReadFailed? ==>
                arrived == old(arrived) + poll.before || arrived == old(arrived) + poll.before + poll.during
      // Without a response of that id, bytes are consumed if possible and nothing is claimed.
      ensures lockFree && r.NotReceived? ==>
                (history == old(history) || exists f :: history == old(history) + [Arrived(f)])
                && (old(CanProgress(|incoming| + |poll.before|)) ==> |old(consumed)| < |consumed|)
    {
      if !lockFree {
        return NotReceived;
      }
      var read := TcpReadFromBuffer(poll);
      if !read.ReadDone? {
        return ReadFailed(read);
      }
      if id in receivedResponses {
        var frame := receivedResponses[id];
        StoredUnderOwnId(history);
        if handlerThrows {
          return HandlerThrew(frame);
        }
        Claim(id);
        return Handled(frame);
      }
      return NotReceived;
    }

    method Claim(id: nat)
      requires Valid() && id in receivedResponses
      modifies this`receivedResponses, this`history
      ensures Valid() && history == old(history) + [Claimed(id)] && receivedResponses == old(receivedResponses) - {id}
    {
      receivedResponses := receivedResponses - {id};
      history := history + [Claimed(id)];
      assert history[..|history| - 1] == old(history);
    }

    // The blocking receive, for as many polls as the environment grants.
    method TcpBlockingReceiveResponse(id: nat, polls: seq<Poll>, messageSize: nat) returns (r: Reply)
      requires Valid() && messageSize >= HEADER_SIZE
      modifies this
      ensures r != ReplyFailed(IncorrectSize) ==> Valid()
      ensures r.StillWaiting? ==> polls == [] || id !in receivedResponses
      ensures r.Reply? || r.ReplyTooShort? ==> HEADER_SIZE <= |r.frame| && FrameId(r.frame) == id
      ensures r.Reply? ==>
                messageSize <= FrameSize(r.frame) && messageSize <= |r.frame| && r.variable == r.frame[messageSize..]
      ensures r.Reply? ==> ClaimedFrom(old(history), history, id, r.frame)
      ensures r.ReplyTooShort? ==>
                FrameSize(r.frame) < messageSize && id in receivedResponses && receivedResponses[id] == r.frame
    {
      hide FrameSize, FrameId, ParseStream, Mailbox, ArrivedFrames, WellFormed;
      var i := 0;
      while i < |polls|
        invariant Valid() && old(history) <= history
        invariant i <= |polls| && (i > 0 ==> id !in receivedResponses)
      {
        var read := TcpReadFromBuffer(polls[i]);
        if !read.ReadDone? {
          return ReplyFailed(read);
        }
        if id in receivedResponses {
          var frame := receivedResponses[id];
          StoredUnderOwnId(history);
          StoredAreFrames(this, id);
          if FrameSize(frame) < messageSize {
            return ReplyTooShort(frame);
          }
          Claim(id);
          return Reply(frame, frame[messageSize..]);
        }
        i := i + 1;
      }
      return StillWaiting;
    }
  }

  lemma MalformedHere(start: seq<Byte>, unread: seq<Byte>, header: seq<Byte>)
    requires !ParseStream(start).malformed && ParseStream(start).rest == []
    requires HEADER_SIZE <= |unread| && header == unread[..HEADER_SIZE] && FrameSize(header) < HEADER_SIZE
    ensures ParseStream(start + unread).malformed
  {
    SizeOfPrefix(unread, HEADER_SIZE);
    ParseAppend(start, unread);
    assert [] + unread == unread;
  }

  lemma ArrivalRecorded(h: seq<Event>, f: seq<Byte>)
    requires WellFormed(h) && |f| >= HEADER_SIZE
    ensures var g := h + [Arrived(f)];
            && WellFormed(g) && ArrivedFrames(g) == ArrivedFrames(h) + [f]
            && Mailbox(g) == if FrameId(f) in Mailbox(h) then Mailbox(h) else Mailbox(h)[FrameId(f) := f]
  {
    var g := h + [Arrived(f)];
    assert g[..|g| - 1] == h;
  }

  lemma SameHeader(b: seq<Byte>, c: seq<Byte>)
    requires HEADER_SIZE <= |b| && b <= c
    ensures FrameSize(c) == FrameSize(b) && FrameId(c) == FrameId(b)
  {
  }

  lemma FillKeepsHeader(pending: seq<Byte>, offset: nat, more: seq<Byte>)
    requires HEADER_SIZE <= offset && offset + |more| <= |pending|
    ensures var b := pending[..offset] + more;
            FrameSize(b) == FrameSize(pending) && FrameId(b) == FrameId(pending)
            && FrameSize(b + pending[|b|..]) == FrameSize(pending) && FrameId(b + pending[|b|..]) == FrameId(pending)
  {
  }

  lemma FillBuffer(pending: seq<Byte>, offset: nat, more: seq<Byte>, start: seq<Byte>, rest: seq<Byte>)
    requires offset + |more| <= |pending| && rest <= pending[..offset]
    ensures var filled, after := pending[..offset] + more, pending[..offset] + more + pending[offset + |more|..];
            && |after| == |pending| && after[..offset + |more|] == filled
            && rest <= filled && start + pending[|rest|..offset] + more == start + filled[|rest|..]
  {
    var filled := pending[..offset] + more;
    assert filled[|rest|..] == pending[|rest|..offset] + more;
  }

  // Reading on after a partial frame.
  lemma ResumeParse(start: seq<Byte>, rest: seq<Byte>, filled: seq<Byte>, consumed: seq<Byte>)
    requires !ParseStream(start).malformed && ParseStream(start).rest == rest
    requires rest <= filled && consumed == start + filled[|rest|..]
    requires HEADER_SIZE <= |filled| <= FrameSize(filled)
    ensures ParseStream(consumed)
            == if |filled| < FrameSize(filled) then Parse(ParseStream(start).frames, filled, false)
                                     else Parse(ParseStream(start).frames + [filled], [], false)
  {
    var more := filled[|rest|..];
    ParseAppend(start, more);
    assert rest + more == filled;
    ParseOne(filled);
  }

  lemma StoredAreFrames(n: Network, id: nat)
    requires n.Valid() && id in n.receivedResponses
    ensures IsFrame(n.receivedResponses[id])
  {
    ParseConserves(n.consumed);
    StoredHasArrived(n.history, id);
  }

  // ----- What the bytes mean, however they were delivered -----

  // Nothing more can be taken from what has arrived.
  ghost predicate Drained(n: Network)
    reads n
  {
    n.incoming == [] || (n.pendingResponse == [] && |n.incoming| < HEADER_SIZE)
  }

  // At every moment the frames received are those the whole-stream parser finds in
  // the bytes read so far, a prefix of the ones in the bytes that arrived.
  lemma ReceivedFramesAreParsed(n: Network)
    requires n.Valid()
    ensures ArrivedFrames(n.history) == ParseStream(n.consumed).frames
    ensures ArrivedFrames(n.history) <= ParseStream(n.arrived).frames
    ensures n.consumed == Concat(ArrivedFrames(n.history)) + n.pendingResponse[..n.pendingResponseOffset]
    ensures Drained(n) ==> ArrivedFrames(n.history) == ParseStream(n.arrived).frames
  {
    PrefixYieldsPrefix(n.consumed, n.incoming);
    ParseConserves(n.consumed);
    if Drained(n) {
      ParseAppend(n.consumed, n.incoming);
      var rest := ParseStream(n.consumed).rest;
      if n.incoming == [] {
        assert n.consumed + [] == n.consumed;
      } else {
        assert rest + n.incoming == n.incoming;
      }
    }
  }

  // Fragmentation does not matter: two connections that got the same bytes, in
  // whatever chunks and with whatever short reads, received the same frames.
  lemma FragmentationDoesNotMatter(a: Network, b: Network)
    requires a.Valid() && b.Valid() && a.arrived == b.arrived && Drained(a) && Drained(b)
    ensures ArrivedFrames(a.history) == ArrivedFrames(b.history)
  {
    ReceivedFramesAreParsed(a);
    ReceivedFramesAreParsed(b);
  }

  // What the robot sends is what is received, each response once and under its own id.
  lemma SentIsReceived(n: Network, sent: seq<seq<Byte>>)
    requires n.Valid() && Drained(n) && (forall f :: f in sent ==> IsFrame(f)) && n.arrived == Concat(sent)
    ensures ArrivedFrames(n.history) == sent
    ensures DistinctIds(sent) ==>
              forall f :: f in sent ==> (FrameId(f) in n.receivedResponses && n.receivedResponses[FrameId(f)] == f)
                                        != (multiset(HandedOut(n.history))[f] == 1)
  {
    ReceivedFramesAreParsed(n);
    ParseRecovers(sent);
    if DistinctIds(sent) {
      NothingDroppedWithDistinctIds(n.history);
      forall f | f in sent
        ensures (FrameId(f) in n.receivedResponses && n.receivedResponses[FrameId(f)] == f)
                != (multiset(HandedOut(n.history))[f] == 1)
      {
        hide FrameId, Mailbox, HandedOut, ArrivedFrames, Dropped;
        assert |f| >= HEADER_SIZE;
        MailboxConserves(n.history, f);
        OccursOnce(sent, f);
      }
    }
  }

  lemma {:induction false} OccursOnce(frames: seq<seq<Byte>>, f: seq<Byte>)
    requires DistinctIds(frames) && f in frames
    ensures multiset(frames)[f] == 1
  {
    var n := |frames| - 1;
    var a, last := frames[..n], frames[n];
    assert frames == a + [last];
    FreshId(a, last);
    CountAppend(a, [last], f);
    if f != last {
      hide FrameId;
      assert DistinctIds(a);
      assert f in a;
      OccursOnce(a, f);
    }
  }

  // The size check of the non-blocking receive compares with the size of a pointer,
  // less than that of any header: it accepts every stored response, however short.
  lemma NonBlockingCheckAcceptsAll(n: Network, id: nat)
    requires n.Valid() && id in n.receivedResponses
    ensures |n.receivedResponses[id]| >= HEADER_SIZE && !(FrameSize(n.receivedResponses[id]) < POINTER_SIZE)
  {
    StoredAreFrames(n, id);
  }

  // A response that consists of a header only, shorter than the response to any
  // request, reaches the handler through a fresh connection.
  method ShortResponseIsHandled(command: nat, id: nat) returns (n: Network, r: Receipt)
    requires command < ID_RANGE && id < ID_RANGE
    ensures fresh(n) && r.Handled? && |r.frame| == HEADER_SIZE && FrameId(r.frame) == id
  {
    hide FrameSize, FrameId, WellFormed, EncodeHeader, Network.Valid, ClaimedFrom, Mailbox, ParseStream;
    var frame := EncodeHeader(command, id, HEADER_SIZE);
    HeaderRoundTrip(command, id, HEADER_SIZE, []);
    assert frame + [] == frame;
    HeaderIsParsed(frame);
    n := new Network();
    assert n.CanProgress(|n.incoming| + |frame|) by { FreshConnection(n); }
    r := n.TcpReceiveResponse(id, true, Poll(false, frame, [], 0), false);
    assert [] + frame == frame && frame + [] == frame;
    if r.NotReceived? {
      HeaderIsStored(n, frame);
    } else {
      assert r.Handled?;
      HandedOutWhole(n, frame, id, r.frame);
    }
  }

  lemma FreshConnection(n: Network)
    requires n.Valid() && n.arrived == [] && n.history == []
    ensures n.incoming == [] && n.consumed == [] && n.pendingResponse == []
  {
    assert ParseStream([]) == Parse([], [], false);
  }

  lemma HeaderIsParsed(frame: seq<Byte>)
    requires IsFrame(frame) && |frame| == HEADER_SIZE
    ensures ParseStream(frame) == Parse([frame], [], false)
    ensures forall s :: s < frame ==> ParseStream(s) == Parse([], s, false)
  {
    ParseOne(frame);
  }

  lemma HeaderIsStored(n: Network, frame: seq<Byte>)
    requires n.Valid() && IsFrame(frame) && |frame| == HEADER_SIZE && n.arrived == frame && n.consumed != []
    requires n.history == [] || exists f :: n.history == [] + [Arrived(f)]
    ensures FrameId(frame) in n.receivedResponses
  {
    hide FrameSize, FrameId;
    HeaderIsParsed(frame);
    assert n.consumed <= frame;
    assert n.consumed == frame;
    OneArrival(n.history, frame);
  }

  lemma OneArrival(h: seq<Event>, frame: seq<Byte>)
    requires WellFormed(h) && |frame| >= HEADER_SIZE && ArrivedFrames(h) == [frame]
    requires h == [] || exists f :: h == [] + [Arrived(f)]
    ensures FrameId(frame) in Mailbox(h)
  {
    hide FrameId;
    assert ArrivedFrames([]) == [];
    var f :| h == [] + [Arrived(f)];
    assert h == [Arrived(f)] && h[..|h| - 1] == [];
    assert ArrivedFrames(h) == ArrivedFrames([]) + [f] == [f];
    assert [f][0] == [frame][0];
    assert Mailbox([]) == map[];
  }

  lemma {:induction false} FrameFits(frames: seq<seq<Byte>>, f: seq<Byte>)
    requires f in frames
    ensures |f| <= |Concat(frames)|
  {
    if frames[0] != f {
      FrameFits(frames[1..], f);
    }
  }

  // What a connection hands out is no longer than what arrived.
  lemma HandedOutWhole(n: Network, frame: seq<Byte>, id: nat, f: seq<Byte>)
    requires n.Valid() && n.arrived == frame && ClaimedFrom([], n.history, id, f)
    ensures |f| <= |frame|
  {
    hide FrameSize, FrameId, Mailbox;
    var h := n.history[..|n.history| - 1];
    StoredHasArrived(h, id);
    assert ArrivedFrames(n.history) == ArrivedFrames(h);
    ParseConserves(n.consumed);
    FrameFits(ArrivedFrames(h), f);
  }

  // ----- Command ids -----

  function NthId(first: nat, k: nat): nat { (first + k) % ID_RANGE }

  // These are the ids that tcpSendRequest assigns: the first one, and each wrapped after the last.
  lemma IdsFollowEachOther(first: nat, k: nat)
    requires first < ID_RANGE
    ensures NthId(first, 0) == first && NthId(first, k + 1) == (NthId(first, k) + 1) % ID_RANGE
  {
    var a := first + k;
    assert a == a / ID_RANGE * ID_RANGE + a % ID_RANGE;
    if a % ID_RANGE == ID_RANGE - 1 {
      assert a + 1 == (a / ID_RANGE + 1) * ID_RANGE;
    }
  }

  // Requests get distinct ids as long as fewer than 2^32 are sent between them.
  lemma RequestIdsAreDistinct(first: nat, j: nat, k: nat)
    requires j < k < j + ID_RANGE
    ensures NthId(first, j) != NthId(first, k)
  {
    var a, b := first + j, first + k;
    assert a == a / ID_RANGE * ID_RANGE + a % ID_RANGE && b == b / ID_RANGE * ID_RANGE + b % ID_RANGE;
  }
}
