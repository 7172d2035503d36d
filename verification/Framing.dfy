/** Length-prefixed messages over a byte stream (tcp_socket.cc). */
module Framing {
  import opened Wire

  /** The length in the machine's own (little-endian) byte order, then the payload. */
  function Frame(message: Bytes): Bytes {
    IntegerBytes(|message|) + message
  }

  function Frames(messages: seq<Bytes>): Bytes {
    if messages == [] then [] else Frame(messages[0]) + Frames(messages[1..])
  }

  predicate Sendable(messages: seq<Bytes>) {
    forall i :: 0 <= i < |messages| ==> |messages[i]| < INT_LIMIT
  }

  datatype Unframed = Unframed(message: Bytes, rest: Bytes)

  /** The first message of a stream and what follows it; None while the message is incomplete. */
  function Unframe(stream: Bytes): (r: Option<Unframed>)
    ensures r.Some? ==> |r.value.rest| < |stream|
  {
    if |stream| < 4 then None
    else
      var length := IntegerAt(stream, 0);
      if length < 0 || |stream| < 4 + length then None
      else Some(Unframed(stream[4..4 + length], stream[4 + length..]))
  }

  /** The complete messages at the front of a stream. */
  function Messages(stream: Bytes): seq<Bytes>
    decreases |stream|
  {
    match Unframe(stream)
    case None => []
    case Some(Unframed(message, rest)) => [message] + Messages(rest)
  }

  /** What is left of a stream behind its complete messages. */
  function Remainder(stream: Bytes): Bytes
    decreases |stream|
  {
    match Unframe(stream)
    case None => stream
    case Some(Unframed(_, rest)) => Remainder(rest)
  }

  lemma HeaderOf(message: Bytes, tail: Bytes)
    requires |message| < INT_LIMIT
    ensures IntegerAt(Frame(message) + tail, 0) == |message|
  {
    var stream := Frame(message) + tail;
    assert stream[0..4] == IntegerBytes(|message|);
    IntegerRoundTrip(|message|);
  }

  lemma UnframeFrame(message: Bytes, tail: Bytes)
    requires |message| < INT_LIMIT
    ensures Unframe(Frame(message) + tail) == Some(Unframed(message, tail))
  {
    var stream := Frame(message) + tail;
    HeaderOf(message, tail);
    assert stream[4..4 + |message|] == message;
    assert stream[4 + |message|..] == tail;
  }

  /** A proper prefix of a frame holds no message. */
  lemma UnframePartial(message: Bytes, n: nat)
    requires |message| < INT_LIMIT && n < |Frame(message)|
    ensures Unframe(Frame(message)[..n]) == None
  {
    if n >= 4 {
      assert Frame(message)[..n][0..4] == IntegerBytes(|message|);
      IntegerRoundTrip(|message|);
    }
  }

  /** A frame in front of a stream is one more message in front of its messages. */
  lemma FrameInFront(message: Bytes, tail: Bytes)
    requires |message| < INT_LIMIT
    ensures Messages(Frame(message) + tail) == [message] + Messages(tail)
    ensures Remainder(Frame(message) + tail) == Remainder(tail)
  {
    UnframeFrame(message, tail);
  }

  lemma HeadAndTail(messages: seq<Bytes>)
    requires messages != []
    ensures messages == [messages[0]] + messages[1..]
  {
  }

  lemma FramesOf(messages: seq<Bytes>)
    requires Sendable(messages) && messages != []
    ensures Frames(messages) == Frame(messages[0]) + Frames(messages[1..])
    ensures |messages[0]| < INT_LIMIT && Sendable(messages[1..])
    ensures messages == [messages[0]] + messages[1..]
  {
    HeadAndTail(messages);
  }

  /** The whole stream holds all messages and ends at a frame boundary. */
  lemma {:induction false} WholeHoldsAll(messages: seq<Bytes>)
    requires Sendable(messages)
    ensures Messages(Frames(messages)) == messages && Remainder(Frames(messages)) == []
  {
    if messages != [] {
      FramesOf(messages);
      WholeHoldsAll(messages[1..]);
      FrameInFront(messages[0], Frames(messages[1..]));
    }
  }

  lemma CutBehind(first: Bytes, second: Bytes, n: nat)
    requires |first| <= n <= |first| + |second|
    ensures (first + second)[..n] == first + second[..n - |first|]
  {
  }

  lemma CutInside(first: Bytes, second: Bytes, n: nat)
    requires n <= |first|
    ensures (first + second)[..n] == first[..n]
  {
  }

  /** However much of the stream has arrived, what it holds are the first messages sent, whole and in order. */
  lemma {:induction false} PrefixHoldsPrefix(messages: seq<Bytes>, n: nat)
    requires Sendable(messages) && n <= |Frames(messages)|
    ensures Messages(Frames(messages)[..n]) <= messages
    decreases |messages|
  {
    if messages != [] {
      FramesOf(messages);
      if n < |Frame(messages[0])| {
        CutInside(Frame(messages[0]), Frames(messages[1..]), n);
        UnframePartial(messages[0], n);
      } else {
        PrefixHoldsPrefix(messages[1..], n - |Frame(messages[0])|);
        PastFirst(messages, n);
      }
    }
  }

  lemma PastFirst(messages: seq<Bytes>, n: nat)
    requires messages != [] && Sendable(messages)
    requires |Frame(messages[0])| <= n <= |Frames(messages)|
    requires Messages(Frames(messages[1..])[..n - |Frame(messages[0])|]) <= messages[1..]
    ensures Messages(Frames(messages)[..n]) <= messages
  {
    var frame, later := Frame(messages[0]), Frames(messages[1..]);
    FramesOf(messages);
    CutBehind(frame, later, n);
    OneMore(messages[0], messages[1..], later[..n - |frame|]);
  }

  lemma OneMore(message: Bytes, later: seq<Bytes>, arrived: Bytes)
    requires |message| < INT_LIMIT && Messages(arrived) <= later
    ensures Messages(Frame(message) + arrived) <= [message] + later
  {
    FrameInFront(message, arrived);
    SamePrefix(message, Messages(arrived), later);
  }

  lemma SamePrefix(message: Bytes, shorter: seq<Bytes>, longer: seq<Bytes>)
    requires shorter <= longer
    ensures [message] + shorter <= [message] + longer
  {
  }

  // ------------------------------------------------ sender and receiver at once

  /** Bytes not yet handed to the system, under way, and read by the receiver. */
  datatype Link = Link(unsent: Bytes, wire: Bytes, got: Bytes)

  /** A write or read call of the payload loops moves some number of bytes. */
  datatype Move = Write(k: nat) | Read(k: nat)

  function Moved(l: Link, move: Move): Link {
    match move
    case Write(k) => if k <= |l.unsent| then Link(l.unsent[k..], l.wire + l.unsent[..k], l.got) else l
    case Read(k) => if k <= |l.wire| then Link(l.unsent, l.wire[k..], l.got + l.wire[..k]) else l
  }

  function MovedAll(l: Link, moves: seq<Move>): Link
    decreases |moves|
  {
    if moves == [] then l else MovedAll(Moved(l, moves[0]), moves[1..])
  }

  lemma {:induction false} BytesConserved(l: Link, moves: seq<Move>)
    ensures var m := MovedAll(l, moves); m.got + m.wire + m.unsent == l.got + l.wire + l.unsent
    decreases |moves|
  {
    if moves != [] {
      var m := Moved(l, moves[0]);
      BytesConserved(m, moves[1..]);
      match moves[0]
      case Write(k) =>
        if k <= |l.unsent| {
          assert l.unsent == l.unsent[..k] + l.unsent[k..];
        }
      case Read(k) =>
        if k <= |l.wire| {
          assert l.wire == l.wire[..k] + l.wire[k..];
        }
    }
  }

  /** For any messages, any chunking of writes and reads and any interleaving of the two sides, the receiver holds
      the first messages sent, whole and in order; when nothing is left under way it holds all of them. */
  lemma FramedStreamFidelity(messages: seq<Bytes>, moves: seq<Move>)
    requires Sendable(messages)
    ensures var l := MovedAll(Link(Frames(messages), [], []), moves);
      && Messages(l.got) <= messages
      && (l.unsent == [] && l.wire == [] ==> Messages(l.got) == messages && Remainder(l.got) == [])
  {
    var l := MovedAll(Link(Frames(messages), [], []), moves);
    BytesConserved(Link(Frames(messages), [], []), moves);
    assert [] + [] + Frames(messages) == Frames(messages);
    assert l.got == (l.got + l.wire + l.unsent)[..|l.got|];
    PrefixHoldsPrefix(messages, |l.got|);
    if l.unsent == [] && l.wire == [] {
      assert l.got + l.wire + l.unsent == l.got;
      WholeHoldsAll(messages);
    }
  }

  // ------------------------------------------------------------ the two loops

  datatype SendResult = Sent | ConnectionLost

  datatype RecvResult = Message(text: Bytes) | ConnectionClosed

  /** One direction of a connection: what has arrived at the reader, and what is still to arrive. Bytes that the
      writer will only write while the reader waits are among the latter. */
  class Stream {
    var arrived: Bytes
    var underway: Bytes
    var closed: bool // by the writing side

    ghost function All(): Bytes
      reads this
    {
      arrived + underway
    }

    constructor ()
      ensures All() == [] && !closed
    {
      arrived, underway, closed := [], [], false;
    }

    /** ::send takes at least one byte of what it is offered, or fails. */
    method SystemSend(data: Bytes) returns (n: int)
      requires data != []
      modifies this`underway
      ensures n == -1 || 1 <= n <= |data|
      ensures underway == if n == -1 then old(underway) else old(underway) + data[..n]
    {
      n := *;
      if n < 1 || n > |data| {
        n := -1;
      } else {
        underway := underway + data[..n];
      }
    }

    /** Time passes until at least so many bytes have arrived. */
    method Arrive(least: nat)
      requires least <= |All()|
      modifies this`arrived, this`underway
      ensures All() == old(All()) && |arrived| >= least
    {
      var n: int := *;
      n := if n < 0 then 0 else if n > |underway| then |underway| else n;
      n := if |arrived| + n < least then least - |arrived| else n;
      arrived, underway := arrived + underway[..n], underway[n..];
    }

    /** ::recv waits for data and gives at least one byte, at most `max`; it gives none once the stream has ended. */
    method SystemRecv(max: nat) returns (data: Bytes)
      requires max > 0 && (All() != [] || closed)
      modifies this`arrived, this`underway
      ensures data == [] <==> old(All()) == []
      ensures |data| <= max && old(All()) == data + All()
    {
      if |arrived| + |underway| == 0 {
        return [];
      }
      Arrive(1);
      var n: int := *;
      n := if n < 1 then 1 else if n > max then max else n;
      n := if n > |arrived| then |arrived| else n;
      data := arrived[..n];
      arrived := arrived[n..];
    }

    /** The header arrives whole, or not at all because the stream has ended. */
    method SystemRecvHeader() returns (header: Bytes)
      requires |All()| >= 4 || (All() == [] && closed)
      modifies this`arrived, this`underway
      ensures old(All()) == header + All()
      ensures |header| == if old(All()) == [] then 0 else 4
    {
      if |arrived| + |underway| == 0 {
        return [];
      }
      Arrive(4);
      header := arrived[..4];
      arrived := arrived[4..];
    }
  }

  /** A frame can break off before anything is written, or inside the payload. */
  predicate Partial(message: Bytes, n: nat) {
    n < |Frame(message)| && (n == 0 || n >= 4)
  }

  /** The header goes out in one piece, or the call fails before anything is written. `part` is how far it got. */
  method Send(stream: Stream, buffer: Bytes) returns (r: SendResult, ghost part: nat)
    requires |buffer| < INT_LIMIT
    modifies stream`underway
    ensures r == Sent ==> stream.All() == old(stream.All()) + Frame(buffer)
    ensures r == ConnectionLost ==> Partial(buffer, part) && stream.All() == old(stream.All()) + Frame(buffer)[..part]
  {
    ghost var arrived, before := stream.arrived, stream.underway;
    part := 0;
    var headerAccepted: bool := *;
    if !headerAccepted {
      return ConnectionLost, 0;
    }
    var length := |buffer|;
    HeaderFirst(buffer);
    stream.underway := stream.underway + IntegerBytes(length);
    var bytesSent := 0;
    while bytesSent < length
      invariant 0 <= bytesSent <= length
      invariant stream.underway == before + Frame(buffer)[..4 + bytesSent]
      decreases length - bytesSent
    {
      var nowSent := stream.SystemSend(buffer[bytesSent..]);
      if nowSent == -1 {
        Regroup(arrived, before, Frame(buffer)[..4 + bytesSent]);
        return ConnectionLost, 4 + bytesSent;
      }
      FrameGrows(before, buffer, bytesSent, nowSent);
      bytesSent := bytesSent + nowSent;
    }
    Regroup(arrived, before, Frame(buffer));
    r := Sent;
  }

  lemma HeaderFirst(buffer: Bytes)
    ensures Frame(buffer)[..4] == IntegerBytes(|buffer|) && Frame(buffer)[..4 + |buffer|] == Frame(buffer)
  {
  }

  lemma FrameGrows(before: Bytes, buffer: Bytes, sent: nat, n: nat)
    requires sent + n <= |buffer|
    ensures before + Frame(buffer)[..4 + sent] + buffer[sent..][..n] == before + Frame(buffer)[..4 + (sent + n)]
  {
    assert Frame(buffer)[..4 + sent] + buffer[sent..][..n] == Frame(buffer)[..4 + (sent + n)];
  }

  /** What recv may come upon: the end of the stream, or a whole valid header; and then the payload,
      or the end of the stream inside it. */
  predicate Receivable(bytes: Bytes, closed: bool) {
    if |bytes| < 4 then bytes == [] && closed
    else
      var length := IntegerAt(bytes, 0);
      0 <= length && (4 + length <= |bytes| || closed)
  }

  lemma UnframeParts(header: Bytes, message: Bytes, rest: Bytes)
    requires |header| == 4 && BytesInteger(header) == |message|
    ensures Unframe(header + (message + rest)) == Some(Unframed(message, rest))
  {
    var stream := header + (message + rest);
    assert stream[0..4] == header;
    assert stream[4..4 + |message|] == message && stream[4 + |message|..] == rest;
  }

  lemma UnframeShort(header: Bytes, part: Bytes)
    requires |header| == 4 && BytesInteger(header) > |part|
    ensures Unframe(header + part) == None
  {
    assert (header + part)[0..4] == header;
  }

  lemma ReceivableLength(header: Bytes, behind: Bytes, closed: bool)
    requires |header| == 4 && Receivable(header + behind, closed)
    ensures 0 <= BytesInteger(header) && (BytesInteger(header) <= |behind| || closed)
  {
    assert (header + behind)[0..4] == header;
  }

  method Recv(stream: Stream) returns (r: RecvResult)
    requires Receivable(stream.All(), stream.closed)
    modifies stream`arrived, stream`underway
    ensures match Unframe(old(stream.All()))
            case Some(Unframed(message, rest)) => r == Message(message) && stream.All() == rest
            case None => r == ConnectionClosed && stream.All() == []
  {
    var header := stream.SystemRecvHeader();
    if header == [] {
      return ConnectionClosed;
    }
    ghost var behind := stream.All();
    ReceivableLength(header, behind, stream.closed);
    var length := BytesInteger(header);
    var response: Bytes := [];
    var bytesReceived := 0;
    assert behind == [] + behind;
    while bytesReceived < length
      invariant 0 <= bytesReceived == |response| <= length
      invariant behind == response + stream.All()
      decreases length - bytesReceived
    {
      var data := stream.SystemRecv(length - bytesReceived);
      if data == [] {
        assert response + [] == response;
        UnframeShort(header, response);
        return ConnectionClosed;
      }
      ghost var rest := stream.All();
      Regroup(response, data, rest);
      response := response + data;
      bytesReceived := bytesReceived + |data|;
    }
    UnframeParts(header, response, stream.All());
    r := Message(response);
  }

  // ------------------------------------------------- many messages, both ends

  /** A stream that recv can read to its end. */
  predicate Readable(stream: Bytes)
    decreases |stream|
  {
    match Unframe(stream)
    case Some(Unframed(_, rest)) => Readable(rest)
    case None => Receivable(stream, true)
  }

  lemma {:induction false} FramesBefore(messages: seq<Bytes>, rest: Bytes)
    requires Sendable(messages)
    ensures Messages(Frames(messages) + rest) == messages + Messages(rest)
    ensures Readable(Frames(messages) + rest) <==> Readable(rest)
  {
    if messages == [] {
      assert [] + rest == rest && [] + Messages(rest) == Messages(rest);
    } else {
      var later := messages[1..];
      FramesOf(messages);
      FramesBefore(later, rest);
      Regroup(Frame(messages[0]), Frames(later), rest);
      UnframeFrame(messages[0], Frames(later) + rest);
      Regroup([messages[0]], later, Messages(rest));
    }
  }

  lemma PartialIsReadable(message: Bytes, n: nat)
    requires |message| < INT_LIMIT && Partial(message, n)
    ensures Messages(Frame(message)[..n]) == [] && Readable(Frame(message)[..n])
  {
    UnframePartial(message, n);
    if n > 0 {
      assert Frame(message)[..n][0..4] == IntegerBytes(|message|);
      IntegerRoundTrip(|message|);
    }
  }

  lemma {:induction false} FramesSnoc(messages: seq<Bytes>, message: Bytes)
    ensures Frames(messages + [message]) == Frames(messages) + Frame(message)
  {
    if messages == [] {
      assert [message][1..] == [] && Frame(message) + [] == Frame(message) && [] + Frame(message) == Frame(message);
      assert messages + [message] == [message];
    } else {
      var all := messages + [message];
      assert all[1..] == messages[1..] + [message];
      FramesSnoc(messages[1..], message);
      Regroup(Frame(messages[0]), Frames(messages[1..]), Frame(message));
    }
  }

  /** Sends messages in turn until the connection is lost; then `k` is the message it is lost in, and `part` how far. */
  method SendAll(stream: Stream, messages: seq<Bytes>) returns (sent: bool, ghost k: nat, ghost part: nat)
    requires Sendable(messages)
    modifies stream`underway
    ensures sent ==> stream.All() == old(stream.All()) + Frames(messages)
    ensures !sent ==> k < |messages| && Partial(messages[k], part)
                      && stream.All() == old(stream.All()) + Frames(messages[..k]) + Frame(messages[k])[..part]
  {
    ghost var before := stream.All();
    k, part := 0, 0;
    assert before + [] == before;
    for i := 0 to |messages|
      invariant stream.All() == before + Frames(messages[..i])
    {
      var r;
      r, part := Send(stream, messages[i]);
      if r == ConnectionLost {
        return false, i, part;
      }
      FramesSnoc(messages[..i], messages[i]);
      Regroup(before, Frames(messages[..i]), Frame(messages[i]));
      assert messages[..i] + [messages[i]] == messages[..i + 1];
    }
    assert messages[..|messages|] == messages;
    sent := true;
  }

  /** Receives until the end of the stream, as the threads that serve a client do. */
  method RecvAll(stream: Stream) returns (received: seq<Bytes>)
    requires stream.closed && Readable(stream.All())
    modifies stream`arrived, stream`underway
    ensures received == Messages(old(stream.All())) && stream.All() == []
  {
    received := [];
    ghost var whole := Messages(stream.All());
    assert [] + whole == whole;
    var open := true;
    while open
      invariant whole == received + if open then Messages(stream.All()) else []
      invariant if open then Readable(stream.All()) else stream.All() == []
      decreases |stream.All()|, open
    {
      ghost var bytes, sofar := stream.All(), received;
      ReadableIsReceivable(bytes);
      var r := Recv(stream);
      match r {
        case ConnectionClosed => open := false;
        case Message(text) =>
          Regroup(sofar, [text], Messages(stream.All()));
          received := received + [text];
      }
    }
    assert received + [] == received;
  }

  lemma ReadableIsReceivable(stream: Bytes)
    requires Readable(stream)
    ensures Receivable(stream, true)
  {
  }

  /** A connection from its opening to its closing: for any messages, wherever it breaks off, however writes and reads
      are cut and however late bytes arrive, the reader gets the first messages sent, whole and in order, and all of
      them if the writer got through. */
  method Transfer(messages: seq<Bytes>) returns (received: seq<Bytes>, sent: bool)
    requires Sendable(messages)
    ensures received <= messages && (sent ==> received == messages)
  {
    var stream := new Stream();
    ghost var k, part;
    sent, k, part := SendAll(stream, messages);
    stream.closed := true;
    if sent {
      FramesBefore(messages, []);
      assert [] + Frames(messages) == Frames(messages) + [];
    } else {
      FramesBefore(messages[..k], Frame(messages[k])[..part]);
      PartialIsReadable(messages[k], part);
      assert [] + Frames(messages[..k]) == Frames(messages[..k]);
    }
    received := RecvAll(stream);
  }
}
