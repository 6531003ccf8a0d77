/** One direction of a connection as a state machine: a sender that hands over its frames in pieces, a
    transport, and a receiver that reassembles them, in every interleaving and with every chunking. */
module Delivery {
  import opened Bytes
  import opened Codec
  import opened Messages
  import opened NetCommunication

  datatype Link = Link(
    sent: seq<Message>,     // messages given to the sender
    unsent: seq<uint8>,     // what is left of the frame being sent
    flight: seq<uint8>,     // bytes in the transport
    buffer: seq<uint8>,     // the written part of the reassembly buffer
    delivered: seq<Message>) // messages popped by the receiver

  datatype Event =
    | BeginSend(m: Message)
    | NetSend(n: nat)
    | NetReceive(n: nat, stale: seq<uint8>) // `stale` is what the unwritten part of the buffer holds
    | Pop(stale: seq<uint8>)

  /** What the receiver's next attempt to pop finds. */
  function Front(s: Link, stale: seq<uint8>): PopResult
    requires |s.buffer| + |stale| == STREAM_SIZE
  {
    PopSpec(s.buffer + stale, |s.buffer|)
  }

  predicate Enabled(s: Link, e: Event) {
    match e
    case BeginSend(m) => s.unsent == [] && WellFormed(m)
    case NetSend(n) => 1 <= n <= |s.unsent|
    case NetReceive(n, stale) =>
      && |s.buffer| + |stale| == STREAM_SIZE && Front(s, stale) == NoMessage
      && 1 <= n <= |s.flight| && n <= STREAM_SIZE - |s.buffer|
    case Pop(stale) => |s.buffer| + |stale| == STREAM_SIZE && Front(s, stale).Popped?
  }

  function Next(s: Link, e: Event): Link
    requires Enabled(s, e)
  {
    match e
    case BeginSend(m) => s.(sent := s.sent + [m], unsent := Encode(m))
    case NetSend(n) => s.(unsent := s.unsent[n..], flight := s.flight + s.unsent[..n])
    case NetReceive(n, _) => s.(flight := s.flight[n..], buffer := s.buffer + s.flight[..n])
    case Pop(stale) =>
      var size := FrameSize(s.buffer + stale);
      s.(buffer := if size <= |s.buffer| then s.buffer[size..] else [], delivered := s.delivered + [Front(s, stale).m])
  }

  const START := Link([], [], [], [], [])

  /** The state after a run of events; None when some event was not possible. */
  function Run(events: seq<Event>): Option<Link> {
    if events == [] then Some(START)
    else
      var last := |events| - 1;
      match Run(events[..last])
      case Some(s) => if Enabled(s, events[last]) then Some(Next(s, events[last])) else None
      case None => None
  }

  /** Nothing is lost, duplicated or reordered: what was delivered is a prefix of what was sent, and
      the bytes held anywhere are exactly the encoding of the rest. */
  predicate Conserved(s: Link) {
    && AllWellFormed(s.sent)
    && s.delivered <= s.sent
    && |s.buffer| <= STREAM_SIZE
    && s.buffer + s.flight + s.unsent == EncodeAll(s.sent[|s.delivered|..])
  }

  lemma FrontOfLink(s: Link, stale: seq<uint8>)
    requires Conserved(s) && |s.buffer| + |stale| == STREAM_SIZE
    ensures Front(s, stale) == NoMessage ==> |s.buffer| < MAX_MESSAGE_NET_SIZE
    ensures Front(s, stale) == NoMessage && s.flight + s.unsent == [] ==> s.delivered == s.sent
    ensures Front(s, stale) != NoMessage ==>
              && s.delivered < s.sent && Front(s, stale) == Popped(s.sent[|s.delivered|])
              && FrameSize(s.buffer + stale) <= |s.buffer|
              && s.buffer[FrameSize(s.buffer + stale)..] + s.flight + s.unsent == EncodeAll(s.sent[|s.delivered| + 1..])
  {
    hide Encode, Decode, WellFormed, EncodeAll;
    var rest := s.sent[|s.delivered|..];
    var memory := s.buffer + stale;
    assert memory[..|s.buffer|] == s.buffer;
    assert s.buffer + (s.flight + s.unsent) == EncodeAll(rest) + [];
    FrontOfStream(memory, |s.buffer|, s.flight + s.unsent, rest, []);
    if Front(s, stale) != NoMessage {
      var n := |Encode(rest[0])|;
      assert memory[n..|s.buffer|] == s.buffer[n..];
      assert s.buffer[n..] + (s.flight + s.unsent) == EncodeAll(rest[1..]) + [];
      assert s.buffer[n..] + s.flight + s.unsent == s.buffer[n..] + (s.flight + s.unsent);
      assert rest[1..] == s.sent[|s.delivered| + 1..];
    }
  }

  lemma StepConserves(s: Link, e: Event)
    requires Conserved(s) && Enabled(s, e)
    ensures Conserved(Next(s, e))
  {
    hide Encode, Decode, WellFormed, PopSpec, EncodeAll, FrameSize;
    var k := |s.delivered|;
    match e
    case BeginSend(m) =>
      assert (s.sent + [m])[k..] == s.sent[k..] + [m];
      EncodeAllAppend(s.sent[k..], [m]);
      EncodeOne(m);
    case NetSend(n) =>
      assert s.unsent == s.unsent[..n] + s.unsent[n..];
    case NetReceive(n, stale) =>
      assert s.flight == s.flight[..n] + s.flight[n..];
    case Pop(stale) =>
      FrontOfLink(s, stale);
  }

  lemma EncodeOne(m: Message)
    ensures EncodeAll([m]) == Encode(m)
  {
    assert [m] + [] == [m];
    Cons(m, []);
  }

  /** Every run delivers a prefix of what was sent, whatever the splits and the interleaving. */
  lemma {:induction false} DeliveryIndependentOfChunking(events: seq<Event>)
    requires Run(events).Some?
    ensures Conserved(Run(events).value)
    ensures var s := Run(events).value;
            EncodeAll(s.delivered) + s.buffer + s.flight + s.unsent == EncodeAll(s.sent)
  {
    hide Encode, Enabled, Next;
    if events != [] {
      var last := |events| - 1;
      DeliveryIndependentOfChunking(events[..last]);
      StepConserves(Run(events[..last]).value, events[last]);
    }
    var s := Run(events).value;
    var k := |s.delivered|;
    assert s.sent == s.delivered + s.sent[k..];
    EncodeAllAppend(s.delivered, s.sent[k..]);
    assert EncodeAll(s.delivered) + s.buffer + s.flight + s.unsent
        == EncodeAll(s.delivered) + (s.buffer + s.flight + s.unsent);
  }

  /** The work left before everything sent is delivered. */
  function Work(s: Link): nat {
    3 * |s.unsent| + 2 * |s.flight| + |s.buffer|
  }

  /** The receiver never finds its buffer full, a message in pieces is always completed by some
      further step, and each step other than a new send leaves less work. */
  lemma NeverStuck(events: seq<Event>, stale: seq<uint8>)
    requires Run(events).Some? && |Run(events).value.buffer| + |stale| == STREAM_SIZE
    ensures var s := Run(events).value;
            && (Front(s, stale) == NoMessage ==> |s.buffer| < STREAM_SIZE)
            && (s.delivered != s.sent ==>
                  Enabled(s, Pop(stale)) || Enabled(s, NetReceive(1, stale)) || Enabled(s, NetSend(1)))
  {
    hide Encode, PopSpec, Next, EncodeAll;
    DeliveryIndependentOfChunking(events);
    var s := Run(events).value;
    FrontOfLink(s, stale);
  }

  lemma EveryStepWorks(s: Link, e: Event)
    requires Conserved(s) && Enabled(s, e) && !e.BeginSend?
    ensures Work(Next(s, e)) < Work(s)
  {
    hide Encode, EncodeAll, PopSpec, FrameSize;
    if e.Pop? {
      FrontOfLink(s, e.stale);
      var m := s.sent[|s.delivered|];
      assert m in s.sent;
      PoppedFrameNotEmpty(s, e.stale);
    }
  }

  lemma PoppedFrameNotEmpty(s: Link, stale: seq<uint8>)
    requires Conserved(s) && |s.buffer| + |stale| == STREAM_SIZE && Front(s, stale).Popped?
    ensures 0 < FrameSize(s.buffer + stale) <= |s.buffer|
  {
    hide Encode, Decode, EncodeAll;
    FrontOfLink(s, stale);
    var memory := s.buffer + stale;
    var rest := s.sent[|s.delivered|..];
    assert memory[..|s.buffer|] == s.buffer;
    assert s.buffer + (s.flight + s.unsent) == EncodeAll(rest) + [];
    FrontOfStream(memory, |s.buffer|, s.flight + s.unsent, rest, []);
  }
}
