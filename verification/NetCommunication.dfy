/** The reassembly buffer and the loops that send and receive whole messages over a byte transport. */
module NetCommunication {
  import opened Bytes
  import opened Codec
  import opened Messages
  import NetSerializer

  const STREAM_SIZE := 2048

  /** A connection context: one end of a reliable byte transport. */
  class Transport {
    /** Everything the peer sends before it closes, in order, minus what was received so far. */
    var incoming: seq<uint8>
    /** Everything sent so far. */
    var outgoing: seq<uint8>

    constructor (incoming: seq<uint8>)
      ensures this.incoming == incoming && outgoing == []
    {
      this.incoming, outgoing := incoming, [];
    }

    /** Takes any non-empty prefix of the given bytes. */
    method NetSend(bytes: seq<uint8>) returns (sent: nat)
      requires bytes != []
      modifies this`outgoing
      ensures 1 <= sent <= |bytes|
      ensures outgoing == old(outgoing) + bytes[..sent]
    {
      sent :| 1 <= sent <= |bytes|;
      outgoing := outgoing + bytes[..sent];
    }

    /** Returns any non-empty piece of what is still to come, up to the given size; None when the peer
        has disconnected. */
    method NetReceive(size: nat) returns (piece: Option<seq<uint8>>)
      requires size > 0
      modifies this`incoming
      ensures piece.None? <==> old(incoming) == []
      ensures piece.None? ==> incoming == old(incoming)
      ensures piece.Some? ==> 1 <= |piece.value| <= size && old(incoming) == piece.value + incoming
    {
      if incoming == [] {
        return None;
      }
      var n :| 1 <= n <= |incoming| && n <= size;
      piece := Some(incoming[..n]);
      incoming := incoming[n..];
    }
  }

  datatype PopResult =
    | NoMessage
    | Popped(m: Message)
    | Exits // the process exits, or reads outside the buffer

  /** What the buffer yields: nothing until the announced frame is complete. */
  function PopSpec(buffer: seq<uint8>, written: nat): PopResult
    requires HEADER_SIZE <= |buffer|
  {
    if written < HEADER_SIZE || written < FrameSize(buffer) then NoMessage
    else match Decode(buffer)
      case Some((m, _)) => Popped(m)
      case None => Exits
  }

  class NetworkStream {
    const stream: array<uint8>
    var writtenBytes: nat

    ghost predicate Valid()
      reads this, stream
    {
      stream.Length == STREAM_SIZE && writtenBytes <= stream.Length
    }

    ghost function Buffered(): seq<uint8>
      requires Valid()
      reads this, stream
    {
      stream[..writtenBytes]
    }

    constructor ()
      ensures Valid() && fresh(stream) && Buffered() == []
    {
      stream := new uint8[STREAM_SIZE](_ => 0);
      writtenBytes := 0;
    }

    /** Pops the message at the front, when it is complete, and moves the other bytes down. */
    method PopMessage() returns (r: PopResult)
      requires Valid()
      modifies this, stream
      ensures Valid()
      ensures r == old(PopSpec(stream[..], writtenBytes))
      ensures r.Popped? ==> Buffered() == old(Buffered()[FrameSize(stream[..])..])
      ensures !r.Popped? ==> Buffered() == old(Buffered())
    {
      if writtenBytes < HEADER_SIZE {
        return NoMessage;
      }
      var length, _ := NetSerializer.Pop32(stream, 4);
      var size: uint32 := (HEADER_SIZE + length) % TWO_TO_THE_32;
      assert stream[4..8] == stream[..][4..8];
      if writtenBytes < size {
        return NoMessage;
      }
      var m := NetSerializer.DeserializeMessage(stream);
      if m == None {
        return Exits;
      }
      forall i | 0 <= i < stream.Length - size {
        stream[i] := stream[size + i];
      }
      writtenBytes := writtenBytes - size;
      return Popped(m.value.0);
    }
  }

  datatype Error = PeerDisconnected | StreamOverflow | InvalidType | FileError

  datatype Result<+T> = Ok(value: T) | Err(error: Error)

  // ----- what the front of a well-formed byte stream looks like -----

  /** The bytes of a frame cut short: what is left when a peer disconnects in the middle of a message. */
  ghost predicate Partial(s: seq<uint8>) {
    s == [] || exists m :: WellFormed(m) && PartOf(s, m)
  }

  predicate PartOf(s: seq<uint8>, m: Message) {
    |s| < |Encode(m)| && s == Encode(m)[..|s|]
  }

  /** While only a part of a frame has arrived nothing is popped, and the buffer has room left. */
  lemma PartOfFrame(buffer: seq<uint8>, written: nat, m: Message)
    requires |buffer| == STREAM_SIZE && written <= STREAM_SIZE
    requires WellFormed(m) && PartOf(buffer[..written], m)
    ensures PopSpec(buffer, written) == NoMessage
    ensures written < MAX_MESSAGE_NET_SIZE
  {
    hide Encode, Decode;
    RoundTrip(m, []);
    var s := Encode(m);
    assert s + [] == s;
    if written >= HEADER_SIZE {
      assert buffer[4..8] == buffer[..written][4..8] == s[..written][4..8] == s[4..8];
    }
  }

  lemma PieceSent(before: seq<uint8>, s: seq<uint8>, from: nat, n: nat)
    requires from + n <= |s|
    ensures before + s[..from] + s[from..][..n] == before + s[..from + n]
  {
    assert s[..from + n] == s[..from] + s[from..][..n];
  }

  /** The front of the buffer, against the messages still to be delivered. */
  lemma FrontOfStream(buffer: seq<uint8>, written: nat, incoming: seq<uint8>, inbox: seq<Message>, tail: seq<uint8>)
    requires |buffer| == STREAM_SIZE && written <= STREAM_SIZE
    requires AllWellFormed(inbox) && Partial(tail)
    requires buffer[..written] + incoming == EncodeAll(inbox) + tail
    ensures inbox == [] ==> PopSpec(buffer, written) == NoMessage
    ensures inbox != [] && written < |Encode(inbox[0])| ==> PopSpec(buffer, written) == NoMessage
    ensures inbox != [] && written >= |Encode(inbox[0])| ==>
              && PopSpec(buffer, written) == Popped(inbox[0])
              && FrameSize(buffer) == |Encode(inbox[0])|
              && buffer[|Encode(inbox[0])|..written] + incoming == EncodeAll(inbox[1..]) + tail
    ensures PopSpec(buffer, written) == NoMessage ==> written < MAX_MESSAGE_NET_SIZE
    ensures PopSpec(buffer, written) == NoMessage && incoming == [] ==> inbox == []
  {
    hide Encode, Decode, FrameSize;
    var bytes := buffer[..written];
    var all := bytes + incoming;
    assert bytes == all[..written];
    if inbox == [] {
      assert all == tail;
      if written > 0 {
        var m :| WellFormed(m) && PartOf(tail, m);
        assert tail[..written] == Encode(m)[..|tail|][..written];
        PartOfFrame(buffer, written, m);
      }
    } else {
      var m := inbox[0];
      var frame := Encode(m);
      var after := EncodeAll(inbox[1..]) + tail;
      assert all == frame + after;
      if written < |frame| {
        assert bytes == frame[..written];
        PartOfFrame(buffer, written, m);
      } else {
        RoundTrip(m, buffer[|frame|..]);
        assert buffer[..|frame|] == all[..|frame|] == frame;
        assert buffer == frame + buffer[|frame|..];
        assert bytes == frame + buffer[|frame|..written];
        assert buffer[|frame|..written] + incoming == all[|frame|..] == after;
      }
    }
  }

  class NetworkConnection {
    const context: Transport
    const stream: NetworkStream

    /** The messages the peer has sent or will send that were not delivered yet. */
    ghost var inbox: seq<Message>
    /** The bytes of a last message that will never be complete. */
    ghost var tail: seq<uint8>
    /** The messages sent so far. */
    ghost var outbox: seq<Message>

    ghost const Repr: set<object>

    ghost predicate Valid()
      reads this, Repr
      ensures Valid() ==> this in Repr
    {
      && Repr == {this, context, stream, stream.stream}
      && stream.Valid()
      && AllWellFormed(inbox) && AllWellFormed(outbox) && Partial(tail)
      && stream.Buffered() + context.incoming == EncodeAll(inbox) + tail
      && context.outgoing == EncodeAll(outbox)
    }

    constructor (context: Transport, ghost inbox: seq<Message>, ghost tail: seq<uint8>)
      requires AllWellFormed(inbox) && Partial(tail)
      requires context.incoming == EncodeAll(inbox) + tail && context.outgoing == []
      ensures Valid() && this.context == context && fresh(Repr - {context})
      ensures this.inbox == inbox && this.tail == tail && outbox == []
    {
      this.context := context;
      var ns := new NetworkStream();
      stream := ns;
      this.inbox, this.tail, outbox := inbox, tail, [];
      Repr := {this, context, ns, ns.stream};
      new;
      assert stream.Buffered() + context.incoming == context.incoming;
    }

    /** Sends one message, however the transport splits it. */
    method SendMessage(m: Message)
      requires Valid() && WellFormed(m)
      modifies Repr
      ensures Valid() && inbox == old(inbox) && tail == old(tail)
      ensures outbox == old(outbox) + [m]
    {
      hide Encode, EncodeAll, WellFormed, Partial;
      var buffer := new uint8[MAX_MESSAGE_NET_SIZE];
      var size := NetSerializer.SerializeMessage(m, buffer);
      var totalSent := 0;
      while totalSent < size
        invariant totalSent <= size && buffer[..size] == Encode(m)
        invariant context.outgoing == old(context.outgoing) + Encode(m)[..totalSent]
        invariant context.incoming == old(context.incoming)
        modifies context`outgoing
      {
        var sent := context.NetSend(buffer[totalSent..size]);
        PieceSent(old(context.outgoing), buffer[..size], totalSent, sent);
        assert buffer[totalSent..size] == buffer[..size][totalSent..];
        totalSent := totalSent + sent;
      }
      assert Encode(m)[..size] == Encode(m);
      outbox := outbox + [m];
      EncodeAllSnoc(old(outbox), m);
    }

    /** Reads more bytes into the free part of the buffer. */
    method Receive() returns (r: Option<Error>)
      requires stream.Valid()
      modifies stream, stream.stream, context`incoming
      ensures stream.Valid()
      ensures stream.Buffered() + context.incoming == old(stream.Buffered() + context.incoming)
      ensures r == if old(stream.writtenBytes) == STREAM_SIZE then Some(StreamOverflow)
                   else if old(context.incoming) == [] then Some(PeerDisconnected)
                   else None
      ensures r == None ==> |context.incoming| < old(|context.incoming|)
      ensures r != None ==> context.incoming == old(context.incoming) && stream.Buffered() == old(stream.Buffered())
    {
      var free := stream.stream.Length - stream.writtenBytes;
      if free == 0 {
        return Some(StreamOverflow);
      }
      var piece := context.NetReceive(free);
      if piece == None {
        return Some(PeerDisconnected);
      }
      forall i | 0 <= i < |piece.value| {
        stream.stream[stream.writtenBytes + i] := piece.value[i];
      }
      stream.writtenBytes := stream.writtenBytes + |piece.value|;
      assert stream.Buffered() == old(stream.Buffered()) + piece.value;
      return None;
    }

    /** Pops from the buffer; a message that comes out is the next one the peer sent. */
    method TryPop() returns (r: PopResult)
      requires Valid()
      modifies this`inbox, stream, stream.stream
      ensures Valid()
      ensures r == NoMessage || (old(inbox) != [] && r == Popped(old(inbox)[0]))
      ensures inbox == if r == NoMessage then old(inbox) else old(inbox)[1..]
      ensures r == NoMessage ==> stream.writtenBytes < STREAM_SIZE
      ensures r == NoMessage && context.incoming == [] ==> inbox == []
    {
      hide Encode, Decode, EncodeAll, PopSpec, WellFormed, Partial, FrameSize;
      FrontOfStream(stream.stream[..], stream.writtenBytes, context.incoming, inbox, tail);
      r := stream.PopMessage();
      if r.Popped? {
        inbox := inbox[1..];
      }
    }

    /** Delivers the next message, whatever the sizes of the pieces it arrives in. */
    method WaitForMessage() returns (r: Result<Message>)
      requires Valid()
      modifies Repr
      ensures Valid() && outbox == old(outbox) && tail == old(tail)
      ensures r == if old(inbox) == [] then Err(PeerDisconnected) else Ok(old(inbox)[0])
      ensures inbox == if old(inbox) == [] then [] else old(inbox)[1..]
    {
      hide Encode, Decode, EncodeAll, PopSpec, WellFormed, Partial, FrameSize;
      var popped := TryPop();
      while popped == NoMessage
        invariant Valid() && outbox == old(outbox) && tail == old(tail)
        invariant popped == NoMessage || (old(inbox) != [] && popped == Popped(old(inbox)[0]))
        invariant inbox == if popped == NoMessage then old(inbox) else old(inbox)[1..]
        invariant popped == NoMessage ==> stream.writtenBytes < STREAM_SIZE
        invariant popped == NoMessage && context.incoming == [] ==> inbox == []
        decreases |context.incoming|, popped == NoMessage
        modifies this`inbox, stream, stream.stream, context`incoming
      {
        var err := Receive();
        if err != None {
          return Err(err.value);
        }
        popped := TryPop();
      }
      return Ok(popped.m);
    }

    /** Delivers the next message when it has the expected type, and consumes it when it has not. */
    method WaitForMessageType(code: uint32) returns (r: Result<Message>)
      requires Valid()
      modifies Repr
      ensures Valid() && outbox == old(outbox) && tail == old(tail)
      ensures r == if old(inbox) == [] then Err(PeerDisconnected)
                   else if TypeCode(old(inbox)[0].body) != code then Err(InvalidType)
                   else Ok(old(inbox)[0])
      ensures inbox == if old(inbox) == [] then [] else old(inbox)[1..]
    {
      r := WaitForMessage();
      if r.Ok? && TypeCode(r.value.body) != code {
        return Err(InvalidType);
      }
    }
  }
}
