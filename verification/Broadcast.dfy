/** The status connection of one client, written to by several threads: the thread that accepts the client,
    then the client's own thread, and every thread that broadcasts. Steps are as fine as one piece of bytes
    handed to the transport. The list iterator that broadcasts share is rewound outside the mutex, so which
    clients a broadcast visits, and how often, is left open. */
module Broadcast {
  import opened Bytes
  import opened Codec
  import opened Constructors
  import opened Messages
  import opened Records

  datatype Thread =
    | Idle
    | Waiting(m: Message, excluded: bool)
    | Holding(m: Message, excluded: bool)
    | Sending(m: Message, excluded: bool, rest: seq<uint8>) // in send_message to this client

  datatype Wire = Wire(
    phase: AppState,           // where the client's own thread is; NULL while the accepting thread has the client
    state: AppState,           // the client's state field, as broadcasting threads read it
    ownRest: seq<uint8>,       // what is left of the frame its own thread is sending outside broadcasts
    threads: map<nat, Thread>, // what each thread does in a broadcast
    holder: Option<nat>,       // who holds the broadcast mutex
    frames: seq<Message>,      // messages whose sending has begun, in that order
    bytes: seq<uint8>)         // bytes handed to the transport

  const OWNER: nat := 0

  datatype Event =
    | OwnBegins(m: Message)
    | OwnSends(n: nat)
    | OwnEnters(state: AppState)
    | Begins(t: nat, m: Message, excluded: bool) // a broadcast that excludes this client, or does not
    | Locks(t: nat)
    | Visits(t: nat)                             // the iterator yields this client
    | Sends(t: nat, n: nat)
    | Unlocks(t: nat)

  function At(s: Wire, t: nat): Thread {
    if t in s.threads then s.threads[t] else Idle
  }

  predicate Enabled(s: Wire, e: Event) {
    match e
    case OwnBegins(m) => s.phase in {NULL, CONNECT, LOGIN} && s.ownRest == [] && At(s, OWNER) == Idle && WellFormed(m)
    case OwnSends(n) => 1 <= n <= |s.ownRest|
    case OwnEnters(state) => s.ownRest == [] && At(s, OWNER) == Idle && Rank(state) < Rank(s.phase)
    case Begins(t, m, _) => At(s, t) == Idle && (t == OWNER ==> s.ownRest == []) && WellFormed(m)
    case Locks(t) => At(s, t).Waiting? && s.holder == None
    case Visits(t) => At(s, t).Holding?
    case Sends(t, n) => At(s, t).Sending? && 1 <= n <= |At(s, t).rest|
    case Unlocks(t) => At(s, t).Holding?
  }

  function Next(s: Wire, e: Event): Wire
    requires Enabled(s, e)
  {
    match e
    case OwnBegins(m) => s.(frames := s.frames + [m], ownRest := Encode(m))
    case OwnSends(n) => s.(bytes := s.bytes + s.ownRest[..n], ownRest := s.ownRest[n..])
    case OwnEnters(state) => s.(phase := state, state := state)
    case Begins(t, m, excluded) => s.(threads := s.threads[t := Waiting(m, excluded)])
    case Locks(t) => s.(holder := Some(t), threads := s.threads[t := Holding(At(s, t).m, At(s, t).excluded)])
    case Visits(t) =>
      var a := At(s, t);
      if !a.excluded && s.state == CHAT
      then s.(frames := s.frames + [a.m], threads := s.threads[t := Sending(a.m, a.excluded, Encode(a.m))])
      else s
    case Sends(t, n) =>
      var a := At(s, t);
      s.(bytes := s.bytes + a.rest[..n],
         threads := s.threads[t := if n == |a.rest| then Holding(a.m, a.excluded) else a.(rest := a.rest[n..])])
    case Unlocks(t) => s.(holder := None, threads := s.threads[t := Idle])
  }

  /** A client just accepted: its state field holds whatever the memory held. */
  function Accepted(memory: AppState): Wire {
    Wire(NULL, memory, [], map[], None, [], [])
  }

  /** The wire after the events; None when one of them was not possible. */
  function Run(memory: AppState, events: seq<Event>): Option<Wire> {
    if events == [] then Some(Accepted(memory))
    else
      var last := |events| - 1;
      match Run(memory, events[..last])
      case Some(s) => if Enabled(s, events[last]) then Some(Next(s, events[last])) else None
      case None => None
  }

  // ----- the invariant -----

  /** What is left to send of the one frame in progress. */
  function Rest(s: Wire): seq<uint8> {
    if s.holder.Some? && At(s, s.holder.value).Sending? then At(s, s.holder.value).rest else s.ownRest
  }

  /** `rest` is the end of the last frame, or nothing. */
  predicate IsEnd(rest: seq<uint8>, frames: seq<Message>) {
    rest != [] ==>
      && frames != [] && |rest| <= |Encode(frames[|frames| - 1])|
      && rest == Encode(frames[|frames| - 1])[|Encode(frames[|frames| - 1])| - |rest|..]
  }

  /** Only the holder of the mutex is past the lock; nobody but the client's own thread sends before CHAT, and
      it sends nothing by itself from CHAT on; so at most one frame is in progress. */
  ghost predicate OneSender(s: Wire) {
    && (forall t: nat :: At(s, t).Holding? || At(s, t).Sending? ==> s.holder == Some(t))
    && (s.phase != NULL ==> s.state == s.phase) && (s.state == CHAT ==> s.phase == CHAT)
    && (s.ownRest != [] ==> Rank(s.phase) >= 3)
    && (s.holder.Some? && At(s, s.holder.value).Sending? ==> Rank(s.phase) <= 2 && At(s, s.holder.value).rest != [])
    && (forall t: nat :: At(s, t) != Idle ==> WellFormed(At(s, t).m))
    && AllWellFormed(s.frames)
    && s.bytes + Rest(s) == EncodeAll(s.frames) && IsEnd(Rest(s), s.frames)
  }

  lemma BeginFrame(bytes: seq<uint8>, frames: seq<Message>, m: Message)
    requires AllWellFormed(frames) && WellFormed(m) && bytes == EncodeAll(frames)
    ensures AllWellFormed(frames + [m]) && bytes + Encode(m) == EncodeAll(frames + [m]) && IsEnd(Encode(m), frames + [m])
  {
    hide Encode, WellFormed;
    EncodeAllAppend(frames, [m]);
    Cons(m, []);
    assert [m] + [] == [m];
  }

  lemma SendPart(bytes: seq<uint8>, rest: seq<uint8>, frames: seq<Message>, n: nat)
    requires 1 <= n <= |rest| && bytes + rest == EncodeAll(frames) && IsEnd(rest, frames)
    ensures (bytes + rest[..n]) + rest[n..] == EncodeAll(frames) && IsEnd(rest[n..], frames)
  {
    hide Encode, EncodeAll;
    assert rest[..n] + rest[n..] == rest;
    assert (bytes + rest[..n]) + rest[n..] == bytes + (rest[..n] + rest[n..]);
  }

  lemma StepKeepsOneSender(s: Wire, e: Event)
    requires OneSender(s) && Enabled(s, e)
    ensures OneSender(Next(s, e))
  {
    hide Encode, EncodeAll, WellFormed, IsEnd;
    forall t: nat | At(Next(s, e), t) != Idle
      ensures WellFormed(At(Next(s, e), t).m)
    {
      assert (e.Begins? && e.t == t) || (At(s, t) != Idle && At(Next(s, e), t).m == At(s, t).m);
    }
    match e
    case OwnBegins(m) => BeginFrame(s.bytes, s.frames, m);
    case OwnSends(n) =>
      assert Rest(s) == s.ownRest && Rest(Next(s, e)) == s.ownRest[n..];
      SendPart(s.bytes, s.ownRest, s.frames, n);
    case Visits(t) =>
      if !At(s, t).excluded && s.state == CHAT {
        assert s.bytes + [] == s.bytes;
        BeginFrame(s.bytes, s.frames, At(s, t).m);
      }
    case Sends(t, n) => SendPart(s.bytes, At(s, t).rest, s.frames, n);
    case _ =>
  }

  lemma {:induction false} OneSenderThroughout(memory: AppState, events: seq<Event>)
    requires memory != CHAT && Run(memory, events).Some?
    ensures OneSender(Run(memory, events).value)
  {
    hide Enabled, Next, OneSender;
    if events == [] {
      OneSenderAtStart(memory);
    } else {
      var last := |events| - 1;
      OneSenderThroughout(memory, events[..last]);
      StepKeepsOneSender(Run(memory, events[..last]).value, events[last]);
    }
  }

  lemma OneSenderAtStart(memory: AppState)
    requires memory != CHAT
    ensures OneSender(Accepted(memory))
  {
  }

  // ----- frames arrive whole -----

  /** The bytes are those of well-formed messages, the last of them perhaps cut short. */
  ghost predicate Framed(bytes: seq<uint8>) {
    exists ms: seq<Message> :: AllWellFormed(ms) && bytes <= EncodeAll(ms)
  }

  /** The bytes on the wire are the whole frames of the messages in the order their sending began, and at most
      one part of a frame, the last one. */
  lemma WholeFramesAndOnePart(memory: AppState, events: seq<Event>)
    requires memory != CHAT && Run(memory, events).Some?
    ensures var s := Run(memory, events).value;
            || s.bytes == EncodeAll(s.frames)
            || (s.frames != [] &&
                var last := |s.frames| - 1;
                exists n: nat :: n < |Encode(s.frames[last])|
                                 && s.bytes == EncodeAll(s.frames[..last]) + Encode(s.frames[last])[..n])
  {
    hide Encode, WellFormed, Run, EncodeAll;
    OneSenderThroughout(memory, events);
    var s := Run(memory, events).value;
    if Rest(s) == [] {
      assert s.bytes + [] == s.bytes;
    } else {
      var last := |s.frames| - 1;
      var m := s.frames[last];
      var n: nat := |Encode(m)| - |Rest(s)|;
      assert s.frames == s.frames[..last] + [m];
      EncodeAllAppend(s.frames[..last], [m]);
      Cons(m, []);
      assert [m] + [] == [m];
      NothingToEncode();
      assert Encode(m) == Encode(m)[..n] + Rest(s);
      assert s.bytes + Rest(s) == (EncodeAll(s.frames[..last]) + Encode(m)[..n]) + Rest(s);
      SameFront(s.bytes, EncodeAll(s.frames[..last]) + Encode(m)[..n], Rest(s));
    }
  }

  lemma NothingToEncode()
    ensures EncodeAll([]) == []
  {
  }

  lemma SameFront(a: seq<uint8>, b: seq<uint8>, c: seq<uint8>)
    requires a + c == b + c
    ensures a == b
  {
    assert |a| == |b|;
    assert a == (a + c)[..|a|] && b == (b + c)[..|b|];
  }

  /** Two senders at once: when the state field of a new client happens to read CHAT, a broadcast can put its
      frame into the middle of the one the accepting thread sends. */
  function Clash(queued: Message, count: Message): seq<Event> {
    [OwnBegins(queued), OwnSends(1), Begins(1, count, false), Locks(1), Visits(1), Sends(1, 9)]
  }

  lemma RunOn(memory: AppState, events: seq<Event>, k: nat)
    requires k < |events| && Run(memory, events[..k]).Some? && Enabled(Run(memory, events[..k]).value, events[k])
    ensures Run(memory, events[..k + 1]) == Some(Next(Run(memory, events[..k]).value, events[k]))
  {
    hide Enabled, Next;
    assert events[..k + 1][..k] == events[..k];
  }

  lemma ClashRuns(queued: Message, count: Message)
    requires WellFormed(queued) && WellFormed(count) && |Encode(count)| == 9
    ensures Run(CHAT, Clash(queued, count)).Some?
    ensures Run(CHAT, Clash(queued, count)).value.bytes == Encode(queued)[..1] + Encode(count)
  {
    hide Encode, WellFormed, Run;
    var e := Clash(queued, count);
    assert Run(CHAT, e[..0]) == Some(Accepted(CHAT)) by { RunOfNone(); }
    RunOn(CHAT, e, 0);
    RunOn(CHAT, e, 1);
    RunOn(CHAT, e, 2);
    RunOn(CHAT, e, 3);
    RunOn(CHAT, e, 4);
    RunOn(CHAT, e, 5);
    assert e[..6] == e && Encode(count)[..9] == Encode(count);
  }

  lemma RunOfNone()
    ensures Run(CHAT, []) == Some(Accepted(CHAT))
  {
  }

  /** A frame of type 0 whose announced length is not that of any message. */
  lemma NotFramed(bytes: seq<uint8>)
    requires |bytes| >= HEADER_SIZE && bytes[4..8] == [9, 0, 0, 0]
    ensures !Framed(bytes)
  {
    if Framed(bytes) {
      var ms :| AllWellFormed(ms) && bytes <= EncodeAll(ms);
      var m := ms[0];
      assert m in ms;
      var s := Encode(m) + EncodeAll(ms[1..]);
      assert s[4..8] == BE32(m.payloadLength) && s[4..8] == bytes[4..8];
      UnBE32OfBE32(m.payloadLength);
      LargeLength();
    }
  }

  lemma LargeLength()
    ensures UnBE32([9, 0, 0, 0]) > MAX_MESSAGE_NET_SIZE
  {
    assert [9, 0, 0, 0][..3] == [9, 0, 0] && [9, 0, 0][..2] == [9, 0] && [9, 0][..1] == [9] && [9][..0] == [];
    assert UnBE([9]) == 9;
    assert UnBE([9, 0]) == 9 * 256;
    assert UnBE([9, 0, 0]) == 9 * 256 * 256;
  }

  lemma FramedWhenNotChat(memory: AppState, events: seq<Event>)
    requires memory != CHAT && Run(memory, events).Some?
    ensures Framed(Run(memory, events).value.bytes)
  {
    hide Run, Encode, EncodeAll;
    OneSenderThroughout(memory, events);
    var s := Run(memory, events).value;
    assert s.bytes <= s.bytes + Rest(s);
  }

  /** In every run the bytes to the client stay whole frames, but for the last, if and only if the state field
      of the client did not read CHAT when the client was accepted. */
  lemma FramesStayWholeIffNotChat(memory: AppState)
    ensures memory != CHAT <==> forall events :: Run(memory, events).Some? ==> Framed(Run(memory, events).value.bytes)
  {
    hide Run, Encode, Framed, Clash;
    if memory != CHAT {
      forall events | Run(memory, events).Some?
        ensures Framed(Run(memory, events).value.bytes)
      {
        FramedWhenNotChat(memory, events);
      }
    } else {
      ClashBreaksFrames();
    }
  }

  lemma ClashBreaksFrames()
    ensures exists events :: Run(CHAT, events).Some? && !Framed(Run(CHAT, events).value.bytes)
  {
    hide Run, Framed, Clash;
    var queued := CreateClientOnQueue(ClientOnQueue(Zeros(BYTES_128_SIZE)));
    var count := CreateConnectedClients(1);
    CountFrame(count);
    ClashRuns(queued, count);
    var bytes := Run(CHAT, Clash(queued, count)).value.bytes;
    assert bytes[4..8] == Encode(count)[3..7];
    NotFramed(bytes);
  }

  lemma CountFrame(m: Message)
    requires m == CreateConnectedClients(1)
    ensures |Encode(m)| == 9 && Encode(m)[3..7] == [9, 0, 0, 0]
  {
  }
}
