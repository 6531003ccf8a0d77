/** The transfer of a list of strings, between start and end markers. */
module StringTransfer {
  import opened Bytes
  import opened Codec
  import opened Constructors
  import opened Messages
  import opened NetCommunication
  import opened StringLists

  const MAX_STRING := 1015 // with its terminator it fills the largest frame

  predicate Sendable(strings: seq<CString>) {
    forall s :: s in strings ==> |s| <= MAX_STRING
  }

  /** A string with its terminator, as one heap sequence. */
  function StringMessage(s: CString): (m: Message)
    requires |s| <= MAX_STRING
    ensures WellFormed(m) && m.body == HeapSequence(s + [0])
  {
    CreateHeapSeq(s + [0])
  }

  function StringMessages(strings: seq<CString>): (ms: seq<Message>)
    requires Sendable(strings)
    ensures |ms| == |strings|
  {
    if strings == [] then [] else [StringMessage(strings[0])] + StringMessages(strings[1..])
  }

  /** Everything a sender emits for a list of strings. */
  function ListMessages(strings: seq<CString>): seq<Message>
    requires Sendable(strings)
  {
    [CreateSeqStart()] + StringMessages(strings) + [CreateSeqEnd()]
  }

  lemma {:induction false} StringMessagesAppend(strings: seq<CString>, s: CString)
    requires Sendable(strings) && |s| <= MAX_STRING
    ensures Sendable(strings + [s])
    ensures StringMessages(strings + [s]) == StringMessages(strings) + [StringMessage(s)]
  {
    if strings == [] {
      assert strings + [s] == [s] && [s][1..] == [];
    } else {
      StringMessagesAppend(strings[1..], s);
      assert (strings + [s])[1..] == strings[1..] + [s];
    }
  }

  lemma {:induction false} StringMessagesWellFormed(strings: seq<CString>)
    requires Sendable(strings)
    ensures AllWellFormed(StringMessages(strings))
  {
    if strings != [] {
      StringMessagesWellFormed(strings[1..]);
    }
  }

  // ----- what a receiver makes of the messages it gets -----

  datatype Stage = AwaitStart | InList | Done | Failed

  datatype Receiver = Receiver(stage: Stage, strings: seq<CString>)
  {
    predicate Ended() {
      stage.Done? || stage.Failed?
    }
  }

  const START := Receiver(AwaitStart, [])

  function OnMessage(r: Receiver, m: Message): Receiver {
    match r.stage
    case AwaitStart => r.(stage := if m.body.SequenceStart? then InList else Failed)
    case InList =>
      if m.body.HeapSequence? then r.(strings := r.strings + [CStr(m.body.heap)])
      else r.(stage := if m.body.SequenceEnd? then Done else Failed)
    case _ => r
  }

  /** Where the receiver gets with the messages to come, and how many of them it consumes. */
  function Outcome(r: Receiver, inbox: seq<Message>): (o: (Receiver, nat))
    ensures o.1 <= |inbox|
    decreases |inbox|
  {
    if r.Ended() || inbox == [] then (r, 0)
    else
      var o := Outcome(OnMessage(r, inbox[0]), inbox[1..]);
      (o.0, o.1 + 1)
  }

  lemma OutcomeStep(r: Receiver, m: Message, rest: seq<Message>)
    requires !r.Ended()
    ensures var o := Outcome(OnMessage(r, m), rest);
            Outcome(r, [m] + rest) == (o.0, o.1 + 1)
  {
    assert ([m] + rest)[1..] == rest;
  }

  lemma EndedOutcome(r: Receiver, inbox: seq<Message>)
    ensures r.Ended() || inbox == [] ==> Outcome(r, inbox) == (r, 0)
  {
  }

  /** Prepends `n` consumed messages to an outcome. */
  function After(n: nat, o: (Receiver, nat)): (Receiver, nat) {
    (o.0, n + o.1)
  }

  /** A receiver that has not ended has consumed everything. */
  lemma {:induction false} OutcomeEnds(r: Receiver, inbox: seq<Message>)
    ensures var o := Outcome(r, inbox); o.0.Ended() || o.1 == |inbox|
    decreases |inbox|
  {
    if !r.Ended() && inbox != [] {
      OutcomeEnds(OnMessage(r, inbox[0]), inbox[1..]);
    }
  }

  lemma {:induction false} StringsOutcome(got: seq<CString>, strings: seq<CString>, rest: seq<Message>)
    requires Sendable(strings)
    ensures Outcome(Receiver(InList, got), StringMessages(strings) + rest)
         == After(|strings|, Outcome(Receiver(InList, got + strings), rest))
    decreases |strings|
  {
    hide Outcome, CStr, WellFormed, StringMessages;
    StringMessagesCons(strings, rest);
    if strings == [] {
      assert got + strings == got;
    } else {
      var s, tail := strings[0], strings[1..];
      FirstString(got, s, StringMessages(tail) + rest);
      StringsOutcome(got + [s], tail, rest);
      assert got + [s] + tail == got + strings;
    }
  }

  lemma StringMessagesCons(strings: seq<CString>, rest: seq<Message>)
    requires Sendable(strings)
    ensures StringMessages(strings) + rest
         == if strings == [] then rest else [StringMessage(strings[0])] + (StringMessages(strings[1..]) + rest)
  {
  }

  lemma FirstString(got: seq<CString>, s: CString, later: seq<Message>)
    requires |s| <= MAX_STRING
    ensures Outcome(Receiver(InList, got), [StringMessage(s)] + later)
         == After(1, Outcome(Receiver(InList, got + [s]), later))
  {
    hide Outcome, CStr, WellFormed;
    CStrOfTerminated(s);
    OutcomeStep(Receiver(InList, got), StringMessage(s), later);
  }

  /** A receiver appends exactly the sent strings, in order, and stops right after the end marker. */
  lemma StringListRoundTrip(strings: seq<CString>, rest: seq<Message>)
    requires Sendable(strings)
    ensures Outcome(START, ListMessages(strings) + rest) == (Receiver(Done, strings), |ListMessages(strings)|)
  {
    hide Outcome, WellFormed, StringMessages;
    var begin, body, end := CreateSeqStart(), StringMessages(strings), CreateSeqEnd();
    assert ListMessages(strings) + rest == [begin] + (body + ([end] + rest));
    OutcomeStep(START, begin, body + ([end] + rest));
    assert OnMessage(START, begin) == Receiver(InList, []);
    StringsOutcome([], strings, [end] + rest);
    assert [] + strings == strings;
    OutcomeStep(Receiver(InList, strings), end, rest);
    assert OnMessage(Receiver(InList, strings), end) == Receiver(Done, strings);
    EndedOutcome(Receiver(Done, strings), rest);
  }

  // ----- the two loops -----

  method SendStringList(conn: NetworkConnection, list: StringList)
    requires conn.Valid() && list.Valid() && list.Repr !! conn.Repr && Sendable(list.Strings())
    modifies conn.Repr
    ensures conn.Valid() && conn.inbox == old(conn.inbox) && conn.tail == old(conn.tail)
    ensures conn.outbox == old(conn.outbox) + ListMessages(old(list.Strings()))
  {
    hide WellFormed, conn.Valid, list.Valid, list.Strings, StringMessages, Sent, StringMessage, ListMessages;
    ghost var strings := list.Strings();
    conn.SendMessage(CreateSeqStart());
    var it := new StringListIterator(list);
    var s := it.Next(list, 0);
    SentSoFar(strings, 0);
    ghost var k := 0;
    while s != None
      invariant conn.Valid() && conn.inbox == old(conn.inbox) && conn.tail == old(conn.tail)
      invariant list.Valid() && list.Strings() == strings
      invariant k <= |strings| && s == if k < |strings| then Some(strings[k]) else None
      invariant it.it.current == list.list.NodeAt(if s == None then k else k + 1)
      invariant conn.outbox == old(conn.outbox) + Sent(strings, k)
      modifies conn.Repr, it.it
      decreases |strings| - k
    {
      SentSoFar(strings, k);
      conn.SendMessage(StringMessage(s.value));
      k := k + 1;
      s := it.Next(list, k);
    }
    conn.SendMessage(CreateSeqEnd());
    AllSent(strings);
  }

  lemma AllSent(strings: seq<CString>)
    requires Sendable(strings)
    ensures Sent(strings, |strings|) + [CreateSeqEnd()] == ListMessages(strings)
  {
    assert strings[..|strings|] == strings;
  }

  /** What was sent before the string at index `k`. */
  function Sent(strings: seq<CString>, k: nat): seq<Message>
    requires Sendable(strings) && k <= |strings|
  {
    [CreateSeqStart()] + StringMessages(strings[..k])
  }

  lemma SentSoFar(strings: seq<CString>, k: nat)
    requires Sendable(strings) && k <= |strings|
    ensures Sent(strings, 0) == [CreateSeqStart()]
    ensures k < |strings| ==> Sent(strings, k + 1) == Sent(strings, k) + [StringMessage(strings[k])]
  {
    hide StringMessage, WellFormed;
    if k < |strings| {
      StringMessagesAppend(strings[..k], strings[k]);
      assert strings[..k + 1] == strings[..k] + [strings[k]];
    }
  }

  /** Waits for a message; the receiver takes its step on whatever message comes. */
  method Expect(conn: NetworkConnection, ghost r0: Receiver) returns (msg: Result<Message>, ghost r: Receiver, ghost n: nat)
    requires conn.Valid() && !r0.Ended()
    modifies conn.Repr
    ensures conn.Valid() && conn.outbox == old(conn.outbox) && conn.tail == old(conn.tail)
    ensures n == (if old(conn.inbox) == [] then 0 else 1) && conn.inbox == old(conn.inbox)[n..]
    ensures Outcome(r0, old(conn.inbox)) == (Outcome(r, conn.inbox).0, n + Outcome(r, conn.inbox).1)
    ensures r.Ended() || conn.inbox == [] ==> Outcome(r, conn.inbox) == (r, 0)
    ensures if old(conn.inbox) == []
            then msg == Err(PeerDisconnected) && r == r0
            else r == OnMessage(r0, old(conn.inbox)[0]) && msg == Ok(old(conn.inbox)[0])
  {
    hide conn.Valid, OnMessage;
    ghost var inbox := conn.inbox;
    r, n := r0, 0;
    if inbox != [] {
      assert inbox == [inbox[0]] + inbox[1..];
      OutcomeStep(r0, inbox[0], inbox[1..]);
      r, n := OnMessage(r0, inbox[0]), 1;
    }
    msg := conn.WaitForMessage();
    EndedOutcome(r, conn.inbox);
  }

  method ReceiveStringList(conn: NetworkConnection, list: StringList)
    returns (err: Option<Error>, ghost r: Receiver, ghost n: nat)
    requires conn.Valid() && list.Valid() && list.Repr !! conn.Repr
    modifies conn.Repr, list.Repr
    ensures conn.Valid() && conn.outbox == old(conn.outbox) && conn.tail == old(conn.tail)
    ensures (r, n) == Outcome(START, old(conn.inbox)) && conn.inbox == old(conn.inbox)[n..]
    ensures err == if r.stage == Done then None
                   else if r.stage == Failed then Some(InvalidType)
                   else Some(PeerDisconnected)
    ensures list.Valid() && list.Strings() == old(list.Strings()) + r.strings && fresh(list.Repr - old(list.Repr))
  {
    hide WellFormed, conn.Valid, list.Valid, list.Strings, CStr, Outcome;
    ghost var inbox := conn.inbox;
    ghost var k;
    var msg;
    msg, r, n := Expect(conn, START);
    if msg.Err? {
      return Some(msg.error), r, n;
    }
    if !msg.value.body.SequenceStart? {
      return Some(InvalidType), r, n;
    }
    while true
      invariant conn.Valid() && conn.outbox == old(conn.outbox) && conn.tail == old(conn.tail)
      invariant list.Valid() && list.Strings() == old(list.Strings()) + r.strings
      invariant fresh(list.Repr - old(list.Repr))
      invariant r.stage == InList && n <= |inbox| && conn.inbox == inbox[n..]
      invariant Outcome(START, inbox) == (Outcome(r, conn.inbox).0, n + Outcome(r, conn.inbox).1)
      decreases |conn.inbox|
    {
      msg, r, k := Expect(conn, r);
      n := n + k;
      assert conn.inbox == inbox[n..];
      if msg.Err? {
        return Some(msg.error), r, n;
      }
      if msg.value.body.HeapSequence? {
        list.Add(CStr(msg.value.body.heap));
      } else if msg.value.body.SequenceEnd? {
        return None, r, n;
      } else {
        return Some(InvalidType), r, n;
      }
    }
  }
}
