/** Sending and receiving a file: a header, blocks of content, an end marker. */
module FileTransfer {
  import opened Bytes
  import opened Codec
  import opened Constructors
  import opened Messages
  import opened NetCommunication
  import opened Storage

  // ----- what a sender emits -----

  predicate IsBlock(m: Message) {
    m.body.FileContent? && WellFormed(m) && m.body.contentSize > 0
  }

  /** The bytes a content message carries. */
  function Block(m: Message): (b: seq<uint8>)
    ensures IsBlock(m) ==> 1 <= |b| <= FILE_CONTENT_SIZE
  {
    if m.body.FileContent? && m.body.contentSize <= |m.body.binary| then m.body.binary[..m.body.contentSize] else []
  }

  function Payload(ms: seq<Message>): seq<uint8> {
    if ms == [] then [] else Block(ms[0]) + Payload(ms[1..])
  }

  lemma {:induction false} PayloadAppend(ms: seq<Message>, m: Message)
    ensures Payload(ms + [m]) == Payload(ms) + Block(m)
  {
    hide Block;
    if ms == [] {
      assert ms + [m] == [m] && [m][1..] == [];
    } else {
      assert (ms + [m])[1..] == ms[1..] + [m];
      PayloadAppend(ms[1..], m);
      assert Block(ms[0]) + (Payload(ms[1..]) + Block(m)) == Block(ms[0]) + Payload(ms[1..]) + Block(m);
    }
  }

  /** The messages of one file: a header with the size in 32 bits, the content in non-empty blocks of
      any sizes, the end marker. */
  predicate IsFileDialogue(ms: seq<Message>, name: CString, content: seq<uint8>) {
    && |ms| >= 2
    && WellFormed(ms[0]) && ms[0].body.FileHeader?
    && CStr(ms[0].body.name) == name && ms[0].body.size == |content| % TWO_TO_THE_32
    && (forall m :: m in ms[1..|ms| - 1] ==> IsBlock(m))
    && Payload(ms[1..|ms| - 1]) == content
    && ms[|ms| - 1] == CreateFileEnd()
  }

  lemma MakesDialogue(header: Message, blocks: seq<Message>, name: CString, content: seq<uint8>)
    requires WellFormed(header) && header.body.FileHeader?
    requires CStr(header.body.name) == name && header.body.size == |content| % TWO_TO_THE_32
    requires (forall m :: m in blocks ==> IsBlock(m)) && Payload(blocks) == content
    ensures IsFileDialogue([header] + blocks + [CreateFileEnd()], name, content)
  {
  }

  function Blocks(content: seq<uint8>): seq<Message> {
    if content == [] then []
    else
      var n := if |content| < FILE_CONTENT_SIZE then |content| else FILE_CONTENT_SIZE;
      [ContentMessage(content[..n], Zeros(FILE_CONTENT_SIZE))] + Blocks(content[n..])
  }

  lemma {:induction false} BlocksCarry(content: seq<uint8>)
    ensures (forall m :: m in Blocks(content) ==> IsBlock(m)) && Payload(Blocks(content)) == content
  {
    hide IsBlock, Block;
    if content != [] {
      var n := if |content| < FILE_CONTENT_SIZE then |content| else FILE_CONTENT_SIZE;
      BlocksCarry(content[n..]);
      var m := ContentMessage(content[..n], Zeros(FILE_CONTENT_SIZE));
      assert Blocks(content) == [m] + Blocks(content[n..]);
      assert Blocks(content)[1..] == Blocks(content[n..]);
      assert content[..n] + content[n..] == content;
    }
  }

  /** Every file with a name that fits the header has a dialogue. */
  lemma DialogueExists(name: CString, content: seq<uint8>) returns (ms: seq<Message>)
    requires |name| < FILE_HEADER_NAME_SIZE
    ensures IsFileDialogue(ms, name, content)
  {
    var header := CreateFileHeader(name, |content| % TWO_TO_THE_32, FileHeader(Zeros(FILE_HEADER_NAME_SIZE), 0));
    BlocksCarry(content);
    MakesDialogue(header, Blocks(content), name, content);
    ms := [header] + Blocks(content) + [CreateFileEnd()];
  }

  lemma DialogueWellFormed(ms: seq<Message>, name: CString, content: seq<uint8>)
    requires IsFileDialogue(ms, name, content)
    ensures AllWellFormed(ms)
  {
    hide WellFormed;
    var last := |ms| - 1;
    forall i | 0 <= i < |ms|
      ensures WellFormed(ms[i])
    {
      if 0 < i < last {
        assert ms[i] == ms[1..last][i - 1] && IsBlock(ms[i]);
      }
    }
  }

  // ----- what a receiver makes of the messages it gets -----

  datatype Stage = AwaitHeader | AwaitContent | AwaitEnd | Done | Failed(error: Error)

  /** Where a receiver is: the name and size of the header, and the bytes written to the file once it
      was opened. */
  datatype Receiver = Receiver(stage: Stage, created: bool, name: CString, size: uint32, got: seq<uint8>)
  {
    predicate Ended() {
      stage.Done? || stage.Failed?
    }
  }

  /** Where the file goes; an empty file name stands for the name in the header. */
  datatype Target = Target(folder: Option<Path>, filename: CString, unwritable: set<Path>)
  {
    function NameFor(headerName: CString): CString {
      if filename == [] then headerName else filename
    }

    function PathFor(headerName: CString): Path {
      if folder == None then NameFor(headerName) else Concat(folder.value, NameFor(headerName))
    }
  }

  const START := Receiver(AwaitHeader, false, [], 0, [])

  /** One message; a message that is not content ends the content and is forgotten. */
  function OnMessage(r: Receiver, m: Message, t: Target): Receiver {
    match r.stage
    case AwaitHeader =>
      if !m.body.FileHeader? then r.(stage := Failed(InvalidType))
      else
        var name := CStr(m.body.name);
        if t.PathFor(name) in t.unwritable then Receiver(Failed(FileError), false, name, m.body.size, [])
        else Receiver(if m.body.size == 0 then AwaitEnd else AwaitContent, true, name, m.body.size, [])
    case AwaitContent =>
      if !m.body.FileContent? then r.(stage := AwaitEnd)
      else
        var got := r.got + Block(m);
        r.(got := got, stage := if |got| < r.size then AwaitContent else AwaitEnd)
    case AwaitEnd => r.(stage := if m.body.FileEnd? then Done else Failed(InvalidType))
    case _ => r
  }

  /** Where the receiver gets with the messages to come, and how many of them it consumes. */
  function Outcome(r: Receiver, inbox: seq<Message>, t: Target): (o: (Receiver, nat))
    ensures o.1 <= |inbox|
    decreases |inbox|
  {
    if r.Ended() || inbox == [] then (r, 0)
    else
      var o := Outcome(OnMessage(r, inbox[0], t), inbox[1..], t);
      (o.0, o.1 + 1)
  }

  lemma OutcomeStep(r: Receiver, m: Message, rest: seq<Message>, t: Target)
    requires !r.Ended()
    ensures var o := Outcome(OnMessage(r, m, t), rest, t);
            Outcome(r, [m] + rest, t) == (o.0, o.1 + 1)
  {
    assert ([m] + rest)[1..] == rest;
  }

  /** A receiver that has not ended has consumed everything. */
  lemma {:induction false} OutcomeEnds(r: Receiver, inbox: seq<Message>, t: Target)
    ensures var o := Outcome(r, inbox, t); o.0.Ended() || o.1 == |inbox|
    decreases |inbox|
  {
    if !r.Ended() && inbox != [] {
      OutcomeEnds(OnMessage(r, inbox[0], t), inbox[1..], t);
    }
  }

  /** A receiver that has finished has created its file. */
  lemma {:induction false} DoneIsCreated(r: Receiver, inbox: seq<Message>, t: Target)
    requires r.created || r.stage == AwaitHeader || r.stage.Failed?
    ensures var end := Outcome(r, inbox, t).0; end.created || end.stage == AwaitHeader || end.stage.Failed?
    decreases |inbox|
  {
    hide CStr, Block;
    if !r.Ended() && inbox != [] {
      DoneIsCreated(OnMessage(r, inbox[0], t), inbox[1..], t);
    }
  }

  // ----- round trip -----

  lemma {:induction false} ContentOutcome(r: Receiver, ms: seq<Message>, rest: seq<Message>, t: Target)
    requires ms != [] && forall m :: m in ms ==> IsBlock(m)
    requires r.stage == AwaitContent && |r.got| < r.size
    requires |r.got| + |Payload(ms)| == r.size || |r.got| + |Payload(ms)| >= r.size + FILE_CONTENT_SIZE
    ensures |r.got| + |Payload(ms)| == r.size ==>
              var o := Outcome(r.(stage := AwaitEnd, got := r.got + Payload(ms)), rest, t);
              Outcome(r, ms + rest, t) == (o.0, |ms| + o.1)
    ensures |r.got| + |Payload(ms)| > r.size ==> Outcome(r, ms + rest, t).0.stage == Failed(InvalidType)
    decreases |ms|
  {
    hide WellFormed, Block, Outcome;
    var m, tail := ms[0], ms[1..];
    assert IsBlock(m);
    var next := OnMessage(r, m, t);
    assert ms + rest == [m] + (tail + rest);
    OutcomeStep(r, m, tail + rest, t);
    assert r.got + Payload(ms) == next.got + Payload(tail);
    if tail == [] {
      assert tail + rest == rest;
      assert next.got == r.got + Payload(ms);
    } else if next.stage == AwaitContent {
      ContentOutcome(next, tail, rest, t);
    } else {
      assert IsBlock(tail[0]);
      FailsOnBlock(next, tail[0], tail[1..] + rest, t);
      assert tail + rest == [tail[0]] + (tail[1..] + rest);
    }
  }

  /** A block of content where the end marker is due. */
  lemma FailsOnBlock(r: Receiver, m: Message, rest: seq<Message>, t: Target)
    requires r.stage == AwaitEnd && IsBlock(m)
    ensures Outcome(r, [m] + rest, t) == (r.(stage := Failed(InvalidType)), 1)
  {
  }

  /** A receiver that can open its target gets exactly the bytes the sender read, and stops right after
      the end marker, if and only if the file is shorter than 2^32 bytes; a longer one it refuses. */
  lemma FileRoundTrip(ms: seq<Message>, name: CString, content: seq<uint8>, rest: seq<Message>, t: Target)
    requires IsFileDialogue(ms, name, content) && t.PathFor(name) !in t.unwritable
    ensures |content| < TWO_TO_THE_32 <==>
            Outcome(START, ms + rest, t) == (Receiver(Done, true, name, |content| % TWO_TO_THE_32, content), |ms|)
    ensures |content| >= TWO_TO_THE_32 ==> Outcome(START, ms + rest, t).0.stage == Failed(InvalidType)
  {
    hide WellFormed, Block, Outcome;
    var last := |ms| - 1;
    var body, end := ms[1..last], ms[last];
    var r := OnMessage(START, ms[0], t);
    assert ms + rest == [ms[0]] + (body + ([end] + rest));
    OutcomeStep(START, ms[0], body + ([end] + rest), t);
    if body == [] {
      assert body + ([end] + rest) == [end] + rest;
      Ends(r, end, rest, t);
    } else if r.stage == AwaitContent {
      assert |content| >= TWO_TO_THE_32 ==> |content| >= r.size + TWO_TO_THE_32;
      ContentOutcome(r, body, [end] + rest, t);
      assert r.got + content == content;
      Ends(r.(stage := AwaitEnd, got := content), end, rest, t);
    } else {
      assert body[0] in body;
      assert body + ([end] + rest) == [body[0]] + (body[1..] + ([end] + rest));
      FailsOnBlock(r, body[0], body[1..] + ([end] + rest), t);
      assert content == Block(body[0]) + Payload(body[1..]);
    }
  }

  /** A receiver that cannot open its target consumes the header and leaves everything else unread. */
  lemma UnopenableTarget(ms: seq<Message>, name: CString, content: seq<uint8>, rest: seq<Message>, t: Target)
    requires IsFileDialogue(ms, name, content) && t.PathFor(name) in t.unwritable
    ensures Outcome(START, ms + rest, t).0.stage == Failed(FileError) && Outcome(START, ms + rest, t).1 == 1
  {
  }

  lemma Ends(r: Receiver, m: Message, rest: seq<Message>, t: Target)
    requires r.stage == AwaitEnd && m.body.FileEnd?
    ensures Outcome(r, [m] + rest, t) == (r.(stage := Done), 1)
  {
  }

  // ----- a transfer that reports success -----

  lemma {:induction false} ContentComplete(r: Receiver, inbox: seq<Message>, t: Target)
    requires r.stage == AwaitContent && |r.got| < r.size && Outcome(r, inbox, t).0.stage.Done?
    ensures var (end, n) := Outcome(r, inbox, t);
            n >= 2 && end.size == r.size
            && (|end.got| >= r.size <==> forall i :: 0 <= i < n - 1 ==> inbox[i].body.FileContent?)
    decreases |inbox|
  {
    hide Block;
    var next, rest := OnMessage(r, inbox[0], t), inbox[1..];
    var n := Outcome(r, inbox, t).1;
    if next.stage == AwaitContent {
      ContentComplete(next, rest, t);
      assert forall i :: 1 <= i < n - 1 ==> inbox[i] == rest[i - 1];
    } else {
      EndMarker(next, rest, t);
    }
  }

  lemma EndMarker(r: Receiver, inbox: seq<Message>, t: Target)
    requires r.stage == AwaitEnd && Outcome(r, inbox, t).0.stage.Done?
    ensures Outcome(r, inbox, t) == (r.(stage := Done), 1) && inbox[0].body.FileEnd?
  {
  }

  /** The error of the content loop is overwritten by the wait for the end marker. So a transfer that reports
      success has at least the announced number of bytes if and only if nothing but content came between the header
      and the end marker. */
  lemma SuccessIsEnoughIff(inbox: seq<Message>, t: Target)
    requires Outcome(START, inbox, t).0.stage.Done?
    ensures var (end, n) := Outcome(START, inbox, t);
            n >= 2
            && (|end.got| >= end.size <==> forall i :: 1 <= i < n - 1 ==> inbox[i].body.FileContent?)
  {
    hide Block, CStr;
    var r, rest := OnMessage(START, inbox[0], t), inbox[1..];
    if r.stage == AwaitContent {
      ContentComplete(r, rest, t);
      assert forall i :: 1 <= i < Outcome(START, inbox, t).1 - 1 ==> inbox[i] == rest[i - 1];
    } else {
      EndMarker(r, rest, t);
    }
  }

  /** On top of `have` bytes, the first `k` messages are content that reaches the size with the last one and not
      before, and the end marker follows. */
  predicate Completes(ms: seq<Message>, have: nat, size: nat, k: nat): (completes: bool)
    ensures completes ==> k < |ms| && have + |Payload(ms[..k])| == size
  {
    && k < |ms| && (forall i :: 0 <= i < k ==> ms[i].body.FileContent?) && ms[k].body.FileEnd?
    && have + |Payload(ms[..k])| == size
    && forall j :: 0 <= j < k ==> have + |Payload(ms[..j])| < size
  }

  lemma PayloadStep(ms: seq<Message>, j: nat)
    requires 0 < j <= |ms|
    ensures Payload(ms[..j]) == Block(ms[0]) + Payload(ms[1..][..j - 1])
  {
    assert ms[..j][1..] == ms[1..][..j - 1];
  }

  lemma CompletesStep(ms: seq<Message>, have: nat, size: nat, k: nat)
    requires 0 < k && ms != [] && ms[0].body.FileContent? && have < size
    ensures Completes(ms, have, size, k) <==> Completes(ms[1..], have + |Block(ms[0])|, size, k - 1)
  {
    hide Block, Payload;
    var rest := ms[1..];
    assert Payload(ms[..0]) == [] by { NothingCarried(ms); }
    if k < |ms| {
      assert rest[k - 1] == ms[k];
      assert forall i :: 0 < i < k ==> ms[i] == rest[i - 1];
      assert forall i :: 0 <= i < k - 1 ==> rest[i] == ms[i + 1];
      forall j | 0 < j <= k
        ensures |Payload(ms[..j])| == |Block(ms[0])| + |Payload(rest[..j - 1])|
      {
        PayloadStep(ms, j);
      }
      assert forall j :: 0 <= j < k ==> |Payload(ms[..j + 1])| == |Block(ms[0])| + |Payload(rest[..j])|;
    }
  }

  lemma NothingCarried(ms: seq<Message>)
    ensures Payload(ms[..0]) == []
  {
  }

  lemma {:induction false} CompletedSucceeds(r: Receiver, inbox: seq<Message>, t: Target, k: nat)
    requires r.stage == (if |r.got| < r.size then AwaitContent else AwaitEnd) && Completes(inbox, |r.got|, r.size, k)
    ensures Outcome(r, inbox, t) == (r.(stage := Done, got := r.got + Payload(inbox[..k])), k + 1)
    decreases k
  {
    hide Block;
    var m, rest := inbox[0], inbox[1..];
    if k == 0 {
      assert r.got + [] == r.got;
      EndedOutcome(OnMessage(r, m, t), rest, t);
    } else {
      assert |Payload(inbox[..0])| == 0;
      CompletesStep(inbox, |r.got|, r.size, k);
      CompletedSucceeds(OnMessage(r, m, t), rest, t, k - 1);
      PayloadStep(inbox, k);
      assert r.got + Block(m) + Payload(rest[..k - 1]) == r.got + Payload(inbox[..k]);
    }
  }

  lemma {:induction false} SuccessCompletes(r: Receiver, inbox: seq<Message>, t: Target) returns (k: nat)
    requires r.stage == if |r.got| < r.size then AwaitContent else AwaitEnd
    requires Outcome(r, inbox, t).0.stage.Done? && |Outcome(r, inbox, t).0.got| == r.size
    ensures Completes(inbox, |r.got|, r.size, k)
    decreases |inbox|
  {
    hide Block;
    var m, rest := inbox[0], inbox[1..];
    if r.stage == AwaitEnd {
      EndMarker(r, inbox, t);
      k := 0;
    } else {
      var next := OnMessage(r, m, t);
      if !m.body.FileContent? {
        EndMarker(next, rest, t);
      }
      var j := SuccessCompletes(next, rest, t);
      k := j + 1;
      CompletesStep(inbox, |r.got|, r.size, k);
    }
  }

  /** The inbox begins with a header whose target can be opened, `k` contents that make up its size, and the end
      marker. */
  predicate Complete(inbox: seq<Message>, t: Target, k: nat) {
    && inbox != [] && inbox[0].body.FileHeader? && t.PathFor(CStr(inbox[0].body.name)) !in t.unwritable
    && Completes(inbox[1..], 0, inbox[0].body.size, k)
  }

  /** A transfer reports success with exactly the announced number of bytes if and only if the messages are
      complete; and then it has exactly the bytes they carry. */
  lemma SuccessIsCompleteIff(inbox: seq<Message>, t: Target)
    ensures var end := Outcome(START, inbox, t).0;
            end.stage.Done? && |end.got| == end.size <==> exists k: nat :: Complete(inbox, t, k)
    ensures forall k: nat :: Complete(inbox, t, k) ==>
              Outcome(START, inbox, t)
              == (Receiver(Done, true, CStr(inbox[0].body.name), inbox[0].body.size, Payload(inbox[1..][..k])), k + 2)
  {
    hide Block, CStr, Completes;
    var o := Outcome(START, inbox, t);
    forall k: nat | Complete(inbox, t, k)
      ensures o == (Receiver(Done, true, CStr(inbox[0].body.name), inbox[0].body.size, Payload(inbox[1..][..k])), k + 2)
      ensures |o.0.got| == o.0.size
    {
      var r := OnMessage(START, inbox[0], t);
      CompletedSucceeds(r, inbox[1..], t, k);
      assert [] + Payload(inbox[1..][..k]) == Payload(inbox[1..][..k]);
    }
    if o.0.stage.Done? && |o.0.got| == o.0.size {
      var r := OnMessage(START, inbox[0], t);
      OutcomeKeepsSize(r, inbox[1..], t);
      var k := SuccessCompletes(r, inbox[1..], t);
      assert Complete(inbox, t, k);
    }
  }

  lemma {:induction false} OutcomeKeepsSize(r: Receiver, inbox: seq<Message>, t: Target)
    requires r.stage != AwaitHeader
    ensures Outcome(r, inbox, t).0.size == r.size
    decreases |inbox|
  {
    hide Block, CStr;
    if !r.Ended() && inbox != [] {
      OutcomeKeepsSize(OnMessage(r, inbox[0], t), inbox[1..], t);
    }
  }

  /** Success without a single byte of the content: a message of another type takes the place of the block. */
  lemma TruncatedSuccess(header: Message, t: Target)
    requires WellFormed(header) && header.body.FileHeader? && header.body.size > 0
    requires t.PathFor(CStr(header.body.name)) !in t.unwritable
    ensures var (end, n) := Outcome(START, [header, CreateSeqStart(), CreateFileEnd()], t);
            end.stage == Done && end.got == [] && n == 3
  {
    hide CStr;
    var r1 := OnMessage(START, header, t);
    var r2 := OnMessage(r1, CreateSeqStart(), t);
    Ends(r2, CreateFileEnd(), [], t);
    assert [CreateFileEnd()] + [] == [CreateFileEnd()];
    OutcomeStep(r1, CreateSeqStart(), [CreateFileEnd()], t);
    assert [CreateSeqStart()] + [CreateFileEnd()] == [CreateSeqStart(), CreateFileEnd()];
    OutcomeStep(START, header, [CreateSeqStart(), CreateFileEnd()], t);
    assert [header] + [CreateSeqStart(), CreateFileEnd()] == [header, CreateSeqStart(), CreateFileEnd()];
  }

  /** Success with more bytes than announced: the last block goes past the size. */
  lemma OverlongSuccess(header: Message, block: Message, t: Target)
    requires WellFormed(header) && header.body.FileHeader? && header.body.size > 0
    requires t.PathFor(CStr(header.body.name)) !in t.unwritable
    requires IsBlock(block) && |Block(block)| > header.body.size
    ensures var (end, n) := Outcome(START, [header, block, CreateFileEnd()], t);
            end.stage == Done && end.got == Block(block) && |end.got| > end.size && n == 3
  {
    hide CStr, Block, WellFormed;
    var r1 := OnMessage(START, header, t);
    var r2 := OnMessage(r1, block, t);
    assert [] + Block(block) == Block(block);
    Ends(r2, CreateFileEnd(), [], t);
    assert [CreateFileEnd()] + [] == [CreateFileEnd()];
    OutcomeStep(r1, block, [CreateFileEnd()], t);
    assert [block] + [CreateFileEnd()] == [block, CreateFileEnd()];
    OutcomeStep(START, header, [block, CreateFileEnd()], t);
    assert [header] + [block, CreateFileEnd()] == [header, block, CreateFileEnd()];
  }

  // ----- the two loops -----

  /** fread: any non-empty block up to the buffer's size, nothing at the end of the file. */
  method ReadBlock(content: seq<uint8>, pos: nat) returns (block: seq<uint8>)
    requires pos <= |content|
    ensures pos + |block| <= |content| && block == content[pos..pos + |block|]
    ensures |block| <= FILE_CONTENT_SIZE
    ensures block == [] <==> pos == |content|
  {
    if pos == |content| {
      return [];
    }
    var n :| 1 <= n <= FILE_CONTENT_SIZE && pos + n <= |content|;
    block := content[pos..pos + n];
  }

  /** The loop over the blocks of the file. */
  method SendBlocks(conn: NetworkConnection, content: seq<uint8>) returns (ghost blocks: seq<Message>)
    requires conn.Valid()
    modifies conn.Repr
    ensures conn.Valid() && conn.inbox == old(conn.inbox) && conn.tail == old(conn.tail)
    ensures conn.outbox == old(conn.outbox) + blocks
    ensures (forall m :: m in blocks ==> IsBlock(m)) && Payload(blocks) == content
  {
    hide WellFormed, conn.Valid, IsBlock, Block;
    var memory := new uint8[FILE_CONTENT_SIZE];
    blocks := [];
    var pos := 0;
    var buffer := ReadBlock(content, pos);
    while buffer != []
      invariant conn.Valid() && conn.inbox == old(conn.inbox) && conn.tail == old(conn.tail)
      invariant pos + |buffer| <= |content| && buffer == content[pos..pos + |buffer|]
      invariant |buffer| <= FILE_CONTENT_SIZE
      invariant buffer == [] <==> pos == |content|
      invariant (forall m :: m in blocks ==> IsBlock(m)) && Payload(blocks) == content[..pos]
      invariant conn.outbox == old(conn.outbox) + blocks
      decreases |content| - pos
    {
      var m := ContentMessage(buffer, memory[..]);
      conn.SendMessage(m);
      PayloadAppend(blocks, m);
      assert content[..pos] + buffer == content[..pos + |buffer|];
      blocks := blocks + [m];
      pos := pos + |buffer|;
      buffer := ReadBlock(content, pos);
    }
    assert content[..pos] == content;
  }

  function ContentMessage(block: seq<uint8>, memory: seq<uint8>): (m: Message)
    requires 1 <= |block| <= FILE_CONTENT_SIZE && |memory| == FILE_CONTENT_SIZE
    ensures WellFormed(m) && IsBlock(m) && Block(m) == block
  {
    CreateFileContent(block, FileContent(0, memory))
  }

  method SendFile(disk: Disk, path: Path, conn: NetworkConnection, overrideName: Option<CString>)
    returns (err: Option<Error>, ghost ms: seq<Message>)
    requires conn.Valid() && disk !in conn.Repr
    requires |if overrideName == None then FileName(path) else overrideName.value| < FILE_HEADER_NAME_SIZE
    modifies conn.Repr
    ensures conn.Valid() && conn.inbox == old(conn.inbox) && conn.tail == old(conn.tail)
    ensures conn.outbox == old(conn.outbox) + ms
    ensures if disk.CanRead(path)
            then err == None
                 && IsFileDialogue(ms, if overrideName == None then FileName(path) else overrideName.value, disk.files[path])
            else err == Some(FileError) && ms == []
  {
    hide WellFormed, IsBlock, Payload, IsFileDialogue, CStr, FileName, conn.Valid;
    if !disk.CanRead(path) {
      return Some(FileError), [];
    }
    var content := disk.files[path];
    var name := if overrideName == None then FileName(path) else overrideName.value;
    var memory := new uint8[FILE_HEADER_NAME_SIZE];
    var header := CreateFileHeader(name, |content| % TWO_TO_THE_32, FileHeader(memory[..], 0));
    conn.SendMessage(header);
    ghost var blocks := SendBlocks(conn, content);
    conn.SendMessage(CreateFileEnd());
    err, ms := None, [header] + blocks + [CreateFileEnd()];
    MakesDialogue(header, blocks, name, content);
  }

  method WriteAll(disk: Disk, path: Path, bytes: seq<uint8>)
    requires path in disk.files
    modifies disk
    ensures disk.files == old(disk.files)[path := old(disk.files[path]) + bytes]
  {
    ghost var files := disk.files;
    var written := 0;
    assert files[path] + bytes[..0] == files[path];
    while written < |bytes|
      invariant written <= |bytes|
      invariant disk.files == files[path := files[path] + bytes[..written]]
    {
      var n := disk.Write(path, bytes[written..]);
      assert bytes[..written + n] == bytes[..written] + bytes[written..][..n];
      assert files[path] + bytes[..written] + bytes[written..][..n] == files[path] + bytes[..written + n];
      written := written + n;
    }
    assert bytes[..written] == bytes;
  }

  /** The status the receiver returns: running out of messages means the peer has disconnected. */
  function StatusOf(r: Receiver): Option<Error> {
    match r.stage
    case Done => None
    case Failed(e) => Some(e)
    case _ => Some(PeerDisconnected)
  }

  /** Waits for a message of the given type; the receiver takes its step on whatever message comes. */
  method Expect(conn: NetworkConnection, code: uint32, ghost r0: Receiver, ghost t: Target)
    returns (msg: Result<Message>, ghost r: Receiver, ghost n: nat)
    requires conn.Valid() && !r0.Ended()
    modifies conn.Repr
    ensures conn.Valid() && conn.outbox == old(conn.outbox) && conn.tail == old(conn.tail)
    ensures n == (if old(conn.inbox) == [] then 0 else 1) && conn.inbox == old(conn.inbox)[n..]
    ensures Outcome(r0, old(conn.inbox), t) == (Outcome(r, conn.inbox, t).0, n + Outcome(r, conn.inbox, t).1)
    ensures if old(conn.inbox) == []
            then msg == Err(PeerDisconnected) && r == r0
            else r == OnMessage(r0, old(conn.inbox)[0], t)
                 && msg == if TypeCode(old(conn.inbox)[0].body) != code then Err(InvalidType) else Ok(old(conn.inbox)[0])
  {
    hide conn.Valid, OnMessage;
    ghost var inbox := conn.inbox;
    r, n := r0, 0;
    if inbox != [] {
      assert inbox == [inbox[0]] + inbox[1..];
      OutcomeStep(r0, inbox[0], inbox[1..], t);
      r, n := OnMessage(r0, inbox[0], t), 1;
    }
    msg := conn.WaitForMessageType(code);
  }

  /** The loop over the content messages, up to the announced size or the first message of another type. */
  method ReceiveContent(conn: NetworkConnection, disk: Disk, path: Path, size: uint32,
                        ghost r0: Receiver, ghost t: Target)
    returns (ghost r: Receiver, ghost n: nat)
    requires conn.Valid() && disk !in conn.Repr
    requires path in disk.files && disk.files[path] == r0.got == [] && r0.size == size
    requires r0.stage == if size == 0 then AwaitEnd else AwaitContent
    modifies conn.Repr, disk
    ensures conn.Valid() && conn.outbox == old(conn.outbox) && conn.tail == old(conn.tail)
    ensures n <= |old(conn.inbox)| && conn.inbox == old(conn.inbox)[n..]
    ensures Outcome(r0, old(conn.inbox), t) == (Outcome(r, conn.inbox, t).0, n + Outcome(r, conn.inbox, t).1)
    ensures r == r0.(stage := r.stage, got := r.got)
    ensures r.stage == AwaitEnd || (r.stage == AwaitContent && conn.inbox == [])
    ensures disk.files == old(disk.files)[path := r.got]
  {
    hide WellFormed, Outcome, conn.Valid;
    ghost var inbox := conn.inbox;
    var received := 0;
    r, n := r0, 0;
    while received < size
      invariant conn.Valid() && conn.outbox == old(conn.outbox) && conn.tail == old(conn.tail)
      invariant n <= |inbox| && conn.inbox == inbox[n..]
      invariant r == r0.(stage := r.stage, got := r.got)
      invariant received == |r.got| && r.stage == if received < size then AwaitContent else AwaitEnd
      invariant disk.files == old(disk.files)[path := r.got]
      invariant Outcome(r0, inbox, t) == (Outcome(r, conn.inbox, t).0, n + Outcome(r, conn.inbox, t).1)
      decreases |conn.inbox|
    {
      var msg;
      ghost var k;
      msg, r, k := Expect(conn, 4, r, t);
      n := n + k;
      if msg.Err? {
        break;
      }
      var block := Block(msg.value);
      WriteAll(disk, path, block);
      received := received + |block|;
    }
  }

  /** Everything after the target was opened: the content, then the end marker. */
  method ReceiveRest(conn: NetworkConnection, disk: Disk, path: Path, size: uint32, ghost r0: Receiver, ghost t: Target)
    returns (err: Option<Error>, ghost r: Receiver, ghost n: nat)
    requires conn.Valid() && disk !in conn.Repr
    requires path in disk.files && disk.files[path] == r0.got == [] && r0.size == size
    requires r0.stage == if size == 0 then AwaitEnd else AwaitContent
    modifies conn.Repr, disk
    ensures conn.Valid() && conn.outbox == old(conn.outbox) && conn.tail == old(conn.tail)
    ensures (r, n) == Outcome(r0, old(conn.inbox), t)
    ensures conn.inbox == old(conn.inbox)[n..]
    ensures r == r0.(stage := r.stage, got := r.got) && err == StatusOf(r)
    ensures disk.files == old(disk.files)[path := r.got]
  {
    hide WellFormed, conn.Valid, Outcome;
    ghost var inbox := conn.inbox;
    r, n := ReceiveContent(conn, disk, path, size, r0, t);
    var msg;
    ghost var k;
    msg, r, k := Expect(conn, 5, r, t);
    EndedOutcome(r, conn.inbox, t);
    n := n + k;
    assert conn.inbox == inbox[n..];
    err := if msg.Ok? then None else Some(msg.error);
  }

  /** Receives whatever messages come; `r` is where the receiver gets with them. */
  method ReceiveFile(conn: NetworkConnection, disk: Disk, folder: Option<Path>, filename: CString)
    returns (err: Option<Error>, name: CString, size: Option<uint32>, ghost r: Receiver, ghost n: nat)
    requires conn.Valid() && disk !in conn.Repr
    modifies conn.Repr, disk
    ensures conn.Valid() && conn.outbox == old(conn.outbox) && conn.tail == old(conn.tail)
    ensures (r, n) == Outcome(START, old(conn.inbox), Target(folder, filename, disk.unwritable))
    ensures conn.inbox == old(conn.inbox)[n..]
    ensures err == StatusOf(r)
    ensures disk.files == if r.created
                          then old(disk.files)[Target(folder, filename, disk.unwritable).PathFor(r.name) := r.got]
                          else old(disk.files)
    ensures err == None ==> name == (if filename == [] then r.name else filename) && size == Some(r.size)
  {
    hide WellFormed, CStr, conn.Valid, Outcome;
    ghost var t := Target(folder, filename, disk.unwritable);
    ghost var inbox := conn.inbox;
    ghost var k;
    name, size := filename, None;
    var msg;
    msg, r, n := Expect(conn, 3, START, t);
    EndedOutcome(r, conn.inbox, t);
    if msg.Err? {
      return Some(msg.error), name, size, r, n;
    }
    var header := msg.value.body;
    size := Some(header.size);
    if name == [] {
      name := CStr(header.name);
    }
    var path: Path := if folder == None then name else Concat(folder.value, name);
    var created := disk.OpenForWriting(path);
    if !created {
      return Some(FileError), name, size, r, n;
    }
    err, r, k := ReceiveRest(conn, disk, path, header.size, r, t);
    n := n + k;
    assert conn.inbox == inbox[n..];
  }

  /** Nothing is consumed once the receiver has ended, or when nothing is left. */
  lemma EndedOutcome(r: Receiver, inbox: seq<Message>, t: Target)
    ensures r.Ended() || inbox == [] ==> Outcome(r, inbox, t) == (r, 0)
  {
  }
}
