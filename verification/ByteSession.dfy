/** The task dialogue down to the bytes: the two sides of a session over two links that split and join the bytes
    as they like, one for each direction. */
module ByteSessions {
  import opened Bytes
  import opened Codec
  import opened Constructors
  import opened Messages
  import opened NetCommunication
  import opened Storage
  import ClientTasks
  import Delivery
  import FileTransfer
  import StringTransfer
  import TaskSession

  datatype ByteSession = ByteSession(
    jobs: seq<TaskSession.Job>,
    started: seq<TaskSession.Job>,
    out: seq<Message>,
    receiving: Option<FileTransfer.Receiver>,
    received: seq<FileTransfer.Receiver>,
    client: ClientTasks.Client,
    clientOut: seq<Message>,
    down: Delivery.Link,   // from the server to the client
    up: Delivery.Link)

  datatype Move =
    | ServerStarts
    | ServerSends
    | ServerReceives(stale: seq<uint8>)                          // `stale` is what the rest of the buffer holds
    | ClientReceives(dialogue: seq<Message>, stale: seq<uint8>)
    | ClientSends
    | Wire(isDown: bool, e: Delivery.Event)                      // one piece of bytes sent or received

  /** A side that is still handing over the bytes of a message does nothing else. */
  predicate Enabled(s: ByteSession, v: Move) {
    match v
    case ServerStarts =>
      s.out == [] && s.down.unsent == [] && s.receiving == None && s.jobs != [] && TaskSession.ValidJob(s.jobs[0])
    case ServerSends => s.out != [] && Delivery.Enabled(s.down, Delivery.BeginSend(s.out[0]))
    case ServerReceives(stale) =>
      && s.out == [] && s.down.unsent == [] && s.receiving.Some? && s.started != []
      && Delivery.Enabled(s.up, Delivery.Pop(stale))
    case ClientReceives(d, stale) =>
      && s.clientOut == [] && s.up.unsent == [] && s.client.phase != ClientTasks.Stopped
      && Delivery.Enabled(s.down, Delivery.Pop(stale))
      && var m := Delivery.Front(s.down, stale).m;
         if TaskSession.StartsUpload(s.client, m) then
           var p := CStr(m.body.task.userFilepath);
           FileTransfer.IsFileDialogue(d, FileName(p), s.client.files[p])
         else d == []
    case ClientSends => s.clientOut != [] && Delivery.Enabled(s.up, Delivery.BeginSend(s.clientOut[0]))
    case Wire(isDown, e) => (e.NetSend? || e.NetReceive?) && Delivery.Enabled(if isDown then s.down else s.up, e)
  }

  function Next(s: ByteSession, v: Move): ByteSession
    requires Enabled(s, v)
  {
    match v
    case ServerStarts =>
      var j := s.jobs[0];
      s.(jobs := s.jobs[1..], started := s.started + [j], out := TaskSession.Script(j),
         receiving := if j.task.TaskUpload? then Some(FileTransfer.START) else None)
    case ServerSends => s.(out := s.out[1..], down := Delivery.Next(s.down, Delivery.BeginSend(s.out[0])))
    case ServerReceives(stale) =>
      var m := Delivery.Front(s.up, stale).m;
      var r := FileTransfer.OnMessage(s.receiving.value, m, s.started[|s.started| - 1].target);
      s.(up := Delivery.Next(s.up, Delivery.Pop(stale)),
         receiving := if r.Ended() then None else Some(r),
         received := if r.Ended() then s.received + [r] else s.received)
    case ClientReceives(d, stale) =>
      var m := Delivery.Front(s.down, stale).m;
      s.(down := Delivery.Next(s.down, Delivery.Pop(stale)), client := ClientTasks.OnMessage(s.client, m), clientOut := d)
    case ClientSends => s.(clientOut := s.clientOut[1..], up := Delivery.Next(s.up, Delivery.BeginSend(s.clientOut[0])))
    case Wire(isDown, e) =>
      if isDown then s.(down := Delivery.Next(s.down, e)) else s.(up := Delivery.Next(s.up, e))
  }

  function Begin(jobs: seq<TaskSession.Job>, c: ClientTasks.Client): ByteSession {
    ByteSession(jobs, [], [], None, [], c, [], Delivery.START, Delivery.START)
  }

  /** The session after the moves; None when one of them was not possible. */
  function Run(start: ByteSession, moves: seq<Move>): Option<ByteSession> {
    if moves == [] then Some(start)
    else
      var last := |moves| - 1;
      match Run(start, moves[..last])
      case Some(s) => if Enabled(s, moves[last]) then Some(Next(s, moves[last])) else None
      case None => None
  }

  // ----- the session of messages behind the bytes -----

  function Waiting(l: Delivery.Link): seq<Message> {
    if |l.delivered| <= |l.sent| then l.sent[|l.delivered|..] else []
  }

  function View(s: ByteSession): TaskSession.Session {
    TaskSession.Session(s.jobs, s.started, s.out, s.receiving, s.received, Waiting(s.down), Waiting(s.up), s.client, s.clientOut)
  }

  predicate Intact(s: ByteSession) {
    && Delivery.Conserved(s.down) && Delivery.Conserved(s.up)
    && AllWellFormed(s.out) && AllWellFormed(s.clientOut)
  }

  lemma ScriptWellFormed(j: TaskSession.Job)
    requires TaskSession.ValidJob(j)
    ensures AllWellFormed(TaskSession.Script(j))
  {
    hide WellFormed;
    match j.task
    case TaskUsers(_, _) => StringTransfer.StringMessagesWellFormed(j.lines);
    case TaskFiles => StringTransfer.StringMessagesWellFormed(j.lines);
    case TaskDownload(_, _) =>
      if j.reply[0].body.ok && j.serverOpens {
        FileTransfer.DialogueWellFormed(j.reply[1..], j.name, j.content);
        assert j.reply == [j.reply[0]] + j.reply[1..];
      }
    case _ =>
  }

  /** Sending appends to the messages waiting, popping takes the first of them, and pieces change nothing. */
  lemma WaitingAfter(l: Delivery.Link, e: Delivery.Event)
    requires Delivery.Conserved(l) && Delivery.Enabled(l, e)
    ensures var r := Delivery.Next(l, e);
            match e
            case BeginSend(m) => Waiting(r) == Waiting(l) + [m]
            case Pop(stale) =>
              Waiting(l) != [] && Delivery.Front(l, stale) == Popped(Waiting(l)[0]) && Waiting(r) == Waiting(l)[1..]
            case _ => Waiting(r) == Waiting(l)
  {
    hide Encode, WellFormed, PopSpec, FrameSize, EncodeAll;
    if e.Pop? {
      Delivery.FrontOfLink(l, e.stale);
    }
  }

  /** The move of the session of messages; bytes on the wire are no move of it. */
  function MessageMove(v: Move): Option<TaskSession.Move> {
    match v
    case ServerStarts => Some(TaskSession.ServerStarts)
    case ServerSends => Some(TaskSession.ServerSends)
    case ServerReceives(_) => Some(TaskSession.ServerReceives)
    case ClientReceives(d, _) => Some(TaskSession.ClientReceives(d))
    case ClientSends => Some(TaskSession.ClientSends)
    case Wire(_, _) => None
  }

  /** Every move down to the bytes is a move of the session of messages, or leaves that session as it is. */
  lemma StepRefines(s: ByteSession, v: Move)
    requires Intact(s) && Enabled(s, v)
    ensures match MessageMove(v)
            case Some(m) => TaskSession.Enabled(View(s), m) && View(Next(s, v)) == TaskSession.Next(View(s), m)
            case None => View(Next(s, v)) == View(s)
  {
    hide Delivery.Enabled, Delivery.Conserved, Delivery.Next, Delivery.Front, Waiting, AllWellFormed, ClientTasks.OnMessage,
      FileTransfer.OnMessage, FileTransfer.IsFileDialogue, TaskSession.Script, TaskSession.ValidJob, CStr, FileName;
    match v
    case ServerSends => WaitingAfter(s.down, Delivery.BeginSend(s.out[0]));
    case ServerReceives(stale) => WaitingAfter(s.up, Delivery.Pop(stale));
    case ClientReceives(_, stale) => WaitingAfter(s.down, Delivery.Pop(stale));
    case ClientSends => WaitingAfter(s.up, Delivery.BeginSend(s.clientOut[0]));
    case Wire(isDown, e) => WaitingAfter(if isDown then s.down else s.up, e);
    case ServerStarts =>
  }

  lemma DialogueWellFormed(s: ByteSession, d: seq<Message>, stale: seq<uint8>)
    requires Enabled(s, ClientReceives(d, stale))
    ensures AllWellFormed(d)
  {
    hide WellFormed, CStr, FileName, FileTransfer.IsFileDialogue;
    var m := Delivery.Front(s.down, stale).m;
    if TaskSession.StartsUpload(s.client, m) {
      var p := CStr(m.body.task.userFilepath);
      FileTransfer.DialogueWellFormed(d, FileName(p), s.client.files[p]);
    }
  }

  lemma StepIntact(s: ByteSession, v: Move)
    requires Intact(s) && Enabled(s, v)
    ensures Intact(Next(s, v))
  {
    hide Delivery.Enabled, Delivery.Conserved, Delivery.Next, Delivery.Front, WellFormed, ClientTasks.OnMessage,
      CStr, FileName,
      FileTransfer.OnMessage, FileTransfer.IsFileDialogue, TaskSession.Script, TaskSession.ValidJob;
    match v
    case ServerStarts => ScriptWellFormed(s.jobs[0]);
    case ServerSends => Delivery.StepConserves(s.down, Delivery.BeginSend(s.out[0]));
    case ServerReceives(stale) => Delivery.StepConserves(s.up, Delivery.Pop(stale));
    case ClientReceives(d, stale) =>
      Delivery.StepConserves(s.down, Delivery.Pop(stale));
      DialogueWellFormed(s, d, stale);
    case ClientSends => Delivery.StepConserves(s.up, Delivery.BeginSend(s.clientOut[0]));
    case Wire(isDown, e) => Delivery.StepConserves(if isDown then s.down else s.up, e);
  }

  // ----- whole sessions -----

  lemma {:induction false} BytesInStep(jobs: seq<TaskSession.Job>, c0: ClientTasks.Client, moves: seq<Move>)
    requires TaskSession.Fresh(c0) && TaskSession.AllStartable(c0, jobs)
    requires Run(Begin(jobs, c0), moves).Some?
    ensures var s := Run(Begin(jobs, c0), moves).value;
            Intact(s) && TaskSession.Synchronous(c0, View(s)) && s.started + s.jobs == jobs
  {
    hide Enabled, Next, Intact, TaskSession.Synchronous, TaskSession.Enabled, TaskSession.Next;
    if moves == [] {
      InStepAtStart(jobs, c0);
    } else {
      var last := |moves| - 1;
      BytesInStep(jobs, c0, moves[..last]);
      var s := Run(Begin(jobs, c0), moves[..last]).value;
      StepIntact(s, moves[last]);
      StepRefines(s, moves[last]);
      match MessageMove(moves[last])
      case Some(m) => TaskSession.StepInStep(c0, View(s), m);
      case None =>
    }
  }

  lemma InStepAtStart(jobs: seq<TaskSession.Job>, c0: ClientTasks.Client)
    requires TaskSession.Fresh(c0) && TaskSession.AllStartable(c0, jobs)
    ensures Intact(Begin(jobs, c0)) && TaskSession.Synchronous(c0, View(Begin(jobs, c0)))
  {
    hide TaskSession.AllStartable, TaskSession.Synchronous;
    TaskSession.SynchronousAtStart(jobs, c0);
  }

  /** A link with messages waiting and nothing left to hand over can pop, or take a piece from the transport. */
  lemma CanReceive(l: Delivery.Link) returns (stale: seq<uint8>)
    requires Delivery.Conserved(l) && Waiting(l) != [] && l.unsent == []
    ensures Delivery.Enabled(l, Delivery.Pop(stale)) || Delivery.Enabled(l, Delivery.NetReceive(1, stale))
  {
    hide Encode, WellFormed, PopSpec, FrameSize, EncodeAll;
    stale := Zeros(STREAM_SIZE - |l.buffer|);
    Delivery.FrontOfLink(l, stale);
  }

  /** While the session of messages can go on, some move down to the bytes is possible. */
  lemma GoesOn(s: ByteSession, v: TaskSession.Move)
    requires Intact(s) && TaskSession.Enabled(View(s), v)
    ensures exists w :: Enabled(s, w)
  {
    hide Delivery.Conserved, Delivery.Front, Waiting, WellFormed, FileTransfer.IsFileDialogue, CStr, FileName,
      TaskSession.ValidJob;
    if s.down.unsent != [] {
      assert Enabled(s, Wire(true, Delivery.NetSend(1)));
    } else if s.up.unsent != [] {
      assert Enabled(s, Wire(false, Delivery.NetSend(1)));
    } else {
      match v
      case ServerStarts => assert Enabled(s, ServerStarts);
      case ServerSends => assert Enabled(s, ServerSends);
      case ClientSends => assert Enabled(s, ClientSends);
      case ServerReceives => ServerCanReceive(s);
      case ClientReceives(d) => ClientCanReceive(s, d);
    }
  }

  lemma ServerCanReceive(s: ByteSession)
    requires Intact(s) && s.down.unsent == s.up.unsent == [] && TaskSession.Enabled(View(s), TaskSession.ServerReceives)
    ensures exists w :: Enabled(s, w)
  {
    hide Delivery.Enabled, Delivery.Conserved, Waiting, AllWellFormed;
    var stale := CanReceive(s.up);
    assert Enabled(s, ServerReceives(stale)) || Enabled(s, Wire(false, Delivery.NetReceive(1, stale)));
  }

  lemma ClientCanReceive(s: ByteSession, d: seq<Message>)
    requires Intact(s) && s.down.unsent == s.up.unsent == [] && TaskSession.Enabled(View(s), TaskSession.ClientReceives(d))
    ensures exists w :: Enabled(s, w)
  {
    hide Delivery.Enabled, Delivery.Conserved, Delivery.Front, Waiting, AllWellFormed, FileTransfer.IsFileDialogue,
      CStr, FileName;
    var stale := CanReceive(s.down);
    if Delivery.Enabled(s.down, Delivery.Pop(stale)) {
      WaitingAfter(s.down, Delivery.Pop(stale));
      assert Enabled(s, ClientReceives(d, stale));
    } else {
      assert Enabled(s, Wire(true, Delivery.NetReceive(1, stale)));
    }
  }

  /** No byte is left anywhere. */
  predicate Empty(l: Delivery.Link) {
    l.unsent == [] && l.flight == [] && l.buffer == [] && l.delivered == l.sent
  }

  lemma NothingWaiting(l: Delivery.Link)
    requires Delivery.Conserved(l) && Waiting(l) == []
    ensures Empty(l)
  {
    hide Encode, WellFormed;
    assert l.sent[|l.delivered|..] == [];
    assert l.buffer + l.flight + l.unsent == [];
  }

  /** For every list of tasks, under every interleaving of the two sides and every split of the bytes in both
      directions: the session either can go on, or both sides are idle and no byte is left anywhere; then the
      client has, for every task, exactly what the server replied, and the server has exactly the files the
      client sent. */
  lemma ByteSessionCompletes(jobs: seq<TaskSession.Job>, c0: ClientTasks.Client, moves: seq<Move>)
    requires TaskSession.Fresh(c0) && TaskSession.AllStartable(c0, jobs)
    requires Run(Begin(jobs, c0), moves).Some?
    ensures var s := Run(Begin(jobs, c0), moves).value;
            || (exists v :: Enabled(s, v))
            || (&& TaskSession.Finished(View(s)) && Empty(s.down) && Empty(s.up)
                && s.client == TaskSession.AfterJobs(c0, jobs)
                && TaskSession.Contents(s.received) == TaskSession.SentBy(s.client.log))
  {
    hide Run, Enabled, Empty, Waiting, Delivery.Conserved, AllWellFormed, TaskSession.Fresh, TaskSession.AllStartable,
      TaskSession.Synchronous, TaskSession.Enabled, TaskSession.AfterJobs, TaskSession.Contents, TaskSession.SentBy;
    var s := Run(Begin(jobs, c0), moves).value;
    BytesInStep(jobs, c0, moves);
    TaskSession.StuckMeansFinished(jobs, c0, View(s));
    if v :| TaskSession.Enabled(View(s), v) {
      GoesOn(s, v);
    } else {
      NothingWaiting(s.down);
      NothingWaiting(s.up);
    }
  }

  /** Every move brings the session of messages closer to its end, or leaves it as it is and brings the bytes
      closer to the receivers. So no run goes on forever. */
  lemma EveryMoveCounts(s: ByteSession, v: Move)
    requires Intact(s) && Enabled(s, v)
    ensures var r := Next(s, v);
            || TaskSession.Closer(View(r), View(s))
            || (View(r) == View(s) && Delivery.Work(r.down) + Delivery.Work(r.up) < Delivery.Work(s.down) + Delivery.Work(s.up))
  {
    hide View, AllWellFormed, Delivery.Conserved, Delivery.Work, Delivery.Enabled, Delivery.Next, TaskSession.Closer,
      TaskSession.Enabled, TaskSession.Next, FileTransfer.IsFileDialogue, CStr, FileName;
    StepRefines(s, v);
    match MessageMove(v)
    case Some(m) => TaskSession.EveryMoveCounts(View(s), m);
    case None => Delivery.EveryStepWorks(if v.isDown then s.down else s.up, v.e);
  }
}
