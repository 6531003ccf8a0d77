/** The client's thread that follows the tasks the server executes, against the message-by-message client. */
module ClientTaskHandler {
  import opened Bytes
  import opened ClientTasks
  import opened Codec
  import opened Messages
  import opened NetCommunication
  import opened Storage
  import opened StringLists
  import FileTransfer
  import StringTransfer

  /** The client once its connection has ended: a task cut short counts as an error. */
  function Closed(c: Client): Client {
    match c.phase
    case Idle => c
    case Stopped => c
    case Downloading(r) => Written(c, r).(log := c.log + [TaskError])
    case _ => c.(log := c.log + [TaskError])
  }

  /** The dialogues of the files in the log, in order. */
  predicate Dialogues(ds: seq<seq<Message>>, log: seq<Effect>) {
    if log == [] then ds == []
    else
      var e := log[|log| - 1];
      if e.Sent? then
        && ds != [] && FileTransfer.IsFileDialogue(ds[|ds| - 1], e.sentName, e.sentContent)
        && Dialogues(ds[..|ds| - 1], log[..|log| - 1])
      else Dialogues(ds, log[..|log| - 1])
  }

  function Flat(ds: seq<seq<Message>>): seq<Message> {
    if ds == [] then [] else Flat(ds[..|ds| - 1]) + ds[|ds| - 1]
  }

  predicate SameDisk(c: Client, d: Client) {
    c.files == d.files && c.unreadable == d.unreadable && c.unwritable == d.unwritable
  }

  method ListTask(conn: NetworkConnection, kind: TaskType, ghost c: Client)
    returns (ghost e: Effect, ghost after: Client, ghost n: nat)
    requires conn.Valid() && c.phase == Listing(kind, StringTransfer.START)
    modifies conn.Repr
    ensures conn.Valid() && conn.outbox == old(conn.outbox)
    ensures n <= |old(conn.inbox)| && conn.inbox == old(conn.inbox)[n..]
    ensures after == Fold(c, old(conn.inbox)[..n])
    ensures Closed(after).log == c.log + [e] && SameDisk(c, Closed(after)) && !e.Sent?
    ensures after.phase == Idle || (after.phase != Stopped && conn.inbox == [])
  {
    hide conn.Valid, Fold, StringTransfer.Outcome;
    ghost var inbox := conn.inbox;
    var list := new StringList();
    ghost var r;
    var err;
    FoldListing(c, kind, StringTransfer.START, inbox);
    err, r, n := StringTransfer.ReceiveStringList(conn, list);
    StringTransfer.OutcomeEnds(StringTransfer.START, inbox);
    after := OnListMessage(c, kind, r);
    if err == None {
      assert list.Strings() == r.strings;
      e := Listed(kind, list.Strings());
    } else {
      e := TaskError;
    }
  }

  /** The client's view of its disk. */
  ghost predicate Sees(c: Client, disk: Disk)
    reads disk
  {
    c.files == disk.files && c.unreadable == disk.unreadable && c.unwritable == disk.unwritable
  }

  /** The client after the first message, if there is one. */
  lemma FirstMessage(c: Client, inbox: seq<Message>) returns (after: Client, n: nat)
    ensures n == (if inbox == [] then 0 else 1) && after == Fold(c, inbox[..n])
    ensures after == if inbox == [] then c else OnMessage(c, inbox[0])
  {
    n := if inbox == [] then 0 else 1;
    after := Fold(c, inbox[..n]);
    if n == 1 {
      assert inbox[..1] == [inbox[0]] + [];
      FoldCons(c, inbox[0], []);
    }
  }

  method DownloadTask(conn: NetworkConnection, disk: Disk, ghost c: Client)
    returns (ghost e: Effect, ghost after: Client, ghost n: nat)
    requires conn.Valid() && disk !in conn.Repr && c.phase == AwaitDownloadStatus && Sees(c, disk)
    modifies conn.Repr, disk
    ensures conn.Valid() && conn.outbox == old(conn.outbox)
    ensures n <= |old(conn.inbox)| && conn.inbox == old(conn.inbox)[n..]
    ensures after == Fold(c, old(conn.inbox)[..n])
    ensures Closed(after).log == c.log + [e] && Sees(Closed(after), disk) && !e.Sent?
    ensures after.phase == Idle || (after.phase != Stopped && conn.inbox == [])
  {
    hide conn.Valid, FileTransfer.Outcome, WellFormed;
    ghost var inbox := conn.inbox;
    var msg := conn.WaitForMessageType(8);
    after, n := FirstMessage(c, inbox);
    if msg.Err? {
      return TaskError, after, n;
    }
    if !msg.value.body.ok {
      return Refused, after, n;
    }
    ghost var c1 := after;
    var err, name, size;
    ghost var r, k;
    FoldDownloading(c1, FileTransfer.START, conn.inbox);
    FileTransfer.OutcomeEnds(FileTransfer.START, conn.inbox, DownloadTarget(c1));
    err, name, size, r, k := FileTransfer.ReceiveFile(conn, disk, Some(DOWNLOADS), []);
    n := 1 + k;
    assert inbox[..n] == [inbox[0]] + inbox[1..][..k];
    FoldCons(c, inbox[0], inbox[1..][..k]);
    after := OnFileMessage(c1, r);
    if err == None {
      e := Downloaded(r.name, r.got);
    } else {
      e := TaskError;
    }
  }

  method RemoveTask(conn: NetworkConnection, ghost c: Client)
    returns (ghost e: Effect, ghost after: Client, ghost n: nat)
    requires conn.Valid() && c.phase == AwaitRemoveStatus
    modifies conn.Repr
    ensures conn.Valid() && conn.outbox == old(conn.outbox)
    ensures n <= |old(conn.inbox)| && conn.inbox == old(conn.inbox)[n..]
    ensures after == Fold(c, old(conn.inbox)[..n])
    ensures Closed(after).log == c.log + [e] && SameDisk(c, Closed(after)) && !e.Sent?
    ensures after.phase == Idle || (after.phase != Stopped && conn.inbox == [])
  {
    hide conn.Valid, WellFormed;
    ghost var inbox := conn.inbox;
    var msg := conn.WaitForMessageType(8);
    after, n := FirstMessage(c, inbox);
    e := if msg.Ok? then RemoveAnswer(msg.value.body.ok) else TaskError;
  }

  /** Checks that the file exists and can be read, and sends it. */
  method UploadTask(conn: NetworkConnection, disk: Disk, path: Path)
    returns (ghost e: Effect, ghost d: seq<Message>)
    requires conn.Valid() && disk !in conn.Repr && |FileName(path)| < FILE_HEADER_NAME_SIZE
    modifies conn.Repr
    ensures conn.Valid() && conn.inbox == old(conn.inbox)
    ensures conn.outbox == old(conn.outbox) + d
    ensures if disk.CanRead(path)
            then e == Sent(FileName(path), disk.files[path]) && FileTransfer.IsFileDialogue(d, FileName(path), disk.files[path])
            else e == Skipped && d == []
  {
    hide conn.Valid, FileTransfer.IsFileDialogue, FileName;
    if path !in disk.files {
      return Skipped, [];
    }
    if !disk.CanRead(path) {
      return Skipped, [];
    }
    var err;
    err, d := FileTransfer.SendFile(disk, path, conn, None);
    e := Sent(FileName(path), disk.files[path]);
  }

  lemma DialoguesAppend(ds: seq<seq<Message>>, log: seq<Effect>, d: seq<Message>, e: Effect)
    requires Dialogues(ds, log)
    requires if e.Sent? then FileTransfer.IsFileDialogue(d, e.sentName, e.sentContent) else d == []
    ensures Dialogues(if e.Sent? then ds + [d] else ds, log + [e])
    ensures Flat(if e.Sent? then ds + [d] else ds) == Flat(ds) + d
  {
    hide FileTransfer.IsFileDialogue;
    assert (log + [e])[..|log|] == log;
    if e.Sent? {
      assert (ds + [d])[..|ds|] == ds;
    }
  }

  /** The names of the files to upload fit the header. */
  predicate NamesFit(inbox: seq<Message>) {
    forall m :: m in inbox && m.body.TaskStatus? && m.body.task.TaskUpload?
                ==> |FileName(CStr(m.body.task.userFilepath))| < FILE_HEADER_NAME_SIZE
  }

  /** One task the server announced: dispatches to its handler. */
  method HandleTask(conn: NetworkConnection, disk: Disk, task: TaggedTask, ghost c: Client)
    returns (ghost e: Effect, ghost after: Client, ghost n: nat, ghost d: seq<Message>)
    requires conn.Valid() && disk !in conn.Repr && c.phase == Idle && Sees(c, disk)
    requires task.TaskUpload? ==> |FileName(CStr(task.userFilepath))| < FILE_HEADER_NAME_SIZE
    modifies conn.Repr, disk
    ensures conn.Valid() && conn.outbox == old(conn.outbox) + d
    ensures n <= |old(conn.inbox)| && conn.inbox == old(conn.inbox)[n..]
    ensures after == Fold(BeginTask(c, task), old(conn.inbox)[..n])
    ensures Closed(after).log == c.log + [e] && Sees(Closed(after), disk)
    ensures if e.Sent? then FileTransfer.IsFileDialogue(d, e.sentName, e.sentContent) else d == []
    ensures after.phase == Idle || (after.phase != Stopped && conn.inbox == [])
  {
    hide conn.Valid, FileTransfer.IsFileDialogue, FileName, CStr;
    ghost var begun := BeginTask(c, task);
    match task {
      case TaskUsers(_, _) =>
        e, after, n := ListTask(conn, USERS, begun);
        d := [];
      case TaskFiles =>
        e, after, n := ListTask(conn, FILES, begun);
        d := [];
      case TaskDownload(_, _) =>
        e, after, n := DownloadTask(conn, disk, begun);
        d := [];
      case TaskRemove(_, _) =>
        e, after, n := RemoveTask(conn, begun);
        d := [];
      case TaskUpload(_, path) =>
        e, d := UploadTask(conn, disk, CStr(path));
        after, n := begun, 0;
    }
  }

  /** The client between two turns of the loop: idle, or in the middle of a task when the connection ended. */
  ghost predicate BetweenTasks(c: Client, inbox: seq<Message>) {
    c.phase == Idle || (c.phase != Stopped && inbox == [])
  }

  /** The user may have left the chat, or quit, while the thread was waiting. */
  method StillChatting() returns (chatting: bool) {
    chatting := *;
  }

  /** One turn of the loop. When the user has left, the message just received is dropped. */
  method NextTask(conn: NetworkConnection, disk: Disk, ghost c: Client)
    returns (more: bool, left: bool, ghost es: seq<Effect>, ghost after: Client, ghost n: nat, ghost dropped: nat,
             ghost d: seq<Message>)
    requires conn.Valid() && disk !in conn.Repr && Sees(Closed(c), disk)
    requires NamesFit(conn.inbox) && BetweenTasks(c, conn.inbox)
    modifies conn.Repr, disk
    ensures conn.Valid() && conn.outbox == old(conn.outbox) + d
    ensures n + dropped <= |old(conn.inbox)| && conn.inbox == old(conn.inbox)[n + dropped..] && (more ==> n > 0)
    ensures dropped <= (if left then 1 else 0) && (left ==> !more)
    ensures after == Fold(c, old(conn.inbox)[..n])
    ensures Closed(after).log == Closed(c).log + es && Sees(Closed(after), disk)
    ensures |es| <= 1 && if es != [] && es[0].Sent?
                         then FileTransfer.IsFileDialogue(d, es[0].sentName, es[0].sentContent)
                         else d == []
    ensures if more then BetweenTasks(after, conn.inbox) else left || after.phase == Stopped || conn.inbox == []
  {
    hide conn.Valid, FileTransfer.IsFileDialogue, FileName, CStr;
    ghost var inbox := conn.inbox;
    ghost var e, k;
    es, d, dropped := [], [], 0;
    var msg := conn.WaitForMessageType(11);
    var chatting := StillChatting();
    left := !chatting;
    after, n := FirstMessage(c, inbox);
    if left {
      FoldPrefix(c, inbox, 0, 0);
      return false, left, es, c, 0, n, d;
    }
    if msg.Err? {
      return false, left, es, after, n, 0, d;
    }
    assert msg.value == inbox[0];
    if msg.value.body.taskStatus == TASK_STATUS_EXECUTING {
      FoldPrefix(c, inbox, 1, 0);
      e, after, k, d := HandleTask(conn, disk, msg.value.body.task, c);
      FoldPrefix(c, inbox, 1, k);
      es, n := [e], 1 + k;
    }
    more := true;
  }

  /** The thread: waits for the next executing task, follows it, and stops when the connection ends or brings
      something else, or when the user has left. It handles exactly what the message-by-message client
      consumes, does to the disk what that client does, and sends exactly the dialogues of the files in the
      log; a user who leaves costs at most the one message just received. */
  method ThreadHandler(conn: NetworkConnection, disk: Disk)
    returns (left: bool, ghost log: seq<Effect>, ghost n: nat, ghost dropped: nat, ghost ds: seq<seq<Message>>)
    requires conn.Valid() && disk !in conn.Repr && NamesFit(conn.inbox)
    modifies conn.Repr, disk
    ensures conn.Valid()
    ensures n + dropped <= |old(conn.inbox)| && conn.inbox == old(conn.inbox)[n + dropped..]
    ensures dropped <= if left then 1 else 0
    ensures var end := Fold(Client(Idle, [], old(disk.files), disk.unreadable, disk.unwritable), old(conn.inbox)[..n]);
            && log == Closed(end).log && Sees(Closed(end), disk)
            && (left || end.phase == Stopped || conn.inbox == [])
    ensures Dialogues(ds, log) && conn.outbox == old(conn.outbox) + Flat(ds)
  {
    hide conn.Valid, FileTransfer.IsFileDialogue, Dialogues, Flat, Fold, CStr, FileName;
    ghost var inbox := conn.inbox;
    ghost var c0 := Client(Idle, [], disk.files, disk.unreadable, disk.unwritable);
    ghost var c := c0;
    ghost var k, d, es;
    left, log, n, dropped, ds := false, [], 0, 0, [];
    var more := true;
    NothingYet(c0, inbox);
    while more
      invariant conn.Valid()
      invariant n + dropped <= |inbox| && conn.inbox == inbox[n + dropped..]
      invariant dropped <= (if left then 1 else 0) && (left ==> !more)
      invariant c == Fold(c0, inbox[..n])
      invariant log == Closed(c).log && Sees(Closed(c), disk)
      invariant if more then BetweenTasks(c, conn.inbox) else left || c.phase == Stopped || conn.inbox == []
      invariant Dialogues(ds, log) && conn.outbox == old(conn.outbox) + Flat(ds)
      decreases more, |conn.inbox|
    {
      assert NamesFit(conn.inbox);
      more, left, es, c, k, dropped, d := NextTask(conn, disk, c);
      FoldPrefix(c0, inbox, n, k);
      assert inbox[n..][k + dropped..] == inbox[n + k + dropped..];
      n := n + k;
      if es != [] {
        DialoguesAppend(ds, log, d, es[0]);
        ds := if es[0].Sent? then ds + [d] else ds;
        assert log + es == log + [es[0]];
      } else {
        assert log + es == log;
      }
      log := log + es;
    }
  }

  lemma NothingYet(c: Client, inbox: seq<Message>)
    ensures Fold(c, inbox[..0]) == c && Dialogues([], []) && Flat([]) == [] && inbox[0..] == inbox
  {
  }

  lemma FoldPrefix(c: Client, inbox: seq<Message>, n: nat, k: nat)
    requires n + k <= |inbox|
    ensures Fold(c, inbox[..n + k]) == Fold(Fold(c, inbox[..n]), inbox[n..][..k])
    ensures inbox[n..][k..] == inbox[n + k..]
  {
    assert inbox[..n + k] == inbox[..n] + inbox[n..][..k];
    FoldAppend(c, inbox[..n], inbox[n..][..k]);
  }
}
