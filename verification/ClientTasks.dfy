/** The client's side of the task dialogue, message by message. */
module ClientTasks {
  import opened Bytes
  import opened Constructors
  import opened Messages
  import opened Storage
  import FileTransfer
  import StringTransfer

  /** What a task amounted to for the user. */
  datatype Effect =
    | Listed(kind: TaskType, lines: seq<CString>)
    | Downloaded(name: CString, content: seq<uint8>)
    | Refused
    | RemoveAnswer(ok: bool)
    | Sent(sentName: CString, sentContent: seq<uint8>)
    | Skipped
    | TaskError

  datatype Phase =
    | Idle
    | Listing(kind: TaskType, lines: StringTransfer.Receiver)
    | AwaitDownloadStatus
    | Downloading(file: FileTransfer.Receiver)
    | AwaitRemoveStatus
    | Stopped

  datatype Client = Client(
    phase: Phase,
    log: seq<Effect>,
    files: map<Path, seq<uint8>>,
    unreadable: set<Path>,
    unwritable: set<Path>)

  const DOWNLOADS: Path := Ascii("resources/downloads")

  function DownloadTarget(c: Client): FileTransfer.Target {
    FileTransfer.Target(Some(DOWNLOADS), [], c.unwritable)
  }

  predicate CanRead(c: Client, path: Path) {
    path in c.files && path !in c.unreadable
  }

  function Back(c: Client, e: Effect): Client {
    c.(phase := Idle, log := c.log + [e])
  }

  /** The handler of the connection thread: which task begins. */
  function BeginTask(c: Client, t: TaggedTask): Client {
    match t
    case TaskUsers(_, _) => c.(phase := Listing(USERS, StringTransfer.START))
    case TaskFiles => c.(phase := Listing(FILES, StringTransfer.START))
    case TaskDownload(_, _) => c.(phase := AwaitDownloadStatus)
    case TaskRemove(_, _) => c.(phase := AwaitRemoveStatus)
    case TaskUpload(_, path) =>
      if CanRead(c, CStr(path)) then Back(c, Sent(FileName(CStr(path)), c.files[CStr(path)])) else Back(c, Skipped)
  }

  function OnListMessage(c: Client, kind: TaskType, r: StringTransfer.Receiver): Client {
    if r.stage.Done? then Back(c, Listed(kind, r.strings))
    else if r.stage.Failed? then Back(c, TaskError)
    else c.(phase := Listing(kind, r))
  }

  /** The disk with what the receiver wrote. */
  function Written(c: Client, r: FileTransfer.Receiver): Client {
    if r.created then c.(files := c.files[DownloadTarget(c).PathFor(r.name) := r.got]) else c
  }

  function OnFileMessage(c: Client, r: FileTransfer.Receiver): Client {
    if r.stage.Done? then Back(Written(c, r), Downloaded(r.name, r.got))
    else if r.stage.Failed? then Back(Written(c, r), TaskError)
    else c.(phase := Downloading(r))
  }

  /** One message on the task connection. */
  function OnMessage(c: Client, m: Message): Client {
    match c.phase
    case Idle =>
      if !m.body.TaskStatus? then c.(phase := Stopped)
      else if m.body.taskStatus != TASK_STATUS_EXECUTING then c
      else BeginTask(c, m.body.task)
    case Listing(kind, r) => OnListMessage(c, kind, StringTransfer.OnMessage(r, m))
    case AwaitDownloadStatus =>
      if !m.body.Status? then Back(c, TaskError)
      else if !m.body.ok then Back(c, Refused)
      else c.(phase := Downloading(FileTransfer.START))
    case Downloading(r) => OnFileMessage(c, FileTransfer.OnMessage(r, m, DownloadTarget(c)))
    case AwaitRemoveStatus => if m.body.Status? then Back(c, RemoveAnswer(m.body.ok)) else Back(c, TaskError)
    case Stopped => c
  }

  /** The client after it received the messages, in order. */
  function Fold(c: Client, ms: seq<Message>): Client
    decreases |ms|
  {
    if ms == [] then c else Fold(OnMessage(c, ms[0]), ms[1..])
  }

  lemma FoldCons(c: Client, m: Message, ms: seq<Message>)
    ensures Fold(c, [m] + ms) == Fold(OnMessage(c, m), ms)
  {
    assert ([m] + ms)[1..] == ms;
  }

  lemma {:induction false} FoldAppend(c: Client, a: seq<Message>, b: seq<Message>)
    ensures Fold(c, a + b) == Fold(Fold(c, a), b)
    decreases |a|
  {
    if a == [] {
      assert a + b == b;
    } else {
      FoldAppend(OnMessage(c, a[0]), a[1..], b);
      assert a + b == [a[0]] + (a[1..] + b);
      FoldCons(c, a[0], a[1..] + b);
    }
  }

  // ----- a whole transfer -----

  /** While a list receiver consumes messages, the client consumes the same ones. */
  lemma {:induction false} FoldListing(c: Client, kind: TaskType, r: StringTransfer.Receiver, ms: seq<Message>)
    requires c.phase == Listing(kind, r) && !r.Ended()
    ensures var o := StringTransfer.Outcome(r, ms);
            Fold(c, ms[..o.1]) == OnListMessage(c, kind, o.0)
    decreases |ms|
  {
    if ms != [] {
      var next := StringTransfer.OnMessage(r, ms[0]);
      var n := StringTransfer.Outcome(next, ms[1..]).1;
      assert ms[..n + 1][1..] == ms[1..][..n];
      if next.Ended() {
        StringTransfer.EndedOutcome(next, ms[1..]);
      } else {
        FoldListing(OnMessage(c, ms[0]), kind, next, ms[1..]);
      }
    }
  }

  lemma {:induction false} FoldDownloading(c: Client, r: FileTransfer.Receiver, ms: seq<Message>)
    requires c.phase == Downloading(r) && !r.Ended()
    ensures var o := FileTransfer.Outcome(r, ms, DownloadTarget(c));
            Fold(c, ms[..o.1]) == OnFileMessage(c, o.0)
    decreases |ms|
  {
    if ms != [] {
      var t := DownloadTarget(c);
      var next := FileTransfer.OnMessage(r, ms[0], t);
      var n := FileTransfer.Outcome(next, ms[1..], t).1;
      assert ms[..n + 1][1..] == ms[1..][..n];
      if next.Ended() {
        FileTransfer.EndedOutcome(next, ms[1..], t);
      } else {
        FoldDownloading(OnMessage(c, ms[0]), next, ms[1..]);
      }
    }
  }

  lemma {:induction false} LogGrows(c: Client, ms: seq<Message>)
    ensures c.log <= Fold(c, ms).log
    decreases |ms|
  {
    if ms != [] {
      LogGrows(OnMessage(c, ms[0]), ms[1..]);
    }
  }

  /** A transfer that fails leaves its mark in the log, whatever the client makes of the rest. */
  lemma {:induction false} FoldFailedDownload(c: Client, r: FileTransfer.Receiver, ms: seq<Message>)
    requires c.phase == Downloading(r) && !r.Ended()
    requires FileTransfer.Outcome(r, ms, DownloadTarget(c)).0.stage.Failed?
    ensures |Fold(c, ms).log| > |c.log| && Fold(c, ms).log[|c.log|] == TaskError
    decreases |ms|
  {
    var t := DownloadTarget(c);
    var next := FileTransfer.OnMessage(r, ms[0], t);
    var c' := OnMessage(c, ms[0]);
    if next.Ended() {
      FileTransfer.EndedOutcome(next, ms[1..], t);
      LogGrows(c', ms[1..]);
      assert c'.log == c.log + [TaskError];
    } else {
      FoldFailedDownload(c', next, ms[1..]);
    }
  }
}
