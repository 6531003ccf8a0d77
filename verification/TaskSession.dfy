/** The whole task dialogue between a server and a client over one task connection, with every
    interleaving of the two sides: the server works off tasks one at a time, the client follows. */
module TaskSession {
  import opened Bytes
  import opened ClientTasks
  import opened Codec
  import opened Constructors
  import opened Messages
  import opened Storage
  import FileTransfer
  import StringTransfer

  /** A task as the server executes it: what it replies, or where an upload goes. */
  datatype Job = Job(
    task: TaggedTask,
    reply: seq<Message>,
    lines: seq<CString>,            // users and files: the lines of the reply
    name: CString,                  // download: the file that is sent
    content: seq<uint8>,
    serverOpens: bool,              // download: the server could open the file it confirmed
    target: FileTransfer.Target)    // upload: where the server writes

  function Executing(t: TaggedTask): (m: Message)
    requires TaskFieldsFit(t)
    ensures WellFormed(m) && m.body == TaskStatus(TASK_STATUS_EXECUTING, t)
  {
    FillStatus(CreateTaskStatus(TypeOf(t), TASK_STATUS_EXECUTING), t)
  }

  /** What the handlers of the server send for their tasks. */
  predicate ValidJob(j: Job) {
    && TaskFieldsFit(j.task)
    && match j.task
       case TaskUsers(_, _) => StringTransfer.Sendable(j.lines) && j.reply == StringTransfer.ListMessages(j.lines)
       case TaskFiles => StringTransfer.Sendable(j.lines) && j.reply == StringTransfer.ListMessages(j.lines)
       case TaskDownload(_, _) =>
         && |j.reply| >= 1 && WellFormed(j.reply[0]) && j.reply[0].body.Status?
         && if j.reply[0].body.ok && j.serverOpens
            then FileTransfer.IsFileDialogue(j.reply[1..], j.name, j.content)
            else |j.reply| == 1
       case TaskRemove(_, _) => |j.reply| == 1 && WellFormed(j.reply[0]) && j.reply[0].body.Status?
       case TaskUpload(_, _) => j.reply == []
  }

  function Script(j: Job): seq<Message>
    requires TaskFieldsFit(j.task)
  {
    [Executing(j.task)] + j.reply
  }

  function UploadPath(j: Job): Path
    requires j.task.TaskUpload?
  {
    CStr(j.task.userFilepath)
  }

  /** The condition under which both sides stay in step: the file of a download or upload can be opened at
      both ends and is shorter than 2^32 bytes. */
  predicate Good(j: Job, c: Client) {
    match j.task
    case TaskDownload(_, _) =>
      |j.reply| >= 1 && j.reply[0].body.Status? && j.reply[0].body.ok ==>
        j.serverOpens && |j.content| < TWO_TO_THE_32 && DownloadTarget(c).PathFor(j.name) !in c.unwritable
    case TaskUpload(_, _) =>
      var p := UploadPath(j);
      CanRead(c, p) && |c.files[p]| < TWO_TO_THE_32 && j.target.PathFor(FileName(p)) !in j.target.unwritable
    case _ => true
  }

  // ----- one task -----

  /** The client after a task that stayed in step. */
  function AfterJob(c: Client, j: Job): Client {
    match j.task
    case TaskUsers(_, _) => Back(c, Listed(USERS, j.lines))
    case TaskFiles => Back(c, Listed(FILES, j.lines))
    case TaskDownload(_, _) =>
      if |j.reply| >= 1 && j.reply[0].body.Status? && j.reply[0].body.ok
      then Back(c.(files := c.files[DownloadTarget(c).PathFor(j.name) := j.content]), Downloaded(j.name, j.content))
      else Back(c, Refused)
    case TaskRemove(_, _) => Back(c, RemoveAnswer(|j.reply| >= 1 && j.reply[0].body.Status? && j.reply[0].body.ok))
    case TaskUpload(_, _) =>
      var p := UploadPath(j);
      if CanRead(c, p) then Back(c, Sent(FileName(p), c.files[p])) else Back(c, Skipped)
  }

  lemma ListJobRun(c: Client, j: Job)
    requires c.phase == Idle && ValidJob(j) && (j.task.TaskUsers? || j.task.TaskFiles?)
    ensures Fold(c, Script(j)) == AfterJob(c, j)
  {
    hide WellFormed, StringTransfer.Outcome, StringTransfer.ListMessages, Fold;
    var c1 := BeginTask(c, j.task);
    FoldCons(c, Executing(j.task), j.reply);
    StringTransfer.StringListRoundTrip(j.lines, []);
    assert j.reply + [] == j.reply;
    FoldListing(c1, c1.phase.kind, StringTransfer.START, j.reply);
    assert j.reply[..|j.reply|] == j.reply;
  }

  /** In the log there is one more entry, and it is not an error or a task that was skipped. */
  predicate Succeeded(c: Client, after: Client) {
    && after.phase == Idle && |after.log| == |c.log| + 1
    && c.log <= after.log && after.log[|c.log|] != TaskError && after.log[|c.log|] != Skipped
  }

  /** A confirmed download, when the server could open the file. */
  lemma DownloadRun(c: Client, j: Job)
    requires c.phase == Idle && ValidJob(j) && j.task.TaskDownload? && j.reply[0].body.ok && j.serverOpens
    ensures Good(j, c) ==> Fold(c, Script(j)) == AfterJob(c, j)
    ensures !Good(j, c) ==> !Succeeded(c, Fold(c, Script(j)))
  {
    hide WellFormed, FileTransfer.Outcome, FileTransfer.IsFileDialogue, Fold;
    var c1 := BeginTask(c, j.task);
    var status, file := j.reply[0], j.reply[1..];
    var c2 := OnMessage(c1, status);
    var t := DownloadTarget(c);
    FoldCons(c, Executing(j.task), j.reply);
    assert j.reply == [status] + file;
    FoldCons(c1, status, file);
    assert file + [] == file;
    if t.PathFor(j.name) in c.unwritable {
      FileTransfer.UnopenableTarget(file, j.name, j.content, [], t);
      FoldFailedDownload(c2, FileTransfer.START, file);
    } else {
      FileTransfer.FileRoundTrip(file, j.name, j.content, [], t);
      if |j.content| < TWO_TO_THE_32 {
        FoldDownloading(c2, FileTransfer.START, file);
        assert file[..|file|] == file;
      } else {
        FoldFailedDownload(c2, FileTransfer.START, file);
      }
    }
  }

  lemma ShortJobRun(c: Client, j: Job)
    requires c.phase == Idle && ValidJob(j)
    requires j.task.TaskRemove? || j.task.TaskUpload? || (j.task.TaskDownload? && !j.reply[0].body.ok)
    ensures Fold(c, Script(j)) == AfterJob(c, j)
  {
    hide WellFormed;
    FoldCons(c, Executing(j.task), j.reply);
    if !j.task.TaskUpload? {
      assert j.reply == [j.reply[0]] + [];
      FoldCons(BeginTask(c, j.task), j.reply[0], []);
    }
  }

  /** One task keeps both sides in step: the client consumes everything the server sends and is idle again,
      and the server consumes everything `d` the client sends for an upload. */
  predicate InStep(c: Client, j: Job, d: seq<Message>)
    requires TaskFieldsFit(j.task)
  {
    && Succeeded(c, Fold(c, Script(j)))
    && (j.task.TaskUpload? ==>
          var (r, n) := FileTransfer.Outcome(FileTransfer.START, d, j.target);
          UploadPath(j) in c.files && r.stage == FileTransfer.Done && n == |d| && r.got == c.files[UploadPath(j)])
  }

  lemma UploadOutcome(c: Client, j: Job, d: seq<Message>)
    requires ValidJob(j) && j.task.TaskUpload? && CanRead(c, UploadPath(j))
    requires FileTransfer.IsFileDialogue(d, FileName(UploadPath(j)), c.files[UploadPath(j)])
    ensures var (r, n) := FileTransfer.Outcome(FileTransfer.START, d, j.target);
            && (Good(j, c) ==> r.stage == FileTransfer.Done && n == |d| && r.got == c.files[UploadPath(j)])
            && (!Good(j, c) ==> r.stage.Failed?)
  {
    hide FileTransfer.Outcome, FileTransfer.IsFileDialogue;
    var name, content := FileName(UploadPath(j)), c.files[UploadPath(j)];
    assert d + [] == d;
    if j.target.PathFor(name) in j.target.unwritable {
      FileTransfer.UnopenableTarget(d, name, content, [], j.target);
    } else {
      FileTransfer.FileRoundTrip(d, name, content, [], j.target);
    }
  }

  /** A task from an idle start keeps both sides in step if and only if the file it moves, if any, can be
      opened at both ends and is shorter than 2^32 bytes. */
  lemma InStepIffGood(c: Client, j: Job, d: seq<Message>)
    requires c.phase == Idle && ValidJob(j)
    requires j.task.TaskUpload? && CanRead(c, UploadPath(j)) ==>
               FileTransfer.IsFileDialogue(d, FileName(UploadPath(j)), c.files[UploadPath(j)])
    ensures InStep(c, j, d) <==> Good(j, c)
    ensures Good(j, c) ==> Fold(c, Script(j)) == AfterJob(c, j)
  {
    hide WellFormed, FileTransfer.Outcome, FileTransfer.IsFileDialogue, Fold, Script, StringTransfer.ListMessages;
    match j.task
    case TaskUsers(_, _) => ListJobRun(c, j);
    case TaskFiles => ListJobRun(c, j);
    case TaskRemove(_, _) => ShortJobRun(c, j);
    case TaskUpload(_, _) =>
      ShortJobRun(c, j);
      if CanRead(c, UploadPath(j)) {
        UploadOutcome(c, j, d);
      }
    case TaskDownload(_, _) =>
      if !j.reply[0].body.ok {
        ShortJobRun(c, j);
      } else if j.serverOpens {
        DownloadRun(c, j);
      } else {
        UnsentDownloadRun(c, j);
      }
  }

  lemma UnsentDownloadRun(c: Client, j: Job)
    requires c.phase == Idle && ValidJob(j) && j.task.TaskDownload? && j.reply[0].body.ok && !j.serverOpens
    ensures Fold(c, Script(j)).phase != Idle
  {
    FoldCons(c, Executing(j.task), j.reply);
    assert j.reply == [j.reply[0]] + [];
    FoldCons(BeginTask(c, j.task), j.reply[0], []);
  }

  // ----- many tasks, every interleaving -----

  datatype Session = Session(
    jobs: seq<Job>,        // tasks the server has still to start
    started: seq<Job>,
    out: seq<Message>,     // what the server has still to send for the task it is at
    receiving: Option<FileTransfer.Receiver>, // the server is receiving an upload
    received: seq<FileTransfer.Receiver>,     // uploads the server has finished with
    s2c: seq<Message>,     // messages on their way
    c2s: seq<Message>,
    client: Client,
    clientOut: seq<Message>) // what the client has still to send

  datatype Move =
    | ServerStarts
    | ServerSends
    | ServerReceives
    | ClientReceives(dialogue: seq<Message>) // with what it will send, should the message start an upload
    | ClientSends

  predicate StartsUpload(c: Client, m: Message) {
    && c.phase == Idle && m.body.TaskStatus? && m.body.taskStatus == TASK_STATUS_EXECUTING
    && m.body.task.TaskUpload? && CanRead(c, CStr(m.body.task.userFilepath))
  }

  predicate Enabled(s: Session, v: Move) {
    match v
    case ServerStarts => s.out == [] && s.receiving == None && s.jobs != [] && ValidJob(s.jobs[0])
    case ServerSends => s.out != []
    case ServerReceives => s.out == [] && s.receiving.Some? && s.c2s != [] && s.started != []
    case ClientReceives(d) =>
      && s.clientOut == [] && s.s2c != [] && s.client.phase != Stopped
      && if StartsUpload(s.client, s.s2c[0]) then
           var p := CStr(s.s2c[0].body.task.userFilepath);
           FileTransfer.IsFileDialogue(d, FileName(p), s.client.files[p])
         else d == []
    case ClientSends => s.clientOut != []
  }

  function Next(s: Session, v: Move): Session
    requires Enabled(s, v)
  {
    match v
    case ServerStarts =>
      var j := s.jobs[0];
      s.(jobs := s.jobs[1..], started := s.started + [j], out := Script(j),
         receiving := if j.task.TaskUpload? then Some(FileTransfer.START) else None)
    case ServerSends => s.(out := s.out[1..], s2c := s.s2c + [s.out[0]])
    case ServerReceives =>
      var r := FileTransfer.OnMessage(s.receiving.value, s.c2s[0], s.started[|s.started| - 1].target);
      s.(c2s := s.c2s[1..],
         receiving := if r.Ended() then None else Some(r),
         received := if r.Ended() then s.received + [r] else s.received)
    case ClientReceives(d) => s.(s2c := s.s2c[1..], client := OnMessage(s.client, s.s2c[0]), clientOut := d)
    case ClientSends => s.(clientOut := s.clientOut[1..], c2s := s.c2s + [s.clientOut[0]])
  }

  function Begin(jobs: seq<Job>, c: Client): Session {
    Session(jobs, [], [], None, [], [], [], c, [])
  }

  /** The session after the moves; None when one of them was not possible. */
  function Run(start: Session, moves: seq<Move>): Option<Session> {
    if moves == [] then Some(start)
    else
      var last := |moves| - 1;
      match Run(start, moves[..last])
      case Some(s) => if Enabled(s, moves[last]) then Some(Next(s, moves[last])) else None
      case None => None
  }

  // ----- the invariant -----

  /** The client after the given tasks, all in step. */
  function AfterJobs(c: Client, js: seq<Job>): Client
    decreases |js|
  {
    if js == [] then c else AfterJob(AfterJobs(c, js[..|js| - 1]), js[|js| - 1])
  }

  /** The job is valid and good for the client as it is when the job starts; the name of an uploaded file
      also fits the header. */
  predicate Startable(c: Client, j: Job) {
    && ValidJob(j) && Good(j, c)
    && (j.task.TaskUpload? ==> |FileName(UploadPath(j))| < FILE_HEADER_NAME_SIZE)
  }

  /** Each job is startable once those before it are done. */
  predicate AllStartable(c: Client, js: seq<Job>) {
    forall i :: 0 <= i < |js| ==> Startable(AfterJobs(c, js[..i]), js[i])
  }

  lemma StartableAt(c: Client, before: seq<Job>, j: Job, after: seq<Job>)
    requires AllStartable(c, before + [j] + after)
    ensures Startable(AfterJobs(c, before), j)
  {
    hide Startable, AfterJobs;
    var js := before + [j] + after;
    assert js[..|before|] == before && js[|before|] == j;
  }

  lemma IdleAfterJobs(c: Client, js: seq<Job>)
    requires c.phase == Idle
    ensures AfterJobs(c, js).phase == Idle
  {
  }

  function SentBy(log: seq<Effect>): seq<(CString, seq<uint8>)> {
    if log == [] then []
    else
      var e := log[|log| - 1];
      SentBy(log[..|log| - 1]) + if e.Sent? then [(e.sentName, e.sentContent)] else []
  }

  function Contents(rs: seq<FileTransfer.Receiver>): seq<(CString, seq<uint8>)> {
    if rs == [] then []
    else Contents(rs[..|rs| - 1]) + [(rs[|rs| - 1].name, rs[|rs| - 1].got)]
  }

  predicate IsUploadStart(m: Message) {
    m.body.TaskStatus? && m.body.taskStatus == TASK_STATUS_EXECUTING && m.body.task.TaskUpload?
  }

  predicate NoUploads(ms: seq<Message>) {
    forall m :: m in ms ==> !IsUploadStart(m)
  }

  /** What the client will have got once it has consumed everything on its way and still to be sent. */
  function Ahead(s: Session): seq<Message> {
    s.s2c + s.out
  }

  /** The server is receiving an upload for the last task it started: either the start of it is the last
      message ahead of the client, or nothing is ahead any more and what the client has sent and will send
      is exactly what completes the upload. */
  predicate UploadRuns(j: Job, client: Client, ahead: seq<Message>, r: FileTransfer.Receiver,
                       received: seq<FileTransfer.Receiver>, u: seq<Message>) {
    && j.task.TaskUpload? && TaskFieldsFit(j.task) && !r.Ended()
    && if ahead != [] then
         && r == FileTransfer.START && u == []
         && ahead[|ahead| - 1] == Executing(j.task) && NoUploads(ahead[..|ahead| - 1])
         && SentBy(client.log) == Contents(received)
       else
         var (end, n) := FileTransfer.Outcome(r, u, j.target);
         && end.stage == FileTransfer.Done && n == |u|
         && SentBy(client.log) == Contents(received) + [(end.name, end.got)]
  }

  predicate Coherent(c0: Client, jobs: seq<Job>, started: seq<Job>, client: Client, ahead: seq<Message>,
                     receiving: Option<FileTransfer.Receiver>, received: seq<FileTransfer.Receiver>, u: seq<Message>) {
    && AllStartable(c0, started + jobs)
    && Fold(client, ahead) == AfterJobs(c0, started)
    && match receiving
       case Some(r) => started != [] && UploadRuns(started[|started| - 1], client, ahead, r, received, u)
       case None => u == [] && NoUploads(ahead) && SentBy(client.log) == Contents(received)
  }

  /** Wherever the two sides are, what is ahead of the client brings it to where all started tasks are done. */
  predicate Synchronous(c0: Client, s: Session) {
    Coherent(c0, s.jobs, s.started, s.client, Ahead(s), s.receiving, s.received, s.c2s + s.clientOut)
  }

  lemma FoldStopped(c: Client, ms: seq<Message>)
    requires c.phase == Stopped
    ensures Fold(c, ms) == c
    decreases |ms|
  {
    if ms != [] {
      FoldStopped(c, ms[1..]);
    }
  }

  lemma SentByAppend(log: seq<Effect>, e: Effect)
    ensures SentBy(log + [e]) == SentBy(log) + if e.Sent? then [(e.sentName, e.sentContent)] else []
  {
  }

  /** A message adds at most one entry to the log, and a sent file only when it starts an upload. */
  lemma LogStep(c: Client, m: Message)
    ensures var log := OnMessage(c, m).log;
            if StartsUpload(c, m) then
              var p := CStr(m.body.task.userFilepath);
              log == c.log + [Sent(FileName(p), c.files[p])]
            else log == c.log || (log == c.log + [log[|log| - 1]] && !log[|log| - 1].Sent?)
  {
    hide CStr, FileName, FileTransfer.OnMessage, StringTransfer.OnMessage;
  }

  lemma SentByStep(c: Client, m: Message)
    ensures SentBy(OnMessage(c, m).log)
         == SentBy(c.log) + if StartsUpload(c, m)
                            then [(FileName(CStr(m.body.task.userFilepath)), c.files[CStr(m.body.task.userFilepath)])]
                            else []
  {
    hide CStr, FileName, OnMessage, SentBy;
    LogStep(c, m);
    var log := OnMessage(c, m).log;
    if log != c.log {
      SentByAppend(c.log, log[|log| - 1]);
    }
  }

  lemma AfterJobsSnoc(c: Client, js: seq<Job>, j: Job)
    ensures AfterJobs(c, js + [j]) == AfterJob(AfterJobs(c, js), j)
  {
    hide AfterJob;
    assert (js + [j])[..|js|] == js;
  }

  lemma StartKeeps(c0: Client, jobs: seq<Job>, started: seq<Job>, client: Client, ahead: seq<Message>,
                   received: seq<FileTransfer.Receiver>)
    requires c0.phase == Idle && jobs != [] && TaskFieldsFit(jobs[0].task)
    requires Coherent(c0, jobs, started, client, ahead, None, received, [])
    ensures Coherent(c0, jobs[1..], started + [jobs[0]], client, ahead + Script(jobs[0]),
                     if jobs[0].task.TaskUpload? then Some(FileTransfer.START) else None, received, [])
  {
    hide Script, Fold, FileTransfer.Outcome, AfterJob, AfterJobs, AllStartable, Startable, SentBy, Contents,
      NoUploads, Executing;
    var j := jobs[0];
    var c := AfterJobs(c0, started);
    assert started + jobs == started + [j] + jobs[1..];
    StartableAt(c0, started, j, jobs[1..]);
    IdleAfterJobs(c0, started);
    StartsWell(c, j);
    FoldAppend(client, ahead, Script(j));
    AfterJobsSnoc(c0, started, j);
    NoUploadsAppend(ahead, Script(j));
    if j.task.TaskUpload? {
      assert (ahead + Script(j))[..|ahead|] == ahead;
    }
  }

  lemma NoUploadsAppend(a: seq<Message>, b: seq<Message>)
    ensures NoUploads(a + b) <==> NoUploads(a) && NoUploads(b)
  {
    assert forall m :: m in a + b <==> m in a || m in b;
  }

  lemma JobInStep(c0: Client, s: Session)
    requires c0.phase == Idle
    requires Synchronous(c0, s) && Enabled(s, ServerStarts)
    ensures Synchronous(c0, Next(s, ServerStarts))
  {
    hide Coherent, ValidJob, Script;
    var j := s.jobs[0];
    assert TaskFieldsFit(j.task) by { FitsWhenValid(j); }
    var r := Next(s, ServerStarts);
    assert s.c2s + s.clientOut == [] by { NotReceiving(c0, s); }
    StartKeeps(c0, s.jobs, s.started, s.client, Ahead(s), s.received);
    assert Ahead(s) + Script(j) == Ahead(r);
  }

  lemma FitsWhenValid(j: Job)
    requires ValidJob(j)
    ensures TaskFieldsFit(j.task)
  {
  }

  lemma NotReceiving(c0: Client, s: Session)
    requires Synchronous(c0, s) && s.receiving == None
    ensures s.c2s + s.clientOut == []
  {
  }

  lemma StartsWell(c: Client, j: Job)
    requires c.phase == Idle && Startable(c, j)
    ensures Fold(c, Script(j)) == AfterJob(c, j)
    ensures if j.task.TaskUpload? then Script(j) == [Executing(j.task)] else NoUploads(Script(j))
  {
    hide ValidJob, Good, Script, Fold, AfterJob;
    GoodJobRun(c, j);
    ScriptUploads(j);
  }

  lemma GoodJobRun(c: Client, j: Job)
    requires c.phase == Idle && ValidJob(j) && Good(j, c)
    ensures Fold(c, Script(j)) == AfterJob(c, j)
  {
    hide Fold, Script, ValidJob;
    match j.task
    case TaskUsers(_, _) => ListJobRun(c, j);
    case TaskFiles => ListJobRun(c, j);
    case TaskRemove(_, _) => ShortJobRun(c, j);
    case TaskUpload(_, _) => ShortJobRun(c, j);
    case TaskDownload(_, _) => DownloadJobRun(c, j);
  }

  lemma DownloadJobRun(c: Client, j: Job)
    requires c.phase == Idle && ValidJob(j) && Good(j, c) && j.task.TaskDownload?
    ensures Fold(c, Script(j)) == AfterJob(c, j)
  {
    hide Fold, Script, AfterJob;
    if j.reply[0].body.ok {
      DownloadRun(c, j);
    } else {
      ShortJobRun(c, j);
    }
  }

  /** The script of a task starts an upload only when the task is one, and then it is nothing else. */
  lemma ScriptUploads(j: Job)
    requires ValidJob(j)
    ensures if j.task.TaskUpload? then Script(j) == [Executing(j.task)] else NoUploads(Script(j))
  {
    hide WellFormed;
    match j.task
    case TaskUsers(_, _) => ListHasNoUploads(j.lines);
    case TaskFiles => ListHasNoUploads(j.lines);
    case TaskDownload(_, _) =>
      if j.reply[0].body.ok && j.serverOpens {
        DialogueHasNoUploads(j.reply[1..], j.name, j.content);
        assert j.reply == [j.reply[0]] + j.reply[1..];
      }
    case _ =>
  }

  lemma ListHasNoUploads(lines: seq<CString>)
    requires StringTransfer.Sendable(lines)
    ensures NoUploads(StringTransfer.ListMessages(lines))
  {
    hide WellFormed;
    StringsHaveNoUploads(lines);
  }

  lemma {:induction false} StringsHaveNoUploads(lines: seq<CString>)
    requires StringTransfer.Sendable(lines)
    ensures NoUploads(StringTransfer.StringMessages(lines))
  {
    hide WellFormed;
    if lines != [] {
      StringsHaveNoUploads(lines[1..]);
    }
  }

  lemma DialogueHasNoUploads(d: seq<Message>, name: CString, content: seq<uint8>)
    requires FileTransfer.IsFileDialogue(d, name, content)
    ensures NoUploads(d)
  {
    hide WellFormed, CStr, FileTransfer.Payload;
    forall i | 0 <= i < |d|
      ensures !IsUploadStart(d[i])
    {
      if 0 < i < |d| - 1 {
        assert d[i] in d[1..|d| - 1] && FileTransfer.IsBlock(d[i]);
      }
    }
  }

  lemma SendsInStep(c0: Client, s: Session, v: Move)
    requires Synchronous(c0, s) && Enabled(s, v) && (v.ServerSends? || v.ClientSends?)
    ensures Synchronous(c0, Next(s, v))
  {
    hide Coherent;
    var r := Next(s, v);
    assert r.c2s + r.clientOut == s.c2s + s.clientOut;
    assert Ahead(r) == Ahead(s);
  }

  lemma ServerReceivesInStep(c0: Client, s: Session)
    requires Synchronous(c0, s) && Enabled(s, ServerReceives)
    ensures Synchronous(c0, Next(s, ServerReceives))
  {
    hide Fold, FileTransfer.Outcome, FileTransfer.OnMessage, AllStartable, SentBy, AfterJobs;
    var r, j := s.receiving.value, s.started[|s.started| - 1];
    var m, next := s.c2s[0], Next(s, ServerReceives);
    var rest := next.c2s + next.clientOut;
    assert Ahead(next) == Ahead(s) == [];
    assert s.c2s + s.clientOut == [m] + rest;
    FileTransfer.OutcomeStep(r, m, rest, j.target);
    var r' := FileTransfer.OnMessage(r, m, j.target);
    FileTransfer.EndedOutcome(r', rest, j.target);
    if r'.Ended() {
      assert next.received[..|next.received| - 1] == s.received;
    }
  }

  lemma FollowKeeps(c0: Client, jobs: seq<Job>, started: seq<Job>, client: Client, m: Message, rest: seq<Message>,
                    receiving: Option<FileTransfer.Receiver>, received: seq<FileTransfer.Receiver>, u: seq<Message>)
    requires Coherent(c0, jobs, started, client, [m] + rest, receiving, received, u) && !IsUploadStart(m)
    ensures Coherent(c0, jobs, started, OnMessage(client, m), rest, receiving, received, u)
  {
    hide Fold, FileTransfer.Outcome, AllStartable, SentBy, Contents, AfterJobs, OnMessage;
    FoldCons(client, m, rest);
    SentByStep(client, m);
    match receiving
    case Some(r) => LastAhead(started[|started| - 1].task, [m] + rest, m, rest);
    case None => assert forall x :: x in rest ==> x in [m] + rest;
  }

  /** A message that starts no upload. */
  lemma ClientFollowsInStep(c0: Client, s: Session)
    requires Synchronous(c0, s) && Enabled(s, ClientReceives([])) && !IsUploadStart(s.s2c[0])
    ensures Synchronous(c0, Next(s, ClientReceives([])))
  {
    hide Coherent, OnMessage;
    var m, next := s.s2c[0], Next(s, ClientReceives([]));
    assert Ahead(s) == [m] + Ahead(next);
    FollowKeeps(c0, s.jobs, s.started, s.client, m, Ahead(next), s.receiving, s.received, s.c2s + s.clientOut);
    assert next.c2s + next.clientOut == s.c2s + s.clientOut;
  }

  lemma LastAhead(t: TaggedTask, ahead: seq<Message>, m: Message, rest: seq<Message>)
    requires t.TaskUpload? && TaskFieldsFit(t)
    requires ahead == [m] + rest && !IsUploadStart(m)
    requires ahead[|ahead| - 1] == Executing(t) && NoUploads(ahead[..|ahead| - 1])
    ensures rest != [] && rest[|rest| - 1] == Executing(t) && NoUploads(rest[..|rest| - 1])
  {
    hide WellFormed, Executing;
    assert IsUploadStart(Executing(t)) && ahead[0] == m;
    assert forall i :: 0 <= i < |rest| - 1 ==> rest[i] == ahead[..|ahead| - 1][i + 1];
  }

  /** The message that starts an upload: it is the last one, the client can read the file, and what it will
      send is what completes the upload. */
  lemma UploadKeeps(c0: Client, jobs: seq<Job>, started: seq<Job>, client: Client, m: Message, rest: seq<Message>,
                    receiving: Option<FileTransfer.Receiver>, received: seq<FileTransfer.Receiver>, u: seq<Message>,
                    d: seq<Message>)
    requires c0.phase == Idle
    requires Coherent(c0, jobs, started, client, [m] + rest, receiving, received, u) && IsUploadStart(m)
    requires StartsUpload(client, m) ==>
               var p := CStr(m.body.task.userFilepath); FileTransfer.IsFileDialogue(d, FileName(p), client.files[p])
    ensures u == [] && Coherent(c0, jobs, started, OnMessage(client, m), rest, receiving, received, d)
  {
    hide Fold, FileTransfer.Outcome, SentBy, Contents, CStr, FileName, FileTransfer.IsFileDialogue, OnMessage, AfterJobs,
      AfterJob, Startable, AllStartable, Good;
    OnlyTheLast([m] + rest, m, rest);
    var j := started[|started| - 1];
    assert m == Executing(j.task) by { assert ([m] + rest)[0] == m; }
    FoldCons(client, m, []);
    FoldNothing(OnMessage(client, m));
    LastStartable(c0, started, jobs);
    UploadBegins(c0, started, client, m);
    SentByStep(client, m);
    UploadCompletes(client, j, d);
  }

  lemma ClientStartsUploadInStep(c0: Client, s: Session, d: seq<Message>)
    requires c0.phase == Idle
    requires Synchronous(c0, s) && Enabled(s, ClientReceives(d)) && IsUploadStart(s.s2c[0])
    ensures Synchronous(c0, Next(s, ClientReceives(d)))
  {
    hide Coherent, OnMessage, CStr, FileName, FileTransfer.IsFileDialogue;
    var m, next := s.s2c[0], Next(s, ClientReceives(d));
    assert Ahead(s) == [m] + Ahead(next);
    UploadKeeps(c0, s.jobs, s.started, s.client, m, Ahead(next), s.receiving, s.received, s.c2s + s.clientOut, d);
    assert next.c2s + next.clientOut == d by { assert s.c2s == []; }
  }

  lemma OnlyTheLast(ahead: seq<Message>, m: Message, rest: seq<Message>)
    requires ahead == [m] + rest && IsUploadStart(m)
    ensures NoUploads(ahead) ==> false
    ensures NoUploads(ahead[..|ahead| - 1]) ==> rest == []
  {
    assert ahead[0] == m;
    if rest != [] {
      assert ahead[..|ahead| - 1][0] == m;
    }
  }

  lemma LastStartable(c0: Client, started: seq<Job>, jobs: seq<Job>)
    requires started != [] && AllStartable(c0, started + jobs)
    ensures Startable(AfterJobs(c0, started[..|started| - 1]), started[|started| - 1])
  {
    hide Startable, AfterJobs, AllStartable;
    var front, j := started[..|started| - 1], started[|started| - 1];
    assert started + jobs == front + [j] + jobs;
    StartableAt(c0, front, j, jobs);
  }

  lemma UploadBegins(c0: Client, started: seq<Job>, client: Client, m: Message)
    requires started != [] && Startable(AfterJobs(c0, started[..|started| - 1]), started[|started| - 1])
    requires var j := started[|started| - 1]; j.task.TaskUpload? && TaskFieldsFit(j.task) && m == Executing(j.task)
    requires OnMessage(client, m) == AfterJobs(c0, started)
    ensures StartsUpload(client, m) && Good(started[|started| - 1], client)
  {
    hide OnMessage, ValidJob;
    var front, j := started[..|started| - 1], started[|started| - 1];
    SentLast(AfterJobs(c0, front), j, client, m);
  }

  lemma UploadCompletes(c: Client, j: Job, d: seq<Message>)
    requires j.task.TaskUpload? && TaskFieldsFit(j.task) && CanRead(c, UploadPath(j)) && Good(j, c)
    requires FileTransfer.IsFileDialogue(d, FileName(UploadPath(j)), c.files[UploadPath(j)])
    ensures var (r, n) := FileTransfer.Outcome(FileTransfer.START, d, j.target);
            && r.stage == FileTransfer.Done && n == |d|
            && r.name == FileName(UploadPath(j)) && r.got == c.files[UploadPath(j)]
  {
    hide FileTransfer.Outcome, FileTransfer.IsFileDialogue, CStr, FileName;
    FileTransfer.FileRoundTrip(d, FileName(UploadPath(j)), c.files[UploadPath(j)], [], j.target);
    assert d + [] == d;
  }

  lemma IdleBefore(client: Client, m: Message)
    requires IsUploadStart(m)
    requires var r := OnMessage(client, m); r.phase == Idle && r.log != [] && r.log[|r.log| - 1].Sent?
    ensures client.phase == Idle
  {
    hide CStr, FileName, FileTransfer.OnMessage, StringTransfer.OnMessage, BeginTask;
  }

  lemma SentAfter(c: Client, j: Job)
    requires j.task.TaskUpload? && CanRead(c, UploadPath(j))
    ensures var r := AfterJob(c, j);
            r.phase == Idle && r.log != [] && r.log[|r.log| - 1].Sent? && r.files == c.files && r.unreadable == c.unreadable
  {
    hide CStr, FileName;
  }

  /** A client that ends up having sent a file was idle and could read it. */
  lemma SentLast(c: Client, j: Job, client: Client, m: Message)
    requires j.task.TaskUpload? && TaskFieldsFit(j.task) && CanRead(c, UploadPath(j)) && m == Executing(j.task)
    requires OnMessage(client, m) == AfterJob(c, j)
    ensures StartsUpload(client, m) && client.files == c.files && client.unreadable == c.unreadable
  {
    hide CStr, FileName, FileTransfer.OnMessage, StringTransfer.OnMessage, AfterJob;
    SentAfter(c, j);
    IdleBefore(client, m);
  }

  lemma FoldNothing(c: Client)
    ensures Fold(c, []) == c
  {
  }

  // ----- whole sessions -----

  lemma StepInStep(c0: Client, s: Session, v: Move)
    requires c0.phase == Idle
    requires Synchronous(c0, s) && Enabled(s, v)
    ensures Synchronous(c0, Next(s, v))
    ensures Next(s, v).started + Next(s, v).jobs == s.started + s.jobs
  {
    hide Synchronous, CStr, FileName, FileTransfer.IsFileDialogue, OnMessage, FileTransfer.OnMessage, Script, ValidJob;
    match v
    case ServerStarts =>
      JobInStep(c0, s);
      assert s.jobs == [s.jobs[0]] + s.jobs[1..];
    case ServerReceives => ServerReceivesInStep(c0, s);
    case ClientReceives(d) =>
      if IsUploadStart(s.s2c[0]) {
        ClientStartsUploadInStep(c0, s, d);
      } else {
        ClientFollowsInStep(c0, s);
      }
    case _ => SendsInStep(c0, s, v);
  }

  /** A client at the start of a session: idle, nothing done yet. */
  predicate Fresh(c: Client) {
    c.phase == Idle && c.log == []
  }

  lemma {:induction false} SessionInStep(jobs: seq<Job>, c0: Client, moves: seq<Move>)
    requires Fresh(c0) && AllStartable(c0, jobs)
    requires Run(Begin(jobs, c0), moves).Some?
    ensures var s := Run(Begin(jobs, c0), moves).value;
            Synchronous(c0, s) && s.started + s.jobs == jobs
  {
    hide Enabled, Next, Synchronous;
    if moves == [] {
      SynchronousAtStart(jobs, c0);
    } else {
      var last := |moves| - 1;
      SessionInStep(jobs, c0, moves[..last]);
      StepInStep(c0, Run(Begin(jobs, c0), moves[..last]).value, moves[last]);
    }
  }

  lemma SynchronousAtStart(jobs: seq<Job>, c0: Client)
    requires Fresh(c0) && AllStartable(c0, jobs)
    ensures Synchronous(c0, Begin(jobs, c0))
  {
    hide AllStartable;
    assert [] + jobs == jobs;
  }

  /** Both sides idle, nothing left to do and nothing left on the way. */
  predicate Finished(s: Session) {
    && s.jobs == [] && s.out == [] && s.receiving == None
    && s.s2c == [] && s.c2s == [] && s.clientOut == [] && s.client.phase == Idle
  }

  /** A session in step either can go on or has finished. */
  lemma StuckMeansFinished(jobs: seq<Job>, c0: Client, s: Session)
    requires Fresh(c0) && Synchronous(c0, s) && s.started + s.jobs == jobs
    ensures (exists v :: Enabled(s, v))
            || (Finished(s) && s.client == AfterJobs(c0, jobs) && Contents(s.received) == SentBy(s.client.log))
  {
    hide Synchronous, Fresh, Finished, AfterJobs, SentBy, Contents, FileTransfer.IsFileDialogue, ValidJob;
    if !exists v :: Enabled(s, v) {
      assert !Enabled(s, ServerStarts) && !Enabled(s, ServerSends);
      assert !Enabled(s, ServerReceives) && !Enabled(s, ClientSends);
      if s.s2c == [] {
        QuietMeansFinished(jobs, c0, s);
      } else {
        NothingOnTheWay(c0, s);
      }
    }
  }

  /** However the moves interleave, a session either can go on or has finished; when it has, the client got
      for every task exactly what the server replied, and the server got exactly the files the client sent. */
  lemma SessionCompletes(jobs: seq<Job>, c0: Client, moves: seq<Move>)
    requires Fresh(c0) && AllStartable(c0, jobs)
    requires Run(Begin(jobs, c0), moves).Some?
    ensures var s := Run(Begin(jobs, c0), moves).value;
            || (exists v :: Enabled(s, v))
            || (Finished(s) && s.client == AfterJobs(c0, jobs) && Contents(s.received) == SentBy(s.client.log))
  {
    hide Run, Synchronous, AllStartable, Fresh, Finished, AfterJobs, SentBy, Contents, Enabled;
    SessionInStep(jobs, c0, moves);
    StuckMeansFinished(jobs, c0, Run(Begin(jobs, c0), moves).value);
  }

  lemma NotStopped(c0: Client, s: Session)
    requires Fresh(c0) && Synchronous(c0, s)
    ensures s.client.phase != Stopped
  {
    hide Fold, AfterJobs, AllStartable, UploadRuns, NoUploads, SentBy, Contents;
    IdleAfterJobs(c0, s.started);
    if s.client.phase == Stopped {
      FoldStopped(s.client, Ahead(s));
    }
  }

  /** A message on its way that starts an upload announces the last task started, whose file has a name that
      fits the header. */
  lemma UploadOnTheWay(c0: Client, s: Session)
    requires Synchronous(c0, s) && s.s2c != [] && IsUploadStart(s.s2c[0])
    ensures |FileName(CStr(s.s2c[0].body.task.userFilepath))| < FILE_HEADER_NAME_SIZE
  {
    hide Fold, AfterJobs, AllStartable, CStr, FileName, FileTransfer.Outcome, SentBy, Contents, ValidJob, Good, NoUploads;
    var m, rest := s.s2c[0], Ahead(s)[1..];
    assert Ahead(s) == [m] + rest;
    OnlyTheLast(Ahead(s), m, rest);
    LastStartable(c0, s.started, s.jobs);
    assert m == Executing(s.started[|s.started| - 1].task);
  }

  /** The client can always take a message that is on its way. */
  lemma NothingOnTheWay(c0: Client, s: Session)
    requires Fresh(c0) && Synchronous(c0, s) && s.clientOut == [] && s.s2c != []
    ensures exists v :: Enabled(s, v)
  {
    hide OnMessage, CStr, FileName, FileTransfer.IsFileDialogue, Synchronous, Fresh;
    NotStopped(c0, s);
    var m := s.s2c[0];
    if StartsUpload(s.client, m) {
      var p := CStr(m.body.task.userFilepath);
      UploadOnTheWay(c0, s);
      var d := FileTransfer.DialogueExists(FileName(p), s.client.files[p]);
      assert Enabled(s, ClientReceives(d));
    } else {
      assert Enabled(s, ClientReceives([]));
    }
  }

  lemma QuietMeansFinished(jobs: seq<Job>, c0: Client, s: Session)
    requires Fresh(c0) && Synchronous(c0, s) && s.started + s.jobs == jobs
    requires s.s2c == [] && s.clientOut == [] && s.out == []
    requires !Enabled(s, ServerStarts) && !Enabled(s, ServerReceives)
    ensures Finished(s) && s.client == AfterJobs(c0, jobs) && Contents(s.received) == SentBy(s.client.log)
  {
    hide SentBy, Contents, ValidJob, Good, AfterJobs;
    IdleAfterJobs(c0, s.started);
    FoldNothing(s.client);
    if s.jobs != [] {
      assert jobs == s.started + [s.jobs[0]] + s.jobs[1..];
      StartableAt(c0, s.started, s.jobs[0], s.jobs[1..]);
    }
    assert s.receiving == None;
    assert s.started + [] == s.started;
  }

  /** Closer to the end, in the lexicographic order of: tasks not started, messages the server has to send,
      messages to the client, messages the client has to send, messages to the server. */
  predicate Closer(r: Session, s: Session) {
    || |r.jobs| < |s.jobs|
    || (|r.jobs| == |s.jobs| &&
        (|| |r.out| < |s.out|
         || (|r.out| == |s.out| &&
             (|| |r.s2c| < |s.s2c|
              || (|r.s2c| == |s.s2c| &&
                  (|| |r.clientOut| < |s.clientOut|
                   || (|r.clientOut| == |s.clientOut| && |r.c2s| < |s.c2s|)))))))
  }

  /** Every move brings the session closer to its end. So no run goes on forever. */
  lemma EveryMoveCounts(s: Session, v: Move)
    requires Enabled(s, v)
    ensures Closer(Next(s, v), s)
  {
    hide OnMessage, CStr, FileName, FileTransfer.IsFileDialogue, FileTransfer.OnMessage, ValidJob, Script;
  }
}
