/** The server's handlers of the tasks: what each one does to the registry, and that what it sends is a
    reply the client's side of the task is made for. */
module ServerTasks {
  import opened Bytes
  import opened Codec
  import opened Constructors
  import opened Messages
  import opened NetCommunication
  import opened Records
  import opened Registry
  import opened Servers
  import opened Storage
  import FileTransfer
  import Listings
  import StringTransfer
  import TaskSession

  /** The connection shares no object with the server's lists and disk. */
  ghost predicate Apart(server: Server, conn: NetworkConnection)
    reads server.clientList, server.clientList.list, server.fileList, server.fileList.list
  {
    && server.disk !in conn.Repr
    && server.clientList !in conn.Repr && server.clientList.list !in conn.Repr
    && server.fileList !in conn.Repr && server.fileList.list !in conn.Repr
    && server.clientList.it !in conn.Repr
    && (forall n :: n in server.clientList.list.nodes ==> n !in conn.Repr)
    && (forall n :: n in server.fileList.list.nodes ==> n !in conn.Repr)
  }

  /** Some formatted text of a status or notification. */
  method Formatted() returns (text: CString)
  {
    text := *;
  }

  method SendStatus(conn: NetworkConnection, ok: bool) returns (m: Message)
    requires conn.Valid()
    modifies conn.Repr
    ensures conn.Valid() && conn.inbox == old(conn.inbox) && conn.tail == old(conn.tail)
    ensures conn.outbox == old(conn.outbox) + [m]
    ensures WellFormed(m) && m.body.Status? && m.body.ok == ok
  {
    var text := Formatted();
    m := CreateStatus(ok, Some(text));
    conn.SendMessage(m);
  }

  predicate IsNotice(m: Message) {
    WellFormed(m) && m.body.ServerNotification?
  }

  /** A notification for a broadcast. */
  method Notification() returns (m: Message)
    ensures IsNotice(m)
  {
    var text := Formatted();
    var now: uint64 := *;
    var memory := new uint8[MAX_CHAT_TEXT_BYTES];
    m := CreateServerNotification(Some(text), now, ServerNotification(now, memory[..]));
  }

  // ----- upload -----

  /** Reads the next id, receives the file under that id, and then adds a file to the list. */
  method UploadFile(server: Server, conn: NetworkConnection, clientId: uint32, uploadName: CString)
    returns (err: Option<Error>, notice: Option<Message>, ghost r: FileTransfer.Receiver, ghost n: nat)
    requires server.Valid() && conn.Valid() && Apart(server, conn)
    modifies conn.Repr, server.disk, server.fileList, server.fileList.list, server.fileList.list.nodes
    ensures server.Valid() && conn.Valid() && conn.outbox == old(conn.outbox)
    ensures (r, n) == FileTransfer.Outcome(FileTransfer.START, old(conn.inbox), UploadTarget(old(server.Model()), server.disk.unwritable))
    ensures conn.inbox == old(conn.inbox)[n..]
    ensures err == FileTransfer.StatusOf(r)
    ensures server.Model() == Uploaded(old(server.Model()), clientId, uploadName, r)
    ensures notice.Some? == (r.stage == FileTransfer.Done) && (notice.Some? ==> IsNotice(notice.value))
  {
    hide conn.Valid, server.clientList.Valid, server.fileList.Valid, server.clientList.Clients, server.fileList.Files,
      FileTransfer.Outcome, Decimal, IsNotice;
    ghost var s := server.Model();
    var id := server.NextFileId();
    var fileName := Decimal(id);
    var name, size;
    err, name, size, r, n := FileTransfer.ReceiveFile(conn, server.disk, Some(UPLOADS), fileName);
    FileTransfer.DoneIsCreated(FileTransfer.START, old(conn.inbox), UploadTarget(s, server.disk.unwritable));
    assert UploadTarget(s, server.disk.unwritable).PathFor(r.name) == FilePath(id);
    assert server.Model() == s.(disk := server.disk.files);
    notice := None;
    if err != None {
      return;
    }
    server.AddUploadedFile(clientId, id, uploadName, size.value);
    var m := Notification();
    notice := Some(m);
  }

  /** Where an upload goes: under the decimal of the id that is next when it begins. */
  function UploadTarget(s: Store, unwritable: set<Path>): FileTransfer.Target {
    FileTransfer.Target(Some(UPLOADS), Decimal(s.filesAdded % TWO_TO_THE_32), unwritable)
  }

  /** The registry after an upload: the file joins the list when the receiver has finished. */
  function Uploaded(s: Store, owner: uint32, name: CString, r: FileTransfer.Receiver): Store {
    var id := s.filesAdded % TWO_TO_THE_32;
    if r.stage == FileTransfer.Done then AddUpload(s, owner, id, name, r.got, r.size)
    else if r.created then s.(disk := s.disk[FilePath(id) := r.got])
    else s
  }

  // ----- download -----

  /** Looks the file up by id or by its name, when that is the name of exactly one file. */
  method FindDownload(server: Server, name: CString, byId: bool) returns (file: Option<SharedFile>)
    requires server.Valid()
    ensures file == Resolve(server.Model(), name, byId)
  {
    hide Atoi, NameCount, NameIndex, FileIndex, FileIdsRise, ClientIdsRise;
    CountedIsIndexed(server.Model().files, name);
    var node := null;
    if byId {
      node := server.fileList.FindById(Atoi(name) % TWO_TO_THE_32);
    } else {
      var count := server.fileList.CountName(name);
      if count == 1 {
        node := server.fileList.FindByName(name);
      }
    }
    file := if node == null then None else Some(node.data);
  }

  method DownloadFile(server: Server, conn: NetworkConnection, name: CString, byId: bool)
    returns (ghost reply: seq<Message>)
    requires server.Valid() && conn.Valid() && Apart(server, conn)
    requires forall f :: f in server.Model().files ==> |f.name| < FILE_HEADER_NAME_SIZE
    modifies conn.Repr
    ensures conn.Valid() && conn.inbox == old(conn.inbox)
    ensures conn.outbox == old(conn.outbox) + reply
    ensures IsDownloadReply(server.Model(), server.disk.unreadable, name, byId, reply)
  {
    hide conn.Valid, server.Valid, server.Model, Resolve, FileTransfer.IsFileDialogue, WellFormed, FileName, IsDownloadReply;
    ghost var s := server.Model();
    var file := FindDownload(server, name, byId);
    ResolvedIsListed(s, name, byId);
    DiskOf(server);
    if file == None || file.value.path !in server.disk.files {
      var refusal := SendStatus(conn, false);
      reply := [refusal];
      RefusalReplies(s, server.disk.unreadable, name, byId, refusal);
      assert server.Model() == s;
      return;
    }
    var confirmation := SendStatus(conn, true);
    ghost var ms;
    var err;
    err, ms := FileTransfer.SendFile(server.disk, file.value.path, conn, Some(file.value.name));
    reply := [confirmation] + ms;
    FileReplies(s, server.disk.unreadable, name, byId, confirmation, ms);
    assert server.Model() == s;
  }

  lemma DiskOf(server: Server)
    ensures server.Model().disk == server.disk.files
  {
  }

  lemma RefusalReplies(s: Store, unreadable: set<Path>, name: CString, byId: bool, m: Message)
    requires WellFormed(m) && m.body.Status? && !m.body.ok
    requires var file := Resolve(s, name, byId); file == None || file.value.path !in s.disk
    ensures IsDownloadReply(s, unreadable, name, byId, [m])
  {
  }

  lemma FileReplies(s: Store, unreadable: set<Path>, name: CString, byId: bool, m: Message, ms: seq<Message>)
    requires WellFormed(m) && m.body.Status? && m.body.ok
    requires var file := Resolve(s, name, byId);
             && file.Some? && file.value.path in s.disk
             && if file.value.path in unreadable then ms == []
                else FileTransfer.IsFileDialogue(ms, file.value.name, s.disk[file.value.path])
    ensures IsDownloadReply(s, unreadable, name, byId, [m] + ms)
  {
    hide Resolve, FileTransfer.IsFileDialogue, WellFormed;
    assert ([m] + ms)[1..] == ms;
  }

  lemma ResolvedIsListed(s: Store, name: CString, byId: bool)
    ensures Resolve(s, name, byId).Some? ==> Resolve(s, name, byId).value in s.files
  {
    CountedIsIndexed(s.files, name);
  }

  /** A refusal, or a confirmation followed by the file: confirmed exactly when the request resolves to a
      file that is on the disk, and followed by it unless it cannot be read. */
  ghost predicate IsDownloadReply(s: Store, unreadable: set<Path>, name: CString, byId: bool, reply: seq<Message>) {
    && |reply| >= 1 && WellFormed(reply[0]) && reply[0].body.Status?
    && var file := Resolve(s, name, byId);
       && reply[0].body.ok == (file.Some? && file.value.path in s.disk)
       && if reply[0].body.ok && file.value.path !in unreadable
          then FileTransfer.IsFileDialogue(reply[1..], file.value.name, s.disk[file.value.path])
          else |reply| == 1
  }

  /** A download by a number no listed file has is answered by a single refusal. */
  lemma UnlistedIdRefused(s: Store, unreadable: set<Path>, name: CString, reply: seq<Message>)
    requires FileIdsRise(s.files, s.filesAdded) && forall f :: f in s.files ==> f.id != Atoi(name) % TWO_TO_THE_32
    requires IsDownloadReply(s, unreadable, name, true, reply)
    ensures |reply| == 1 && reply[0].body.Status? && !reply[0].body.ok
  {
    hide Atoi, FileIdsRise, Resolve;
    UnlistedIdResolvesToNothing(s, name);
  }

  // ----- remove -----

  /** The removal itself: the client's own files, or the one it names if it owns it. */
  method RemoveOwned(server: Server, clientId: uint32, fileId: uint32, removeAll: bool) returns (ok: bool)
    requires server.Valid() && server.fileList.added <= TWO_TO_THE_32
    modifies server.disk, server.fileList, server.fileList.list, server.fileList.list.nodes
    ensures server.Valid()
    ensures if removeAll
            then server.Model() == RemoveClientFiles(old(server.Model()), clientId).0
                 && ok == (RemoveClientFiles(old(server.Model()), clientId).1 > 0)
            else (server.Model(), ok) == RemoveOwn(old(server.Model()), clientId, fileId)
  {
    hide server.Valid, server.Model, FileIndex, RemoveEach, RemoveShared;
    ok := false;
    if removeAll {
      var removedCount := server.RemoveClientFiles(clientId);
      ok := removedCount > 0;
    } else {
      var file := server.FindFile(fileId);
      if file != None && file.value.clientId == clientId {
        ok := server.RemoveSharedFile(fileId);
      }
    }
  }

  method RemoveFiles(server: Server, conn: NetworkConnection, clientId: uint32, fileId: uint32, removeAll: bool)
    returns (notice: Option<Message>, ghost reply: seq<Message>)
    requires server.Valid() && conn.Valid() && Apart(server, conn) && server.fileList.added <= TWO_TO_THE_32
    modifies conn.Repr, server.disk, server.fileList, server.fileList.list, server.fileList.list.nodes
    ensures server.Valid() && conn.Valid() && conn.inbox == old(conn.inbox)
    ensures conn.outbox == old(conn.outbox) + reply
    ensures |reply| == 1 && WellFormed(reply[0]) && reply[0].body.Status?
    ensures notice.Some? == reply[0].body.ok && (notice.Some? ==> IsNotice(notice.value))
    ensures if removeAll
            then server.Model() == RemoveClientFiles(old(server.Model()), clientId).0
                 && reply[0].body.ok == (RemoveClientFiles(old(server.Model()), clientId).1 > 0)
            else (server.Model(), reply[0].body.ok) == RemoveOwn(old(server.Model()), clientId, fileId)
  {
    hide conn.Valid, server.Valid, server.Model, RemoveClientFiles, RemoveOwn, IsNotice;
    var ok := RemoveOwned(server, clientId, fileId, removeAll);
    var m := SendStatus(conn, ok);
    reply, notice := [m], None;
    if ok {
      var n := Notification();
      notice := Some(n);
    }
  }

  // ----- listings -----

  method ListUsers(server: Server, conn: NetworkConnection, showIp: bool, showId: bool)
    requires server.Valid() && conn.Valid() && Apart(server, conn) && Listings.FieldsFit(server.Model().clients, [])
    modifies conn.Repr, server.clientList.it
    ensures server.Valid() && conn.Valid() && conn.inbox == old(conn.inbox) && server.Model() == old(server.Model())
    ensures var lines := Listings.UserLines(server.Model().clients, showIp, showId);
            StringTransfer.Sendable(lines) && conn.outbox == old(conn.outbox) + StringTransfer.ListMessages(lines)
  {
    hide conn.Valid, server.Valid, server.Model, Listings.UserLines, StringTransfer.ListMessages, Listings.FieldsFit;
    var list := Listings.BuildUserLines(server, showIp, showId);
    Listings.UserLinesSendable(server.Model().clients, showIp, showId);
    StringTransfer.SendStringList(conn, list);
  }

  /** Dies, before it sends anything, exactly when a listed file has no listed owner. */
  method ListFiles(server: Server, conn: NetworkConnection) returns (alive: bool)
    requires server.Valid() && conn.Valid() && Apart(server, conn)
    requires Listings.FieldsFit(server.Model().clients, server.Model().files)
    modifies conn.Repr
    ensures server.Valid() && conn.Valid() && conn.inbox == old(conn.inbox) && server.Model() == old(server.Model())
    ensures alive == Listings.Owned(server.Model().files, server.Model().clients)
    ensures !alive ==> conn.outbox == old(conn.outbox)
    ensures alive ==>
              var lines := Listings.FileLines(server.Model().files, server.Model().clients);
              StringTransfer.Sendable(lines) && conn.outbox == old(conn.outbox) + StringTransfer.ListMessages(lines)
  {
    hide conn.Valid, server.Valid, server.Model, Listings.FileLines, Listings.Owned, StringTransfer.ListMessages;
    ghost var s := server.Model();
    var list;
    alive, list := Listings.BuildFileLines(server);
    if !alive {
      return;
    }
    Listings.FileLinesSendable(s.files, s.clients);
    StringTransfer.SendStringList(conn, list);
  }

  // ----- dispatch -----

  /** What the code takes for granted: names fit their fields, ids fit the file names. */
  predicate Sound(s: Store) {
    && s.filesAdded < MAX_FILE_ID
    && Listings.FieldsFit(s.clients, s.files)
    && forall f :: f in s.files ==> |f.name| < FILE_HEADER_NAME_SIZE
  }

  /** The registry after a task of a listed client, given the messages the client sends. */
  function Executed(s: Store, clientId: uint32, task: TaggedTask, inbox: seq<Message>, unwritable: set<Path>): Store {
    match task
    case TaskUpload(name, _) =>
      Uploaded(s, clientId, CStr(name), FileTransfer.Outcome(FileTransfer.START, inbox, UploadTarget(s, unwritable)).0)
    case TaskRemove(fileId, removeAll) =>
      if removeAll then RemoveClientFiles(s, clientId).0 else RemoveOwn(s, clientId, fileId).0
    case _ => s
  }

  /** The task is announced to the other clients: an upload that finished, a removal that removed something. */
  predicate Announced(s: Store, clientId: uint32, task: TaggedTask, inbox: seq<Message>, unwritable: set<Path>) {
    match task
    case TaskUpload(_, _) => FileTransfer.Outcome(FileTransfer.START, inbox, UploadTarget(s, unwritable)).0.stage == FileTransfer.Done
    case TaskRemove(fileId, removeAll) =>
      if removeAll then RemoveClientFiles(s, clientId).1 > 0 else RemoveOwn(s, clientId, fileId).1
    case _ => false
  }

  /** A task is announced if and only if it changes the list of files. */
  lemma AnnouncedIffChanged(s: Store, clientId: uint32, task: TaggedTask, inbox: seq<Message>, unwritable: set<Path>)
    requires FileIdsRise(s.files, s.filesAdded)
    ensures Announced(s, clientId, task, inbox, unwritable) <==> Executed(s, clientId, task, inbox, unwritable).files != s.files
  {
    hide FileIdsRise, FileTransfer.Outcome, RemoveEach, RemoveOwn, CStr;
    match task
    case TaskUpload(_, _) =>
      var r := FileTransfer.Outcome(FileTransfer.START, inbox, UploadTarget(s, unwritable)).0;
      if r.stage == FileTransfer.Done {
        assert |Executed(s, clientId, task, inbox, unwritable).files| == |s.files| + 1;
      }
    case TaskRemove(fileId, removeAll) =>
      if removeAll {
        CountedIsChanged(s, Some(clientId));
      } else {
        OneRemovedIsChanged(s, clientId, fileId);
      }
    case _ =>
  }

  lemma OneRemovedIsChanged(s: Store, clientId: uint32, fileId: uint32)
    requires FileIdsRise(s.files, s.filesAdded)
    ensures RemoveOwn(s, clientId, fileId).1 <==> RemoveOwn(s, clientId, fileId).0.files != s.files
  {
    hide FileIdsRise, RemoveOwn, Deletable;
    if f :| f in s.files && f.id == fileId {
      var i: nat :| i < |s.files| && s.files[i] == f;
      RemoveOwnIff(s, clientId, i);
    } else {
      RemoveOwnUnlisted(s, clientId, fileId);
    }
  }

  lemma CountedIsChanged(s: Store, owner: Option<uint32>)
    requires FileIdsRise(s.files, s.filesAdded)
    ensures RemoveEach(s, s.files, owner).1 > 0 <==> RemoveEach(s, s.files, owner).0.files != s.files
  {
    hide FileIdsRise, RemoveEach, Goes, GonePaths;
    BulkRemoval(s, owner);
    KeptWhole(DeletablePaths(s), owner, s.files);
  }

  /** How many messages of the client a task consumes: those of the file it receives. */
  function Consumed(s: Store, task: TaggedTask, inbox: seq<Message>, unwritable: set<Path>): (n: nat)
    ensures n <= |inbox|
  {
    if task.TaskUpload? then FileTransfer.Outcome(FileTransfer.START, inbox, UploadTarget(s, unwritable)).1 else 0
  }

  /** The job a task amounts to, with the given reply. */
  function JobFor(s: Store, task: TaggedTask, reply: seq<Message>, unreadable: set<Path>, unwritable: set<Path>): TaskSession.Job {
    var j := TaskSession.Job(task, reply, [], [], [], false, UploadTarget(s, unwritable));
    match task
    case TaskUsers(showIp, showId) => j.(lines := Listings.UserLines(s.clients, showIp, showId))
    case TaskFiles => j.(lines := Listings.FileLines(s.files, s.clients))
    case TaskDownload(name, byId) =>
      (match Resolve(s, CStr(name), byId)
       case Some(f) =>
         j.(name := f.name, content := if f.path in s.disk then s.disk[f.path] else [], serverOpens := f.path !in unreadable)
       case None => j)
    case _ => j
  }

  lemma ListJobValid(s: Store, task: TaggedTask, reply: seq<Message>, unreadable: set<Path>, unwritable: set<Path>)
    requires task.TaskUsers? || task.TaskFiles?
    requires IsListReply(if task.TaskUsers? then Listings.UserLines(s.clients, task.showIp, task.showId)
                         else Listings.FileLines(s.files, s.clients), reply)
    ensures TaskSession.ValidJob(JobFor(s, task, reply, unreadable, unwritable))
  {
  }

  lemma DownloadJobValid(s: Store, task: TaggedTask, reply: seq<Message>, unreadable: set<Path>, unwritable: set<Path>)
    requires task.TaskDownload? && TaskFieldsFit(task)
    requires IsDownloadReply(s, unreadable, CStr(task.downloadName), task.byId, reply)
    ensures TaskSession.ValidJob(JobFor(s, task, reply, unreadable, unwritable))
  {
    hide Resolve, FileTransfer.IsFileDialogue, WellFormed, CStr;
  }

  predicate IsListReply(lines: seq<CString>, reply: seq<Message>) {
    StringTransfer.Sendable(lines) && reply == StringTransfer.ListMessages(lines)
  }

  /** The reply is the one the task asks for: the lines of the users or the files, the file or a refusal, whether
      something was removed, and nothing to an upload. */
  ghost predicate IsReply(s: Store, clientId: uint32, task: TaggedTask, unreadable: set<Path>, reply: seq<Message>) {
    match task
    case TaskUsers(showIp, showId) => IsListReply(Listings.UserLines(s.clients, showIp, showId), reply)
    case TaskFiles => IsListReply(Listings.FileLines(s.files, s.clients), reply)
    case TaskUpload(_, _) => reply == []
    case TaskDownload(name, byId) => IsDownloadReply(s, unreadable, CStr(name), byId, reply)
    case TaskRemove(_, _) =>
      |reply| == 1 && WellFormed(reply[0]) && reply[0].body.Status?
      && reply[0].body.ok == Announced(s, clientId, task, [], {})
  }

  /** The handler of the task survives: only the files task can die, on a file without a listed owner. */
  predicate Survives(s: Store, task: TaggedTask) {
    task.TaskFiles? ==> Listings.Owned(s.files, s.clients)
  }

  /** The switch over the task type. */
  method Dispatch(server: Server, conn: NetworkConnection, clientId: uint32, task: TaggedTask)
    returns (alive: bool, notice: Option<Message>, ghost reply: seq<Message>)
    requires server.Valid() && conn.Valid() && Apart(server, conn) && TaskFieldsFit(task) && Sound(server.Model())
    modifies conn.Repr, server.disk, server.clientList.it, server.fileList, server.fileList.list, server.fileList.list.nodes
    ensures server.Valid() && conn.Valid() && conn.outbox == old(conn.outbox) + reply
    ensures alive == Survives(old(server.Model()), task)
    ensures if alive
            then TaskSession.ValidJob(JobFor(old(server.Model()), task, reply, server.disk.unreadable, server.disk.unwritable))
                 && IsReply(old(server.Model()), clientId, task, server.disk.unreadable, reply)
            else reply == []
    ensures server.Model() == Executed(old(server.Model()), clientId, task, old(conn.inbox), server.disk.unwritable)
    ensures conn.inbox == old(conn.inbox)[Consumed(old(server.Model()), task, old(conn.inbox), server.disk.unwritable)..]
    ensures notice.Some? == Announced(old(server.Model()), clientId, task, old(conn.inbox), server.disk.unwritable)
    ensures notice.Some? ==> IsNotice(notice.value)
  {
    hide conn.Valid, server.Valid, server.Model, WellFormed, IsNotice, Resolve, CStr, FileTransfer.Outcome,
      RemoveEach, RemoveOwn,
      Listings.UserLines, Listings.FileLines, StringTransfer.ListMessages, IsDownloadReply, Listings.Owned, Uploaded,
      TaskSession.ValidJob;
    ghost var s, outbox := server.Model(), conn.outbox;
    server.Added();
    alive, notice, reply := true, None, [];
    match task {
      case TaskUsers(showIp, showId) =>
        ListUsers(server, conn, showIp, showId);
        reply := StringTransfer.ListMessages(Listings.UserLines(s.clients, showIp, showId));
        ListJobValid(s, task, reply, server.disk.unreadable, server.disk.unwritable);
      case TaskFiles =>
        alive := ListFiles(server, conn);
        if alive {
          reply := StringTransfer.ListMessages(Listings.FileLines(s.files, s.clients));
          ListJobValid(s, task, reply, server.disk.unreadable, server.disk.unwritable);
        }
      case TaskUpload(name, _) =>
        var err;
        ghost var r, n;
        err, notice, r, n := UploadFile(server, conn, clientId, CStr(name));
        ShortJobValid(s, task, reply, server.disk.unreadable, server.disk.unwritable);
      case TaskDownload(name, byId) =>
        reply := DownloadFile(server, conn, CStr(name), byId);
        assert server.Model() == s;
        DownloadJobValid(s, task, reply, server.disk.unreadable, server.disk.unwritable);
      case TaskRemove(fileId, removeAll) =>
        notice, reply := RemoveFiles(server, conn, clientId, fileId, removeAll);
        ShortJobValid(s, task, reply, server.disk.unreadable, server.disk.unwritable);
    }
  }

  lemma ShortJobValid(s: Store, task: TaggedTask, reply: seq<Message>, unreadable: set<Path>, unwritable: set<Path>)
    requires TaskFieldsFit(task)
    requires || (task.TaskUpload? && reply == [])
             || (task.TaskRemove? && |reply| == 1 && WellFormed(reply[0]) && reply[0].body.Status?)
    ensures TaskSession.ValidJob(JobFor(s, task, reply, unreadable, unwritable))
  {
  }

  /** A task of a client that has left is dropped without a word. Otherwise the server announces the task and
      then sends a reply the client's side is made for, and changes the registry as the task says; or it dies
      right after the announcement. */
  method TaskRequestHandler(server: Server, conn: NetworkConnection, clientId: uint32, task: TaggedTask)
    returns (alive: bool, notice: Option<Message>, ghost reply: seq<Message>)
    requires server.Valid() && conn.Valid() && Apart(server, conn) && TaskFieldsFit(task) && Sound(server.Model())
    modifies conn.Repr, server.disk, server.clientList.it, server.fileList, server.fileList.list, server.fileList.list.nodes
    ensures server.Valid() && conn.Valid()
    ensures alive == (!Listed(old(server.Model()), clientId) || Survives(old(server.Model()), task))
    ensures !Listed(old(server.Model()), clientId) ==>
              conn.outbox == old(conn.outbox) && conn.inbox == old(conn.inbox) && server.Model() == old(server.Model())
              && notice == None
    ensures Listed(old(server.Model()), clientId) && alive ==>
              var j := JobFor(old(server.Model()), task, reply, server.disk.unreadable, server.disk.unwritable);
              && TaskSession.ValidJob(j)
              && IsReply(old(server.Model()), clientId, task, server.disk.unreadable, reply)
              && conn.outbox == old(conn.outbox) + TaskSession.Script(j)
              && server.Model() == Executed(old(server.Model()), clientId, task, old(conn.inbox), server.disk.unwritable)
              && conn.inbox == old(conn.inbox)[Consumed(old(server.Model()), task, old(conn.inbox), server.disk.unwritable)..]
              && notice.Some? == Announced(old(server.Model()), clientId, task, old(conn.inbox), server.disk.unwritable)
              && (notice.Some? ==> IsNotice(notice.value))
    ensures !alive ==>
              conn.outbox == old(conn.outbox) + [TaskSession.Executing(task)] && server.Model() == old(server.Model())
  {
    hide conn.Valid, server.Valid, server.Model, WellFormed, Sound, Survives, Announced, IsNotice, Resolve, CStr,
      FileTransfer.Outcome, RemoveEach,
      RemoveOwn, Listings.UserLines, Listings.FileLines, StringTransfer.ListMessages, IsDownloadReply, IsReply, TaskSession.ValidJob;
    ghost var s, outbox := server.Model(), conn.outbox;
    notice, reply := None, [];
    var client := server.FindClient(clientId);
    if client == null {
      return true, notice, reply;
    }
    var msg := FillStatus(CreateTaskStatus(TypeOf(task), TASK_STATUS_EXECUTING), task);
    conn.SendMessage(msg);
    assert server.Model() == s;
    alive, notice, reply := Dispatch(server, conn, clientId, task);
    assert conn.outbox == outbox + ([msg] + reply);
    DiesOnFiles(s, task);
  }

  lemma DiesOnFiles(s: Store, task: TaggedTask)
    ensures !Survives(s, task) ==> task.TaskFiles?
  {
  }
}
