/** Where the parts meet: what the handlers take for granted holds in the runs of the server, what they do to
    the registry is what the runs do, and a file travels from one client to another. */
module EndToEnd {
  import opened Bytes
  import ClientTasks
  import Codec
  import opened Messages
  import opened Records
  import opened Registry
  import opened ServerRuns
  import opened ServerTasks
  import opened Storage
  import FileTransfer
  import Listings
  import TaskSession

  // ----- what the handlers take for granted -----

  /** The names of the uploaded files fit the header of a transfer. */
  predicate NamesFitHeader(events: seq<Event>) {
    forall e :: e in events && e.UploadEnds? ==> |e.name| < FILE_HEADER_NAME_SIZE
  }

  predicate NamesBounded(s: State) {
    && (forall c :: c in s.store.clients ==> |c.name| < MAX_USERNAME_BYTES && |c.ip| < MAX_IP_BYTES)
    && (forall f :: f in s.store.files ==> |f.name| < FILE_HEADER_NAME_SIZE)
  }

  lemma FewerNames(s: State, r: State)
    requires NamesBounded(s)
    requires forall c :: c in r.store.clients ==> c in s.store.clients
    requires forall f :: f in r.store.files ==> f in s.store.files
    ensures NamesBounded(r)
  {
  }

  lemma StepNamesBounded(s: State, e: Event)
    requires NamesBounded(s) && IdsRise(s) && ClientsTracked(s) && (e.UploadEnds? ==> |e.name| < FILE_HEADER_NAME_SIZE)
    ensures NamesBounded(Step(s, e))
  {
    hide ClientIndex, UsernameIndex, FileIndex, FileIdsRise, ClientIdsRise, RemoveEach, RemoveFileById,
      RemoveClientById, FilePath;
    var fs, cs, r := s.store.files, s.store.clients, Step(s, e);
    if Possible(s, e) {
      match e
      case RemoveOne(id, file) =>
        RemoveFileKeepsIds(fs, s.store.filesAdded, file);
        FewerNames(s, r);
      case RemoveMine(id) =>
        RemoveEachFrame(s.store, fs, Some(id));
        RemoveEachShrinks(s.store, fs, Some(id));
        FewerNames(s, r);
      case Returned(id, _) =>
        if s.fsm[id] == DISCONNECT {
          RemoveEachFrame(s.store, fs, Some(id));
          RemoveEachShrinks(s.store, fs, Some(id));
          RemoveClientKeepsIds(cs, s.store.clientsAdded, id);
          FewerNames(s, r);
        }
      case _ =>
    }
  }

  lemma {:induction false} NamesBoundedThroughout(start: State, events: seq<Event>)
    requires IsStart(start) && NamesFitHeader(events)
    ensures NamesBounded(Run(start, events))
  {
    hide Step, NamesBounded, ClientsTracked, IdsRise;
    if events == [] {
      NamesBoundedAtStart(start);
    } else {
      var last := |events| - 1;
      assert forall e :: e in events[..last] ==> e in events;
      NamesBoundedThroughout(start, events[..last]);
      IdsRiseThroughout(start, events[..last]);
      ClientsTrackedThroughout(start, events[..last]);
      StepNamesBounded(Run(start, events[..last]), events[last]);
    }
  }

  lemma NamesBoundedAtStart(start: State)
    requires IsStart(start)
    ensures NamesBounded(start)
  {
  }

  /** In every run, while there are file ids left, the registry meets what the task handlers take for granted. */
  lemma SoundThroughout(start: State, events: seq<Event>)
    requires IsStart(start) && NamesFitHeader(events) && Run(start, events).store.filesAdded < MAX_FILE_ID
    ensures Sound(Run(start, events).store)
  {
    hide Run;
    NamesBoundedThroughout(start, events);
  }

  ghost predicate SurvivesThroughout(start: State, events: seq<Event>) {
    && (forall task :: Survives(Run(start, events).store, task))
    && (events != [] ==> SurvivesThroughout(start, events[..|events| - 1]))
  }

  /** In every run, no task kills the server at any time if and only if every disconnect could delete all files of
      the leaving client. */
  lemma SurvivesIffLeavesClean(start: State, events: seq<Event>)
    requires IsStart(start)
    ensures SurvivesThroughout(start, events) <==> AllLeavesClean(start, events)
  {
    hide Run, SurvivesThroughout, AllLeavesClean;
    SurvivesIffIntegrity(start, events);
    IntegrityIffLeavesClean(start, events);
  }

  lemma {:induction false} SurvivesIffIntegrity(start: State, events: seq<Event>)
    requires IsStart(start)
    ensures SurvivesThroughout(start, events) <==> IntegrityThroughout(start, events)
  {
    hide Run;
    IdsRiseThroughout(start, events);
    OwnedSurvives(Run(start, events).store);
    if events != [] {
      SurvivesIffIntegrity(start, events[..|events| - 1]);
    }
  }

  lemma OwnedSurvives(s: Store)
    ensures (forall task :: Survives(s, task)) <==> forall f :: f in s.files ==> Listed(s, f.clientId)
  {
    hide ClientIndex;
    assert Survives(s, TaskFiles) <==> forall f :: f in s.files ==> Listed(s, f.clientId);
  }

  lemma TasksSurvive(start: State, events: seq<Event>, task: TaggedTask)
    requires IsStart(start) && AllLeavesClean(start, events)
    ensures Survives(Run(start, events).store, task)
  {
    hide Run, AllLeavesClean;
    SurvivesIffLeavesClean(start, events);
  }

  /** A file that could not be deleted when its owner left: the next files task kills the server. */
  lemma OrphanKillsServer(start: State)
    requires IsStart(start) && FilePath(0) in start.store.undeletable
    ensures var events := [Connected([], NULL), Started(0), UploadBegins(0), UploadEnds(0, [], [], 0),
                           Returned(0, false), Returned(0, true)];
            !Survives(Run(start, events).store, TaskFiles)
  {
    hide Run, FilePath;
    UndeletableFileOrphaned(start);
    IdsRiseThroughout(start, [Connected([], NULL), Started(0), UploadBegins(0), UploadEnds(0, [], [], 0),
                              Returned(0, false), Returned(0, true)]);
  }

  // ----- a task is a run -----

  /** The events a task amounts to, given the messages its client sends. */
  function EventsOf(s: Store, id: uint32, task: TaggedTask, inbox: seq<Message>, unwritable: set<Path>): seq<Event> {
    match task
    case TaskUpload(name, _) =>
      var r := FileTransfer.Outcome(FileTransfer.START, inbox, UploadTarget(s, unwritable)).0;
      [UploadBegins(id),
       if r.stage == FileTransfer.Done then UploadEnds(id, CStr(name), r.got, r.size)
       else UploadFails(id, if r.created then Some(r.got) else None)]
    case TaskRemove(fileId, removeAll) => [if removeAll then RemoveMine(id) else RemoveOne(id, fileId)]
    case _ => []
  }

  /** The task handler does to the registry exactly what these events do in a run. */
  lemma TaskIsRun(start: State, events: seq<Event>, id: uint32, task: TaggedTask, inbox: seq<Message>, unwritable: set<Path>)
    requires var s := Run(start, events);
             && Listed(s.store, id) && id !in s.pending && s.store.filesAdded < MAX_FILE_ID
             && (task.TaskUpload? ==> |CStr(task.uploadName)| < MAX_FILENAME_SIZE)
    ensures var s := Run(start, events).store;
            Run(start, events + EventsOf(s, id, task, inbox, unwritable)).store == Executed(s, id, task, inbox, unwritable)
  {
    hide Run, RemoveEach, RemoveOwn, FilePath, CStr, Decimal, FileTransfer.Outcome, Listed, Accept, Login, Leave, Enter;
    var s := Run(start, events);
    var es := EventsOf(s.store, id, task, inbox, unwritable);
    if task.TaskUpload? {
      RunStep(start, events, es[0]);
      RunStep(start, events + [es[0]], es[1]);
      assert events + [es[0]] + [es[1]] == events + es;
    } else if task.TaskRemove? {
      RunStep(start, events, es[0]);
      assert events + [es[0]] == events + es;
    } else {
      assert events + es == events;
    }
  }

  // ----- what the user gets to see -----

  /** The answer to a task that stays in step, in the log of the client: the lines of the users or files, whether the
      list of files changed by the removal, the bytes of the file or a refusal when there is none, the file sent. */
  lemma AnswerArrives(s: Store, clientId: uint32, task: TaggedTask, reply: seq<Message>, unreadable: set<Path>,
                      unwritable: set<Path>, c: ClientTasks.Client)
    requires FileIdsRise(s.files, s.filesAdded) && c.phase == ClientTasks.Idle
    requires var j := JobFor(s, task, reply, unreadable, unwritable); TaskSession.ValidJob(j) && TaskSession.Good(j, c)
    requires IsReply(s, clientId, task, unreadable, reply)
    ensures var end := ClientTasks.Fold(c, TaskSession.Script(JobFor(s, task, reply, unreadable, unwritable)));
            && end.phase == ClientTasks.Idle
            && end.log == c.log + [
                 match task
                 case TaskUsers(showIp, showId) => ClientTasks.Listed(USERS, Listings.UserLines(s.clients, showIp, showId))
                 case TaskFiles => ClientTasks.Listed(FILES, Listings.FileLines(s.files, s.clients))
                 case TaskRemove(_, _) =>
                   ClientTasks.RemoveAnswer(Executed(s, clientId, task, [], {}).files != s.files)
                 case TaskDownload(name, byId) =>
                   (match Resolve(s, CStr(name), byId)
                    case Some(f) =>
                      if f.path in s.disk then ClientTasks.Downloaded(f.name, s.disk[f.path]) else ClientTasks.Refused
                    case None => ClientTasks.Refused)
                 case TaskUpload(_, path) => ClientTasks.Sent(FileName(CStr(path)), c.files[CStr(path)])]
  {
    hide Resolve, CStr, ClientTasks.Fold, FileTransfer.IsFileDialogue, TaskSession.Script, FileIdsRise, Executed,
      Announced, Codec.WellFormed, Listings.UserLines, Listings.FileLines, IsListReply, FileName;
    TaskSession.GoodJobRun(c, JobFor(s, task, reply, unreadable, unwritable));
    AnnouncedIffChanged(s, clientId, task, [], {});
  }

  // ----- from client to client -----

  /** The messages of an upload make the handler do what an upload of these bytes does in a run. */
  lemma UploadArrives(start: State, events: seq<Event>, id: uint32, task: TaggedTask, d: seq<Message>, rest: seq<Message>,
                      name: CString, content: seq<uint8>, unwritable: set<Path>)
    requires var s := Run(start, events);
             && Listed(s.store, id) && id !in s.pending && s.store.filesAdded < MAX_FILE_ID
             && UploadTarget(s.store, unwritable).PathFor(name) !in unwritable
    requires task.TaskUpload? && |CStr(task.uploadName)| < MAX_FILENAME_SIZE
    requires FileTransfer.IsFileDialogue(d, name, content) && |content| < TWO_TO_THE_32
    ensures Executed(Run(start, events).store, id, task, d + rest, unwritable)
         == Run(start, events + [UploadBegins(id), UploadEnds(id, CStr(task.uploadName), content, |content|)]).store
  {
    hide Run, CStr, FileTransfer.Outcome, FileTransfer.IsFileDialogue, Executed, ClientIndex;
    var s := Run(start, events).store;
    FileTransfer.FileRoundTrip(d, name, content, rest, UploadTarget(s, unwritable));
    TaskIsRun(start, events, id, task, d + rest, unwritable);
  }

  /** As long as the file of an upload is listed, and whatever happened since: the reply of the server to a
      download by its id leaves any client that can write the target idle, with exactly the uploaded bytes on its
      disk and in its log. */
  lemma DownloadDelivers(start: State, before: seq<Event>, e: Event, after: seq<Event>, f: SharedFile, c: ClientTasks.Client,
                         task: TaggedTask, reply: seq<Message>, unreadable: set<Path>, unwritable: set<Path>)
    requires IsStart(start) && AllStoreSafe(start, before + [e] + after)
    requires e.UploadEnds? && Possible(Run(start, before), e) && |e.content| < TWO_TO_THE_32
    requires f in Run(start, before + [e] + after).store.files && f.id == Run(start, before).store.filesAdded
    requires task.TaskDownload? && task.byId && TaskFieldsFit(task) && CStr(task.downloadName) == Decimal(f.id)
    requires IsDownloadReply(Run(start, before + [e] + after).store, unreadable, Decimal(f.id), true, reply)
    requires f.path !in unreadable && c.phase == ClientTasks.Idle && ClientTasks.DownloadTarget(c).PathFor(e.name) !in c.unwritable
    ensures var j := JobFor(Run(start, before + [e] + after).store, task, reply, unreadable, unwritable);
            var end := ClientTasks.Fold(c, TaskSession.Script(j));
            && end.phase == ClientTasks.Idle && end.log == c.log + [ClientTasks.Downloaded(e.name, e.content)]
            && end.files == c.files[ClientTasks.DownloadTarget(c).PathFor(e.name) := e.content]
  {
    hide Run, Resolve, CStr, Decimal, ClientTasks.Fold, FileTransfer.IsFileDialogue, TaskSession.Script,
      AllStoreSafe, ClientIndex;
    var s := Run(start, before + [e] + after).store;
    DownloadYieldsUpload(start, before, e, after);
    assert Resolve(s, Decimal(f.id), true) == Some(f);
    DownloadJobValid(s, task, reply, unreadable, unwritable);
    var j := JobFor(s, task, reply, unreadable, unwritable);
    TaskSession.GoodJobRun(c, j);
  }

  /** The two together: a file that one client sends for an upload reaches another client unchanged. */
  lemma FileTravels(start: State, before: seq<Event>, uploader: uint32, upload: TaggedTask, d: seq<Message>,
                    sent: seq<Message>, content: seq<uint8>, after: seq<Event>, f: SharedFile, c: ClientTasks.Client,
                    download: TaggedTask, reply: seq<Message>, unreadable: set<Path>, unwritable: set<Path>)
    requires IsStart(start)
    requires var s := Run(start, before);
             && Listed(s.store, uploader) && uploader !in s.pending && s.store.filesAdded < MAX_FILE_ID
             && FilePath(s.store.filesAdded) !in unwritable
    requires upload.TaskUpload? && |CStr(upload.uploadName)| < MAX_FILENAME_SIZE
    requires FileTransfer.IsFileDialogue(d, FileName(CStr(upload.userFilepath)), content) && |content| < TWO_TO_THE_32
    requires var name := CStr(upload.uploadName);
             var all := before + [UploadBegins(uploader)] + [UploadEnds(uploader, name, content, |content|)] + after;
             && AllStoreSafe(start, all)
             && f in Run(start, all).store.files && f.id == Run(start, before).store.filesAdded
             && download.TaskDownload? && download.byId && TaskFieldsFit(download) && CStr(download.downloadName) == Decimal(f.id)
             && IsDownloadReply(Run(start, all).store, unreadable, Decimal(f.id), true, reply)
             && f.path !in unreadable && c.phase == ClientTasks.Idle && ClientTasks.DownloadTarget(c).PathFor(name) !in c.unwritable
    ensures var name := CStr(upload.uploadName);
            var uploaded := before + [UploadBegins(uploader)] + [UploadEnds(uploader, name, content, |content|)];
            var j := JobFor(Run(start, uploaded + after).store, download, reply, unreadable, unwritable);
            && Executed(Run(start, before).store, uploader, upload, d + sent, unwritable) == Run(start, uploaded).store
            && ClientTasks.Fold(c, TaskSession.Script(j)).log == c.log + [ClientTasks.Downloaded(name, content)]
  {
    hide Run, CStr, Decimal, ClientTasks.Fold, FileName, FilePath, FileTransfer.IsFileDialogue, FileTransfer.Outcome,
      Executed, IsDownloadReply,
      TaskSession.Script, AllStoreSafe, Resolve, ClientIndex;
    var name := CStr(upload.uploadName);
    var begun, e := before + [UploadBegins(uploader)], UploadEnds(uploader, name, content, |content|);
    UploadPathIs(Run(start, before).store, FileName(CStr(upload.userFilepath)), unwritable);
    UploadArrives(start, before, uploader, upload, d, sent, FileName(CStr(upload.userFilepath)), content, unwritable);
    assert begun + [e] == before + [UploadBegins(uploader), e];
    RunStep(start, before, UploadBegins(uploader));
    DownloadDelivers(start, begun, e, after, f, c, download, reply, unreadable, unwritable);
  }

  lemma UploadPathIs(s: Store, name: CString, unwritable: set<Path>)
    requires s.filesAdded < MAX_FILE_ID
    ensures UploadTarget(s, unwritable).PathFor(name) == FilePath(s.filesAdded)
  {
    hide Decimal, Concat;
    assert Decimal(s.filesAdded) != [];
  }
}
