/** Whole runs of the server: connections, the state machine of each client, logins, uploads and
    removals, each handler step atomic, in every order the code allows. An upload is two steps, because
    the server reads the next file id before it receives the file and adds the file after that. */
module ServerRuns {
  import opened Bytes
  import opened Messages
  import opened Records
  import opened Registry
  import opened Storage

  datatype Upload = Upload(owner: uint32, name: CString, content: seq<uint8>, size: uint32) // the size announced

  datatype State = State(
    store: Store,
    fsm: map<uint32, AppState>,    // where the state machine of each client ever accepted is
    logged: set<uint32>,           // clients that logged in
    pending: map<uint32, uint32>,  // the file id each upload in progress read when it began
    uploads: seq<Upload>)          // every finished upload, in order

  datatype Event =
    | Connected(ip: CString, memory: AppState)
    | Started(id: uint32)
    | LoginAttempt(id: uint32, username: CString)
    | Returned(id: uint32, ok: bool) // the handler of the client's current state returns
    | UploadBegins(id: uint32)
    | UploadEnds(id: uint32, name: CString, content: seq<uint8>, size: uint32)
    | UploadFails(id: uint32, received: Option<seq<uint8>>) // None when it fails before it creates a file
    | RemoveOne(id: uint32, file: uint32)
    | RemoveMine(id: uint32)
    | SystemChanges(undeletable: set<Path>) // which files the operating system refuses to delete from now on

  function Start(disk: map<Path, seq<uint8>>, undeletable: set<Path>): State {
    State(Store([], 0, [], 0, disk, undeletable), map[], {}, map[], [])
  }

  /** What the state machine goes on with after a handler: an error always leads to DISCONNECT. */
  function NextState(state: AppState, ok: bool): AppState {
    match state
    case CONNECT => if ok then LOGIN else DISCONNECT
    case LOGIN => if ok then CHAT else DISCONNECT
    case CHAT => DISCONNECT
    case _ => END
  }

  predicate Possible(s: State, e: Event) {
    match e
    case Connected(ip, _) => s.store.clientsAdded < TWO_TO_THE_32 && |ip| < MAX_IP_BYTES
    case Started(id) => id in s.fsm && s.fsm[id] == NULL
    case LoginAttempt(id, username) =>
      id in s.fsm && s.fsm[id] == LOGIN && id !in s.logged && |username| < MAX_USERNAME_BYTES
    case Returned(id, ok) =>
      && id in s.fsm && s.fsm[id] != NULL && s.fsm[id] != END
      && (s.fsm[id] == LOGIN && ok ==> id in s.logged)
    case UploadBegins(id) => Listed(s.store, id) && id !in s.pending && s.store.filesAdded < MAX_FILE_ID
    case UploadEnds(id, name, _, _) =>
      Listed(s.store, id) && id in s.pending && s.store.filesAdded < MAX_FILE_ID && |name| < MAX_FILENAME_SIZE
    case UploadFails(id, _) => id in s.pending
    case RemoveOne(_, _) => true
    case RemoveMine(_) => true
    case SystemChanges(_) => true
  }

  /** The loop of the state machine stores the state it enters in the client. */
  function Enter(s: State, id: uint32, state: AppState): State {
    var k := ClientIndex(s.store.clients, id);
    s.(fsm := s.fsm[id := state],
       store := if k < |s.store.clients| then UpdateClient(s.store, s.store.clients[k].(state := state)) else s.store)
  }

  function Step(s: State, e: Event): State {
    if !Possible(s, e) then s else
    match e
    case Connected(ip, memory) =>
      s.(store := Accept(s.store, ip, memory), fsm := s.fsm[s.store.clientsAdded := NULL])
    case Started(id) => Enter(s, id, CONNECT)
    case LoginAttempt(id, username) =>
      var (store, ok) := Login(s.store, id, username);
      s.(store := store, logged := if ok then s.logged + {id} else s.logged)
    case Returned(id, ok) =>
      if s.fsm[id] == DISCONNECT then s.(store := Leave(s.store, id), fsm := s.fsm[id := END])
      else Enter(s, id, NextState(s.fsm[id], ok))
    case UploadBegins(id) => s.(pending := s.pending[id := s.store.filesAdded % TWO_TO_THE_32])
    case UploadEnds(id, name, content, size) =>
      s.(store := AddUpload(s.store, id, s.pending[id], name, content, size),
         pending := s.pending - {id},
         uploads := s.uploads + [Upload(id, name, content, size)])
    case UploadFails(id, received) =>
      s.(store := if received.Some? then s.store.(disk := s.store.disk[FilePath(s.pending[id]) := received.value]) else s.store,
         pending := s.pending - {id})
    case RemoveOne(id, file) => if Listed(s.store, id) then s.(store := RemoveOwn(s.store, id, file).0) else s
    case RemoveMine(id) => if Listed(s.store, id) then s.(store := RemoveClientFiles(s.store, id).0) else s
    case SystemChanges(undeletable) => s.(store := s.store.(undeletable := undeletable))
  }

  function Run(start: State, events: seq<Event>): State {
    if events == [] then start
    else Step(Run(start, events[..|events| - 1]), events[|events| - 1])
  }

  predicate IsStart(s: State) {
    s == Start(s.store.disk, s.store.undeletable)
  }

  // ----- clients and their state machines -----

  /** A client is listed exactly while its state machine has not ended, with the state it is in. */
  predicate ClientsTracked(s: State) {
    && s.store.clientsAdded <= TWO_TO_THE_32
    && ClientIdsRise(s.store.clients, s.store.clientsAdded)
    && (forall id: uint32 :: id in s.fsm <==> id < s.store.clientsAdded)
    && (forall id :: id in s.fsm && s.fsm[id] != END ==> Listed(s.store, id))
    && (forall c :: c in s.store.clients ==> c.id in s.fsm && s.fsm[c.id] != END)
    && (forall c :: c in s.store.clients && s.fsm[c.id] != NULL ==> c.state == s.fsm[c.id])
  }

  lemma {:induction false} ListedIff(cs: seq<Client>, id: uint32)
    ensures ClientIndex(cs, id) < |cs| <==> exists c :: c in cs && c.id == id
  {
  }

  lemma ListedMeansIn(s: Store, id: uint32)
    ensures Listed(s, id) <==> exists c :: c in s.clients && c.id == id
  {
    ListedIff(s.clients, id);
  }

  lemma ReplaceKeepsIds(cs: seq<Client>, added: nat, k: nat, c: Client)
    requires ClientIdsRise(cs, added) && k < |cs| && c.id == cs[k].id
    ensures ClientIdsRise(cs[k := c], added)
    ensures forall id: uint32 :: ClientIndex(cs, id) < |cs| ==> ClientIndex(cs[k := c], id) < |cs|
    ensures forall d :: d in cs[k := c] ==> d == c || (d in cs && d.id != c.id)
  {
    var r := cs[k := c];
    forall id: uint32 | ClientIndex(cs, id) < |cs|
      ensures ClientIndex(r, id) < |r|
    {
      var i := ClientIndex(cs, id);
      assert r[i].id == id;
    }
    forall d | d in r
      ensures d == c || (d in cs && d.id != c.id)
    {
      var i :| 0 <= i < |r| && r[i] == d;
      if i != k {
        assert cs[i] == d;
      }
    }
  }

  lemma AppendKeepsListed(cs: seq<Client>, c: Client)
    ensures forall id: uint32 :: ClientIndex(cs, id) < |cs| || id == c.id ==> ClientIndex(cs + [c], id) < |cs| + 1
  {
    forall id: uint32 | ClientIndex(cs, id) < |cs| || id == c.id
      ensures ClientIndex(cs + [c], id) < |cs| + 1
    {
      var i := ClientIndex(cs, id);
      assert (cs + [c])[i].id == id;
    }
  }

  lemma RemoveKeepsListed(cs: seq<Client>, added: nat, gone: uint32)
    requires ClientIdsRise(cs, added)
    ensures forall id: uint32 :: ClientIndex(cs, id) < |cs| && id != gone ==>
              ClientIndex(RemoveClientById(cs, gone), id) < |RemoveClientById(cs, gone)|
  {
    var r := RemoveClientById(cs, gone);
    RemoveClientKeepsIds(cs, added, gone);
    forall id: uint32 | ClientIndex(cs, id) < |cs| && id != gone
      ensures ClientIndex(r, id) < |r|
    {
      assert cs[ClientIndex(cs, id)] in r;
      ListedIff(r, id);
    }
  }

  lemma EnterTracks(s: State, id: uint32, state: AppState)
    requires ClientsTracked(s) && id in s.fsm && s.fsm[id] != END && state != END
    ensures ClientsTracked(Enter(s, id, state))
  {
    hide ClientIndex, ClientIdsRise;
    var cs := s.store.clients;
    var k := ClientIndex(cs, id);
    assert Listed(s.store, id);
    ReplaceKeepsIds(cs, s.store.clientsAdded, k, cs[k].(state := state));
  }

  lemma LoginTracks(s: State, id: uint32, username: CString)
    requires ClientsTracked(s) && id in s.fsm && s.fsm[id] == LOGIN
    ensures ClientsTracked(s.(store := Login(s.store, id, username).0))
  {
    hide ClientIndex, ClientIdsRise, UsernameIndex;
    var cs := s.store.clients;
    var k := ClientIndex(cs, id);
    assert Listed(s.store, id);
    ReplaceKeepsIds(cs, s.store.clientsAdded, k, cs[k].(name := username));
  }

  lemma ConnectTracks(s: State, ip: CString, memory: AppState)
    requires ClientsTracked(s) && s.store.clientsAdded < TWO_TO_THE_32
    ensures ClientsTracked(s.(store := Accept(s.store, ip, memory), fsm := s.fsm[s.store.clientsAdded := NULL]))
  {
    hide ClientIndex, ClientIdsRise;
    var cs, added := s.store.clients, s.store.clientsAdded;
    var c := Client(added, UNNAMED, ip, memory);
    AddClientKeepsIds(cs, added, c);
    AppendKeepsListed(cs, c);
  }

  lemma LeaveTracks(s: State, id: uint32)
    requires ClientsTracked(s) && id in s.fsm && s.fsm[id] == DISCONNECT
    ensures ClientsTracked(s.(store := Leave(s.store, id), fsm := s.fsm[id := END]))
  {
    hide ClientIndex, ClientIdsRise, RemoveClientById, RemoveEach;
    var cs := s.store.clients;
    RemoveEachFrame(s.store, s.store.files, Some(id));
    RemoveClientKeepsIds(cs, s.store.clientsAdded, id);
    RemoveKeepsListed(cs, s.store.clientsAdded, id);
    assert Listed(s.store, id);
  }

  lemma StepTracks(s: State, e: Event)
    requires ClientsTracked(s)
    ensures ClientsTracked(Step(s, e))
  {
    hide ClientIndex, ClientIdsRise, FileIndex, RemoveEach, RemoveClientById, Leave, Login, Accept, Enter, FilePath,
      UsernameIndex;
    if Possible(s, e) {
      match e
      case Connected(ip, memory) => ConnectTracks(s, ip, memory);
      case Started(id) => EnterTracks(s, id, CONNECT);
      case LoginAttempt(id, username) => LoginTracks(s, id, username);
      case Returned(id, ok) =>
        if s.fsm[id] == DISCONNECT {
          LeaveTracks(s, id);
        } else {
          EnterTracks(s, id, NextState(s.fsm[id], ok));
        }
      case RemoveMine(id) => RemoveEachFrame(s.store, s.store.files, Some(id));
      case _ =>
    }
  }

  lemma {:induction false} ClientsTrackedThroughout(start: State, events: seq<Event>)
    requires IsStart(start)
    ensures ClientsTracked(Run(start, events))
  {
    if events != [] {
      var last := |events| - 1;
      ClientsTrackedThroughout(start, events[..last]);
      StepTracks(Run(start, events[..last]), events[last]);
    }
  }

  // ----- lifecycle -----

  /** How many handlers of the client returned. */
  function Returns(start: State, events: seq<Event>, id: uint32): nat {
    if events == [] then 0
    else
      var e := events[|events| - 1];
      Returns(start, events[..|events| - 1], id)
      + if e.Returned? && e.id == id && Possible(Run(start, events[..|events| - 1]), e) then 1 else 0
  }

  /** In every run at most four handlers of a client return, and none before it was accepted. */
  lemma {:induction false} HandlersAreFew(start: State, events: seq<Event>, id: uint32)
    requires IsStart(start)
    ensures var s := Run(start, events);
            if id !in s.fsm then Returns(start, events, id) == 0
            else Returns(start, events, id) + Rank(s.fsm[id]) <= if s.fsm[id] == NULL then 5 else 4
  {
    hide ClientsTracked, Step, Possible;
    if events != [] {
      var last := |events| - 1;
      HandlersAreFew(start, events[..last], id);
      ClientsTrackedThroughout(start, events[..last]);
      ReturnsAndRank(Run(start, events[..last]), events[last], id);
    }
  }

  /** The state machine of a client only ever moves on: each return of a handler strictly lowers the rank
      of its state, and no other event moves it, but for the start of a client that was waiting. */
  lemma ReturnsAndRank(s: State, e: Event, id: uint32)
    requires ClientsTracked(s)
    ensures var s' := Step(s, e);
            var returned := e.Returned? && e.id == id && Possible(s, e);
            if id !in s.fsm then !returned && (id in s'.fsm ==> s'.fsm[id] == NULL)
            else && id in s'.fsm
                 && (returned ==> s.fsm[id] != NULL && Rank(s'.fsm[id]) < Rank(s.fsm[id]))
                 && (!returned ==> s'.fsm[id] == s.fsm[id] || (s.fsm[id] == NULL && s'.fsm[id] == CONNECT))
  {
    hide ClientIndex, ClientIdsRise, Accept, Login, Leave, UpdateClient, AddUpload, RemoveOwn, RemoveClientFiles, FilePath;
  }

  /** How often the disconnect handler of the client ran. */
  function Disconnects(start: State, events: seq<Event>, id: uint32): nat {
    if events == [] then 0
    else
      var s, e := Run(start, events[..|events| - 1]), events[|events| - 1];
      Disconnects(start, events[..|events| - 1], id)
      + if e.Returned? && e.id == id && Possible(s, e) && s.fsm[id] == DISCONNECT then 1 else 0
  }

  /** In every run the disconnect handler of a client runs once if its state machine has finished and
      not at all if it has not. */
  lemma {:induction false} DisconnectsOnce(start: State, events: seq<Event>, id: uint32)
    requires IsStart(start)
    ensures var s := Run(start, events);
            Disconnects(start, events, id) == if id in s.fsm && s.fsm[id] == END then 1 else 0
  {
    hide ClientsTracked, Step, Possible;
    if events != [] {
      var last := |events| - 1;
      var s, e := Run(start, events[..last]), events[last];
      DisconnectsOnce(start, events[..last], id);
      ClientsTrackedThroughout(start, events[..last]);
      EndIsReachedByDisconnecting(s, e, id);
    }
  }

  lemma EndIsReachedByDisconnecting(s: State, e: Event, id: uint32)
    requires ClientsTracked(s)
    ensures var s' := Step(s, e);
            var handled := e.Returned? && e.id == id && Possible(s, e) && s.fsm[id] == DISCONNECT;
            && (id in s'.fsm && s'.fsm[id] == END <==> handled || (id in s.fsm && s.fsm[id] == END))
            && !(handled && id in s.fsm && s.fsm[id] == END)
  {
    hide ClientIndex, ClientIdsRise, Accept, Login, Leave, UpdateClient, AddUpload, RemoveOwn, RemoveClientFiles, FilePath;
  }

  /** Once the disconnect handler of a client has run, no handler of that client runs again, and the
      client is gone from the list, whatever happens later. */
  lemma DisconnectsLast(start: State, events: seq<Event>, id: uint32, ok: bool)
    requires IsStart(start) && Disconnects(start, events, id) > 0
    ensures var s := Run(start, events);
            !Listed(s.store, id) && !Possible(s, Returned(id, ok)) && !Possible(s, Started(id))
  {
    hide Disconnects, Run;
    DisconnectsOnce(start, events, id);
    ClientsTrackedThroughout(start, events);
    ListedMeansIn(Run(start, events).store, id);
  }

  // ----- names -----

  /** Clients that logged in have names of their own; the others are all unnamed. */
  predicate NamesDistinct(s: State) {
    && (forall c :: c in s.store.clients ==> (c.id in s.logged <==> c.name != UNNAMED))
    && (forall c, d :: c in s.store.clients && d in s.store.clients && c.id != d.id && c.id in s.logged
                       ==> c.name != d.name)
    && (forall id :: id in s.logged ==> id < s.store.clientsAdded)
  }

  lemma LoginKeepsNames(s: State, id: uint32, username: CString)
    requires ClientsTracked(s) && NamesDistinct(s) && Possible(s, LoginAttempt(id, username))
    ensures NamesDistinct(Step(s, LoginAttempt(id, username)))
  {
    hide ClientIndex, ClientIdsRise, UsernameIndex;
    var cs := s.store.clients;
    var k := ClientIndex(cs, id);
    assert Listed(s.store, id);
    if UsernameIndex(cs, username) == |cs| {
      assert cs[k].name == UNNAMED && cs[k] in cs;
      assert forall c :: c in cs ==> c.name != username;
      ReplaceKeepsIds(cs, s.store.clientsAdded, k, cs[k].(name := username));
    }
  }

  lemma ConnectKeepsNames(s: State, ip: CString, memory: AppState)
    requires ClientsTracked(s) && NamesDistinct(s) && s.store.clientsAdded < TWO_TO_THE_32
    ensures NamesDistinct(s.(store := Accept(s.store, ip, memory), fsm := s.fsm[s.store.clientsAdded := NULL]))
  {
    hide ClientIndex, ClientIdsRise;
    var r := Accept(s.store, ip, memory);
    var c := r.clients[|s.store.clients|];
    assert c.id == s.store.clientsAdded && c.id !in s.logged;
    assert forall d :: d in r.clients ==> d == c || d in s.store.clients;
  }

  lemma StepKeepsNames(s: State, e: Event)
    requires ClientsTracked(s) && NamesDistinct(s)
    ensures NamesDistinct(Step(s, e))
  {
    hide ClientIndex, ClientIdsRise, FileIndex, RemoveClientById, RemoveEach, RemoveFileById;
    if Possible(s, e) {
      match e
      case Connected(ip, memory) => ConnectKeepsNames(s, ip, memory);
      case LoginAttempt(id, username) => LoginKeepsNames(s, id, username);
      case Started(id) => EnterKeepsNames(s, id, CONNECT);
      case Returned(id, ok) =>
        if s.fsm[id] == DISCONNECT {
          RemoveEachFrame(s.store, s.store.files, Some(id));
          RemoveClientKeepsIds(s.store.clients, s.store.clientsAdded, id);
        } else {
          EnterKeepsNames(s, id, NextState(s.fsm[id], ok));
        }
      case RemoveMine(id) => RemoveEachFrame(s.store, s.store.files, Some(id));
      case _ =>
    }
  }

  lemma EnterKeepsNames(s: State, id: uint32, state: AppState)
    requires ClientsTracked(s) && NamesDistinct(s) && id in s.fsm && s.fsm[id] != END
    ensures NamesDistinct(Enter(s, id, state))
  {
    hide ClientIndex, ClientIdsRise;
    var cs := s.store.clients;
    var k := ClientIndex(cs, id);
    assert Listed(s.store, id) && cs[k] in cs;
    ReplaceKeepsIds(cs, s.store.clientsAdded, k, cs[k].(state := state));
  }

  /** In every run, no two clients that logged in have the same name, and none is called "unnamed". */
  lemma {:induction false} NamesDistinctThroughout(start: State, events: seq<Event>)
    requires IsStart(start)
    ensures NamesDistinct(Run(start, events))
  {
    hide ClientsTracked, Step, NamesDistinct;
    if events == [] {
      NamesDistinctAtStart(start);
    } else {
      var last := |events| - 1;
      NamesDistinctThroughout(start, events[..last]);
      ClientsTrackedThroughout(start, events[..last]);
      StepKeepsNames(Run(start, events[..last]), events[last]);
    }
  }

  lemma NamesDistinctAtStart(start: State)
    requires IsStart(start)
    ensures NamesDistinct(start)
  {
  }

  // ----- file ids -----

  /** Ids rise along the list, below the next one. */
  predicate IdsRise(s: State) {
    FileIdsRise(s.store.files, s.store.filesAdded) && s.store.filesAdded <= MAX_FILE_ID
  }

  /** A step only adds a file under the id that was next; all other files are those that were listed. */
  lemma StepIds(s: State, e: Event)
    requires IdsRise(s)
    ensures IdsRise(Step(s, e)) && s.store.filesAdded <= Step(s, e).store.filesAdded
    ensures forall f :: f in Step(s, e).store.files ==> f in s.store.files || f.id == s.store.filesAdded
  {
    hide ClientIndex, UsernameIndex, FileIndex, FileIdsRise, RemoveEach, RemoveFileById, FilePath, RemoveClientById;
    var fs := s.store.files;
    if Possible(s, e) {
      match e
      case UploadEnds(_, _, _, _) => AddFileKeepsIds(fs, s.store.filesAdded, Step(s, e).store.files[|fs|]);
      case RemoveOne(id, file) => RemoveFileKeepsIds(fs, s.store.filesAdded, file);
      case RemoveMine(id) =>
        RemoveEachFrame(s.store, fs, Some(id));
        RemoveEachShrinks(s.store, fs, Some(id));
      case Returned(id, _) =>
        RemoveEachFrame(s.store, fs, Some(id));
        RemoveEachShrinks(s.store, fs, Some(id));
      case _ =>
    }
  }

  lemma {:induction false} IdsRiseThroughout(start: State, events: seq<Event>)
    requires IsStart(start)
    ensures IdsRise(Run(start, events))
  {
    hide Step;
    if events != [] {
      var last := |events| - 1;
      IdsRiseThroughout(start, events[..last]);
      StepIds(Run(start, events[..last]), events[last]);
    }
  }

  /** In every run, a file id is never given again: whatever is listed later under the id of a listed file,
      or under any id given out by then, was listed already. */
  lemma {:induction false} FileIdsNeverReused(start: State, events: seq<Event>, more: seq<Event>, g: SharedFile)
    requires IsStart(start)
    requires g in Run(start, events + more).store.files && g.id < Run(start, events).store.filesAdded
    ensures g in Run(start, events).store.files
    ensures forall f :: f in Run(start, events).store.files && f.id == g.id ==> f == g
    decreases |more|
  {
    hide Step, Run, FileIdsRise;
    IdsRiseThroughout(start, events);
    if more == [] {
      assert events + more == events;
    } else {
      var front := more[..|more| - 1];
      assert events + more == events + front + [more[|more| - 1]];
      RunStep(start, events + front, more[|more| - 1]);
      IdsRiseThroughout(start, events + front);
      StepIds(Run(start, events + front), more[|more| - 1]);
      AddedOnlyGrows(start, events, front);
      FileIdsNeverReused(start, events, front, g);
    }
    IdsAreUnique(Run(start, events).store.files, Run(start, events).store.filesAdded, g);
  }

  lemma {:induction false} AddedOnlyGrows(start: State, events: seq<Event>, more: seq<Event>)
    requires IsStart(start)
    ensures Run(start, events).store.filesAdded <= Run(start, events + more).store.filesAdded
    decreases |more|
  {
    hide Step, Run, IdsRise;
    if more == [] {
      assert events + more == events;
    } else {
      var front := more[..|more| - 1];
      assert events + more == events + front + [more[|more| - 1]];
      RunStep(start, events + front, more[|more| - 1]);
      IdsRiseThroughout(start, events + front);
      StepIds(Run(start, events + front), more[|more| - 1]);
      AddedOnlyGrows(start, events, front);
    }
  }

  /** In every run, a file leaves the list only by a remove task or the disconnect of the client that
      shared it. */
  lemma FileLeavesByItsOwner(start: State, events: seq<Event>, e: Event, f: SharedFile)
    requires IsStart(start)
    requires f in Run(start, events).store.files && f !in Run(start, events + [e]).store.files
    ensures var s := Run(start, events);
            && Possible(s, e)
            && (|| (e.RemoveOne? && e.id == f.clientId && e.file == f.id)
                || (e.RemoveMine? && e.id == f.clientId)
                || (e.Returned? && e.id == f.clientId && s.fsm[e.id] == DISCONNECT))
  {
    hide Run, Step, IdsRise;
    IdsRiseThroughout(start, events);
    RunStep(start, events, e);
    StepRemovesOwn(Run(start, events), e, f);
  }

  lemma StepRemovesOwn(s: State, e: Event, f: SharedFile)
    requires IdsRise(s) && f in s.store.files && f !in Step(s, e).store.files
    ensures Possible(s, e)
    ensures || (e.RemoveOne? && e.id == f.clientId && e.file == f.id)
            || (e.RemoveMine? && e.id == f.clientId)
            || (e.Returned? && e.id == f.clientId && s.fsm[e.id] == DISCONNECT)
  {
    hide FileIdsRise, RemoveEach, ClientIndex, RemoveFileById, RemoveClientById;
    IdsAreUnique(s.store.files, s.store.filesAdded, f);
    match e
    case RemoveOne(id, file) => RemoveFileKeepsIds(s.store.files, s.store.filesAdded, file);
    case RemoveMine(id) => RemoveEachShrinks(s.store, s.store.files, Some(id));
    case Returned(id, ok) => RemoveEachShrinks(s.store, s.store.files, Some(id));
    case _ =>
  }

  lemma IdsAreUnique(fs: seq<SharedFile>, added: nat, f: SharedFile)
    requires FileIdsRise(fs, added) && f in fs
    ensures forall g :: g in fs && g.id == f.id ==> g == f
    ensures FileIndex(fs, f.id) < |fs| && fs[FileIndex(fs, f.id)] == f
  {
  }

  // ----- files and their owners -----

  /** Every listed file names a listed client; the handler of the files task relies on it. */
  predicate Integrity(s: State) {
    && FileIdsRise(s.store.files, s.store.filesAdded)
    && forall f :: f in s.store.files ==> Listed(s.store, f.clientId)
  }

  /** What the step must find for the owners to stay listed: when the disconnect handler runs, every file
      of the leaving client can be deleted. */
  predicate CleanLeave(s: State, e: Event) {
    e.Returned? && Possible(s, e) && s.fsm[e.id] == DISCONNECT ==>
      forall f :: f in s.store.files && f.clientId == e.id ==> Deletable(s.store, f.path)
  }

  /** The file's path is that of an id its owner read, before the one its upload in progress has read. */
  ghost predicate ReadBefore(s: State, f: SharedFile) {
    exists id: nat :: f.path == FilePath(id) && id < s.store.filesAdded
                      && (f.clientId in s.pending ==> id < s.pending[f.clientId])
  }

  /** A client has one upload at a time, and each one that ends raises the next id; so no client's files share
      a path. */
  ghost predicate OwnPaths(s: State) {
    && (forall id :: id in s.pending ==> s.pending[id] <= s.store.filesAdded)
    && (forall f :: f in s.store.files ==> ReadBefore(s, f))
    && (forall f, g :: f in s.store.files && g in s.store.files && f.clientId == g.clientId && f.path == g.path ==> f == g)
  }

  lemma FewerOwnPaths(s: State, r: State)
    requires OwnPaths(s)
    requires (forall f :: f in r.store.files ==> f in s.store.files) && r.store.filesAdded == s.store.filesAdded
    requires forall id :: id in r.pending ==> id in s.pending && r.pending[id] == s.pending[id]
    ensures OwnPaths(r)
  {
    hide FilePath;
    forall f | f in r.store.files
      ensures ReadBefore(r, f)
    {
      assert ReadBefore(s, f);
    }
  }

  lemma UploadBeginsOwnPaths(s: State, id: uint32)
    requires OwnPaths(s) && Possible(s, UploadBegins(id))
    ensures OwnPaths(Step(s, UploadBegins(id)))
  {
    hide FilePath, ClientIndex;
    var r := Step(s, UploadBegins(id));
    forall f | f in r.store.files
      ensures ReadBefore(r, f)
    {
      assert ReadBefore(s, f);
    }
  }

  lemma UploadEndsOwnPaths(s: State, e: Event)
    requires OwnPaths(s) && e.UploadEnds? && Possible(s, e)
    ensures OwnPaths(Step(s, e))
  {
    hide FilePath, ClientIndex;
    var fs, r := s.store.files, Step(s, e);
    var f := r.store.files[|fs|];
    assert r.store.files == fs + [f];
    assert f.path == FilePath(s.pending[e.id]) && ReadBefore(r, f);
    forall g | g in fs
      ensures ReadBefore(r, g) && (g.clientId == e.id ==> g.path != f.path)
    {
      assert ReadBefore(s, g);
      var id: nat :| g.path == FilePath(id) && id < s.store.filesAdded
                     && (g.clientId in s.pending ==> id < s.pending[g.clientId]);
      if g.clientId == e.id && g.path == f.path {
        FilePathInjective(id, s.pending[e.id]);
      }
    }
  }

  lemma StepOwnPaths(s: State, e: Event)
    requires OwnPaths(s) && IdsRise(s)
    ensures OwnPaths(Step(s, e))
  {
    hide ClientIndex, UsernameIndex, FileIndex, FileIdsRise, RemoveEach, RemoveFileById, FilePath, RemoveClientById,
      OwnPaths;
    var fs, r := s.store.files, Step(s, e);
    if Possible(s, e) {
      match e
      case UploadBegins(id) => UploadBeginsOwnPaths(s, id);
      case UploadEnds(_, _, _, _) => UploadEndsOwnPaths(s, e);
      case RemoveOne(id, file) =>
        RemoveFileKeepsIds(fs, s.store.filesAdded, file);
        FewerOwnPaths(s, r);
      case RemoveMine(id) =>
        RemoveEachFrame(s.store, fs, Some(id));
        RemoveEachShrinks(s.store, fs, Some(id));
        FewerOwnPaths(s, r);
      case Returned(id, _) =>
        RemoveEachFrame(s.store, fs, Some(id));
        RemoveEachShrinks(s.store, fs, Some(id));
        FewerOwnPaths(s, r);
      case _ => FewerOwnPaths(s, r);
    }
  }

  /** In every run, overlapping uploads included, no two files of one client share a path. */
  lemma {:induction false} OwnPathsThroughout(start: State, events: seq<Event>)
    requires IsStart(start)
    ensures OwnPaths(Run(start, events))
  {
    hide Step, OwnPaths, IdsRise;
    if events == [] {
      OwnPathsAtStart(start);
    } else {
      var last := |events| - 1;
      OwnPathsThroughout(start, events[..last]);
      IdsRiseThroughout(start, events[..last]);
      StepOwnPaths(Run(start, events[..last]), events[last]);
    }
  }

  lemma OwnPathsAtStart(start: State)
    requires IsStart(start)
    ensures OwnPaths(start)
  {
  }

  lemma OwnFilesRemovable(s: State, id: uint32)
    requires OwnPaths(s) && FileIdsRise(s.store.files, s.store.filesAdded)
    ensures Removable(s.store, s.store.files, Some(id))
       <==> forall f :: f in s.store.files && f.clientId == id ==> Deletable(s.store, f.path)
  {
  }

  lemma LeaveIntegrity(s: State, e: Event)
    requires ClientsTracked(s) && Integrity(s) && OwnPaths(s)
    requires e.Returned? && Possible(s, e) && s.fsm[e.id] == DISCONNECT
    ensures Integrity(Step(s, e)) <==> CleanLeave(s, e)
  {
    hide ClientIndex, FileIdsRise, ClientIdsRise, Removable, RemoveEach, RemoveClientById, OwnPaths;
    var cs, fs, id := s.store.clients, s.store.files, e.id;
    var cleaned := RemoveEach(s.store, fs, Some(id)).0;
    RemoveEachFrame(s.store, fs, Some(id));
    RemoveEachShrinks(s.store, fs, Some(id));
    AllRemovableGo(s.store, Some(id));
    OwnFilesRemovable(s, id);
    RemoveClientKeepsIds(cs, s.store.clientsAdded, id);
    RemoveKeepsListed(cs, s.store.clientsAdded, id);
    assert Listed(s.store, id);
    var r := Step(s, e).store;
    assert r == cleaned.(clients := RemoveClientById(cs, id));
    assert !Listed(r, id) by { ListedMeansIn(r, id); }
    assert forall f :: f in cleaned.files ==> Listed(s.store, f.clientId);
  }

  lemma StepIntegrity(s: State, e: Event)
    requires ClientsTracked(s) && Integrity(s) && OwnPaths(s) && s.store.filesAdded <= MAX_FILE_ID
    ensures Step(s, e).store.filesAdded <= MAX_FILE_ID
    ensures Integrity(Step(s, e)) <==> CleanLeave(s, e)
  {
    if e.Returned? && Possible(s, e) && s.fsm[e.id] == DISCONNECT {
      hide ClientIndex, FileIdsRise, ClientIdsRise, RemoveEach, RemoveClientById, Integrity, OwnPaths;
      RemoveEachFrame(s.store, s.store.files, Some(e.id));
      LeaveIntegrity(s, e);
    } else if e.Connected? || e.Started? || e.LoginAttempt? || e.Returned? {
      ClientStepIntegrity(s, e);
    } else {
      FileStepIntegrity(s, e);
    }
  }

  lemma ClientStepIntegrity(s: State, e: Event)
    requires ClientsTracked(s) && Integrity(s)
    requires e.Connected? || e.Started? || e.LoginAttempt? || e.Returned?
    requires e.Returned? && Possible(s, e) ==> s.fsm[e.id] != DISCONNECT
    ensures Step(s, e).store.filesAdded == s.store.filesAdded && Integrity(Step(s, e))
  {
    hide ClientIndex, UsernameIndex, FileIdsRise, ClientIdsRise, ClientsTracked, FilePath, RemoveEach;
    if Possible(s, e) {
      match e
      case Connected(ip, memory) => AppendKeepsListed(s.store.clients, Client(s.store.clientsAdded, UNNAMED, ip, memory));
      case Started(id) => EnterKeepsListed(s, id, CONNECT);
      case LoginAttempt(id, username) => LoginKeepsListed(s, id, username);
      case Returned(id, ok) => EnterKeepsListed(s, id, NextState(s.fsm[id], ok));
    }
  }

  lemma FileStepIntegrity(s: State, e: Event)
    requires Integrity(s) && s.store.filesAdded <= MAX_FILE_ID
    requires e.UploadBegins? || e.UploadEnds? || e.UploadFails? || e.RemoveOne? || e.RemoveMine? || e.SystemChanges?
    ensures Step(s, e).store.filesAdded <= MAX_FILE_ID && Integrity(Step(s, e))
  {
    hide ClientIndex, FileIndex, FileIdsRise, RemoveEach, RemoveFileById, FilePath;
    var fs := s.store.files;
    if Possible(s, e) {
      match e
      case UploadEnds(_, _, _, _) => AddFileKeepsIds(fs, s.store.filesAdded, Step(s, e).store.files[|fs|]);
      case RemoveOne(id, file) => RemoveFileKeepsIds(fs, s.store.filesAdded, file);
      case RemoveMine(id) =>
        RemoveEachFrame(s.store, fs, Some(id));
        RemoveEachShrinks(s.store, fs, Some(id));
      case _ =>
    }
  }

  lemma EnterKeepsListed(s: State, id: uint32, state: AppState)
    requires ClientsTracked(s) && id in s.fsm && s.fsm[id] != END
    ensures forall i: uint32 :: Listed(s.store, i) ==> Listed(Enter(s, id, state).store, i)
  {
    hide ClientIndex, ClientIdsRise;
    var cs := s.store.clients;
    var k := ClientIndex(cs, id);
    assert Listed(s.store, id);
    ReplaceKeepsIds(cs, s.store.clientsAdded, k, cs[k].(state := state));
  }

  lemma LoginKeepsListed(s: State, id: uint32, username: CString)
    requires ClientsTracked(s) && id in s.fsm && s.fsm[id] == LOGIN
    ensures forall i: uint32 :: Listed(s.store, i) ==> Listed(Login(s.store, id, username).0, i)
  {
    hide ClientIndex, ClientIdsRise, UsernameIndex;
    var cs := s.store.clients;
    var k := ClientIndex(cs, id);
    assert Listed(s.store, id);
    ReplaceKeepsIds(cs, s.store.clientsAdded, k, cs[k].(name := username));
  }

  predicate IntegrityThroughout(start: State, events: seq<Event>) {
    Integrity(Run(start, events)) && (events != [] ==> IntegrityThroughout(start, events[..|events| - 1]))
  }

  predicate AllLeavesClean(start: State, events: seq<Event>) {
    events != [] ==>
      && AllLeavesClean(start, events[..|events| - 1])
      && CleanLeave(Run(start, events[..|events| - 1]), events[|events| - 1])
  }

  /** In every run, all listed files have a listed owner all the time if and only if every disconnect
      found that all files of the leaving client could be deleted. */
  lemma {:induction false} IntegrityIffLeavesClean(start: State, events: seq<Event>)
    requires IsStart(start)
    ensures IntegrityThroughout(start, events) <==> AllLeavesClean(start, events)
  {
    hide ClientsTracked, Step, CleanLeave, Integrity, OwnPaths;
    if events == [] {
      IntegrityAtStart(start);
    } else {
      var front, last := events[..|events| - 1], events[|events| - 1];
      var s := Run(start, front);
      IntegrityIffLeavesClean(start, front);
      ClientsTrackedThroughout(start, front);
      IdsRiseThroughout(start, front);
      OwnPathsThroughout(start, front);
      if Integrity(s) {
        StepIntegrity(s, last);
      }
      EndsIntact(start, front);
    }
  }

  lemma EndsIntact(start: State, events: seq<Event>)
    ensures IntegrityThroughout(start, events) ==> Integrity(Run(start, events))
  {
  }

  lemma IntegrityAtStart(start: State)
    requires IsStart(start)
    ensures Integrity(start)
  {
  }

  // ----- the content of the store -----

  /** The file is stored under the decimal of its own id, with what its owner uploaded. */
  predicate HoldsUpload(s: State, f: SharedFile) {
    && f.id < |s.uploads|
    && f.path == FilePath(f.id) && f.path in s.store.disk
    && s.store.disk[f.path] == s.uploads[f.id].content
    && f.clientId == s.uploads[f.id].owner && f.name == s.uploads[f.id].name
    && f.size == s.uploads[f.id].size
  }

  predicate Stored(s: State) {
    && |s.uploads| == s.store.filesAdded <= MAX_FILE_ID
    && FileIdsRise(s.store.files, s.store.filesAdded)
    && forall f :: f in s.store.files ==> HoldsUpload(s, f)
  }

  /** What the step must find for the store to stay sound. An upload that ends: no other upload has ended
      since it read the next id. One that fails after it created its file: whoever is listed under the id it
      read has uploaded just these bytes. */
  predicate StoreSafe(s: State, e: Event) {
    Possible(s, e) ==>
      match e
      case UploadEnds(id, _, _, _) => s.pending[id] == s.store.filesAdded
      case UploadFails(id, Some(received)) =>
        forall f :: f in s.store.files && f.id == s.pending[id] ==>
          f.id < |s.uploads| && s.uploads[f.id].content == received
      case _ => true
  }

  lemma StoredPathsDistinct(s: State, owner: Option<uint32>)
    requires Stored(s)
    ensures DistinctPaths(s.store.files, owner)
  {
    var fs := s.store.files;
    forall i, j | 0 <= i < j < |fs|
      ensures fs[i].path != fs[j].path
    {
      assert HoldsUpload(s, fs[i]) && HoldsUpload(s, fs[j]);
      if fs[i].path == fs[j].path {
        FilePathInjective(fs[i].id, fs[j].id);
      }
    }
  }

  /** Writing at the path of an id that no listed file has leaves all listed files as they are. */
  lemma WriteElsewhere(s: State, id: nat, content: seq<uint8>, f: SharedFile)
    requires HoldsUpload(s, f) && f.id != id
    ensures FilePath(id) != f.path
    ensures HoldsUpload(s.(store := s.store.(disk := s.store.disk[FilePath(id) := content])), f)
  {
    if FilePath(id) == f.path {
      FilePathInjective(id, f.id);
    }
  }

  /** An upload that ends leaves the store sound if and only if it still has the id it read at its start. */
  lemma UploadStoredIffAlone(s: State, e: Event)
    requires Stored(s) && e.UploadEnds? && Possible(s, e)
    ensures Stored(Step(s, e)) <==> s.pending[e.id] == s.store.filesAdded
  {
    hide FileIdsRise, FilePath;
    var fs, next := s.store.files, s.store.filesAdded;
    var r := Step(s, e);
    var f := r.store.files[|fs|];
    if s.pending[e.id] == next {
      AddFileKeepsIds(fs, next, f);
      forall g | g in fs
        ensures HoldsUpload(r, g)
      {
        IdsAreUnique(fs, next, g);
        BelowNext(fs, next, g);
        WriteElsewhere(s, next, e.content, g);
      }
      assert HoldsUpload(r, f);
    } else if HoldsUpload(r, f) {
      FilePathInjective(s.pending[e.id], next);
    }
  }

  /** An upload that fails leaves the store sound if and only if it has not written other bytes over a listed
      file. */
  lemma FailedUploadStoredIff(s: State, e: Event)
    requires Stored(s) && e.UploadFails? && e.received.Some? && Possible(s, e)
    ensures Stored(Step(s, e)) <==>
            forall f :: f in s.store.files && f.id == s.pending[e.id] ==> s.uploads[f.id].content == e.received.value
  {
    hide FileIdsRise, FilePath;
    var r := Step(s, e);
    forall f | f in s.store.files
      ensures HoldsUpload(r, f) <==> (f.id == s.pending[e.id] ==> s.uploads[f.id].content == e.received.value)
    {
      BelowNext(s.store.files, s.store.filesAdded, f);
      assert HoldsUpload(s, f);
      if f.id != s.pending[e.id] {
        WriteElsewhere(s, s.pending[e.id], e.received.value, f);
      }
    }
  }

  lemma BelowNext(fs: seq<SharedFile>, added: nat, f: SharedFile)
    requires FileIdsRise(fs, added) && f in fs
    ensures f.id < added
  {
  }

  lemma RemovalsKeepStored(s: State, owner: Option<uint32>)
    requires Stored(s)
    ensures Stored(s.(store := RemoveEach(s.store, s.store.files, owner).0))
  {
    hide FileIdsRise, RemoveEach, FilePath, Kept, GonePaths, Goes;
    var fs, paths := s.store.files, DeletablePaths(s.store);
    var r := s.(store := RemoveEach(s.store, fs, owner).0);
    BulkRemoval(s.store, owner);
    RemoveEachShrinks(s.store, fs, owner);
    forall f | f in r.store.files
      ensures HoldsUpload(r, f)
    {
      KeptPathStays(s, owner, f);
      assert HoldsUpload(s, f);
    }
  }

  /** What is not removed keeps its content: no removed file has its path. */
  lemma KeptPathStays(s: State, owner: Option<uint32>, f: SharedFile)
    requires Stored(s) && f in s.store.files && f in RemoveEach(s.store, s.store.files, owner).0.files
    ensures f.path !in GonePaths(DeletablePaths(s.store), owner, s.store.files)
  {
    hide FileIdsRise, FilePath, RemoveEach, Kept, Goes;
    var fs, paths := s.store.files, DeletablePaths(s.store);
    BulkRemoval(s.store, owner);
    StoredPathsDistinct(s, owner);
    if f.path in GonePaths(paths, owner, fs) {
      var g :| g in fs && Visited(owner, g) && g.path in paths && g.path == f.path;
      assert HoldsUpload(s, f) && HoldsUpload(s, g);
      FilePathInjective(f.id, g.id);
      IdsAreUnique(fs, s.store.filesAdded, f);
      var i: nat :| i < |fs| && fs[i] == f;
      DistinctPathsGo(s.store, owner, i);
    }
  }

  lemma RemoveOneKeepsStored(s: State, id: uint32, file: uint32)
    requires Stored(s)
    ensures Stored(s.(store := RemoveOwn(s.store, id, file).0))
  {
    hide FileIdsRise, FilePath, RemoveFileById;
    var fs := s.store.files;
    var k := FileIndex(fs, file);
    var (store, removed) := RemoveOwn(s.store, id, file);
    if removed {
      RemoveFileKeepsIds(fs, s.store.filesAdded, file);
      var gone := fs[k];
      forall f | f in store.files
        ensures HoldsUpload(s.(store := store), f)
      {
        assert HoldsUpload(s, f) && HoldsUpload(s, gone);
        if f.path == gone.path {
          FilePathInjective(f.id, gone.id);
        }
      }
    }
  }

  /** A step leaves a sound store sound if and only if it found what it must. */
  lemma StepStored(s: State, e: Event)
    requires Stored(s)
    ensures Stored(Step(s, e)) <==> StoreSafe(s, e)
  {
    hide FileIdsRise, FilePath, RemoveEach, FileIndex, ClientIndex, RemoveClientById, HoldsUpload;
    if Possible(s, e) {
      match e
      case UploadEnds(_, _, _, _) => UploadStoredIffAlone(s, e);
      case UploadFails(id, received) =>
        if received.Some? {
          FailedUploadStoredIff(s, e);
          UploadsCover(s);
        } else {
          SameStored(s, Step(s, e));
        }
      case RemoveOne(id, file) => RemoveOneKeepsStored(s, id, file);
      case RemoveMine(id) => RemovalsKeepStored(s, Some(id));
      case Returned(id, ok) =>
        if s.fsm[id] == DISCONNECT && Listed(s.store, id) {
          RemovalsKeepStored(s, Some(id));
          RemoveEachFrame(s.store, s.store.files, Some(id));
          SameStored(s.(store := RemoveEach(s.store, s.store.files, Some(id)).0), Step(s, e));
        } else {
          SameStored(s, Step(s, e));
        }
      case _ => SameStored(s, Step(s, e));
    }
  }

  lemma UploadsCover(s: State)
    requires Stored(s)
    ensures forall f :: f in s.store.files ==> f.id < |s.uploads|
  {
  }

  lemma SameStored(s: State, r: State)
    requires r.store.files == s.store.files && r.store.filesAdded == s.store.filesAdded && r.store.disk == s.store.disk
    requires r.uploads == s.uploads
    ensures Stored(r) <==> Stored(s)
  {
    hide FileIdsRise, FilePath;
    assert forall f :: HoldsUpload(r, f) <==> HoldsUpload(s, f);
  }

  predicate StoredAlways(start: State, events: seq<Event>) {
    Stored(Run(start, events)) && (events != [] ==> StoredAlways(start, events[..|events| - 1]))
  }

  predicate AllStoreSafe(start: State, events: seq<Event>) {
    events != [] ==>
      && AllStoreSafe(start, events[..|events| - 1])
      && StoreSafe(Run(start, events[..|events| - 1]), events[|events| - 1])
  }

  /** In every run, all the time each listed file has its own path, made of its id, and its content on the disk
      is what its owner uploaded, if and only if every upload that ended or failed met its condition. */
  lemma {:induction false} StoredIffSafe(start: State, events: seq<Event>)
    requires IsStart(start)
    ensures StoredAlways(start, events) <==> AllStoreSafe(start, events)
    ensures StoredAlways(start, events) ==> Stored(Run(start, events))
  {
    hide Step, Stored, StoreSafe;
    if events == [] {
      StoredAtStart(start);
    } else {
      var front := events[..|events| - 1];
      StoredIffSafe(start, front);
      if Stored(Run(start, front)) {
        StepStored(Run(start, front), events[|events| - 1]);
      }
    }
  }

  lemma StoredAtStart(start: State)
    requires IsStart(start)
    ensures Stored(start)
  {
  }

  lemma {:induction false} UploadsOnlyGrow(start: State, events: seq<Event>, more: seq<Event>)
    ensures Run(start, events).uploads <= Run(start, events + more).uploads
    decreases |more|
  {
    if more == [] {
      assert events + more == events;
    } else {
      var front := more[..|more| - 1];
      UploadsOnlyGrow(start, events, front);
      assert (events + more)[..|events + more| - 1] == events + front;
    }
  }

  /** Store round trip: whatever happens after an upload, as long as its file is listed a download by its
      id resolves to it, and yields exactly the uploaded bytes. */
  lemma DownloadYieldsUpload(start: State, before: seq<Event>, e: Event, after: seq<Event>)
    requires IsStart(start) && AllStoreSafe(start, before + [e] + after)
    requires e.UploadEnds? && Possible(Run(start, before), e)
    ensures var s := Run(start, before + [e] + after).store;
            var id := Run(start, before).store.filesAdded;
            forall f :: f in s.files && f.id == id ==>
              && Resolve(s, Decimal(id), true) == Some(f)
              && f.clientId == e.id && f.name == e.name
              && f.path in s.disk && s.disk[f.path] == e.content
  {
    hide ClientIndex, FileIdsRise, Run, Resolve;
    var s0, s1, s := Run(start, before), Run(start, before + [e]), Run(start, before + [e] + after);
    RunStep(start, before, e);
    assert before + ([e] + after) == before + [e] + after;
    SafePrefix(start, before, [e] + after);
    StoredIffSafe(start, before);
    StoredIffSafe(start, before + [e] + after);
    UploadsOnlyGrow(start, before + [e], after);
    var id := s0.store.filesAdded;
    assert s1.uploads == s0.uploads + [Upload(e.id, e.name, e.content, e.size)];
    forall f | f in s.store.files && f.id == id
      ensures Resolve(s.store, Decimal(id), true) == Some(f)
    {
      assert FileIdsRise(s.store.files, s.store.filesAdded);
      ResolveById(s.store, f);
    }
    assert forall f :: f in s.store.files ==> HoldsUpload(s, f);
    assert s.uploads[id] == s1.uploads[id];
  }

  /** After any run, shutting the server down leaves no client, and exactly the files whose path cannot be
      deleted or was an earlier file's; none if and only if all could be deleted and had paths of their own. */
  lemma ShutdownLeaves(start: State, events: seq<Event>)
    requires IsStart(start)
    ensures var s := Run(start, events).store;
            var end, paths := Shutdown(s), DeletablePaths(s);
            && end.clients == []
            && (forall i :: 0 <= i < |s.files| ==> (s.files[i] in end.files <==> !Goes(paths, None, s.files, i)))
            && end.disk == s.disk - GonePaths(paths, None, s.files)
            && (end.files == [] <==> Removable(s, s.files, None))
  {
    hide Run, RemoveEach, FileIdsRise, Kept, GonePaths, Goes, Removable;
    IdsRiseThroughout(start, events);
    var s := Run(start, events).store;
    var s' := s.(clients := []);
    RemoveEachFrame(s', s'.files, None);
    BulkRemoval(s', None);
    AllRemovableGo(s', None);
    SameRemovable(s, s');
    var end := RemoveEach(s', s'.files, None).0;
    if end.files != [] {
      assert end.files[0] in end.files;
    }
  }

  lemma SameRemovable(s: Store, r: Store)
    requires r.files == s.files && r.disk == s.disk && r.undeletable == s.undeletable
    ensures Removable(r, r.files, None) <==> Removable(s, s.files, None)
    ensures DeletablePaths(r) == DeletablePaths(s)
  {
  }

  /** After a run that kept the store sound, nothing is left in the list exactly when the operating system
      refuses to delete none of the files; then none of them is left on the disk. */
  lemma ShutdownEmpties(start: State, events: seq<Event>)
    requires IsStart(start) && AllStoreSafe(start, events)
    ensures var s := Run(start, events).store;
            var end := Shutdown(s);
            && (end.files == [] <==> forall f :: f in s.files ==> f.path !in s.undeletable)
            && (end.files == [] ==> end.disk == s.disk - set f | f in s.files :: f.path)
  {
    hide Run, RemoveEach, FileIdsRise, Goes, FilePath, Shutdown;
    StoredIffSafe(start, events);
    ShutdownLeaves(start, events);
    var state := Run(start, events);
    var s := state.store;
    StoredPathsDistinct(state, None);
    assert forall f :: f in s.files ==> HoldsUpload(state, f);
    if Shutdown(s).files == [] {
      assert GonePaths(DeletablePaths(s), None, s.files) == set f | f in s.files :: f.path;
    }
  }

  lemma RunStep(start: State, events: seq<Event>, e: Event)
    ensures Run(start, events + [e]) == Step(Run(start, events), e)
  {
    assert (events + [e])[..|events|] == events;
  }

  lemma {:induction false} SafePrefix(start: State, events: seq<Event>, more: seq<Event>)
    requires AllStoreSafe(start, events + more)
    ensures AllStoreSafe(start, events)
    decreases |more|
  {
    if more == [] {
      assert events + more == events;
    } else {
      var front := more[..|more| - 1];
      assert (events + more)[..|events + more| - 1] == events + front;
      SafePrefix(start, events, front);
    }
  }

  /** Two uploads that overlap: both files get the path of id 0, which holds the second upload. */
  lemma OverlappingUploadsClash(start: State, a: seq<uint8>, b: seq<uint8>)
    requires IsStart(start) && |a| < TWO_TO_THE_32 && |b| < TWO_TO_THE_32
    ensures var s := Run(start, [Connected([], NULL), Connected([], NULL), UploadBegins(0), UploadBegins(1),
                                 UploadEnds(0, [], a, |a|), UploadEnds(1, [], b, |b|)]).store;
            && |s.files| == 2 && s.files[0].id == 0 && s.files[1].id == 1
            && s.files[0].path == s.files[1].path == FilePath(0)
            && FilePath(0) in s.disk && s.disk[FilePath(0)] == b
  {
    hide Run, FilePath;
    var (c0, c1, b0, b1) := (Connected([], NULL), Connected([], NULL), UploadBegins(0), UploadBegins(1));
    BothBegin(start);
    RunStep(start, [c0, c1, b0, b1], UploadEnds(0, [], a, |a|));
    RunStep(start, [c0, c1, b0, b1, UploadEnds(0, [], a, |a|)], UploadEnds(1, [], b, |b|));
    assert [c0, c1, b0, b1, UploadEnds(0, [], a, |a|)] + [UploadEnds(1, [], b, |b|)]
        == [c0, c1, b0, b1, UploadEnds(0, [], a, |a|), UploadEnds(1, [], b, |b|)];
    assert [c0, c1, b0, b1] + [UploadEnds(0, [], a, |a|)] == [c0, c1, b0, b1, UploadEnds(0, [], a, |a|)];
  }

  lemma RunFour(start: State, a: Event, b: Event, c: Event, d: Event)
    ensures Run(start, [a, b, c, d]) == Step(Step(Step(Step(start, a), b), c), d)
  {
    hide Step, Run;
    RunStep(start, [], a);
    RunStep(start, [a], b);
    RunStep(start, [a, b], c);
    RunStep(start, [a, b, c], d);
    assert Run(start, []) == start by { RunOfNone(start); }
    assert [] + [a] == [a] && [a] + [b] == [a, b] && [a, b] + [c] == [a, b, c] && [a, b, c] + [d] == [a, b, c, d];
  }

  lemma RunOfNone(start: State)
    ensures Run(start, []) == start
  {
  }

  lemma BothBegin(start: State)
    requires IsStart(start)
    ensures var s := Run(start, [Connected([], NULL), Connected([], NULL), UploadBegins(0), UploadBegins(1)]);
            && Listed(s.store, 0) && Listed(s.store, 1) && s.pending == map[0 := 0, 1 := 0]
            && s.store.files == [] && s.store.filesAdded == 0 && s.uploads == []
  {
    hide Run;
    RunFour(start, Connected([], NULL), Connected([], NULL), UploadBegins(0), UploadBegins(1));
    var s2 := Step(Step(start, Connected([], NULL)), Connected([], NULL));
    assert s2.store.clients[0].id == 0 && s2.store.clients[1].id == 1;
    assert Listed(s2.store, 0) && Listed(s2.store, 1);
  }

  /** An upload that read the same id as another and then fails leaves its bytes in the other's file. */
  lemma FailedUploadClashes(start: State, a: seq<uint8>, b: seq<uint8>)
    requires IsStart(start) && |a| < TWO_TO_THE_32
    ensures var s := Run(start, [Connected([], NULL), Connected([], NULL), UploadBegins(0), UploadBegins(1),
                                 UploadEnds(0, [], a, |a|), UploadFails(1, Some(b))]);
            && |s.store.files| == 1 && s.store.files[0].clientId == 0
            && s.uploads == [Upload(0, [], a, |a|)]
            && s.store.files[0].path in s.store.disk && s.store.disk[s.store.files[0].path] == b
  {
    hide Run, FilePath;
    var (c0, c1, b0, b1) := (Connected([], NULL), Connected([], NULL), UploadBegins(0), UploadBegins(1));
    BothBegin(start);
    RunStep(start, [c0, c1, b0, b1], UploadEnds(0, [], a, |a|));
    RunStep(start, [c0, c1, b0, b1, UploadEnds(0, [], a, |a|)], UploadFails(1, Some(b)));
    assert [c0, c1, b0, b1, UploadEnds(0, [], a, |a|)] + [UploadFails(1, Some(b))]
        == [c0, c1, b0, b1, UploadEnds(0, [], a, |a|), UploadFails(1, Some(b))];
    assert [c0, c1, b0, b1] + [UploadEnds(0, [], a, |a|)] == [c0, c1, b0, b1, UploadEnds(0, [], a, |a|)];
  }

  /** The documented cleanup fails: a file the system refuses to delete stays listed without an owner. */
  lemma UndeletableFileOrphaned(start: State)
    requires IsStart(start) && FilePath(0) in start.store.undeletable
    ensures !Integrity(Run(start, [Connected([], NULL), Started(0), UploadBegins(0), UploadEnds(0, [], [], 0),
                                   Returned(0, false), Returned(0, true)]))
  {
    hide Run, FilePath, RemoveEach;
    RunFour(start, Connected([], NULL), Started(0), UploadBegins(0), UploadEnds(0, [], [], 0));
    var begun := [Connected([], NULL), Started(0), UploadBegins(0), UploadEnds(0, [], [], 0)];
    RunStep(start, begun, Returned(0, false));
    RunStep(start, begun + [Returned(0, false)], Returned(0, true));
    assert begun + [Returned(0, false)] + [Returned(0, true)]
        == [Connected([], NULL), Started(0), UploadBegins(0), UploadEnds(0, [], [], 0), Returned(0, false), Returned(0, true)];
    var s := Run(start, begun + [Returned(0, false)]);
    StoredAndDisconnecting(start);
    StaysWithoutOwner(s);
  }

  lemma StoredAndDisconnecting(start: State)
    requires IsStart(start)
    ensures var s := Step(Step(Step(Step(Step(start, Connected([], NULL)), Started(0)), UploadBegins(0)),
                               UploadEnds(0, [], [], 0)), Returned(0, false));
            && 0 in s.fsm && s.fsm[0] == DISCONNECT && |s.store.clients| == 1 && s.store.clients[0].id == 0
            && s.store.files == [SharedFile(0, FilePath(0), [], 0, 0)] && s.store.undeletable == start.store.undeletable
  {
    hide FilePath;
    var s1 := Step(start, Connected([], NULL));
    assert s1.store.clients[0].id == 0 && Listed(s1.store, 0);
    var s2 := Step(s1, Started(0));
    assert s2.store.clients[0].id == 0 && Listed(s2.store, 0);
  }

  lemma StaysWithoutOwner(s: State)
    requires 0 in s.fsm && s.fsm[0] == DISCONNECT && |s.store.clients| == 1 && s.store.clients[0].id == 0
    requires s.store.files == [SharedFile(0, FilePath(0), [], 0, 0)] && FilePath(0) in s.store.undeletable
    ensures !Integrity(Step(s, Returned(0, true)))
  {
    hide FilePath;
    var f := s.store.files[0];
    assert s.store.files[1..] == [] && FileIndex(s.store.files, 0) == 0;
    assert !RemoveShared(s.store, 0).1;
    assert RemoveEach(s.store, [], Some(0)) == (s.store, 0);
    assert RemoveClientFiles(s.store, 0).0 == s.store;
    assert ClientIndex(s.store.clients, 0) == 0;
    var r := Step(s, Returned(0, true)).store;
    assert r.clients == [] && f in r.files;
  }
}
