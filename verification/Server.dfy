/** The server's own lists and disk, and the handlers that change them; each handler is proved to do to
    them exactly what the functions of Registry say. */
module Servers {
  import opened Bytes
  import opened ClientLists
  import opened LinkedLists
  import opened Records
  import opened Registry
  import opened SharedFileLists
  import opened Storage

  class Server {
    const clientList: ClientList
    const fileList: SharedFileList
    const disk: Disk

    ghost predicate Valid()
      reads clientList, clientList.list, clientList.list.nodes, fileList, fileList.list, fileList.list.nodes
    {
      clientList.Valid() && fileList.Valid()
    }

    /** The registry this server holds. */
    ghost function Model(): Store
      reads clientList, clientList.list, clientList.list.nodes, fileList, fileList.list, fileList.list.nodes, disk
    {
      Store(clientList.Clients(), clientList.added, fileList.Files(), fileList.added, disk.files, disk.undeletable)
    }

    constructor (disk: Disk)
      ensures Valid() && this.disk == disk
      ensures Model() == Store([], 0, [], 0, disk.files, disk.undeletable)
    {
      clientList := new ClientList();
      fileList := new SharedFileList();
      this.disk := disk;
    }

    method RemoveSharedFile(id: uint32) returns (removed: bool)
      requires Valid()
      modifies fileList, fileList.list, fileList.list.nodes, disk
      ensures Valid() && fileList.added == old(fileList.added)
      ensures (Model(), removed) == RemoveShared(old(Model()), id)
      ensures fileList.list.nodes == if removed
                                     then Without(old(fileList.list.nodes), FileIndex(old(fileList.Files()), id))
                                     else old(fileList.list.nodes)
    {
      hide fileList.list.Valid, fileList.list.Contents, FileIndex, FileIdsRise, ClientIdsRise;
      ghost var s := Model();
      var file := fileList.FindById(id);
      if file == null {
        return false;
      }
      assert file.data == s.files[FileIndex(s.files, id)];
      removed := disk.Remove(file.data.path);
      assert Valid() && fileList.Files() == s.files && clientList.Clients() == s.clients;
      if removed {
        removed := fileList.Remove(file.data.id);
        assert clientList.Valid() && clientList.Clients() == s.clients;
      }
    }

    /** The body of the removal loop, for the file at index `j`; `s0` is the registry the loop began with. */
    method VisitFile(file: Node<SharedFile>, owner: Option<uint32>, count: nat, ghost j: nat, ghost s0: Store)
      returns (removed: bool)
      requires Valid() && fileList.added <= TWO_TO_THE_32
      requires j < |fileList.list.nodes| && file == fileList.list.nodes[j]
      requires Progress(s0, Model(), j, owner, count)
      modifies fileList, fileList.list, fileList.list.nodes, disk
      ensures Valid() && fileList.added == old(fileList.added)
      ensures |fileList.list.nodes| == |old(fileList.list.nodes)| - if removed then 1 else 0
      ensures forall n :: n in fileList.list.nodes ==> n in old(fileList.list.nodes)
      ensures fileList.list.NodeAt(if removed then j else j + 1) == old(fileList.list.NodeAt(j + 1))
      ensures Progress(s0, Model(), if removed then j else j + 1, owner, if removed then count + 1 else count)
    {
      hide fileList.list.Contents, fileList.list.Valid, FileIndex, FileIdsRise, ClientIdsRise, RemoveEach, RemoveShared,
        RemoveFileById, Progress, Turn;
      ghost var s := Model();
      LoopTurn(s, j, owner);
      removed := false;
      if Visited(owner, file.data) {
        removed := RemoveSharedFile(file.data.id);
      }
      TurnProgresses(s0, s, Model(), j, owner, count, removed);
    }

    /** The loop of server_remove_client_files, and with no owner that of remove_all_shared_files: walks the
        list with an iterator while files are taken out of it. The iterator moves past a file before yielding
        it, so it always stands on a node that is still in the list, or at its end. */
    method RemoveVisited(owner: Option<uint32>) returns (removedCount: nat)
      requires Valid() && fileList.added <= TWO_TO_THE_32
      modifies fileList, fileList.list, fileList.list.nodes, disk
      ensures Valid() && (Model(), removedCount) == RemoveEach(old(Model()), old(Model()).files, owner)
    {
      hide Valid, Model, fileList.list.Valid, fileList.list.Contents, RemoveEach, Progress;
      ghost var s0, nodes0 := Model(), fileList.list.nodes;
      ghost var j := 0;
      removedCount := 0;
      LinksAt(0);
      var it := new Iterator(fileList.list);
      var file := it.Next();
      ProgressAtStart(s0, owner);
      while file != null
        invariant Valid() && fileList.added == old(fileList.added)
        invariant j <= |fileList.list.nodes|
        invariant file == fileList.list.NodeAt(j)
        invariant it.current == fileList.list.NodeAt(if file == null then j else j + 1)
        invariant forall n :: n in fileList.list.nodes ==> n in nodes0
        invariant Progress(s0, Model(), j, owner, removedCount)
        decreases |fileList.list.nodes| - j
      {
        assert forall i :: 0 <= i < |fileList.list.nodes| ==> fileList.list.nodes[i] in nodes0;
        var removed := VisitFile(file, owner, removedCount, j, s0);
        if removed {
          removedCount := removedCount + 1;
        } else {
          j := j + 1;
        }
        LinksAt(j);
        file := it.Next();
      }
      LinksAt(j);
      NothingLeft(s0, Model(), j, owner, removedCount);
    }

    method RemoveClientFiles(clientId: uint32) returns (removedCount: nat)
      requires Valid() && fileList.added <= TWO_TO_THE_32
      modifies fileList, fileList.list, fileList.list.nodes, disk
      ensures Valid() && (Model(), removedCount) == Registry.RemoveClientFiles(old(Model()), clientId)
    {
      hide Valid, Model, RemoveEach;
      removedCount := RemoveVisited(Some(clientId));
    }

    /** What server_free does to the disk once the clients are gone. */
    method RemoveAllSharedFiles()
      requires Valid() && fileList.added <= TWO_TO_THE_32
      modifies fileList, fileList.list, fileList.list.nodes, disk
      ensures Valid() && Model() == RemoveEach(old(Model()), old(Model()).files, None).0
    {
      hide Valid, Model, RemoveEach;
      var _ := RemoveVisited(None);
    }

    // ----- clients -----

    method FindClient(id: uint32) returns (client: Node?<Client>)
      requires Valid()
      ensures client == clientList.list.NodeAt(ClientIndex(Model().clients, id))
      ensures (client == null) == (ClientIndex(Model().clients, id) == |Model().clients|)
      ensures client != null ==> client.data == Model().clients[ClientIndex(Model().clients, id)]
    {
      client := clientList.FindById(id);
    }

    method CountClients() returns (n: nat)
      requires Valid()
      ensures n == |Model().clients|
    {
      n := clientList.Length();
    }

    method HasClientNamed(name: CString) returns (found: bool)
      requires Valid()
      ensures found == (UsernameIndex(Model().clients, name) < |Model().clients|)
    {
      var client := clientList.FindByName(name);
      found := client != null;
    }

    /** Writes through the pointer to a client. */
    method SetClient(node: Node<Client>, ghost k: nat, c: Client)
      requires Valid() && k < |clientList.list.nodes| && node == clientList.list.nodes[k] && c.id == node.data.id
      modifies node
      ensures Valid() && Model() == old(Model()).(clients := old(Model()).clients[k := c])
    {
      hide fileList.Valid, fileList.Files, clientList.list.Contents, ClientIdsRise;
      clientList.Update(node, k, c);
    }

    method AddClient(memory: Client) returns (node: Node<Client>)
      requires Valid()
      modifies clientList, clientList.list, clientList.list.nodes
      ensures Valid() && clientList.list.nodes == old(clientList.list.nodes) + [node] && fresh(node)
      ensures var s, id := old(Model()), old(Model()).clientsAdded % TWO_TO_THE_32;
              Model() == s.(clients := s.clients + [memory.(id := id)], clientsAdded := s.clientsAdded + 1)
      ensures node.data == memory.(id := old(Model()).clientsAdded % TWO_TO_THE_32)
    {
      hide fileList.Valid, fileList.Files, clientList.list.Contents, ClientIdsRise;
      node := clientList.Add(memory);
      assert clientList.Clients()[|old(clientList.list.nodes)|] == node.data;
    }

    /** server_run registers a client and initialises its fields; the state field keeps what the memory held. */
    method AcceptClient(ip: CString, memory: Client) returns (id: uint32)
      requires Valid()
      modifies clientList, clientList.list, clientList.list.nodes
      ensures Valid() && Model() == Accept(old(Model()), ip, memory.state)
      ensures id == old(Model()).clientsAdded % TWO_TO_THE_32
    {
      hide Valid, Model;
      ghost var s := Model();
      ClientLinksAt(0);
      ghost var k := |s.clients|;
      var node := AddClient(memory);
      id := node.data.id;
      SetClient(node, k, Client(id, UNNAMED, ip, node.data.state));
      assert (s.clients + [memory.(id := id)])[k := Client(id, UNNAMED, ip, memory.state)]
          == s.clients + [Client(id, UNNAMED, ip, memory.state)];
    }

    /** One turn of the login loop: takes the name unless a listed client has it. */
    method LoginAttempt(id: uint32, username: CString) returns (logged: bool)
      requires Valid() && Listed(Model(), id)
      modifies clientList.list.nodes
      ensures Valid() && (Model(), logged) == Login(old(Model()), id, username)
      ensures logged <==> NameFree(old(Model()), username)
    {
      hide Valid, Model, ClientIndex, UsernameIndex, NameFree;
      LoginIffFree(Model(), id, username);
      ghost var k := ClientIndex(Model().clients, id);
      ClientLinksAt(k);
      var client := FindClient(id);
      var taken := HasClientNamed(username);
      logged := !taken;
      if logged {
        SetClient(client, k, client.data.(name := username));
      }
    }

    /** The state machine stores the state it enters in the client. */
    method EnterState(id: uint32, state: AppState)
      requires Valid() && Listed(Model(), id)
      modifies clientList.list.nodes
      ensures Valid()
      ensures Model() == UpdateClient(old(Model()), old(Model()).clients[ClientIndex(old(Model()).clients, id)].(state := state))
    {
      hide Valid, Model, ClientIndex;
      ghost var k := ClientIndex(Model().clients, id);
      ClientLinksAt(k);
      var client := FindClient(id);
      SetClient(client, k, client.data.(state := state));
    }

    method RemoveClient(id: uint32)
      requires Valid()
      modifies clientList, clientList.list, clientList.list.nodes
      ensures Valid() && Model() == old(Model()).(clients := RemoveClientById(old(Model()).clients, id))
    {
      hide fileList.Valid, fileList.Files, clientList.list.Contents, ClientIdsRise, RemoveClientById;
      var _ := clientList.Remove(id);
    }

    /** handle_state_disconnect, without its notifications: the client's files go first, then the client. */
    method Disconnect(id: uint32)
      requires Valid() && fileList.added <= TWO_TO_THE_32
      modifies clientList, clientList.list, clientList.list.nodes, fileList, fileList.list, fileList.list.nodes, disk
      ensures Valid() && Model() == Leave(old(Model()), id)
    {
      hide Valid, Model, ClientIndex, RemoveEach, RemoveClientById;
      var client := FindClient(id);
      if client == null {
        return;
      }
      ghost var s, clients := Model(), clientList.list.nodes;
      RemoveEachFrame(s, s.files, Some(id));
      var clientId := client.data.id;
      var _ := RemoveClientFiles(clientId);
      RemoveClient(clientId);
    }

    method FindFile(id: uint32) returns (file: Option<SharedFile>)
      requires Valid()
      ensures file == if FileIndex(Model().files, id) < |Model().files| then Some(Model().files[FileIndex(Model().files, id)]) else None
    {
      var node := fileList.FindById(id);
      file := if node == null then None else Some(node.data);
    }

    // ----- uploads -----

    method NextFileId() returns (id: uint32)
      requires Valid()
      ensures id == Model().filesAdded % TWO_TO_THE_32
    {
      id := fileList.GetNextId();
    }

    /** The end of an upload: the content is on the disk under the id read before it was received. */
    method AddUploadedFile(owner: uint32, idRead: uint32, name: CString, size: uint32)
      requires Valid() && FilePath(idRead) in disk.files
      modifies fileList, fileList.list, fileList.list.nodes
      ensures Valid()
      ensures Model() == AddUpload(old(Model()), owner, idRead, name, disk.files[FilePath(idRead)], size)
    {
      hide clientList.Valid, clientList.Clients, fileList.list.Contents, FileIdsRise, FilePath;
      ghost var k := |fileList.list.nodes|;
      var file := fileList.Add(SharedFile(0, [], [], 0, 0));
      fileList.Update(file, k, SharedFile(file.data.id, FilePath(idRead), name, size, owner));
      assert disk.files[FilePath(idRead) := disk.files[FilePath(idRead)]] == disk.files;
    }

    // ----- walks over the lists -----

    /** The client list's own iterator stands on the client at index `k`, or at the end. */
    ghost predicate AtClient(k: nat)
      reads clientList, clientList.list, clientList.it
    {
      k <= |clientList.list.nodes| && clientList.it.current == clientList.list.NodeAt(k)
    }

    method FirstClient() returns (client: Node?<Client>)
      requires Valid()
      modifies clientList.it
      ensures Valid() && Model() == old(Model())
      ensures (client == null) == (Model().clients == [])
      ensures client != null ==> client.data == Model().clients[0] && AtClient(1)
    {
      hide Valid, Model, clientList.list.Valid;
      ClientLinksAt(0);
      clientList.IteratorRewind();
      client := NextClient(0);
    }

    method NextClient(ghost k: nat) returns (client: Node?<Client>)
      requires Valid() && AtClient(k)
      modifies clientList.it
      ensures Valid() && Model() == old(Model()) && k <= |Model().clients|
      ensures (client == null) == (k == |Model().clients|)
      ensures client != null ==> client.data == Model().clients[k] && AtClient(k + 1)
    {
      hide Valid, Model, clientList.list.Valid;
      ClientLinksAt(k);
      client := clientList.IteratorNext();
    }

    /** The iterator stands on the file at index `k`, or at the end. */
    ghost predicate AtFile(it: Iterator<SharedFile>, k: nat)
      reads it, fileList.list
    {
      k <= |fileList.list.nodes| && it.current == fileList.list.NodeAt(k)
    }

    method NewFileIterator() returns (it: Iterator<SharedFile>)
      requires Valid()
      ensures fresh(it) && AtFile(it, 0)
    {
      hide Valid, Model;
      LinksAt(0);
      it := new Iterator(fileList.list);
    }

    method NextFile(it: Iterator<SharedFile>, ghost k: nat) returns (file: Node?<SharedFile>)
      requires Valid() && AtFile(it, k)
      modifies it
      ensures Valid() && Model() == old(Model()) && k <= |Model().files|
      ensures (file == null) == (k == |Model().files|)
      ensures file != null ==> file.data == Model().files[k] && AtFile(it, k + 1)
    {
      hide Valid, Model;
      LinksAt(k);
      file := it.Next();
    }

    lemma LinksAt(j: nat)
      requires Valid() && j <= |fileList.list.nodes|
      ensures |Model().files| == |fileList.list.nodes|
      ensures fileList.list.head == fileList.list.NodeAt(0)
      ensures fileList.list.NodeAt(j) == if j < |fileList.list.nodes| then fileList.list.nodes[j] else null
      ensures j < |fileList.list.nodes| ==>
                && fileList.list.nodes[j].next == fileList.list.NodeAt(j + 1)
                && fileList.list.nodes[j].data == Model().files[j]
    {
    }

    lemma ClientLinksAt(j: nat)
      requires Valid()
      ensures clientList.list.Valid()
      ensures |Model().clients| == |clientList.list.nodes|
      ensures clientList.list.head == clientList.list.NodeAt(0)
      ensures clientList.list.NodeAt(j) == if j < |clientList.list.nodes| then clientList.list.nodes[j] else null
      ensures j < |clientList.list.nodes| ==>
                && clientList.list.nodes[j].next == clientList.list.NodeAt(j + 1)
                && clientList.list.nodes[j].data == Model().clients[j]
    {
    }

    lemma ClientIds()
      requires Valid()
      ensures clientList.added == Model().clientsAdded
      ensures clientList.added <= TWO_TO_THE_32 ==> ClientIdsRise(Model().clients, Model().clientsAdded)
    {
    }

    lemma Added()
      ensures fileList.added == Model().filesAdded
    {
    }

  }

  /** One turn of the removal loop at index `j`, from `s` to `next`: what is still to do afterwards, and the
      file counted now, make up what there was to do before. */
  ghost predicate Turn(s: Store, next: Store, j: nat, owner: Option<uint32>, removed: bool) {
    && j < |s.files| && (if removed then j else j + 1) <= |next.files|
    && var o := RemoveEach(next, next.files[if removed then j else j + 1..], owner);
       RemoveEach(s, s.files[j..], owner) == (o.0, o.1 + if removed then 1 else 0)
  }

  /** What the loop has done and what is still to do from index `j` make up the whole removal. */
  ghost predicate Progress(s0: Store, s: Store, j: nat, owner: Option<uint32>, count: nat) {
    && j <= |s.files|
    && var o := RemoveEach(s, s.files[j..], owner);
       RemoveEach(s0, s0.files, owner) == (o.0, count + o.1)
  }

  lemma ProgressAtStart(s0: Store, owner: Option<uint32>)
    ensures Progress(s0, s0, 0, owner, 0)
  {
    assert s0.files[0..] == s0.files;
  }

  lemma TurnProgresses(s0: Store, s: Store, next: Store, j: nat, owner: Option<uint32>, count: nat, removed: bool)
    requires Progress(s0, s, j, owner, count) && Turn(s, next, j, owner, removed)
    ensures Progress(s0, next, if removed then j else j + 1, owner, if removed then count + 1 else count)
  {
  }

  lemma NothingLeft(s0: Store, s: Store, j: nat, owner: Option<uint32>, count: nat)
    requires Progress(s0, s, j, owner, count) && j == |s.files|
    ensures RemoveEach(s0, s0.files, owner) == (s, count)
  {
  }

  lemma LoopTurn(s: Store, j: nat, owner: Option<uint32>)
    requires j < |s.files| && FileIdsRise(s.files, s.filesAdded)
    ensures FileIndex(s.files, s.files[j].id) == j
    ensures var (next, removed) := RemoveShared(s, s.files[j].id);
            if Visited(owner, s.files[j]) then Turn(s, next, j, owner, removed) else Turn(s, s, j, owner, false)
  {
    hide FileIdsRise, FileIndex, Deletable;
    FileIndexUnique(s.files, s.filesAdded, j);
    var todo := s.files[j..];
    assert todo == [s.files[j]] + s.files[j + 1..];
    assert todo[1..] == s.files[j + 1..];
    var (next, removed) := RemoveShared(s, s.files[j].id);
    if removed {
      assert next.files[j..] == s.files[j + 1..];
    }
  }
}
