/** The server's registry of clients and shared files as a value, and what each handler does to it. */
module Registry {
  import opened Bytes
  import opened Constructors
  import opened Records
  import opened Storage

  // ----- decimal file names -----

  /** sprintf with "%i". */
  function Decimal(n: nat): (s: CString)
    ensures s != [] && forall i :: 0 <= i < |s| ==> IsDigit(s[i])
  {
    if n < 10 then [48 + n] else Decimal(n / 10) + [48 + n % 10]
  }

  predicate IsDigit(c: uint8) {
    48 <= c <= 57
  }

  predicate IsSpace(c: uint8) {
    c == 32 || 9 <= c <= 13
  }

  /** The value of the digits at the front, on top of the value read so far. */
  function LeadingDigits(s: seq<uint8>, acc: int): int {
    if s == [] || !IsDigit(s[0]) then acc else LeadingDigits(s[1..], 10 * acc + (s[0] - 48))
  }

  /** atoi: white space, an optional sign, digits. */
  function Atoi(s: seq<uint8>): int {
    if s == [] then 0
    else if IsSpace(s[0]) then Atoi(s[1..])
    else if s[0] == 45 then -LeadingDigits(s[1..], 0)
    else if s[0] == 43 then LeadingDigits(s[1..], 0)
    else LeadingDigits(s, 0)
  }

  lemma {:induction false} LeadingDigitsAppend(s: seq<uint8>, d: uint8, acc: int)
    requires IsDigit(d) && forall i :: 0 <= i < |s| ==> IsDigit(s[i])
    ensures LeadingDigits(s + [d], acc) == 10 * LeadingDigits(s, acc) + (d - 48)
  {
    if s == [] {
      assert [d][1..] == [];
    } else {
      assert (s + [d])[1..] == s[1..] + [d];
      LeadingDigitsAppend(s[1..], d, 10 * acc + (s[0] - 48));
    }
  }

  lemma {:induction false} LeadingDigitsOfDecimal(n: nat)
    ensures LeadingDigits(Decimal(n), 0) == n
  {
    if n < 10 {
      assert [48 + n][1..] == [];
    } else {
      LeadingDigitsOfDecimal(n / 10);
      LeadingDigitsAppend(Decimal(n / 10), 48 + n % 10, 0);
    }
  }

  /** The id a user copies from the file listing is read back as that id. */
  lemma AtoiOfDecimal(n: nat)
    ensures Atoi(Decimal(n)) == n
  {
    LeadingDigitsOfDecimal(n);
    assert IsDigit(Decimal(n)[0]);
  }

  const UPLOADS: Path := Ascii("resources/uploads")

  /** Where the server stores the file with the given id. */
  function FilePath(id: nat): Path {
    Concat(UPLOADS, Decimal(id))
  }

  lemma FilePathInjective(a: nat, b: nat)
    requires FilePath(a) == FilePath(b)
    ensures a == b
  {
    var n := |UPLOADS + SEPARATOR|;
    assert FilePath(a)[n..] == Decimal(a) && FilePath(b)[n..] == Decimal(b);
    LeadingDigitsOfDecimal(a);
    LeadingDigitsOfDecimal(b);
  }

  /** The file names of ids below this fit their buffer. */
  const MAX_FILE_ID := 1_000_000_000

  // ----- the registry -----

  datatype Store = Store(
    clients: seq<Client>,
    clientsAdded: nat,
    files: seq<SharedFile>,
    filesAdded: nat,
    disk: map<Path, seq<uint8>>,
    undeletable: set<Path>)

  const UNNAMED: CString := Ascii("unnamed")

  /** server_run registers a client that has connected; its state field holds whatever the memory held. */
  function Accept(s: Store, ip: CString, memory: AppState): Store {
    s.(clients := s.clients + [Client(s.clientsAdded % TWO_TO_THE_32, UNNAMED, ip, memory)],
       clientsAdded := s.clientsAdded + 1)
  }

  function Listed(s: Store, id: uint32): bool {
    ClientIndex(s.clients, id) < |s.clients|
  }

  function UpdateClient(s: Store, c: Client): Store {
    var k := ClientIndex(s.clients, c.id);
    if k < |s.clients| then s.(clients := s.clients[k := c]) else s
  }

  /** One login attempt: refused when any listed client has the name. */
  function Login(s: Store, id: uint32, username: CString): (Store, bool) {
    var k := ClientIndex(s.clients, id);
    if k < |s.clients| && UsernameIndex(s.clients, username) == |s.clients|
    then (s.(clients := s.clients[k := s.clients[k].(name := username)]), true)
    else (s, false)
  }

  /** No listed client has the name. */
  predicate NameFree(s: Store, name: CString) {
    forall c :: c in s.clients ==> c.name != name
  }

  /** A listed client is accepted if and only if the name is free, whoever it is; then it has the name, and
      nothing else changes. A refusal changes nothing. */
  lemma LoginIffFree(s: Store, id: uint32, name: CString)
    requires Listed(s, id)
    ensures Login(s, id, name).1 <==> NameFree(s, name)
    ensures !NameFree(s, name) ==> Login(s, id, name).0 == s
    ensures NameFree(s, name) ==>
              var r := Login(s, id, name).0;
              && r == s.(clients := r.clients) && |r.clients| == |s.clients|
              && forall i :: 0 <= i < |s.clients| ==>
                   r.clients[i] == if i == ClientIndex(s.clients, id) then s.clients[i].(name := name) else s.clients[i]
  {
    var i := UsernameIndex(s.clients, name);
    if i < |s.clients| {
      assert s.clients[i] in s.clients;
    }
  }

  predicate Deletable(s: Store, path: Path) {
    path in s.disk && path !in s.undeletable
  }

  /** server_remove_shared_file: from the disk first, and from the list only when that succeeded. */
  function RemoveShared(s: Store, id: uint32): (Store, bool) {
    var k := FileIndex(s.files, id);
    if k < |s.files| && Deletable(s, s.files[k].path)
    then (s.(files := RemoveFileById(s.files, id), disk := s.disk - {s.files[k].path}), true)
    else (s, false)
  }

  /** The removal loop over the files still to visit; `owner` None stands for everybody's files. */
  function RemoveEach(s: Store, todo: seq<SharedFile>, owner: Option<uint32>): (Store, nat)
    decreases |todo|
  {
    if todo == [] then (s, 0)
    else if Visited(owner, todo[0]) then
      var (next, removed) := RemoveShared(s, todo[0].id);
      var (end, n) := RemoveEach(next, todo[1..], owner);
      (end, n + if removed then 1 else 0)
    else RemoveEach(s, todo[1..], owner)
  }

  function RemoveClientFiles(s: Store, id: uint32): (Store, nat) {
    RemoveEach(s, s.files, Some(id))
  }

  /** handle_state_disconnect. */
  function Leave(s: Store, id: uint32): Store {
    if !Listed(s, id) then s
    else
      var (cleaned, _) := RemoveClientFiles(s, id);
      cleaned.(clients := RemoveClientById(s.clients, id))
  }

  /** server_free: every client goes, then every file that can be removed. */
  function Shutdown(s: Store): Store {
    var s' := s.(clients := []);
    RemoveEach(s', s'.files, None).0
  }

  /** The end of an upload: the content was received at the path of the id read at the start, and the
      file joins the list under the id that is next now. */
  function AddUpload(s: Store, owner: uint32, idRead: uint32, name: CString, content: seq<uint8>, size: uint32): Store {
    s.(files := s.files + [SharedFile(s.filesAdded % TWO_TO_THE_32, FilePath(idRead), name, size, owner)],
       filesAdded := s.filesAdded + 1,
       disk := s.disk[FilePath(idRead) := content])
  }

  /** server_task_remove_file for a single file. */
  function RemoveOwn(s: Store, client: uint32, file: uint32): (Store, bool) {
    var k := FileIndex(s.files, file);
    if k == |s.files| || s.files[k].clientId != client then (s, false) else RemoveShared(s, file)
  }

  /** The file a download resolves to, None when there is none or several. */
  function Resolve(s: Store, name: CString, byId: bool): Option<SharedFile> {
    if byId then
      var k := FileIndex(s.files, Atoi(name) % TWO_TO_THE_32);
      if k < |s.files| then Some(s.files[k]) else None
    else
      CountedIsIndexed(s.files, name);
      if NameCount(s.files, name) == 1 then Some(s.files[NameIndex(s.files, name)]) else None
  }

  /** The file at index `i` is the only one with the given name. */
  predicate OnlyOne(fs: seq<SharedFile>, name: CString, i: nat) {
    && i < |fs| && fs[i].name == name
    && forall j :: 0 <= j < |fs| && fs[j].name == name ==> j == i
  }

  lemma {:induction false} NameCountOne(fs: seq<SharedFile>, name: CString)
    ensures NameCount(fs, name) == 1 ==> OnlyOne(fs, name, NameIndex(fs, name))
  {
    if fs != [] {
      var rest := fs[1..];
      NameCountOne(rest, name);
      CountedIsIndexed(rest, name);
      assert forall j :: 0 < j < |fs| ==> fs[j] == rest[j - 1];
    }
  }

  lemma {:induction false} OnlyOneCounts(fs: seq<SharedFile>, name: CString, i: nat)
    requires OnlyOne(fs, name, i)
    ensures NameCount(fs, name) == 1 && NameIndex(fs, name) == i
  {
    var rest := fs[1..];
    if i > 0 {
      assert OnlyOne(rest, name, i - 1);
      OnlyOneCounts(rest, name, i - 1);
    } else {
      assert forall j :: 0 <= j < |rest| ==> rest[j] == fs[j + 1];
      CountedIsIndexed(rest, name);
    }
  }

  /** A download by name finds a file exactly when one listed file has the name, and then that one. */
  lemma ResolveByName(s: Store, name: CString, f: SharedFile)
    ensures Resolve(s, name, false) == Some(f) <==> exists i: nat :: OnlyOne(s.files, name, i) && s.files[i] == f
  {
    NameCountOne(s.files, name);
    if i: nat :| OnlyOne(s.files, name, i) && s.files[i] == f {
      OnlyOneCounts(s.files, name, i);
    }
  }

  /** A download by id finds the listed file with that id. */
  lemma ResolveById(s: Store, f: SharedFile)
    requires FileIdsRise(s.files, s.filesAdded) && f in s.files
    ensures Resolve(s, Decimal(f.id), true) == Some(f)
  {
    hide FileIdsRise, Atoi, Decimal, FileIndex;
    AtoiOfDecimal(f.id);
    var k: nat :| 0 <= k < |s.files| && s.files[k] == f;
    FileIndexUnique(s.files, s.filesAdded, k);
  }

  /** By id, a download resolves to a file if and only if the file is listed under the number it asks for. */
  lemma ResolveByIdIff(s: Store, name: CString, f: SharedFile)
    requires FileIdsRise(s.files, s.filesAdded)
    ensures Resolve(s, name, true) == Some(f) <==> f in s.files && f.id == Atoi(name) % TWO_TO_THE_32
  {
    hide FileIdsRise, Atoi;
    if f in s.files {
      var k: nat :| k < |s.files| && s.files[k] == f;
      FileIndexUnique(s.files, s.filesAdded, k);
    }
  }

  /** So it resolves to nothing if and only if no listed file has the number. */
  lemma UnlistedIdResolvesToNothing(s: Store, name: CString)
    requires FileIdsRise(s.files, s.filesAdded)
    ensures Resolve(s, name, true) == None <==> forall f :: f in s.files ==> f.id != Atoi(name) % TWO_TO_THE_32
  {
    hide FileIdsRise, Atoi;
    match Resolve(s, name, true)
    case Some(f) => ResolveByIdIff(s, name, f);
    case None =>
      forall f | f in s.files
        ensures f.id != Atoi(name) % TWO_TO_THE_32
      {
        ResolveByIdIff(s, name, f);
      }
  }

  // ----- removal of one file -----

  /** A client removes a listed file by its id if and only if the file is its own and can be deleted; then the
      list is without exactly this file, in order, and the disk without exactly its path. */
  lemma RemoveOwnIff(s: Store, client: uint32, i: nat)
    requires FileIdsRise(s.files, s.filesAdded) && i < |s.files|
    ensures var f := s.files[i];
            var (r, removed) := RemoveOwn(s, client, f.id);
            && (removed <==> f.clientId == client && Deletable(s, f.path))
            && r == if removed then s.(files := s.files[..i] + s.files[i + 1..], disk := s.disk - {f.path}) else s
  {
    hide FileIdsRise, Deletable;
    FileIndexUnique(s.files, s.filesAdded, i);
  }

  /** Asking for an id that is not listed removes nothing. */
  lemma RemoveOwnUnlisted(s: Store, client: uint32, file: uint32)
    requires forall f :: f in s.files ==> f.id != file
    ensures RemoveOwn(s, client, file) == (s, false)
  {
  }

  // ----- bulk removal -----

  /** The removal loop is about this file. */
  predicate Visited(owner: Option<uint32>, f: SharedFile) {
    owner == None || f.clientId == owner.value
  }

  predicate DistinctPaths(fs: seq<SharedFile>, owner: Option<uint32>) {
    forall i, j :: 0 <= i < j < |fs| && Visited(owner, fs[i]) && Visited(owner, fs[j]) ==> fs[i].path != fs[j].path
  }

  /** The paths that can be deleted. */
  function DeletablePaths(s: Store): set<Path> {
    s.disk.Keys - s.undeletable
  }

  /** The files the loop leaves in the list, in their order, while `paths` can be deleted: of several visited
      files with one path the first one takes the path with it, and the others stay. */
  function Kept(paths: set<Path>, owner: Option<uint32>, fs: seq<SharedFile>): seq<SharedFile> {
    if fs == [] then []
    else if Visited(owner, fs[0]) && fs[0].path in paths then Kept(paths - {fs[0].path}, owner, fs[1..])
    else [fs[0]] + Kept(paths, owner, fs[1..])
  }

  function GonePaths(paths: set<Path>, owner: Option<uint32>, fs: seq<SharedFile>): set<Path> {
    set f | f in fs && Visited(owner, f) && f.path in paths :: f.path
  }

  /** The loop visits the file at index `i`, its path could be deleted before the loop, and no file visited
      earlier has the same path. */
  predicate Goes(paths: set<Path>, owner: Option<uint32>, fs: seq<SharedFile>, i: nat) {
    && i < |fs| && Visited(owner, fs[i]) && fs[i].path in paths
    && forall j :: 0 <= j < i && Visited(owner, fs[j]) ==> fs[j].path != fs[i].path
  }

  /** The paths that can still be deleted after the loop has visited the file. */
  function PathsAfter(paths: set<Path>, owner: Option<uint32>, f: SharedFile): set<Path> {
    if Visited(owner, f) then paths - {f.path} else paths
  }

  lemma GoesInRest(paths: set<Path>, owner: Option<uint32>, fs: seq<SharedFile>, i: nat)
    requires 0 < i < |fs|
    ensures Goes(PathsAfter(paths, owner, fs[0]), owner, fs[1..], i - 1) <==> Goes(paths, owner, fs, i)
  {
    var rest := fs[1..];
    assert rest[i - 1] == fs[i];
    assert forall j :: 0 < j < i ==> fs[j] == rest[j - 1];
    assert forall j :: 0 <= j < i - 1 ==> rest[j] == fs[j + 1];
  }

  /** Without recursion: the file at each index is left out if it goes, and kept in its place if not. */
  lemma {:induction false} KeptNext(paths: set<Path>, owner: Option<uint32>, fs: seq<SharedFile>, i: nat)
    requires i < |fs|
    ensures Kept(paths, owner, fs[..i + 1])
         == Kept(paths, owner, fs[..i]) + if Goes(paths, owner, fs, i) then [] else [fs[i]]
    decreases i
  {
    var head, rest := fs[0], fs[1..];
    if i == 0 {
      assert fs[..1] == [head] && fs[..0] == [] && [head][1..] == [];
    } else {
      hide Goes;
      assert fs[..i + 1][1..] == rest[..i] && fs[..i][1..] == rest[..i - 1] && rest[i - 1] == fs[i];
      GoesInRest(paths, owner, fs, i);
      KeptNext(PathsAfter(paths, owner, head), owner, rest, i - 1);
      assert head.path !in paths ==> paths - {head.path} == paths;
    }
  }

  lemma {:induction false} KeptFromList(paths: set<Path>, owner: Option<uint32>, fs: seq<SharedFile>)
    ensures forall f :: f in Kept(paths, owner, fs) ==> f in fs
  {
    if fs != [] {
      KeptFromList(paths, owner, fs[1..]);
      KeptFromList(paths - {fs[0].path}, owner, fs[1..]);
    }
  }

  /** Nothing is lost but by its number. */
  lemma {:induction false} KeptWhole(paths: set<Path>, owner: Option<uint32>, fs: seq<SharedFile>)
    ensures |Kept(paths, owner, fs)| <= |fs|
    ensures |Kept(paths, owner, fs)| == |fs| ==> Kept(paths, owner, fs) == fs
  {
    if fs != [] {
      KeptWhole(paths, owner, fs[1..]);
      KeptWhole(paths - {fs[0].path}, owner, fs[1..]);
      assert fs == [fs[0]] + fs[1..];
    }
  }

  lemma {:induction false} KeptMembers(paths: set<Path>, owner: Option<uint32>, fs: seq<SharedFile>)
    requires forall i, j :: 0 <= i < j < |fs| ==> fs[i] != fs[j]
    ensures forall i :: 0 <= i < |fs| ==> (fs[i] in Kept(paths, owner, fs) <==> !Goes(paths, owner, fs, i))
  {
    if fs != [] {
      var last := |fs| - 1;
      var front := fs[..last];
      KeptMembers(paths, owner, front);
      KeptFromList(paths, owner, front);
      KeptNext(paths, owner, fs, last);
      assert fs[..last + 1] == fs;
      assert forall i :: 0 <= i < last ==> front[i] == fs[i];
      assert forall i :: 0 <= i < last ==> Goes(paths, owner, front, i) == Goes(paths, owner, fs, i);
    }
  }

  /** The loop over `todo` leaves, after what it has already visited, exactly the kept files, counts the
      others, and takes exactly their content from the disk. */
  predicate Keeps(s: Store, done: seq<SharedFile>, todo: seq<SharedFile>, owner: Option<uint32>) {
    var paths := DeletablePaths(s);
    var (end, n) := RemoveEach(s, todo, owner);
    && end == s.(files := done + Kept(paths, owner, todo), disk := s.disk - GonePaths(paths, owner, todo))
    && n == |todo| - |Kept(paths, owner, todo)|
  }

  lemma {:induction false} RemoveEachKeeps(s: Store, done: seq<SharedFile>, todo: seq<SharedFile>, owner: Option<uint32>)
    requires s.files == done + todo && FileIdsRise(s.files, s.filesAdded)
    ensures Keeps(s, done, todo, owner)
    decreases |todo|
  {
    if todo == [] {
      assert s.disk - {} == s.disk && done + [] == done;
    } else {
      hide FileIdsRise, RemoveShared, Keeps;
      var f, rest := todo[0], todo[1..];
      assert todo == [f] + rest;
      RemovesThisFile(s, done, f, rest);
      if Visited(owner, f) && Deletable(s, f.path) {
        var next := s.(files := done + rest, disk := s.disk - {f.path});
        RemoveEachKeeps(next, done, rest, owner);
        KeepsGone(s, next, done, f, rest, owner);
      } else {
        assert s.files == (done + [f]) + rest;
        RemoveEachKeeps(s, done + [f], rest, owner);
        KeepsNotGone(s, done, f, rest, owner);
      }
    }
  }

  lemma KeepsNotGone(s: Store, done: seq<SharedFile>, f: SharedFile, rest: seq<SharedFile>, owner: Option<uint32>)
    requires !(Visited(owner, f) && Deletable(s, f.path))
    requires RemoveEach(s, [f] + rest, owner) == RemoveEach(s, rest, owner)
    requires Keeps(s, done + [f], rest, owner)
    ensures Keeps(s, done, [f] + rest, owner)
  {
    hide RemoveEach;
    var paths, todo := DeletablePaths(s), [f] + rest;
    assert todo[1..] == rest;
    assert GonePaths(paths, owner, todo) == GonePaths(paths, owner, rest);
    assert (done + [f]) + Kept(paths, owner, rest) == done + ([f] + Kept(paths, owner, rest));
  }

  lemma KeepsGone(s: Store, next: Store, done: seq<SharedFile>, f: SharedFile, rest: seq<SharedFile>, owner: Option<uint32>)
    requires Visited(owner, f) && Deletable(s, f.path)
    requires next == s.(files := done + rest, disk := s.disk - {f.path})
    requires RemoveEach(s, [f] + rest, owner) == (RemoveEach(next, rest, owner).0, RemoveEach(next, rest, owner).1 + 1)
    requires Keeps(next, done, rest, owner)
    ensures Keeps(s, done, [f] + rest, owner)
  {
    hide RemoveEach;
    var paths, todo := DeletablePaths(s), [f] + rest;
    assert todo[1..] == rest && todo[0] == f;
    assert DeletablePaths(next) == paths - {f.path};
    assert GonePaths(paths, owner, todo) == {f.path} + GonePaths(paths - {f.path}, owner, rest);
    assert s.disk - {f.path} - GonePaths(paths - {f.path}, owner, rest) == s.disk - GonePaths(paths, owner, todo);
  }

  /** Bulk removal, of any list: it leaves exactly the kept files, in their order, takes the paths of the
      others from the disk, and returns their number. */
  lemma BulkRemoval(s: Store, owner: Option<uint32>)
    requires FileIdsRise(s.files, s.filesAdded)
    ensures var paths := DeletablePaths(s);
            var (end, n) := RemoveEach(s, s.files, owner);
            && end == s.(files := Kept(paths, owner, s.files), disk := s.disk - GonePaths(paths, owner, s.files))
            && n == |s.files| - |Kept(paths, owner, s.files)|
            && forall i :: 0 <= i < |s.files| ==> (s.files[i] in end.files <==> !Goes(paths, owner, s.files, i))
  {
    hide RemoveEach, Kept, GonePaths, Goes;
    assert s.files == [] + s.files;
    RemoveEachKeeps(s, [], s.files, owner);
    KeptMembers(DeletablePaths(s), owner, s.files);
    assert [] + Kept(DeletablePaths(s), owner, s.files) == Kept(DeletablePaths(s), owner, s.files);
  }

  /** When no two visited files share a path, the visited files whose path can be deleted go. */
  lemma DistinctPathsGo(s: Store, owner: Option<uint32>, i: nat)
    requires DistinctPaths(s.files, owner) && i < |s.files|
    ensures Goes(DeletablePaths(s), owner, s.files, i) <==> Visited(owner, s.files[i]) && Deletable(s, s.files[i].path)
  {
  }

  /** Removing by the id of the file visited removes that very file. */
  lemma RemovesThisFile(s: Store, done: seq<SharedFile>, f: SharedFile, rest: seq<SharedFile>)
    requires s.files == done + ([f] + rest) && FileIdsRise(s.files, s.filesAdded)
    ensures RemoveShared(s, f.id) == if Deletable(s, f.path)
                                     then (s.(files := done + rest, disk := s.disk - {f.path}), true)
                                     else (s, false)
    ensures FileIdsRise(done + rest, s.filesAdded)
  {
    var k := |done|;
    assert s.files[k] == f;
    FileIndexUnique(s.files, s.filesAdded, k);
    assert Without(s.files, k) == done + rest;
    WithoutElements(s.files, k);
  }

  /** Every file the loop visits can be deleted, and no two of them are one file on the disk. */
  predicate Removable(s: Store, fs: seq<SharedFile>, owner: Option<uint32>) {
    && DistinctPaths(fs, owner)
    && forall f :: f in fs && Visited(owner, f) ==> Deletable(s, f.path)
  }

  /** No visited file survives the loop exactly when all of them were removable to begin with. */
  lemma AllRemovableGo(s: Store, owner: Option<uint32>)
    requires FileIdsRise(s.files, s.filesAdded)
    ensures Removable(s, s.files, owner) <==> forall f :: f in RemoveEach(s, s.files, owner).0.files ==> !Visited(owner, f)
  {
    hide FileIdsRise, RemoveEach, Kept;
    var paths, end := DeletablePaths(s), RemoveEach(s, s.files, owner).0;
    BulkRemoval(s, owner);
    KeptFromList(paths, owner, s.files);
    assert Removable(s, s.files, owner) <==> forall i :: 0 <= i < |s.files| && Visited(owner, s.files[i]) ==> Goes(paths, owner, s.files, i);
  }

  /** Removals touch neither the clients nor the counters. */
  lemma {:induction false} RemoveEachFrame(s: Store, todo: seq<SharedFile>, owner: Option<uint32>)
    ensures var r := RemoveEach(s, todo, owner).0;
            r.clients == s.clients && r.clientsAdded == s.clientsAdded && r.filesAdded == s.filesAdded
            && r.undeletable == s.undeletable
    decreases |todo|
  {
    if todo != [] {
      RemoveEachFrame(s, todo[1..], owner);
      RemoveEachFrame(RemoveShared(s, todo[0].id).0, todo[1..], owner);
    }
  }

  /** Removals take files from the list and change nothing else in it. */
  lemma {:induction false} RemoveEachShrinks(s: Store, todo: seq<SharedFile>, owner: Option<uint32>)
    requires FileIdsRise(s.files, s.filesAdded)
    ensures var r := RemoveEach(s, todo, owner).0;
            && FileIdsRise(r.files, s.filesAdded)
            && (forall f :: f in r.files ==> f in s.files)
            && (forall f :: f in s.files && !Visited(owner, f) && (forall g :: g in todo && g.id == f.id ==> g == f) ==> f in r.files)
    decreases |todo|
  {
    if todo != [] {
      hide FileIdsRise, FileIndex;
      RemoveFileKeepsIds(s.files, s.filesAdded, todo[0].id);
      RemoveEachShrinks(s, todo[1..], owner);
      RemoveEachShrinks(RemoveShared(s, todo[0].id).0, todo[1..], owner);
    }
  }
}
