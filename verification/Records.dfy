/** The records of the server's two lists, and the queries on them as functions of sequences. */
module Records {
  import opened Bytes
  import opened Storage

  datatype AppState = NULL | CONNECT | LOGIN | CHAT | DISCONNECT | END

  /** How far a client still has to go; NULL is a client that waits for a thread. */
  function Rank(state: AppState): nat {
    match state
    case NULL => 5
    case CONNECT => 4
    case LOGIN => 3
    case CHAT => 2
    case DISCONNECT => 1
    case END => 0
  }

  datatype Client = Client(id: uint32, name: CString, ip: CString, state: AppState)

  datatype SharedFile = SharedFile(id: uint32, path: Path, name: CString, size: uint64, clientId: uint32)

  /** `s` without the element at index `k`; `s` itself when there is none. */
  function Without<T>(s: seq<T>, k: nat): seq<T> {
    if k < |s| then s[..k] + s[k + 1..] else s
  }

  lemma WithoutElements<T>(s: seq<T>, k: nat)
    requires k < |s|
    ensures |Without(s, k)| == |s| - 1
    ensures forall i :: 0 <= i < |s| - 1 ==> Without(s, k)[i] == s[if i < k then i else i + 1]
  {
  }

  // ----- files -----

  /** Index of the first file with the given id; the length of the list when there is none. */
  function FileIndex(fs: seq<SharedFile>, id: uint32): (k: nat)
    ensures k <= |fs| && (k < |fs| ==> fs[k].id == id)
    ensures forall j :: 0 <= j < k ==> fs[j].id != id
  {
    if fs == [] || fs[0].id == id then 0 else 1 + FileIndex(fs[1..], id)
  }

  function NameIndex(fs: seq<SharedFile>, name: CString): (k: nat)
    ensures k <= |fs| && (k < |fs| ==> fs[k].name == name)
    ensures forall j :: 0 <= j < k ==> fs[j].name != name
  {
    if fs == [] || fs[0].name == name then 0 else 1 + NameIndex(fs[1..], name)
  }

  function NameCount(fs: seq<SharedFile>, name: CString): nat {
    if fs == [] then 0 else (if fs[0].name == name then 1 else 0) + NameCount(fs[1..], name)
  }

  lemma {:induction false} CountedIsIndexed(fs: seq<SharedFile>, name: CString)
    ensures NameCount(fs, name) == 0 <==> NameIndex(fs, name) == |fs|
  {
    if fs != [] {
      CountedIsIndexed(fs[1..], name);
    }
  }

  function RemoveFileById(fs: seq<SharedFile>, id: uint32): seq<SharedFile> {
    Without(fs, FileIndex(fs, id))
  }

  /** Ids rise along the list and are below the number of files ever added. */
  predicate FileIdsRise(fs: seq<SharedFile>, added: nat) {
    && (forall i, j :: 0 <= i < j < |fs| ==> fs[i].id < fs[j].id)
    && (forall i :: 0 <= i < |fs| ==> fs[i].id < added)
  }

  lemma FileIndexUnique(fs: seq<SharedFile>, added: nat, k: nat)
    requires FileIdsRise(fs, added) && k < |fs|
    ensures FileIndex(fs, fs[k].id) == k
  {
  }

  lemma AddFileKeepsIds(fs: seq<SharedFile>, added: nat, f: SharedFile)
    requires FileIdsRise(fs, added) && f.id == added
    ensures FileIdsRise(fs + [f], added + 1)
  {
  }

  /** Removing by id keeps the ids rising, and removes exactly the one element with that id. */
  lemma RemoveFileKeepsIds(fs: seq<SharedFile>, added: nat, id: uint32)
    requires FileIdsRise(fs, added)
    ensures FileIdsRise(RemoveFileById(fs, id), added)
    ensures forall f :: f in RemoveFileById(fs, id) <==> f in fs && f.id != id
  {
  }

  // ----- clients -----

  function ClientIndex(cs: seq<Client>, id: uint32): (k: nat)
    ensures k <= |cs| && (k < |cs| ==> cs[k].id == id)
    ensures forall j :: 0 <= j < k ==> cs[j].id != id
  {
    if cs == [] || cs[0].id == id then 0 else 1 + ClientIndex(cs[1..], id)
  }

  function UsernameIndex(cs: seq<Client>, name: CString): (k: nat)
    ensures k <= |cs| && (k < |cs| ==> cs[k].name == name)
    ensures forall j :: 0 <= j < k ==> cs[j].name != name
  {
    if cs == [] || cs[0].name == name then 0 else 1 + UsernameIndex(cs[1..], name)
  }

  function RemoveClientById(cs: seq<Client>, id: uint32): seq<Client> {
    Without(cs, ClientIndex(cs, id))
  }

  predicate ClientIdsRise(cs: seq<Client>, added: nat) {
    && (forall i, j :: 0 <= i < j < |cs| ==> cs[i].id < cs[j].id)
    && (forall i :: 0 <= i < |cs| ==> cs[i].id < added)
  }

  lemma AddClientKeepsIds(cs: seq<Client>, added: nat, c: Client)
    requires ClientIdsRise(cs, added) && c.id == added
    ensures ClientIdsRise(cs + [c], added + 1)
  {
  }

  /** Removing by id keeps the ids rising, and removes exactly the one element with that id. */
  lemma RemoveClientKeepsIds(cs: seq<Client>, added: nat, id: uint32)
    requires ClientIdsRise(cs, added)
    ensures ClientIdsRise(RemoveClientById(cs, id), added)
    ensures forall c :: c in RemoveClientById(cs, id) <==> c in cs && c.id != id
  {
  }

}
