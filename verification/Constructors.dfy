/** The constructors every sender builds its messages with. Each one sets the payload length by its
    own arithmetic on the sizes of the fields; `mem` is the uninitialised memory of the local message. */
module Constructors {
  import opened Bytes
  import opened Messages
  import opened Codec

  const WELCOME_TEXT: string := "Welcome to TheyChat!"
  const QUEUE_TEXT: string := "Connected to server. In client queue..."

  function Ascii(s: string): (r: CString)
    requires forall i :: 0 <= i < |s| ==> 0 < s[i] as int < 0x80
    ensures |r| == |s|
  {
    seq(|s|, i requires 0 <= i < |s| => s[i] as int)
  }

  function CreateUserChat(text: CString, username: CString, now: uint64, mem: Body): (m: Message)
    requires mem.UserChat? && FieldsFit(mem)
    requires |text| < MAX_CHAT_TEXT_BYTES && |username| < MAX_USERNAME_BYTES
    ensures WellFormed(m) && m.body.UserChat?
    ensures CStr(m.body.username) == username && CStr(m.body.chatText) == text && m.body.chatTime == now
  {
    Message(MAX_USERNAME_BYTES + MAX_CHAT_TEXT_BYTES + MAX_IP_BYTES + 8,
            UserChat(StrCpy(mem.username, username), StrCpy(mem.chatText, text), mem.ip, now))
  }

  function CreateUserLogin(username: CString, mem: Body): (m: Message)
    requires mem.UserLogin? && FieldsFit(mem)
    requires |username| < MAX_USERNAME_BYTES
    ensures WellFormed(m) && m.body.UserLogin? && CStr(m.body.loginName) == username
  {
    Message(MAX_USERNAME_BYTES, UserLogin(StrCpy(mem.loginName, username)))
  }

  function CreateClientConnected(mem: Body): (m: Message)
    requires mem.ClientConnected? && FieldsFit(mem)
    ensures WellFormed(m) && m.body.ClientConnected? && CStr(m.body.welcome) == Ascii(WELCOME_TEXT)
  {
    Message(128, ClientConnected(StrCpy(mem.welcome, Ascii(WELCOME_TEXT))))
  }

  function CreateClientOnQueue(mem: Body): (m: Message)
    requires mem.ClientOnQueue? && FieldsFit(mem)
    ensures WellFormed(m) && m.body.ClientOnQueue? && CStr(m.body.notice) == Ascii(QUEUE_TEXT)
  {
    Message(128, ClientOnQueue(StrCpy(mem.notice, Ascii(QUEUE_TEXT))))
  }

  /** What initialize_tagged_task adds to the payload length. */
  function TaggedTaskLength(t: TaskType): uint32 {
    4 + match t
    case USERS => 1 + 1
    case UPLOAD => MAX_FILENAME_SIZE + MAX_FILEPATH_SIZE
    case DOWNLOAD => MAX_FILENAME_SIZE + 1
    case FILES => 0
    case REMOVE => 1 + 4
  }

  function Zeros(n: nat): (s: seq<uint8>)
    ensures |s| == n
  {
    seq(n, _ => 0)
  }

  /** The tagged task as initialize_tagged_task leaves it: its data zeroed. */
  function ZeroTask(t: TaskType): (r: TaggedTask)
    ensures TypeOf(r) == t && TaskFieldsFit(r)
    ensures match r
            case TaskUsers(showIp, showId) => !showIp && !showId
            case TaskUpload(name, path) =>
              (forall i :: 0 <= i < |name| ==> name[i] == 0) && forall i :: 0 <= i < |path| ==> path[i] == 0
            case TaskDownload(name, byId) => (forall i :: 0 <= i < |name| ==> name[i] == 0) && !byId
            case TaskFiles => true
            case TaskRemove(id, all) => id == 0 && !all
  {
    match t
    case USERS => TaskUsers(false, false)
    case UPLOAD => TaskUpload(Zeros(MAX_FILENAME_SIZE), Zeros(MAX_FILEPATH_SIZE))
    case DOWNLOAD => TaskDownload(Zeros(MAX_FILENAME_SIZE), false)
    case FILES => TaskFiles
    case REMOVE => TaskRemove(0, false)
  }

  function CreateTaskRequest(t: TaskType): (m: Message)
    ensures WellFormed(m) && m.body.TaskRequest? && TypeOf(m.body.request) == t
  {
    Message(TaggedTaskLength(t), TaskRequest(ZeroTask(t)))
  }

  function CreateTaskStatus(t: TaskType, status: uint32): (m: Message)
    ensures WellFormed(m) && m.body.TaskStatus? && m.body.taskStatus == status && TypeOf(m.body.task) == t
  {
    Message(4 + TaggedTaskLength(t), TaskStatus(status, ZeroTask(t)))
  }

  /** The task request handler copies the requested task over the status it just created. */
  function FillStatus(m: Message, t: TaggedTask): (r: Message)
    requires m.body.TaskStatus? && TypeOf(t) == TypeOf(m.body.task)
    ensures WellFormed(m) && TaskFieldsFit(t) ==> WellFormed(r)
  {
    m.(body := TaskStatus(m.body.taskStatus, t))
  }

  function CreateFileHeader(name: CString, size: uint32, mem: Body): (m: Message)
    requires mem.FileHeader? && FieldsFit(mem)
    requires |name| < FILE_HEADER_NAME_SIZE
    ensures WellFormed(m) && m.body.FileHeader? && CStr(m.body.name) == name && m.body.size == size
  {
    Message(FILE_HEADER_NAME_SIZE + 4, FileHeader(StrCpy(mem.name, name), size))
  }

  function CreateFileContent(content: seq<uint8>, mem: Body): (m: Message)
    requires mem.FileContent? && FieldsFit(mem)
    requires |content| <= FILE_CONTENT_SIZE
    ensures WellFormed(m) && m.body.FileContent?
    ensures m.body.contentSize == |content| && m.body.binary[..|content|] == content
  {
    Message(4 + FILE_CONTENT_SIZE, FileContent(|content|, content + mem.binary[|content|..]))
  }

  function CreateFileEnd(): (m: Message)
    ensures WellFormed(m)
  {
    Message(0, FileEnd)
  }

  function CreateSeqStart(): (m: Message)
    ensures WellFormed(m)
  {
    Message(0, SequenceStart)
  }

  function CreateSeqEnd(): (m: Message)
    ensures WellFormed(m)
  {
    Message(0, SequenceEnd)
  }

  function CreateHeapSeq(payload: seq<uint8>): (m: Message)
    requires |payload| <= MAX_MESSAGE_NET_SIZE - HEADER_SIZE
    ensures WellFormed(m) && m.body.HeapSequence? && m.body.heap == payload
  {
    Message(|payload|, HeapSequence(payload))
  }

  /** The text a reader of the field sees: what fits of it, even where that leaves no room for a terminator. */
  function Cut(text: Option<CString>): CString {
    match text
    case Some(s) => if |s| < MAX_CHAT_TEXT_BYTES then s else s[..MAX_CHAT_TEXT_BYTES]
    case None => []
  }

  /** `text` is the formatted text, cut to the 1023 bytes of the formatting buffer; None for no format. */
  function CreateStatus(status: bool, text: Option<CString>): (m: Message)
    ensures WellFormed(m) && m.body.Status?
    ensures m.body.ok == status && CStr(m.body.statusText) == Cut(text)
  {
    Message(1 + MAX_CHAT_TEXT_BYTES,
            Status(status, StrNCpy(Zeros(MAX_CHAT_TEXT_BYTES), if text.Some? then text.value else [])))
  }

  function CreateConnectedClients(count: uint8): (m: Message)
    ensures WellFormed(m) && m.body.ConnectedClients? && m.body.count == count
  {
    Message(1, ConnectedClients(count))
  }

  function CreateServerNotification(text: Option<CString>, now: uint64, mem: Body): (m: Message)
    requires mem.ServerNotification? && FieldsFit(mem)
    ensures WellFormed(m) && m.body.ServerNotification?
    ensures text.Some? ==> CStr(m.body.notifyText) == Cut(text)
  {
    Message(MAX_CHAT_TEXT_BYTES + 8,
            ServerNotification(now, if text.Some? then StrNCpy(mem.notifyText, text.value) else mem.notifyText))
  }
}
