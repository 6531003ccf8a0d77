/** The messages of the protocol. */
module Messages {
  import opened Bytes

  const MAX_MESSAGE_NET_SIZE := 1024
  const HEADER_SIZE := 8
  const FILE_CONTENT_SIZE := 512
  const MAX_CHAT_TEXT_BYTES := 512
  const MAX_USERNAME_BYTES := 32
  const MAX_FILENAME_SIZE := 256
  const MAX_FILEPATH_SIZE := 512
  const MAX_IP_BYTES := 16
  const FILE_HEADER_NAME_SIZE := 64
  const BYTES_128_SIZE := 128

  const TASK_STATUS_EXECUTING: uint32 := 2

  /** A tagged task: the task type together with the member of the data union it selects. */
  datatype TaggedTask =
    | TaskUsers(showIp: bool, showId: bool)
    | TaskUpload(uploadName: seq<uint8>, userFilepath: seq<uint8>)
    | TaskDownload(downloadName: seq<uint8>, byId: bool)
    | TaskFiles
    | TaskRemove(fileId: uint32, removeAll: bool)

  datatype TaskType = USERS | UPLOAD | DOWNLOAD | FILES | REMOVE

  /** A message type together with the member of the payload union it selects. Char arrays are the
      whole arrays, with whatever bytes follow the terminator. */
  datatype Body =
    | UserChat(username: seq<uint8>, chatText: seq<uint8>, ip: seq<uint8>, chatTime: uint64)
    | UserLogin(loginName: seq<uint8>)
    | FileHeader(name: seq<uint8>, size: uint32)
    | FileContent(contentSize: uint32, binary: seq<uint8>)
    | FileEnd
    | ClientConnected(welcome: seq<uint8>)
    | ClientOnQueue(notice: seq<uint8>)
    | Status(ok: bool, statusText: seq<uint8>)
    | ConnectedClients(count: uint8)
    | TaskRequest(request: TaggedTask)
    | TaskStatus(taskStatus: uint32, task: TaggedTask)
    | SequenceStart
    | SequenceEnd
    | HeapSequence(heap: seq<uint8>)
    | ServerNotification(notifyTime: uint64, notifyText: seq<uint8>)

  /** A message, with the payload length its header announces. */
  datatype Message = Message(payloadLength: uint32, body: Body)

  predicate TaskFieldsFit(t: TaggedTask) {
    match t
    case TaskUpload(name, path) => |name| == MAX_FILENAME_SIZE && |path| == MAX_FILEPATH_SIZE
    case TaskDownload(name, _) => |name| == MAX_FILENAME_SIZE
    case _ => true
  }

  /** Every array has the size of its declaration, and a content size stays within its array. */
  predicate FieldsFit(b: Body) {
    match b
    case UserChat(username, text, ip, _) =>
      |username| == MAX_USERNAME_BYTES && |text| == MAX_CHAT_TEXT_BYTES && |ip| == MAX_IP_BYTES
    case UserLogin(username) => |username| == MAX_USERNAME_BYTES
    case FileHeader(name, _) => |name| == FILE_HEADER_NAME_SIZE
    case FileContent(size, binary) => |binary| == FILE_CONTENT_SIZE && size <= FILE_CONTENT_SIZE
    case ClientConnected(bytes) => |bytes| == BYTES_128_SIZE
    case ClientOnQueue(bytes) => |bytes| == BYTES_128_SIZE
    case Status(_, text) => |text| == MAX_CHAT_TEXT_BYTES
    case TaskRequest(t) => TaskFieldsFit(t)
    case TaskStatus(_, t) => TaskFieldsFit(t)
    case ServerNotification(_, text) => |text| == MAX_CHAT_TEXT_BYTES
    case _ => true
  }

  function TypeOf(t: TaggedTask): TaskType {
    match t
    case TaskUsers(_, _) => USERS
    case TaskUpload(_, _) => UPLOAD
    case TaskDownload(_, _) => DOWNLOAD
    case TaskFiles => FILES
    case TaskRemove(_, _) => REMOVE
  }
}
