/** Serialization into, and deserialization from, a byte buffer with a moving position. */
module NetSerializer {
  import opened Bytes
  import opened Codec
  import opened Endian
  import opened Messages

  /** The byte order of the host the program runs on: either one. */
  const HOST: ByteOrder

  // ----- pushes and pops -----

  method PushByteArray(buffer: array<uint8>, pos: nat, src: seq<uint8>) returns (next: nat)
    requires pos + |src| <= buffer.Length
    modifies buffer
    ensures next == pos + |src|
    ensures buffer[..next] == old(buffer[..pos]) + src
  {
    forall i | 0 <= i < |src| {
      buffer[pos + i] := src[i];
    }
    next := pos + |src|;
  }

  method Push32(buffer: array<uint8>, pos: nat, n: uint32) returns (next: nat)
    requires pos + 4 <= buffer.Length
    modifies buffer
    ensures next == pos + 4
    ensures buffer[..next] == old(buffer[..pos]) + BE32(n)
  {
    Pushed32MostSignificantFirst(HOST, n);
    next := PushByteArray(buffer, pos, HostBytes32(HOST, Swap32(HOST, n)));
  }

  method Push64(buffer: array<uint8>, pos: nat, n: uint64) returns (next: nat)
    requires pos + 8 <= buffer.Length
    modifies buffer
    ensures next == pos + 8
    ensures buffer[..next] == old(buffer[..pos]) + BE64(n)
  {
    PushedMostSignificantFirst(HOST, n);
    next := PushByteArray(buffer, pos, HostBytes(HOST, Hton64(HOST, n)));
  }

  lemma SliceOfSuffix(s: seq<uint8>, pos: nat, i: nat, j: nat)
    requires i <= j && pos + j <= |s|
    ensures s[pos..][i..j] == s[pos + i..pos + j]
  {
  }

  method PopByteArray(buffer: array<uint8>, pos: nat, size: nat) returns (dest: seq<uint8>, next: nat)
    requires pos + size <= buffer.Length
    ensures dest == buffer[..][pos..pos + size] && next == pos + size
  {
    dest := buffer[..][pos..pos + size];
    next := pos + size;
  }

  method Pop32(buffer: array<uint8>, pos: nat) returns (n: uint32, next: nat)
    requires pos + 4 <= buffer.Length
    ensures n == UnBE32(buffer[..][pos..pos + 4]) && next == pos + 4
  {
    var bytes;
    bytes, next := PopByteArray(buffer, pos, 4);
    Popped32MostSignificantFirst(HOST, bytes);
    n := Swap32(HOST, FromHostBytes32(HOST, bytes));
  }

  method Pop64(buffer: array<uint8>, pos: nat) returns (n: uint64, next: nat)
    requires pos + 8 <= buffer.Length
    ensures n == UnBE64(buffer[..][pos..pos + 8]) && next == pos + 8
  {
    var bytes;
    bytes, next := PopByteArray(buffer, pos, 8);
    PoppedMostSignificantFirst(HOST, bytes);
    n := Ntoh64(HOST, FromHostBytes(HOST, bytes));
  }

  // ----- messages -----

  /** Two pushes in a row. */
  method PushTwo(buffer: array<uint8>, pos: nat, first: seq<uint8>, second: seq<uint8>) returns (next: nat)
    requires pos + |first| + |second| <= buffer.Length
    modifies buffer
    ensures next == pos + |first| + |second|
    ensures buffer[..next] == old(buffer[..pos]) + (first + second)
  {
    next := PushByteArray(buffer, pos, first);
    next := PushByteArray(buffer, next, second);
  }

  method SerializeTaskData(t: TaggedTask, buffer: array<uint8>, pos: nat) returns (next: nat)
    requires TaskFieldsFit(t) && pos + |TaskData(t)| <= buffer.Length
    modifies buffer
    ensures next == pos + |TaskData(t)|
    ensures buffer[..next] == old(buffer[..pos]) + TaskData(t)
  {
    hide BE32, BoolByte;
    match t {
      case TaskUsers(showIp, showId) =>
        next := PushTwo(buffer, pos, BoolByte(showIp), BoolByte(showId));
      case TaskUpload(name, path) =>
        next := PushTwo(buffer, pos, name, path);
      case TaskDownload(name, byId) =>
        next := PushTwo(buffer, pos, name, BoolByte(byId));
      case TaskFiles =>
        next := pos;
      case TaskRemove(id, all) =>
        next := PushByteArray(buffer, pos, BoolByte(all));
        next := Push32(buffer, next, id);
    }
  }

  method SerializeTask(t: TaggedTask, buffer: array<uint8>, pos: nat) returns (next: nat)
    requires TaskFieldsFit(t) && pos + |TaskBytes(t)| <= buffer.Length
    modifies buffer
    ensures next == pos + |TaskBytes(t)|
    ensures buffer[..next] == old(buffer[..pos]) + TaskBytes(t)
  {
    hide BE32, TaskData;
    next := Push32(buffer, pos, TaskCode(t));
    next := SerializeTaskData(t, buffer, next);
  }

  method SerializeChat(b: Body, buffer: array<uint8>, pos: nat) returns (next: nat)
    requires b.UserChat? && FieldsFit(b) && pos + |BodyBytes(b)| <= buffer.Length
    modifies buffer
    ensures next == pos + |BodyBytes(b)|
    ensures buffer[..next] == old(buffer[..pos]) + BodyBytes(b)
  {
    hide BE64;
    next := PushByteArray(buffer, pos, b.username);
    next := PushByteArray(buffer, next, b.chatText);
    next := PushByteArray(buffer, next, b.ip);
    next := Push64(buffer, next, b.chatTime);
  }

  method SerializeBody(b: Body, buffer: array<uint8>, pos: nat) returns (next: nat)
    requires FieldsFit(b) && pos + |BodyBytes(b)| <= buffer.Length
    modifies buffer
    ensures next == pos + |BodyBytes(b)|
    ensures buffer[..next] == old(buffer[..pos]) + BodyBytes(b)
  {
    hide BE64, BE32, TaskBytes, BoolByte;
    match b {
      case UserChat(_, _, _, _) =>
        next := SerializeChat(b, buffer, pos);
      case UserLogin(username) =>
        next := PushByteArray(buffer, pos, username);
      case FileHeader(name, size) =>
        next := PushByteArray(buffer, pos, name);
        next := Push32(buffer, next, size);
      case FileContent(size, binary) =>
        next := Push32(buffer, pos, size);
        next := PushByteArray(buffer, next, binary);
      case ClientConnected(bytes) =>
        next := PushByteArray(buffer, pos, bytes);
      case ClientOnQueue(bytes) =>
        next := PushByteArray(buffer, pos, bytes);
      case Status(ok, text) =>
        next := PushTwo(buffer, pos, BoolByte(ok), text);
      case ConnectedClients(count) =>
        next := PushByteArray(buffer, pos, [count]);
      case HeapSequence(bytes) =>
        next := PushByteArray(buffer, pos, bytes);
      case ServerNotification(time, text) =>
        next := Push64(buffer, pos, time);
        next := PushByteArray(buffer, next, text);
      case TaskRequest(t) =>
        next := SerializeTask(t, buffer, pos);
      case TaskStatus(status, t) =>
        next := Push32(buffer, pos, status);
        next := SerializeTask(t, buffer, next);
      case _ =>
        next := pos;
    }
  }

  /** Fills the buffer with the message and returns its serialized size. */
  method SerializeMessage(m: Message, buffer: array<uint8>) returns (size: nat)
    requires WellFormed(m) && buffer.Length == MAX_MESSAGE_NET_SIZE
    modifies buffer
    ensures size == |Encode(m)| <= buffer.Length
    ensures buffer[..size] == Encode(m)
  {
    hide BE32, BodyBytes;
    size := Push32(buffer, 0, TypeCode(m.body));
    size := Push32(buffer, size, m.payloadLength);
    size := SerializeBody(m.body, buffer, size);
  }

  // ----- the reverse; None where the program exits -----

  method DeserializeTaskData(code: uint32, buffer: array<uint8>, pos: nat) returns (r: Option<(TaggedTask, nat)>)
    requires pos + 768 <= buffer.Length
    ensures r == DecodeTaskData(code, buffer[..][pos..])
  {
    hide UnBE32;
    ghost var s := buffer[..];
    if code == 1 {
      var showIp, n1 := PopByteArray(buffer, pos, 1);
      var showId, n2 := PopByteArray(buffer, n1, 1);
      r := Some((TaskUsers(showIp[0] != 0, showId[0] != 0), n2 - pos));
    } else if code == 2 {
      var name, n1 := PopByteArray(buffer, pos, MAX_FILENAME_SIZE);
      var path, n2 := PopByteArray(buffer, n1, MAX_FILEPATH_SIZE);
      SliceOfSuffix(s, pos, 0, 256);
      SliceOfSuffix(s, pos, 256, 768);
      r := Some((TaskUpload(name, path), n2 - pos));
    } else if code == 3 {
      var name, n1 := PopByteArray(buffer, pos, MAX_FILENAME_SIZE);
      var byId, n2 := PopByteArray(buffer, n1, 1);
      SliceOfSuffix(s, pos, 0, 256);
      r := Some((TaskDownload(name, byId[0] != 0), n2 - pos));
    } else if code == 4 {
      r := Some((TaskFiles, 0));
    } else if code == 5 {
      var all, n1 := PopByteArray(buffer, pos, 1);
      var id, n2 := Pop32(buffer, n1);
      SliceOfSuffix(s, pos, 1, 5);
      r := Some((TaskRemove(id, all[0] != 0), n2 - pos));
    } else {
      r := None;
    }
  }

  method DeserializeTask(buffer: array<uint8>, pos: nat) returns (r: Option<(TaggedTask, nat)>)
    requires pos + 772 <= buffer.Length
    ensures r == DecodeTask(buffer[..][pos..])
  {
    hide UnBE32, DecodeTaskData;
    var code, next := Pop32(buffer, pos);
    SliceOfSuffix(buffer[..], pos, 0, 4);
    SliceOfSuffix(buffer[..], pos, 4, buffer.Length - pos);
    var t := DeserializeTaskData(code, buffer, next);
    r := match t case Some((task, n)) => Some((task, 4 + n)) case None => None;
  }

  method DeserializeFileBody(code: uint32, buffer: array<uint8>, pos: nat) returns (r: Option<(Body, nat)>)
    requires pos + 1016 <= buffer.Length && (code == 3 || code == 4)
    ensures r == DecodeBody(code, 0, buffer[..][pos..])
  {
    hide UnBE32;
    ghost var s := buffer[..];
    if code == 3 {
      var name, n1 := PopByteArray(buffer, pos, FILE_HEADER_NAME_SIZE);
      var size, n2 := Pop32(buffer, n1);
      SliceOfSuffix(s, pos, 0, 64);
      SliceOfSuffix(s, pos, 64, 68);
      r := Some((FileHeader(name, size), n2 - pos));
    } else {
      var size, n1 := Pop32(buffer, pos);
      var binary, n2 := PopByteArray(buffer, n1, FILE_CONTENT_SIZE);
      SliceOfSuffix(s, pos, 0, 4);
      SliceOfSuffix(s, pos, 4, 516);
      r := Some((FileContent(size, binary), n2 - pos));
    }
  }

  method DeserializeChat(buffer: array<uint8>, pos: nat) returns (r: Option<(Body, nat)>)
    requires pos + 1016 <= buffer.Length
    ensures r == DecodeBody(0, 0, buffer[..][pos..])
  {
    hide UnBE64;
    ghost var s := buffer[..];
    var username, n1 := PopByteArray(buffer, pos, MAX_USERNAME_BYTES);
    var text, n2 := PopByteArray(buffer, n1, MAX_CHAT_TEXT_BYTES);
    var ip, n3 := PopByteArray(buffer, n2, MAX_IP_BYTES);
    var time, n4 := Pop64(buffer, n3);
    SliceOfSuffix(s, pos, 0, 32);
    SliceOfSuffix(s, pos, 32, 544);
    SliceOfSuffix(s, pos, 544, 560);
    SliceOfSuffix(s, pos, 560, 568);
    r := Some((UserChat(username, text, ip, time), n4 - pos));
  }

  method DeserializeText(code: uint32, buffer: array<uint8>, pos: nat) returns (r: Option<(Body, nat)>)
    requires pos + 1016 <= buffer.Length && (code == 8 || code == 15)
    ensures r == DecodeBody(code, 0, buffer[..][pos..])
  {
    hide UnBE64;
    ghost var s := buffer[..];
    if code == 8 {
      var ok, n1 := PopByteArray(buffer, pos, 1);
      var text, n2 := PopByteArray(buffer, n1, MAX_CHAT_TEXT_BYTES);
      SliceOfSuffix(s, pos, 1, 513);
      r := Some((Status(ok[0] != 0, text), n2 - pos));
    } else {
      var time, n1 := Pop64(buffer, pos);
      var text, n2 := PopByteArray(buffer, n1, MAX_CHAT_TEXT_BYTES);
      SliceOfSuffix(s, pos, 0, 8);
      SliceOfSuffix(s, pos, 8, 520);
      r := Some((ServerNotification(time, text), n2 - pos));
    }
  }

  method DeserializeBody(code: uint32, len: uint32, buffer: array<uint8>, pos: nat) returns (r: Option<(Body, nat)>)
    requires pos + 1016 <= buffer.Length
    ensures r == DecodeBody(code, len, buffer[..][pos..])
  {
    hide UnBE32, UnBE64, DecodeTask;
    ghost var s := buffer[..];
    var bytes, next;
    if code == 0 {
      r := DeserializeChat(buffer, pos);
    } else if code == 1 {
      bytes, next := PopByteArray(buffer, pos, MAX_USERNAME_BYTES);
      SliceOfSuffix(s, pos, 0, 32);
      r := Some((UserLogin(bytes), next - pos));
    } else if code == 3 || code == 4 {
      r := DeserializeFileBody(code, buffer, pos);
    } else if code == 5 {
      r := Some((FileEnd, 0));
    } else if code == 6 || code == 7 {
      bytes, next := PopByteArray(buffer, pos, BYTES_128_SIZE);
      SliceOfSuffix(s, pos, 0, 128);
      r := Some((if code == 6 then ClientConnected(bytes) else ClientOnQueue(bytes), next - pos));
    } else if code == 8 || code == 15 {
      r := DeserializeText(code, buffer, pos);
    } else if code == 9 {
      bytes, next := PopByteArray(buffer, pos, 1);
      r := Some((ConnectedClients(bytes[0]), next - pos));
    } else if code == 10 {
      var t := DeserializeTask(buffer, pos);
      r := match t case Some((task, n)) => Some((TaskRequest(task), n)) case None => None;
    } else if code == 11 {
      var status, n1 := Pop32(buffer, pos);
      var t := DeserializeTask(buffer, n1);
      SliceOfSuffix(s, pos, 0, 4);
      SliceOfSuffix(s, pos, 4, |s| - pos);
      r := match t case Some((task, n)) => Some((TaskStatus(status, task), 4 + n)) case None => None;
    } else if code == 12 {
      r := Some((SequenceStart, 0));
    } else if code == 13 {
      r := Some((SequenceEnd, 0));
    } else if code == 14 && pos + len <= buffer.Length {
      bytes, next := PopByteArray(buffer, pos, len);
      SliceOfSuffix(s, pos, 0, len);
      r := Some((HeapSequence(bytes), next - pos));
    } else {
      r := None;
    }
  }

  /** Reads the message at the front of the buffer, and how many bytes it read. */
  method DeserializeMessage(buffer: array<uint8>) returns (r: Option<(Message, nat)>)
    requires buffer.Length >= MAX_MESSAGE_NET_SIZE
    ensures r == Decode(buffer[..])
  {
    hide UnBE32, DecodeBody;
    var code, p := Pop32(buffer, 0);
    var len, pos := Pop32(buffer, p);
    var body := DeserializeBody(code, len, buffer, pos);
    r := match body case Some((b, n)) => Some((Message(len, b), pos + n)) case None => None;
  }
}
