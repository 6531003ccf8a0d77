/** The wire format: what a message looks like on the network, and what a receiver makes of bytes. */
module Codec {
  import opened Bytes
  import opened Messages

  // ----- serialization -----

  function TypeCode(b: Body): uint32 {
    match b
    case UserChat(_, _, _, _) => 0
    case UserLogin(_) => 1
    case FileHeader(_, _) => 3
    case FileContent(_, _) => 4
    case FileEnd => 5
    case ClientConnected(_) => 6
    case ClientOnQueue(_) => 7
    case Status(_, _) => 8
    case ConnectedClients(_) => 9
    case TaskRequest(_) => 10
    case TaskStatus(_, _) => 11
    case SequenceStart => 12
    case SequenceEnd => 13
    case HeapSequence(_) => 14
    case ServerNotification(_, _) => 15
  }

  function TaskCode(t: TaggedTask): uint32 {
    match t
    case TaskUsers(_, _) => 1
    case TaskUpload(_, _) => 2
    case TaskDownload(_, _) => 3
    case TaskFiles => 4
    case TaskRemove(_, _) => 5
  }

  function BoolByte(b: bool): seq<uint8> {
    if b then [1] else [0]
  }

  function TaskData(t: TaggedTask): seq<uint8> {
    match t
    case TaskUsers(showIp, showId) => BoolByte(showIp) + BoolByte(showId)
    case TaskUpload(name, path) => name + path
    case TaskDownload(name, byId) => name + BoolByte(byId)
    case TaskFiles => []
    case TaskRemove(id, all) => BoolByte(all) + BE32(id)
  }

  function TaskBytes(t: TaggedTask): seq<uint8> {
    BE32(TaskCode(t)) + TaskData(t)
  }

  function BodyBytes(b: Body): seq<uint8> {
    match b
    case UserChat(username, text, ip, time) => username + text + ip + BE64(time)
    case UserLogin(username) => username
    case FileHeader(name, size) => name + BE32(size)
    case FileContent(size, binary) => BE32(size) + binary
    case ClientConnected(bytes) => bytes
    case ClientOnQueue(bytes) => bytes
    case Status(ok, text) => BoolByte(ok) + text
    case ConnectedClients(count) => [count]
    case TaskRequest(t) => TaskBytes(t)
    case TaskStatus(status, t) => BE32(status) + TaskBytes(t)
    case HeapSequence(bytes) => bytes
    case ServerNotification(time, text) => BE64(time) + text
    case _ => []
  }

  function Encode(m: Message): (s: seq<uint8>)
    ensures |s| >= HEADER_SIZE
  {
    BE32(TypeCode(m.body)) + BE32(m.payloadLength) + BodyBytes(m.body)
  }

  /** The announced length is the serialized length, and the frame fits the network limit. */
  predicate WellFormed(m: Message) {
    && FieldsFit(m.body)
    && m.payloadLength == |BodyBytes(m.body)|
    && m.payloadLength <= MAX_MESSAGE_NET_SIZE - HEADER_SIZE
  }

  // ----- deserialization -----

  /** Reads the data of a task of the given type; the result carries the number of bytes read. */
  function DecodeTaskData(code: uint32, d: seq<uint8>): (r: Option<(TaggedTask, nat)>)
    ensures r.Some? ==> r.value.1 <= |d|
  {
    if code == 1 && |d| >= 2 then Some((TaskUsers(d[0] != 0, d[1] != 0), 2))
    else if code == 2 && |d| >= 768 then Some((TaskUpload(d[..256], d[256..768]), 768))
    else if code == 3 && |d| >= 257 then Some((TaskDownload(d[..256], d[256] != 0), 257))
    else if code == 4 then Some((TaskFiles, 0))
    else if code == 5 && |d| >= 5 then Some((TaskRemove(UnBE32(d[1..5]), d[0] != 0), 5))
    else None
  }

  function DecodeTask(s: seq<uint8>): (r: Option<(TaggedTask, nat)>)
    ensures r.Some? ==> r.value.1 <= |s|
  {
    if |s| < 4 then None
    else match DecodeTaskData(UnBE32(s[..4]), s[4..])
      case Some((t, n)) => Some((t, 4 + n))
      case None => None
  }

  /** Reads the payload of a message with the given header; None where the program exits or reads
      outside the given bytes. */
  function DecodeBody(code: uint32, len: uint32, d: seq<uint8>): (r: Option<(Body, nat)>)
    ensures r.Some? ==> r.value.1 <= |d|
  {
    if code == 0 && |d| >= 568 then
      Some((UserChat(d[..32], d[32..544], d[544..560], UnBE64(d[560..568])), 568))
    else if code == 1 && |d| >= 32 then Some((UserLogin(d[..32]), 32))
    else if code == 3 && |d| >= 68 then Some((FileHeader(d[..64], UnBE32(d[64..68])), 68))
    else if code == 4 && |d| >= 516 then Some((FileContent(UnBE32(d[..4]), d[4..516]), 516))
    else if code == 5 then Some((FileEnd, 0))
    else if code == 6 && |d| >= 128 then Some((ClientConnected(d[..128]), 128))
    else if code == 7 && |d| >= 128 then Some((ClientOnQueue(d[..128]), 128))
    else if code == 8 && |d| >= 513 then Some((Status(d[0] != 0, d[1..513]), 513))
    else if code == 9 && |d| >= 1 then Some((ConnectedClients(d[0]), 1))
    else if code == 10 then
      (match DecodeTask(d)
       case Some((t, n)) => Some((TaskRequest(t), n))
       case None => None)
    else if code == 11 && |d| >= 4 then
      (match DecodeTask(d[4..])
       case Some((t, n)) => Some((TaskStatus(UnBE32(d[..4]), t), 4 + n))
       case None => None)
    else if code == 12 then Some((SequenceStart, 0))
    else if code == 13 then Some((SequenceEnd, 0))
    else if code == 14 && |d| >= len then Some((HeapSequence(d[..len]), len))
    else if code == 15 && |d| >= 520 then Some((ServerNotification(UnBE64(d[..8]), d[8..520]), 520))
    else None
  }

  /** The message at the front of the bytes and the number of bytes read for it. */
  function Decode(s: seq<uint8>): (r: Option<(Message, nat)>)
    ensures r.Some? ==> r.value.1 <= |s|
  {
    if |s| < HEADER_SIZE then None
    else
      var code, len := UnBE32(s[..4]), UnBE32(s[4..8]);
      match DecodeBody(code, len, s[HEADER_SIZE..])
      case Some((b, n)) => Some((Message(len, b), HEADER_SIZE + n))
      case None => None
  }

  /** The frame size a header announces, in the 32-bit arithmetic of the reassembly buffer. */
  function FrameSize(s: seq<uint8>): uint32
    requires |s| >= HEADER_SIZE
  {
    (HEADER_SIZE + UnBE32(s[4..8])) % TWO_TO_THE_32
  }

  // ----- round trip -----

  lemma TaskDataRoundTrip(t: TaggedTask, rest: seq<uint8>)
    requires TaskFieldsFit(t)
    ensures DecodeTaskData(TaskCode(t), TaskData(t) + rest) == Some((t, |TaskData(t)|))
  {
    hide BE32, UnBE32;
    var d := TaskData(t) + rest;
    match t
    case TaskUsers(showIp, showId) =>
      assert d == BoolByte(showIp) + BoolByte(showId) + rest;
    case TaskUpload(name, path) =>
      assert d[..256] == name && d[256..768] == path;
    case TaskDownload(name, byId) =>
      assert d[..256] == name && d[256..257] == BoolByte(byId);
    case TaskFiles =>
    case TaskRemove(id, all) =>
      UnBE32OfBE32(id);
      assert d[..1] == BoolByte(all) && d[1..5] == BE32(id);
  }

  lemma TaskRoundTrip(t: TaggedTask, rest: seq<uint8>)
    requires TaskFieldsFit(t)
    ensures DecodeTask(TaskBytes(t) + rest) == Some((t, |TaskBytes(t)|))
  {
    hide BE32, UnBE32, TaskData, DecodeTaskData;
    var s := TaskBytes(t) + rest;
    UnBE32OfBE32(TaskCode(t));
    TaskDataRoundTrip(t, rest);
    assert s[..4] == BE32(TaskCode(t)) && s[4..] == TaskData(t) + rest;
  }

  lemma ChatRoundTrip(b: Body, len: uint32, rest: seq<uint8>)
    requires b.UserChat? && FieldsFit(b)
    ensures DecodeBody(0, len, BodyBytes(b) + rest) == Some((b, 568))
  {
    var d := BodyBytes(b) + rest;
    UnBE64OfBE64(b.chatTime);
    assert d[..32] == b.username;
    assert d[32..544] == b.chatText;
    assert d[544..560] == b.ip;
    assert d[560..568] == BE64(b.chatTime);
  }

  lemma TaskBodyRoundTrip(b: Body, len: uint32, rest: seq<uint8>)
    requires b.TaskRequest? || b.TaskStatus?
    requires FieldsFit(b)
    ensures DecodeBody(TypeCode(b), len, BodyBytes(b) + rest) == Some((b, |BodyBytes(b)|))
  {
    var d := BodyBytes(b) + rest;
    hide TaskBytes, DecodeTask;
    match b
    case TaskRequest(t) =>
      TaskRoundTrip(t, rest);
    case TaskStatus(status, t) =>
      UnBE32OfBE32(status);
      TaskRoundTrip(t, rest);
      assert d[..4] == BE32(status) && d[4..] == TaskBytes(t) + rest;
  }

  lemma FileBodyRoundTrip(b: Body, len: uint32, rest: seq<uint8>)
    requires b.FileHeader? || b.FileContent?
    requires FieldsFit(b)
    ensures DecodeBody(TypeCode(b), len, BodyBytes(b) + rest) == Some((b, |BodyBytes(b)|))
  {
    var d := BodyBytes(b) + rest;
    match b
    case FileHeader(name, size) =>
      UnBE32OfBE32(size);
      assert d[..64] == name && d[64..68] == BE32(size);
    case FileContent(size, binary) =>
      UnBE32OfBE32(size);
      assert d[..4] == BE32(size) && d[4..516] == binary;
  }

  lemma BodyRoundTrip(b: Body, len: uint32, rest: seq<uint8>)
    requires FieldsFit(b) && len == |BodyBytes(b)|
    ensures DecodeBody(TypeCode(b), len, BodyBytes(b) + rest) == Some((b, len))
  {
    var d := BodyBytes(b) + rest;
    match b
    case UserChat(_, _, _, _) =>
      ChatRoundTrip(b, len, rest);
    case FileHeader(_, _) =>
      FileBodyRoundTrip(b, len, rest);
    case FileContent(_, _) =>
      FileBodyRoundTrip(b, len, rest);
    case TaskRequest(_) =>
      TaskBodyRoundTrip(b, len, rest);
    case TaskStatus(_, _) =>
      TaskBodyRoundTrip(b, len, rest);
    case UserLogin(username) =>
      assert d[..32] == username;
    case ClientConnected(bytes) =>
      assert d[..128] == bytes;
    case ClientOnQueue(bytes) =>
      assert d[..128] == bytes;
    case Status(ok, text) =>
      assert d[0] == BoolByte(ok)[0] && d[1..513] == text;
    case HeapSequence(bytes) =>
      assert d[..len] == bytes;
    case ServerNotification(time, text) =>
      UnBE64OfBE64(time);
      assert d[..8] == BE64(time) && d[8..520] == text;
    case _ =>
  }

  /** Deserializing a serialized message, whatever follows it, gives the message back and reads
      exactly its frame; the header alone tells the frame's size. */
  lemma RoundTrip(m: Message, rest: seq<uint8>)
    requires WellFormed(m)
    ensures Decode(Encode(m) + rest) == Some((m, |Encode(m)|))
    ensures FrameSize(Encode(m) + rest) == |Encode(m)| <= MAX_MESSAGE_NET_SIZE
  {
    var s := Encode(m) + rest;
    UnBE32OfBE32(TypeCode(m.body));
    UnBE32OfBE32(m.payloadLength);
    assert s[..4] == BE32(TypeCode(m.body)) && s[4..8] == BE32(m.payloadLength);
    assert s[HEADER_SIZE..] == BodyBytes(m.body) + rest;
    BodyRoundTrip(m.body, m.payloadLength, rest);
  }

  // ----- the layout of a frame -----

  /** A frame begins with the type and the length of the payload. */
  lemma HeaderLayout(m: Message)
    ensures UnBE32(Encode(m)[..4]) == TypeCode(m.body) && UnBE32(Encode(m)[4..8]) == m.payloadLength
    ensures Encode(m)[8..] == BodyBytes(m.body)
  {
    UnBE32OfBE32(TypeCode(m.body));
    UnBE32OfBE32(m.payloadLength);
    hide BE32, UnBE32, BodyBytes;
    assert Encode(m)[..4] == BE32(TypeCode(m.body)) && Encode(m)[4..8] == BE32(m.payloadLength);
  }

  /** Where the fields of the payload are. */
  lemma BodyLayout(b: Body)
    requires FieldsFit(b)
    ensures var p := BodyBytes(b);
            match b
            case UserChat(username, text, ip, time) =>
              |p| == 568 && p[..32] == username && p[32..544] == text && p[544..560] == ip && p[560..] == BE64(time)
            case UserLogin(username) => p == username
            case FileHeader(name, size) => |p| == 68 && p[..64] == name && p[64..] == BE32(size)
            case FileContent(size, binary) => |p| == 516 && p[..4] == BE32(size) && p[4..] == binary
            case Status(ok, text) => |p| == 513 && (p[0] != 0 <==> ok) && p[1..] == text
            case ConnectedClients(count) => |p| == 1 && p[0] == count
            case ServerNotification(time, text) => |p| == 520 && p[..8] == BE64(time) && p[8..] == text
            case HeapSequence(bytes) => p == bytes
            case ClientConnected(bytes) => p == bytes
            case ClientOnQueue(bytes) => p == bytes
            case TaskRequest(t) => |p| >= 4 && p[..4] == BE32(TaskCode(t)) && p[4..] == TaskData(t)
            case TaskStatus(status, t) =>
              |p| >= 8 && p[..4] == BE32(status) && p[4..8] == BE32(TaskCode(t)) && p[8..] == TaskData(t)
            case _ => p == []
  {
    hide BE32, BE64, TaskData;
  }

  /** Where the fields of the data of a task are. */
  lemma TaskLayout(t: TaggedTask)
    requires TaskFieldsFit(t)
    ensures var p := TaskData(t);
            match t
            case TaskUsers(showIp, showId) => |p| == 2 && (p[0] != 0 <==> showIp) && (p[1] != 0 <==> showId)
            case TaskUpload(name, path) => |p| == 768 && p[..256] == name && p[256..] == path
            case TaskDownload(name, byId) => |p| == 257 && p[..256] == name && (p[256] != 0 <==> byId)
            case TaskFiles => p == []
            case TaskRemove(id, all) => |p| == 5 && (p[0] != 0 <==> all) && p[1..] == BE32(id)
  {
    hide BE32;
  }

  // ----- sequences of messages -----

  predicate AllWellFormed(ms: seq<Message>) {
    forall m :: m in ms ==> WellFormed(m)
  }

  function EncodeAll(ms: seq<Message>): seq<uint8> {
    if ms == [] then [] else Encode(ms[0]) + EncodeAll(ms[1..])
  }

  lemma Cons(m: Message, ms: seq<Message>)
    ensures EncodeAll([m] + ms) == Encode(m) + EncodeAll(ms)
  {
    assert ([m] + ms)[1..] == ms;
  }

  lemma {:induction false} EncodeAllAppend(a: seq<Message>, b: seq<Message>)
    ensures EncodeAll(a + b) == EncodeAll(a) + EncodeAll(b)
  {
    if a == [] {
      assert a + b == b;
    } else {
      hide Encode;
      var m, t := a[0], a[1..];
      assert a + b == [m] + (t + b);
      Cons(m, t + b);
      calc {
        EncodeAll(a + b);
        Encode(m) + EncodeAll(t + b);
        { EncodeAllAppend(t, b); }
        Encode(m) + (EncodeAll(t) + EncodeAll(b));
        EncodeAll(a) + EncodeAll(b);
      }
    }
  }

  lemma EncodeAllSnoc(a: seq<Message>, m: Message)
    ensures EncodeAll(a + [m]) == EncodeAll(a) + Encode(m)
  {
    hide Encode;
    EncodeAllAppend(a, [m]);
    Cons(m, []);
    assert [m] + [] == [m];
    assert Encode(m) + [] == Encode(m);
  }

  /** Different message sequences never share an encoding. */
  lemma {:induction false} EncodeAllInjective(a: seq<Message>, b: seq<Message>)
    requires AllWellFormed(a) && AllWellFormed(b)
    requires EncodeAll(a) == EncodeAll(b)
    ensures a == b
  {
    if a == [] || b == [] {
    } else {
      RoundTrip(a[0], EncodeAll(a[1..]));
      RoundTrip(b[0], EncodeAll(b[1..]));
      assert EncodeAll(a)[|Encode(a[0])|..] == EncodeAll(a[1..]);
      assert EncodeAll(b)[|Encode(b[0])|..] == EncodeAll(b[1..]);
      EncodeAllInjective(a[1..], b[1..]);
    }
  }
}
