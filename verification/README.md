# A verified model of TheyChat's protocol and server registry

TheyChat is a chat and file-sharing program: clients talk to a server over two connections, one for chat and
status messages and one for tasks (listing users or files, uploads, downloads, removals). This project models
two parts of it in Dafny and proves what they are for.

**The application protocol.** Messages and their constructors (`Messages`, `Constructors`), the wire format as a
specification (`Codec`) and as the serializer that fills and reads a byte buffer (`NetSerializer`, `Endian`,
`Bytes`), the 2048-byte reassembly buffer and the loops over partial sends and reads (`NetCommunication`), one
direction of a connection under every interleaving (`Delivery`), the file transfer (`FileTransfer`, `Storage`),
the string-list transfer (`StringLists`, `StringTransfer`), the server's and the client's handling of tasks (`ServerTasks`,
`Listings`, `ClientTasks`, `ClientTaskHandler`), and whole sessions of the two against each other, in
messages (`TaskSession`) and down to the bytes (`ByteSessions`).

**The server's registry.** The list of linked heap nodes with its iterators (`LinkedLists`), the client and file lists
on top of it (`Records`, `ClientLists`, `SharedFileLists`), the registry as a value (`Registry`), the server on
heap lists that refines it (`Servers`), the state machine of a client (`ClientHandler`), whole runs of the server
(`ServerRuns`), and the status connection under fine-grained thread interleaving (`Broadcast`).

`EndToEnd` joins the two: task handlers against runs of the server, and a file on its way from one client to
another.

How the pieces connect:

- A method is proved against a function or a machine, and theorems are about these. `SendFile` emits an
  `IsFileDialogue`, `ReceiveFile` computes `Outcome` for every sequence of messages, and `FileRoundTrip` puts the
  two together for every file. String lists, tasks and the registry are built the same way.
- A `NetworkConnection` carries, as ghost state, the messages still to be delivered and those already sent. Its
  invariant ties them to the real bytes in buffer and transport, so every method above it is proved for every
  chunking of the bytes. `tail` stands for a last message cut short by a peer that disconnects.
- `ByteSessions` puts two links of bytes under a session and refines it, so the two sides are in step under every
  split of the bytes in both directions.
- The transport takes any non-empty prefix of what is sent and returns any non-empty piece of what is to come;
  reads and writes of files are split as arbitrarily.
- Uninitialised bytes, after a terminator or after the content of a block, are arbitrary.

Steps of the registry's runs are whole handlers, except that an upload is two: the next id is read before the
file is received, and the file joins the list afterwards. Which files the system refuses to delete may change
between steps. For the server's threads, `Broadcast` uses steps as fine as one piece of bytes, with any number of them; there the client that the shared iterator yields is arbitrary, since the
iterator is rewound outside the mutex.

Where the code does not do what one would expect, or what its documentation says, the model follows the code and
the condition is proved exactly:

- A file of 2^32 bytes or more is refused by its receiver, because the header holds the size in 32 bits
  (`FileRoundTrip`).
- The result of the end-marker exchange overwrites an error of the content loop, so a transfer can report success
  without its content. A block may also go past the announced size (`SuccessIsCompleteIff`, `TruncatedSuccess`,
  `OverlongSuccess`).
- A target that cannot be opened, or a confirmed file the server cannot read, leaves the two sides out of step
  (`InStepIffGood`, `UnopenableTarget`).
- Two uploads that overlap share one path, and one that fails can overwrite the other's file (`StoredIffSafe`,
  `UploadStoredIffAlone`, `OverlappingUploadsClash`, `FailedUploadStoredIff`, `FailedUploadClashes`).
- The user documentation says that all files of a client are removed when it disconnects (README.md, line 136 of
  the program). The code removes the client even when a file cannot be deleted, and that file then names no listed
  client (`IntegrityIffLeavesClean`, `UndeletableFileOrphaned`); the next files task follows a null pointer
  (`OrphanKillsServer`).
- The state field of a new client is not initialised; if its memory reads CHAT, broadcasts can break into the
  frames of the accepting thread (`FramesStayWholeIffNotChat`). `NULL` stands for every value of the field that
  is not one of the five other states of the model.

## Model

| member | source | states |
|---|---|---|
| `Endian.ConversionsInverse` | src/common/net/endian.c:22-55 | The two hand-written 64-bit conversions undo each other, for every value, on little-endian and on big-endian hosts. |
| `Endian.ShiftedBytes` | src/common/net/endian.c:28-35 | The eight bytes ntoh64 cuts out by shift and mask are the value's bytes, most significant first. |
| `Endian.JoinedBytes` | src/common/net/endian.c:47-49 | Joining eight bytes by shifts gives the number whose bytes, most significant first, they are. |
| `Endian.PushedMostSignificantFirst` | src/common/net/serialization/net_serializer.c:30-34 | What a 64-bit push copies out of memory is the value most significant byte first (Appendix B of RFC 791), on either kind of host. |
| `Endian.PoppedMostSignificantFirst` | src/common/net/serialization/net_serializer.c:63-68 | A 64-bit pop reads eight bytes as the number they are most significant first, on either kind of host. |
| `Endian.Pushed32MostSignificantFirst` | src/common/net/serialization/net_serializer.c:13-19 | What a 32-bit push copies out of memory is the value most significant byte first, on either kind of host. |
| `Endian.Popped32MostSignificantFirst` | src/common/net/serialization/net_serializer.c:44-51 | A 32-bit pop reads four bytes as the number they are most significant first, on either kind of host. |
| `NetSerializer.PushByteArray` | src/common/net/serialization/net_serializer.c:5-11 | The bytes join what was pushed before, and the position moves past them. |
| `NetSerializer.Push32` | src/common/net/serialization/net_serializer.c:13-19 | Pushes the four bytes of the value, most significant first, through the byte swap of the host and its memory order. |
| `NetSerializer.Push64` | src/common/net/serialization/net_serializer.c:30-34 | Pushes the eight bytes of the value, most significant first, through hton64 and the host's memory order. |
| `NetSerializer.PopByteArray` | src/common/net/serialization/net_serializer.c:36-42 | Takes exactly the next bytes and moves the position past them. |
| `NetSerializer.Pop32` | src/common/net/serialization/net_serializer.c:44-51 | Reads the number whose bytes come next, most significant first, through the byte swap of the host and its memory order. |
| `NetSerializer.Pop64` | src/common/net/serialization/net_serializer.c:63-68 | Reads the number whose bytes come next, most significant first, through ntoh64 and the host's memory order. |
| `NetSerializer.SerializeTaskData` | src/common/net/serialization/net_message_serializer.c:108-136 | Each task type pushes its own fields, in the order the decoder expects. |
| `NetSerializer.SerializeTask` | src/common/net/serialization/net_message_serializer.c:105-136 | A tagged task is pushed as its type followed by its data. |
| `NetSerializer.SerializeChat` | src/common/net/serialization/net_message_serializer.c:22-29 | A chat message is pushed name, text, address, time. |
| `NetSerializer.SerializeBody` | src/common/net/serialization/net_message_serializer.c:15-145 | Every message type the serializer accepts is pushed as its wire form, behind whatever is in the buffer. |
| `NetSerializer.SerializeMessage` | src/common/net/serialization/net_message_serializer.c:6-149 | The buffer ends up holding the wire form, the reported size is its length and never exceeds 1024. |
| `NetSerializer.DeserializeTaskData` | src/common/net/serialization/net_message_serializer.c:257-286 | Reads the data of a task of each type, and exits on any other type, as the decoding function says. |
| `NetSerializer.DeserializeTask` | src/common/net/serialization/net_message_serializer.c:254-286 | Reads a tagged task as the decoding function says. |
| `NetSerializer.DeserializeFileBody` | src/common/net/serialization/net_message_serializer.c:182-193 | Reads a file header or a block of content. |
| `NetSerializer.DeserializeChat` | src/common/net/serialization/net_message_serializer.c:167-174 | Reads the four fields of a chat message. |
| `NetSerializer.DeserializeText` | src/common/net/serialization/net_message_serializer.c:202-229 | Reads a status or a notification. |
| `NetSerializer.DeserializeBody` | src/common/net/serialization/net_message_serializer.c:160-292 | Reads the payload of every type, and exits on an unknown type, as the decoding function says. |
| `NetSerializer.DeserializeMessage` | src/common/net/serialization/net_message_serializer.c:151-293 | What is read from the buffer, and how many bytes, is what the decoding function finds in it. |
| `Codec.TaskDataRoundTrip` | src/common/net/serialization/net_message_serializer.c:108-136 | Decoding the data of any task, whatever follows, gives the task back and its exact length. |
| `Codec.TaskRoundTrip` | src/common/net/serialization/net_message_serializer.c:231-286 | The same for a task with its type in front. |
| `Codec.BodyRoundTrip` | src/common/net/serialization/net_message_serializer.c:160-292 | The same for the payload of every message type, the payload length being the announced one. |
| `Codec.RoundTrip` | src/common/net/serialization/net_message_serializer.c:151-293 | Decoding an encoded message followed by any bytes gives the message and consumes exactly its frame; the header alone announces the frame's size; no frame exceeds 1024 bytes. |
| `Codec.HeaderLayout` | src/common/net/serialization/net_message_serializer.c:6-14 | The first four bytes of a frame read as its type and the next four as the payload length, most significant first; the payload follows. |
| `Codec.BodyLayout` | src/common/net/serialization/net_message_serializer.c:15-145 | At which offset of the payload each field of each message type stands. |
| `Codec.TaskLayout` | src/common/net/serialization/net_message_serializer.c:108-136 | At which offset of its data each field of each task type stands. |
| `Codec.EncodeAllInjective` | src/common/net/serialization/net_message_serializer.c:6-149 | Two different sequences of messages never have the same bytes. |
| `Constructors.CreateUserChat` | src/common/messages/message.c:91-101 | The announced length is the serialized length and fits a frame; the text, name and time are readable, whatever follows the terminators. |
| `Constructors.CreateUserLogin` | src/common/messages/message.c:103-112 | Announced length is serialized length; the name is readable. |
| `Constructors.CreateClientConnected` | src/common/messages/message.c:114-126 | Announced length is serialized length; carries the welcome text. |
| `Constructors.CreateClientOnQueue` | src/common/messages/message.c:128-139 | Announced length is serialized length; carries the queue text. |
| `Constructors.ZeroTask` | src/common/messages/message.c:142-171 | The data of the task type: every number, flag and byte zero, fields of their declared sizes. |
| `Constructors.CreateTaskRequest` | src/common/messages/message.c:173-184 | The lengths added for each task type make up the serialized length. |
| `Constructors.CreateTaskStatus` | src/common/messages/message.c:186-199 | The lengths added for each task type, on top of the status, make up the serialized length. |
| `Constructors.CreateFileHeader` | src/common/messages/message.c:201-214 | Announced length is serialized length; name and size are readable. |
| `Constructors.CreateFileContent` | src/common/messages/message.c:216-226 | Announced length is serialized length, padding included; the first bytes are the content. |
| `Constructors.CreateFileEnd` | src/common/messages/message.c:228-234 | Announced length is serialized length. |
| `Constructors.CreateSeqStart` | src/common/messages/message.c:236-242 | Announced length is serialized length. |
| `Constructors.CreateSeqEnd` | src/common/messages/message.c:244-250 | Announced length is serialized length. |
| `Constructors.CreateHeapSeq` | src/common/messages/message.c:252-262 | Announced length is serialized length, up to 1016 bytes of payload. |
| `Constructors.CreateStatus` | src/common/messages/message.c:263-290 | Announced length is serialized length; a reader sees the text up to 512 bytes, also when that leaves no terminator. |
| `Constructors.CreateConnectedClients` | src/common/messages/message.c:292-300 | Announced length is serialized length. |
| `Constructors.CreateServerNotification` | src/common/messages/message.c:302-328 | Announced length is serialized length; a reader sees the text up to 512 bytes. |
| `Constructors.FillStatus` | src/server/task/task_request_handler.c:28-30 | Copying the requested task over the status keeps the announced length right, because the task types agree. |
| `NetCommunication.NetworkStream.PopMessage` | src/common/net/net_stream.c:14-45 | Pops nothing until the announced frame is complete, then what the frame decodes to, and keeps exactly the bytes behind it. |
| `NetCommunication.PartOfFrame` | src/common/net/net_stream.c:18-32 | While only a part of a frame has arrived nothing is popped and the buffer has room left. |
| `NetCommunication.FrontOfStream` | src/common/net/net_stream.c:18-44 | On a well-formed stream: a complete frame yields the very next message and leaves the rest of the stream; an incomplete one yields nothing and leaves space in the buffer. |
| `NetCommunication.NetworkConnection.constructor` | src/common/net/net_stream.c:8-12 | A new connection has received and sent nothing. |
| `NetCommunication.NetworkConnection.SendMessage` | src/common/net/net_communication.c:8-39 | However the transport splits it, the message is appended to the messages sent, whole. |
| `NetCommunication.NetworkConnection.Receive` | src/common/net/net_communication.c:45-78 | Moves a non-empty piece from the transport behind the buffered bytes; overflow exactly on a full buffer; a lost peer exactly when nothing is left. |
| `NetCommunication.NetworkConnection.TryPop` | src/common/net/net_communication.c:86-87 | Pops exactly the next message the peer sent, or nothing, and then the buffer is not full. |
| `NetCommunication.NetworkConnection.WaitForMessage` | src/common/net/net_communication.c:80-99 | Terminates, and delivers exactly the next message whatever the pieces it arrives in; the overflow error never occurs; the only error is a peer that has sent everything. |
| `NetCommunication.NetworkConnection.WaitForMessageType` | src/common/net/net_communication.c:101-123 | The same, and a message of another type is consumed and reported as an error. |
| `Delivery.StepConserves` | src/common/net/net_communication.c:8-99 | No step of sender, transport or receiver loses, duplicates or reorders a byte. |
| `Delivery.DeliveryIndependentOfChunking` | src/common/net/net_communication.c:19-99 | In every run, under every split and interleaving: what was delivered is a prefix of what was sent, and delivered messages, buffered bytes, bytes in flight and unsent bytes make up exactly the encoding of what was sent. |
| `Delivery.FrontOfLink` | src/common/net/net_stream.c:14-45 | Whatever the unwritten part of the buffer holds, a pop yields exactly the next message sent. |
| `Delivery.NeverStuck` | src/common/net/net_communication.c:52-96 | In every run a failed pop finds free space in the 2048-byte buffer, and while messages are outstanding some step is possible. |
| `Delivery.EveryStepWorks` | src/common/net/net_communication.c:86-96 | Every step other than a new send strictly reduces the work left, so everything sent is delivered after finitely many steps. |
| `Storage.FileName` | src/common/file.c:6-10 | What follows the last separator. |
| `Storage.Disk.OpenForWriting` | src/common/net/file_transfer.c:90-93 | Creates or empties the file, unless the system refuses. |
| `Storage.Disk.Write` | src/common/net/file_transfer.c:108-113 | Appends any non-empty prefix of the bytes. |
| `Storage.Disk.Remove` | src/server/shared_file.c:33-39 | Removes the file when it exists and the system allows it, and only then. |
| `FileTransfer.ReadBlock` | src/common/net/file_transfer.c:38-41 | A block of any size up to 512 bytes; empty exactly at the end of the file. |
| `FileTransfer.SendBlocks` | src/common/net/file_transfer.c:38-47 | Whatever the sizes of the blocks read, the blocks sent carry exactly the content, and none is empty. |
| `FileTransfer.SendFile` | src/common/net/file_transfer.c:7-57 | Sends a header with the size modulo 2^32, blocks that carry the content, and the end marker; sends nothing when the file cannot be opened. |
| `FileTransfer.WriteAll` | src/common/net/file_transfer.c:103-114 | However the writes are split, all bytes of the block reach the file. |
| `FileTransfer.ReceiveContent` | src/common/net/file_transfer.c:95-117 | Follows the receiver machine on whatever messages come; the file holds exactly what the machine says was received. |
| `FileTransfer.ReceiveRest` | src/common/net/file_transfer.c:95-127 | The same, with the wait for the end marker whose result replaces the loop's error. |
| `FileTransfer.ReceiveFile` | src/common/net/file_transfer.c:59-128 | For every sequence of messages: result, consumed messages, target path and bytes on the disk are those of the receiver machine. |
| `FileTransfer.OutcomeEnds` | src/common/net/file_transfer.c:96-127 | A receiver stops only by finishing, by failing, or because nothing is left to receive. |
| `FileTransfer.DoneIsCreated` | src/common/net/file_transfer.c:90-93 | A receiver that finished has created its file. |
| `FileTransfer.ContentOutcome` | src/common/net/file_transfer.c:95-117 | Over any blocks the receiver gets their concatenation and stops right behind them when the header's size matches, and fails when they go on. |
| `FileTransfer.DialogueExists` | src/common/net/file_transfer.c:22-54 | Every content and every name that fits the header has a dialogue, so the round trip is about all files. |
| `FileTransfer.FileRoundTrip` | src/common/net/file_transfer.c:26-127 | The receiver writes exactly the bytes the sender read, and stops right after the end marker, if and only if the file is shorter than 2^32 bytes; a longer file it refuses. |
| `FileTransfer.UnopenableTarget` | src/common/net/file_transfer.c:90-93 | When the target cannot be opened only the header is consumed and the rest of the dialogue stays in the stream. |
| `FileTransfer.SuccessIsCompleteIff` | src/common/net/file_transfer.c:66-127 | For every sequence of messages: a transfer reports success with exactly the announced number of bytes if and only if the messages begin with a header whose target opens, contents that make up its size with the last one and not before, and the end marker; it then has exactly the bytes they carry. |
| `FileTransfer.SuccessIsEnoughIff` | src/common/net/file_transfer.c:96-127 | A transfer that reports success has at least the announced number of bytes if and only if nothing but content came between header and end marker. |
| `FileTransfer.TruncatedSuccess` | src/common/net/file_transfer.c:99-127 | Witness: one message of another type in place of the content, and the transfer reports success without a byte of it. |
| `FileTransfer.OverlongSuccess` | src/common/net/file_transfer.c:95-127 | Witness: a block that goes past the announced size, and the transfer reports success with more bytes than announced. |
| `StringLists.StringList.constructor` | src/common/utils/string_list.c:15-29 | An empty list on a linked list of its own. |
| `StringLists.StringList.Add` | src/common/utils/string_list.c:41-50 | The linked list under it stands for the strings with a copy of the new one appended. |
| `StringLists.StringListIterator.Next` | src/common/utils/string_list.c:68-75 | Yields the strings in order by walking the nodes, then nothing forever. |
| `StringTransfer.SendStringList` | src/common/utils/string_list_transferring.c:3-43 | Sends start, one sequence per string with its terminator, in order, and end. |
| `StringTransfer.ReceiveStringList` | src/common/utils/string_list_transferring.c:45-86 | For every sequence of messages: result, consumed messages and appended strings are those of the receiver machine. |
| `StringTransfer.StringsOutcome` | src/common/utils/string_list_transferring.c:61-83 | Over any list of strings the receiver appends exactly these, in order. |
| `StringTransfer.StringListRoundTrip` | src/common/utils/string_list_transferring.c:3-86 | For every list of NUL-free strings of at most 1015 bytes, whatever follows: exactly the strings sent, in order, stopping right after the sequence end. |
| `StringTransfer.OutcomeEnds` | src/common/utils/string_list_transferring.c:61-83 | A receiver stops only by finishing, by failing, or because nothing is left to receive. |
| `LinkedLists.LinkedList.constructor` | src/common/linked_list.c:28-40 | An empty chain. |
| `LinkedLists.LinkedList.Add` | src/common/linked_list.c:56-79 | The chain, its tail and its size stand for the sequence with the element appended. |
| `LinkedLists.LinkedList.Walk` | src/common/linked_list.c:88-93 | Ends on the node at the index and the one before it. |
| `LinkedLists.LinkedList.Unlink` | src/common/linked_list.c:95-107 | Takes exactly that node out and keeps head, tail and size right, in all positions. |
| `LinkedLists.LinkedList.Remove` | src/common/linked_list.c:82-109 | The chain stands for the sequence without the element at the index; false, and nothing changed, when there is none; other nodes keep their data. |
| `LinkedLists.LinkedList.Length` | src/common/linked_list.c:112-115 | The size field is the length of the sequence. |
| `LinkedLists.Iterator.constructor` | src/common/linked_list.c:118-128 | Starts at the head. |
| `LinkedLists.Iterator.Next` | src/common/linked_list.c:137-145 | Yields the current node after moving past it; at the end yields null and stays. |
| `LinkedLists.Drain` | src/common/linked_list.c:118-145 | An undisturbed iterator yields the elements in order, then null. |
| `LinkedLists.FollowReachesNodes` | src/common/linked_list.c:56-109 | Following the links from any node reaches exactly the later elements in order and then null forever, so a removed node is unreachable. |
| `Records.CountedIsIndexed` | src/server/shared_file_list.c:76-107 | The count of a name is zero exactly when the search for it finds nothing. |
| `Records.FileIndexUnique` | src/server/shared_file_list.c:60-74 | While ids rise, searching for the id of a listed file finds that very file. |
| `Records.RemoveFileKeepsIds` | src/server/shared_file_list.c:33-53 | Removal by id keeps ids rising and takes out exactly the one file with that id. |
| `Records.RemoveClientKeepsIds` | src/server/client_list.c:46-72 | The same for clients. |
| `SharedFileLists.SharedFileList.constructor` | src/server/shared_file_list.c:15-21 | An empty list; the first id is 0. |
| `SharedFileLists.SharedFileList.Add` | src/server/shared_file_list.c:27-32 | Appends an element with the next id; the next id wraps at 2^32, and up to there ids rise along the list. |
| `SharedFileLists.SharedFileList.Remove` | src/server/shared_file_list.c:33-53 | Takes out the first element with the id, if there is one, and tells. |
| `SharedFileLists.SharedFileList.CountTo` | src/server/shared_file_list.c:40-48 | The loop of the removal stops at the first element with the id. |
| `SharedFileLists.SharedFileList.GetNextId` | src/server/shared_file_list.c:55-58 | The id the next added element gets; below 2^32 adds it is above the id of every listed file. |
| `SharedFileLists.SharedFileList.FindById` | src/server/shared_file_list.c:60-74 | The node of the first element with the id, null exactly when there is none. |
| `SharedFileLists.SharedFileList.FindByName` | src/server/shared_file_list.c:76-90 | The node of the first element with the name, null exactly when there is none. |
| `SharedFileLists.SharedFileList.CountName` | src/server/shared_file_list.c:92-107 | How many elements have the name. |
| `SharedFileLists.SharedFileList.Update` | src/server/shared_file.c:7-31 | Writing through an element's pointer changes that element only and keeps the list intact. |
| `ClientLists.ClientList.constructor` | src/server/client_list.c:13-37 | An empty list; the first id is 0. |
| `ClientLists.ClientList.Add` | src/server/client_list.c:39-44 | Appends an element with the next id; the next id wraps at 2^32, and up to there ids rise along the list. |
| `ClientLists.ClientList.Remove` | src/server/client_list.c:46-72 | Takes out the first element with the id, if there is one, and tells. |
| `ClientLists.ClientList.CountTo` | src/server/client_list.c:54-60 | The loop of the removal stops at the first element with the id. |
| `ClientLists.ClientList.FindById` | src/server/client_list.c:74-91 | The node of the first element with the id, null exactly when there is none. |
| `ClientLists.ClientList.FindByName` | src/server/client_list.c:93-110 | The node of the first element with the name, null exactly when there is none. |
| `ClientLists.ClientList.Length` | src/server/client_list.c:112-118 | The number of listed clients. |
| `ClientLists.ClientList.Update` | src/server/client.c:5-27 | Writing through an element's pointer changes that element only and keeps the list intact. |
| `ClientLists.ClientList.IteratorNext` | src/server/client_list.c:120-123 | Yields the embedded iterator's node after moving past it. |
| `ClientLists.ClientList.IteratorRewind` | src/server/client_list.c:125-129 | The embedded iterator starts over at the head. |
| `Registry.AtoiOfDecimal` | src/server/task/tasks/server_task_download_file.c:20-23 | The id a user copies from the listing is read back as that id. |
| `Registry.FilePathInjective` | src/server/task/tasks/server_task_upload_file.c:20-38 | Different ids have different paths. |
| `Registry.ResolveByName` | src/server/task/tasks/server_task_download_file.c:25-42 | A download by name finds a file if and only if exactly one listed file has the name, and then that one. |
| `Registry.ResolveById` | src/server/task/tasks/server_task_download_file.c:20-23 | A download by id finds the listed file with that id. |
| `Registry.ResolveByIdIff` | src/server/task/tasks/server_task_download_file.c:20-23 | While ids rise, a download by id resolves to a file if and only if that file is listed under the number asked for. |
| `Registry.UnlistedIdResolvesToNothing` | src/server/task/tasks/server_task_download_file.c:20-52 | It resolves to nothing if and only if no listed file has the number asked for. |
| `Registry.RemoveOwnIff` | src/server/task/tasks/server_task_remove_file.c:57-94 | A client removes a listed file by its id if and only if it owns the file and the file can be deleted; then the list is without exactly this file, in order, and the disk without exactly its path; otherwise nothing changes. |
| `Registry.RemoveOwnUnlisted` | src/server/task/tasks/server_task_remove_file.c:57-70 | An id that no listed file has removes nothing. |
| `Registry.LoginIffFree` | src/server/state_handlers/state_login.c:24-29 | Any listed client is accepted if and only if no listed client has the name; then its name alone changes, and a refusal changes nothing. |
| `Registry.RemoveEachKeeps` | src/server/server.c:274-300 | At every point of the removal loop, over any list: what is behind it stays, what is ahead loses exactly the files that go, in order, the disk loses exactly their paths, and the count is their number. |
| `Registry.BulkRemoval` | src/server/server.c:274-300 | For every list, shared paths included: a listed file goes if and only if the loop visits it, its path could be deleted before the loop, and no file visited earlier has the same path; order and other files stay, the disk loses exactly these paths, and the count is the number gone. |
| `Registry.KeptNext` | src/server/server.c:283-297 | What remains of any beginning of the list grows by the next file, at the end, if that file does not go, and not at all if it does. |
| `Registry.DistinctPathsGo` | src/server/server.c:274-300 | Where no two visited files share a path, exactly the visited files that can be deleted go. |
| `Registry.AllRemovableGo` | src/server/server.c:274-300 | No file of the owner survives if and only if all of them could be deleted before the loop and had paths of their own. |
| `Registry.RemoveEachShrinks` | src/server/server.c:254-300 | Removals only take files of the owner out, and never change a file. |
| `Servers.Server.constructor` | src/server/server.c:27-40 | Both lists are empty. |
| `Servers.Server.RemoveSharedFile` | src/server/server.c:254-272 | From the disk first, and from the list only when that succeeded; the node taken out is the one with the id. |
| `Servers.Server.VisitFile` | src/server/server.c:284-296 | One turn: the node behind the visited one is the next to visit, whether or not the visited one was taken out. |
| `Servers.Server.RemoveVisited` | src/server/server.c:274-300 | The loop over the live iterator terminates, never leaves the chain, and does to lists and disk exactly what the removal function says. |
| `Servers.Server.RemoveClientFiles` | src/server/server.c:274-300 | Removes the files of the client and counts them, as the function that BulkRemoval is about. |
| `Servers.Server.RemoveAllSharedFiles` | src/server/server.c:148-171 | The same for every file. |
| `Servers.LoopTurn` | src/server/server.c:283-297 | Each turn of the loop, by the id of the visited file, is one step of the removal function at that index. |
| `Servers.Server.AcceptClient` | src/server/server.c:128-143 | The heap lists change as the registry's acceptance of a client: next id, default name, its address, an uninitialised state. |
| `Servers.Server.LoginAttempt` | src/server/state_handlers/state_login.c:24-29 | The heap list changes as the registry's login: the client is accepted if and only if no listed client has the name. |
| `Servers.Server.EnterState` | src/server/client_handler.c:53 | The state is stored in this client and nowhere else. |
| `Servers.Server.FindClient` | src/server/client_list.c:74-91 | Null exactly when no client with the id is listed. |
| `Servers.Server.HasClientNamed` | src/server/client_list.c:93-110 | True exactly when a listed client has the name. |
| `Servers.Server.RemoveClient` | src/server/state_handlers/state_disconnect.c:38-40 | Takes the client out of the list. |
| `Servers.Server.FirstClient` | src/server/client_list.c:120-129 | After a rewind the first listed client, null exactly when there is none. |
| `Servers.Server.NextClient` | src/server/client_list.c:120-123 | The listed client where the embedded iterator stands, null exactly at the end of the list. |
| `Servers.Server.NextFile` | src/server/shared_file_list.c:109-119 | The listed file where the iterator stands, null exactly at the end of the list. |
| `Servers.Server.Disconnect` | src/server/state_handlers/state_disconnect.c:11-40 | Files first, then the client; nothing at all when the client is not listed. |
| `Servers.Server.NextFileId` | src/server/task/tasks/server_task_upload_file.c:16-19 | The id the next added file would get now. |
| `Servers.Server.AddUploadedFile` | src/server/task/tasks/server_task_upload_file.c:34-47 | The file joins the list under the id that is next now, with the path of the id read before. |
| `ServerRuns.ClientsTrackedThroughout` | src/server/client_handler.c:18-82 | In every run a client is listed exactly while its state machine has not ended, its state field is the state it is in, and client ids rise, below the next one. |
| `ServerRuns.ReturnsAndRank` | src/server/client_handler.c:27-81 | Each handler return strictly lowers the rank of the state; nothing else moves it but the start of a waiting client. |
| `ServerRuns.HandlersAreFew` | src/server/client_handler.c:27-81 | In every run at most four handlers of a client return. |
| `ServerRuns.DisconnectsOnce` | src/server/state_handlers/state_disconnect.c:13-46 | In every run the disconnect handler of a client has run once if its machine has ended and not at all if it has not. |
| `ServerRuns.DisconnectsLast` | src/server/state_handlers/state_disconnect.c:38-46 | Once it has run, the client is not listed and no handler of it runs again, whatever happens later. |
| `ServerRuns.NamesDistinctThroughout` | src/server/state_handlers/state_login.c:14-29 | In every run clients that logged in have names of their own, and none is called like a new client. |
| `ServerRuns.LeaveIntegrity` | src/server/state_handlers/state_disconnect.c:20-40 | A disconnect leaves every file with a listed owner if and only if all files of the leaving client could be deleted. |
| `ServerRuns.IntegrityIffLeavesClean` | src/server/state_handlers/state_disconnect.c:20-40 | In every run, all files have a listed owner all the time if and only if at every disconnect all files of the leaving client could be deleted; which files the system refuses to delete may change from step to step. |
| `ServerRuns.OwnPathsThroughout` | src/server/task/tasks/server_task_upload_file.c:16-47 | In every run, overlapping uploads included, no two files of one client share a path. |
| `ServerRuns.UndeletableFileOrphaned` | src/server/state_handlers/state_disconnect.c:20-40 | Witness: a run in which a file the system refuses to delete stays listed when its owner leaves. |
| `ServerRuns.IdsRiseThroughout` | src/server/shared_file_list.c:27-58 | In every run file ids rise along the list and stay below the next id. |
| `ServerRuns.FileIdsNeverReused` | src/server/shared_file_list.c:27-32 | In every run whatever is listed later under an id given out before is the same file that had it then. |
| `ServerRuns.FileLeavesByItsOwner` | src/server/task/tasks/server_task_remove_file.c:72-87 | In every run a file leaves the list only by a remove task naming it or all, or the disconnect, of the client that shared it. |
| `ServerRuns.UploadStoredIffAlone` | src/server/task/tasks/server_task_upload_file.c:16-47 | An upload that ends leaves every listed file under the decimal of its own id with what its owner uploaded, if and only if no other upload has ended since it read the next id. |
| `ServerRuns.FailedUploadStoredIff` | src/common/net/file_transfer.c:90-127 | An upload that fails after it created its file does so if and only if whoever is listed under the id it read has uploaded just the bytes it wrote. |
| `ServerRuns.StepStored` | src/server/task/tasks/server_task_upload_file.c:16-47 | A step of any kind leaves the store so if and only if it met that condition; a failed upload that created nothing always does. |
| `ServerRuns.StoredPathsDistinct` | src/server/task/tasks/server_task_upload_file.c:20-38 | Then the paths of listed files are pairwise distinct. |
| `ServerRuns.StoredIffSafe` | src/server/task/tasks/server_task_upload_file.c:16-47 | In every run, with logins, removals, failed uploads and disconnects in any order, all listed files are so stored all the time if and only if every upload that ended or failed met its condition. |
| `ServerRuns.DownloadYieldsUpload` | src/server/task/tasks/server_task_download_file.c:20-73 | In every run that met these conditions, as long as an uploaded file is listed, a download by its id resolves to it and to exactly the bytes uploaded, whatever happened in between. |
| `ServerRuns.OverlappingUploadsClash` | src/server/task/tasks/server_task_upload_file.c:16-47 | Witness: two overlapping uploads end as two files with one path, which holds the second one's bytes. |
| `ServerRuns.FailedUploadClashes` | src/common/net/file_transfer.c:90-127 | Witness: an upload that read the same id and then fails leaves its bytes in another owner's listed file. |
| `ServerRuns.ShutdownEmpties` | src/server/server.c:148-222 | After a run that kept the store sound, a shutdown leaves no file listed if and only if the system refuses to delete none of them, and then none of them is on the disk. |
| `ServerRuns.ShutdownLeaves` | src/server/server.c:148-222 | After every run a shutdown leaves no client, and exactly the files whose path cannot be deleted or was an earlier file's; none if and only if all could be deleted and had paths of their own. |
| `Listings.UserLinesSendable` | src/server/task/tasks/server_task_users.c:26-42 | Every line of the users listing fits a frame. |
| `Listings.FileLinesSendable` | src/server/task/tasks/server_task_files.c:23-40 | Every line of the files listing fits a frame. |
| `Listings.FileLineShowsId` | src/server/task/tasks/server_task_files.c:29-36 | The number read behind "ID: " is the id of the file itself, below 2^31. |
| `Listings.FileLineShowsFields` | src/server/task/tasks/server_task_files.c:29-36 | At their columns the line shows the name of the file, its size as a number, and the name of its owner. |
| `Listings.ListedIdResolves` | src/server/task/tasks/server_task_files.c:29-36 | A download by what the listing shows behind "ID: " finds the file of that line. |
| `Listings.UserLineReads` | src/server/task/tasks/server_task_users.c:27-40 | The line shows the name, then the address exactly when asked for, then the number of the client exactly when asked for. |
| `Listings.BuildUserLines` | src/server/task/tasks/server_task_users.c:14-43 | The line at each index is that of the client at this index, and there is one for each. |
| `Listings.AddFileLine` | src/server/task/tasks/server_task_files.c:25-40 | Appends the line of the file with the name of its owner; dies exactly when the owner is not listed. |
| `Listings.BuildFileLines` | src/server/task/tasks/server_task_files.c:20-41 | Dies exactly when some file has no listed owner; otherwise the line at each index is that of the file at this index, with its owner's name. |
| `ServerTasks.UploadFile` | src/server/task/tasks/server_task_upload_file.c:7-62 | For every sequence of messages: the file joins the list, and the others are told, exactly when the transfer finished; the disk holds what was received. |
| `ServerTasks.FindDownload` | src/server/task/tasks/server_task_download_file.c:18-45 | The loops over the list find the file the request resolves to: by id the one listed under the number, by name the only one with it, else none. |
| `ServerTasks.DownloadFile` | src/server/task/tasks/server_task_download_file.c:6-74 | A refusal, or a confirmation followed by the file's dialogue: confirmed exactly when the request resolves to a file that is on the disk. |
| `ServerTasks.UnlistedIdRefused` | src/server/task/tasks/server_task_download_file.c:45-52 | A download by a number that no listed file has is answered by a single refusal. |
| `ServerTasks.RemoveOwned` | src/server/task/tasks/server_task_remove_file.c:16-90 | Removes the file with the id exactly when it is the client's own and can be deleted, or as many of its files as the bulk removal takes, and says whether something went. |
| `ServerTasks.RemoveFiles` | src/server/task/tasks/server_task_remove_file.c:7-123 | Exactly one status, which says whether something was removed, and a notification exactly when something was. |
| `ServerTasks.AnnouncedIffChanged` | src/server/task/tasks/server_task_remove_file.c:16-123 | A task is announced to the other clients if and only if it changes the list of files. |
| `ServerTasks.ListUsers` | src/server/task/tasks/server_task_users.c:6-51 | Sends one line per listed client and changes nothing. |
| `ServerTasks.ListFiles` | src/server/task/tasks/server_task_files.c:6-49 | Sends one line per listed file and changes nothing; dies before it sends exactly when a file has no listed owner. |
| `ServerTasks.Dispatch` | src/server/task/task_request_handler.c:39-65 | The reply is the one the task asks for, and one the client's side is made for: the lines, the file or a refusal, or whether something was removed; registry, consumed messages and notification are what the task says; only the files task can die, exactly on a file without a listed owner. |
| `ServerTasks.TaskRequestHandler` | src/server/task/task_request_handler.c:12-73 | Nothing at all for a client that has left; otherwise the EXECUTING echo, then the reply the task asks for, and the registry after the task, or death right after the echo. |
| `ClientHandler.HandleConnect` | src/server/state_handlers/state_connect.c:3-21 | Sends exactly the welcome text and goes on to LOGIN. |
| `ClientHandler.AcceptedNameWasFree` | src/server/state_handlers/state_login.c:14-29 | The name accepted was no listed client's, and every name refused before it was one. |
| `ClientHandler.LoginsIff` | src/server/state_handlers/state_login.c:14-40 | A name is accepted if and only if some message is a login with a free name and all before it are logins with taken names; the loop then ends with that message and its name, and otherwise changes nothing. |
| `ClientHandler.LoginTurn` | src/server/state_handlers/state_login.c:16-40 | One message: a refusal is sent exactly when the name is taken. |
| `ClientHandler.HandleLogin` | src/server/state_handlers/state_login.c:4-59 | Goes on to CHAT if and only if a free name comes after nothing but logins with taken ones; answers each message with one status, all of them refusals but the last; then tells the others. |
| `ClientHandler.WithAddress` | src/server/state_handlers/state_chat.c:45-47 | The relayed message carries the address of its sender and is otherwise the one received. |
| `ClientHandler.CountMessage` | src/server/server.c:246-252 | The message carries the number of listed clients modulo 256. |
| `ClientHandler.RelayedPositions` | src/server/state_handlers/state_chat.c:43-46 | The messages relayed are the chat messages received, each once, in order, with the address of the sender. |
| `ClientHandler.SubmittedPositions` | src/server/state_handlers/state_chat.c:48-56 | The tasks submitted are the requests received, each once and in order. |
| `ClientHandler.HandleChat` | src/server/state_handlers/state_chat.c:8-67 | Broadcasts the number of clients and then exactly the chat messages, and submits exactly the task requests, in order, until the peer has gone or the server stops, which costs at most the message just received. |
| `ClientHandler.LeaveUnlists` | src/server/state_handlers/state_disconnect.c:38-40 | After a disconnect no client with the id is listed. |
| `ClientHandler.HandleDisconnect` | src/server/state_handlers/state_disconnect.c:4-47 | The registry after the client left, a notification and then the new number of clients; nothing at all when the client is not listed. |
| `ClientHandler.Handle` | src/server/client_handler.c:27-62 | Runs with the state in the client's field: CONNECT goes on to LOGIN and changes nothing, LOGIN to CHAT exactly when a name is accepted; the client stays listed until the disconnect handler has run. |
| `ClientHandler.Turn` | src/server/client_handler.c:53-80 | Stores the state in the client, and which state comes next: LOGIN after CONNECT, CHAT after LOGIN exactly when a name is accepted, the end after DISCONNECT, DISCONNECT in all other cases, errors included. |
| `ClientHandler.ServerStatesHandlerFsm` | src/server/client_handler.c:18-82 | From CONNECT, a client whose messages begin with logins under taken names and then one under a free name enters exactly CONNECT, LOGIN, CHAT, DISCONNECT; any other enters exactly CONNECT, LOGIN, DISCONNECT; the same from later states; it is no longer listed afterwards. |
| `ClientTasks.FoldListing` | src/common/utils/string_list_transferring.c:45-86 | While a list receiver consumes messages, the client consumes the same ones and ends where it ends. |
| `ClientTasks.FoldDownloading` | src/client/server_task/tasks/server_task_download_file.c:39-63 | The same for a download. |
| `ClientTasks.FoldFailedDownload` | src/client/server_task/server_task_handler.c:106-114 | A transfer that fails shows up as the next entry of the log, an error, whatever the client makes of the messages left over. |
| `ClientTaskHandler.ListTask` | src/client/server_task/tasks/server_task_users.c:6-18 | Follows the client machine over a listing, of users or of files. |
| `ClientTaskHandler.DownloadTask` | src/client/server_task/tasks/server_task_download_file.c:9-64 | Follows the client machine over a download: the status, then the file, and the disk. |
| `ClientTaskHandler.RemoveTask` | src/client/server_task/tasks/server_task_remove_file.c:6-30 | Follows the client machine over a removal: exactly one status. |
| `ClientTaskHandler.UploadTask` | src/client/server_task/tasks/server_task_upload_file.c:7-49 | Sends the file's dialogue exactly when the file exists and can be read, and nothing otherwise. |
| `ClientTaskHandler.HandleTask` | src/client/server_task/server_task_handler.c:76-103 | Dispatches to the handler of the announced task. |
| `ClientTaskHandler.NextTask` | src/client/server_task/server_task_handler.c:40-122 | One turn: follows the machine over the announced task, or drops the message because the user has left. |
| `ClientTaskHandler.ThreadHandler` | src/client/server_task/server_task_handler.c:34-124 | For every sequence of messages: handles exactly what the message-by-message client consumes, leaves the disk that client leaves, and sends exactly the dialogues of the uploads in its log; a user who leaves costs at most the one message just received. |
| `TaskSession.InStepIffGood` | src/server/task/task_request_handler.c:25-65 | For every task, reply branch and idle client, both sides are idle again with nothing left over, if and only if the file moved, if any, can be opened at both ends and is shorter than 2^32 bytes. |
| `TaskSession.UploadOutcome` | src/server/task/tasks/server_task_upload_file.c:23-32 | The server consumes the upload exactly under that condition, and fails otherwise. |
| `TaskSession.ScriptUploads` | src/client/server_task/server_task_handler.c:76-103 | Nothing the server sends for a task starts an upload but the announcement of one. |
| `TaskSession.SessionInStep` | src/server/task/task_request_handler.c:12-73 | In every interleaving of the two sides over any list of tasks, what is ahead of the client brings it exactly to where all started tasks are done, and what is ahead of the server completes the upload it is at. |
| `TaskSession.SessionCompletes` | src/client/server_task/server_task_handler.c:34-124 | Every such session either can go on or has finished with both sides idle and nothing on the way; then the client has, for every task, what the server replied, and the server has exactly the files the client sent. |
| `TaskSession.EveryMoveCounts` | src/client/server_task/server_task_handler.c:40-122 | No session goes on forever. |
| `ByteSessions.StepRefines` | src/common/net/net_communication.c:8-99 | Every move of a session down to the bytes is a move of the session of messages, or leaves that session as it is. |
| `ByteSessions.BytesInStep` | src/server/task/task_request_handler.c:12-73 | The two sides stay in step under every split of the bytes in both directions and every interleaving. |
| `ByteSessions.ByteSessionCompletes` | src/client/server_task/server_task_handler.c:34-124 | For every list of tasks, under every split of the bytes in both directions and every interleaving: the session can go on, or both sides are idle and no byte is left in any buffer or on the wire; then the client has, for every task, what the server replied, and the server has exactly the files the client sent. |
| `ByteSessions.EveryMoveCounts` | src/common/net/net_communication.c:19-99 | No such session goes on forever. |
| `EndToEnd.SoundThroughout` | src/server/task/task_request_handler.c:12-73 | In every run in which the names of uploads fit a header, and while there are ids left, the registry meets what the task handlers take for granted. |
| `EndToEnd.SurvivesIffLeavesClean` | src/server/task/tasks/server_task_files.c:25-36 | In every run, no task kills the server at any time if and only if every disconnect could delete all files of the leaving client. |
| `EndToEnd.TasksSurvive` | src/server/task/tasks/server_task_files.c:25-36 | So in a run in which every disconnect could, no task kills it. |
| `EndToEnd.OrphanKillsServer` | src/server/task/tasks/server_task_files.c:25-36 | Witness: after a run with a file that could not be deleted, the files task does. |
| `EndToEnd.TaskIsRun` | src/server/task/task_request_handler.c:39-65 | What the task handler does to the registry, for any messages of the client, is exactly what the events of that task do in a run. |
| `EndToEnd.AnswerArrives` | src/client/server_task/server_task_handler.c:34-124 | The next entry in the client's log is the answer to its task: the lines of the users or files listed then, whether its removal changed the list of files, the bytes of the file its download resolves to, a refusal when there is none, or the file it sent for an upload. |
| `EndToEnd.UploadArrives` | src/server/task/tasks/server_task_upload_file.c:16-47 | The messages of an upload make the handler do what an upload of exactly these bytes does in a run. |
| `EndToEnd.DownloadDelivers` | src/client/server_task/tasks/server_task_download_file.c:9-64 | While the file of an upload is listed, the reply to a download by its id leaves any client that can write the target idle, with exactly the uploaded bytes on its disk and in its log. |
| `EndToEnd.FileTravels` | src/server/task/tasks/server_task_download_file.c:6-74 | From the uploading client's messages to the downloading client's log: a file reaches another client unchanged, whatever happens in between, in every run that met the conditions of the store. |
| `Broadcast.StepKeepsOneSender` | src/server/broadcast_message.c:4-40 | Every step of every thread keeps at most one frame in progress, because only the owner sends before CHAT and only the mutex holder in CHAT. |
| `Broadcast.OneSenderThroughout` | src/server/broadcast_message.c:4-40 | In every run of any threads, when the state field did not read CHAT at acceptance. |
| `Broadcast.WholeFramesAndOnePart` | src/server/broadcast_message.c:11-39 | In such runs the bytes to the client are whole frames and at most a part of one more, in the order sending began. |
| `Broadcast.ClashRuns` | src/server/server.c:130-138 | Witness: with a state field that reads CHAT, a broadcast puts its frame into the middle of the accepting thread's. |
| `Broadcast.FramesStayWholeIffNotChat` | src/server/broadcast_message.c:11-39 | The frames to a client stay whole in every run if and only if its uninitialised state field does not read CHAT when it is accepted. |

## Left out

- The user interface, command parsing and the client's own state machine (`src/client/states_fsm.c`). The checks that
  the client still chats, and that the server still runs, have an arbitrary outcome.
- Sockets, TLS, `select`, the thread pool, signals and clocks. The transport, the time of a message and the
  content of files are parameters or arbitrary; `server_run` is modelled from the registration of a client on.
- Errors of the transport other than a peer that disconnects: sends always succeed.
- Bytes no constructor builds: messages to be received are well formed, or cut short by a disconnect. `PopSpec`
  says where the program exits or reads outside the buffer; nothing is claimed beyond that.
- Names and addresses that do not fit their fields: user names have at most 31 bytes, addresses 15, names of uploaded
  files 255, and file ids in the runs of the server stay below 10^9.
- Logout and null tasks, which the serializer rejects, and the unused 16-bit pushes and pops.
- The Unix branch of the 64-bit conversions, which calls the system; the hand-written branch is modelled, for hosts
  of either byte order.
- The formatted text of statuses and notifications, which is arbitrary, except for the lines of the two listings.
- Which clients a broadcast reaches: handlers return what they hand to a broadcast, and `Broadcast` models the sends
  to one client. The code locks too little for broadcasts to reach everybody exactly once.
- Concurrency inside a handler in `ServerRuns`, and uploads that end after their client has left: handlers are
  atomic, and an upload ends while its client is listed. The code locks too little for user names to be unique under
  concurrent logins.
- Two tasks at once of one client, which share one task connection without a send lock.
- Freeing memory. Removed nodes stay allocated but cannot be reached; what a pointer to freed memory would do is
  not modelled.
- The connections inside a client record: a handler gets its connection as an argument, and closing it is not
  modelled.
- The tasks of clients while the server shuts down, and `server_free` beyond the clients and the removal of files.
- FileTransfer.SendFile: the name is at most 63 bytes, because a longer one, which the other fields hold, runs over
  the name field of the header.
- ServerTasks.DownloadFile: the names of listed files are at most 63 bytes, for the same reason.
- ClientTaskHandler.UploadTask: the name of the file is at most 63 bytes, for the same reason.
- ServerTasks.Dispatch: names fit their fields, those of files a header, and the next file id is below 10^9, so that
  its decimal fits the server's buffer; `SoundThroughout` derives this from the runs.
- ServerTasks.TaskRequestHandler: the same.
- Servers.Server.Disconnect: without the notifications, which `HandleDisconnect` adds.
- ClientHandler.HandleChat: the broadcasts and the thread pool are represented by what is handed to them.
- ClientHandler.HandleDisconnect: the two connections are not closed.
- ClientTaskHandler.HandleTask: the name of a file to upload is at most 63 bytes, as for `UploadTask`.
- ClientTaskHandler.NextTask: the same.
- ClientTaskHandler.ThreadHandler: the same.
- EndToEnd.TaskIsRun: the client has no other upload in progress.
