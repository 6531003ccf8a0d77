/** The state machine that serves one client, and the handlers of its states. */
module ClientHandler {
  import opened Bytes
  import opened Codec
  import opened Constructors
  import opened Messages
  import opened NetCommunication
  import opened Records
  import opened Registry
  import opened ServerTasks
  import opened Servers
  import ServerRuns

  /** What a handler returns: the next state, or an error. */
  datatype Outcome = Go(next: AppState) | Fail(error: Error)

  method HandleConnect(conn: NetworkConnection) returns (r: Outcome)
    requires conn.Valid()
    modifies conn.Repr
    ensures conn.Valid() && conn.inbox == old(conn.inbox) && r == Go(LOGIN)
    ensures |conn.outbox| == |old(conn.outbox)| + 1 && old(conn.outbox) <= conn.outbox
    ensures var m := conn.outbox[|old(conn.outbox)|]; m.body.ClientConnected? && CStr(m.body.welcome) == Ascii(WELCOME_TEXT)
  {
    hide conn.Valid, WellFormed;
    var memory := new uint8[BYTES_128_SIZE];
    conn.SendMessage(CreateClientConnected(Messages.ClientConnected(memory[..])));
    r := Go(LOGIN);
  }

  // ----- login -----

  /** The login loop over the messages to come: the registry afterwards, how many messages are consumed, and
      whether a name was accepted. It ends with the first free name, or the first message that is no login. */
  function Logins(s: Store, id: uint32, inbox: seq<Message>): (o: (Store, nat, bool))
    ensures o.1 <= |inbox|
    decreases |inbox|
  {
    if inbox == [] then (s, 0, false)
    else if !inbox[0].body.UserLogin? then (s, 1, false)
    else
      var (next, ok) := Login(s, id, CStr(inbox[0].body.loginName));
      if ok then (next, 1, true)
      else
        var o := Logins(s, id, inbox[1..]);
        (o.0, o.1 + 1, o.2)
  }

  lemma LoginsStep(s: Store, id: uint32, m: Message, rest: seq<Message>)
    ensures m.body.UserLogin? && !Login(s, id, CStr(m.body.loginName)).1 ==>
              var o := Logins(s, id, rest);
              Logins(s, id, [m] + rest) == (o.0, o.1 + 1, o.2)
    ensures m.body.UserLogin? && Login(s, id, CStr(m.body.loginName)).1 ==>
              Logins(s, id, [m] + rest) == (Login(s, id, CStr(m.body.loginName)).0, 1, true)
    ensures !m.body.UserLogin? ==> Logins(s, id, [m] + rest) == (s, 1, false)
  {
    assert ([m] + rest)[1..] == rest;
  }

  /** A name is accepted exactly when no listed client has it at that moment. */
  lemma {:induction false} AcceptedNameWasFree(s: Store, id: uint32, inbox: seq<Message>)
    requires Listed(s, id) && Logins(s, id, inbox).2
    ensures var (end, n, _) := Logins(s, id, inbox);
            && n >= 1 && inbox[n - 1].body.UserLogin?
            && var name := CStr(inbox[n - 1].body.loginName);
               && (forall c :: c in s.clients ==> c.name != name)
               && |end.clients| == |s.clients| && end.clients[ClientIndex(s.clients, id)].name == name
               && forall k :: 0 <= k < n - 1 ==>
                    inbox[k].body.UserLogin? && exists c :: c in s.clients && c.name == CStr(inbox[k].body.loginName)
    decreases |inbox|
  {
    hide CStr;
    var m := inbox[0];
    var name := CStr(m.body.loginName);
    var i := UsernameIndex(s.clients, name);
    if !Login(s, id, name).1 {
      assert s.clients[i] in s.clients && s.clients[i].name == name;
      AcceptedNameWasFree(s, id, inbox[1..]);
      var n := Logins(s, id, inbox).1;
      forall k | 0 <= k < n - 1
        ensures inbox[k].body.UserLogin? && exists c :: c in s.clients && c.name == CStr(inbox[k].body.loginName)
      {
        if k > 0 {
          assert inbox[k] == inbox[1..][k - 1];
        }
      }
    }
  }

  /** The message at index `k` is a login with a free name, and all before it are logins with taken names. */
  predicate AcceptedAt(s: Store, inbox: seq<Message>, k: nat) {
    && k < |inbox| && inbox[k].body.UserLogin? && NameFree(s, CStr(inbox[k].body.loginName))
    && forall j :: 0 <= j < k ==> inbox[j].body.UserLogin? && !NameFree(s, CStr(inbox[j].body.loginName))
  }

  ghost predicate NameAccepted(s: Store, inbox: seq<Message>) {
    exists k: nat :: AcceptedAt(s, inbox, k)
  }

  lemma {:induction false} AcceptedLogsIn(s: Store, id: uint32, inbox: seq<Message>, k: nat)
    requires Listed(s, id) && AcceptedAt(s, inbox, k)
    ensures Logins(s, id, inbox) == (Login(s, id, CStr(inbox[k].body.loginName)).0, k + 1, true)
    decreases k
  {
    hide CStr, Login, NameFree, Listed;
    LoginIffFree(s, id, CStr(inbox[0].body.loginName));
    if k > 0 {
      assert inbox[k] == inbox[1..][k - 1];
      AcceptedLogsIn(s, id, inbox[1..], k - 1);
    }
  }

  /** The login loop accepts a name if and only if some message is a login with a free name and all before it are
      logins with taken names; it then takes that name, after exactly these messages, and nothing else changes. */
  lemma LoginsIff(s: Store, id: uint32, inbox: seq<Message>)
    requires Listed(s, id)
    ensures Logins(s, id, inbox).2 <==> NameAccepted(s, inbox)
    ensures forall k: nat :: AcceptedAt(s, inbox, k) ==>
              Logins(s, id, inbox) == (Login(s, id, CStr(inbox[k].body.loginName)).0, k + 1, true)
    ensures !NameAccepted(s, inbox) ==> Logins(s, id, inbox).0 == s
  {
    hide CStr, Login, Logins, Listed;
    forall k: nat | AcceptedAt(s, inbox, k)
      ensures Logins(s, id, inbox) == (Login(s, id, CStr(inbox[k].body.loginName)).0, k + 1, true)
    {
      AcceptedLogsIn(s, id, inbox, k);
    }
    if Logins(s, id, inbox).2 {
      AcceptedNameWasFree(s, id, inbox);
      assert AcceptedAt(s, inbox, Logins(s, id, inbox).1 - 1);
    } else {
      RefusedChangesNothing(s, id, inbox);
    }
  }

  lemma {:induction false} RefusedChangesNothing(s: Store, id: uint32, inbox: seq<Message>)
    requires !Logins(s, id, inbox).2
    ensures Logins(s, id, inbox).0 == s
    decreases |inbox|
  {
    hide CStr;
    if inbox != [] && inbox[0].body.UserLogin? {
      RefusedChangesNothing(s, id, inbox[1..]);
    }
  }

  predicate Refusals(ms: seq<Message>) {
    forall m :: m in ms ==> m.body.Status? && !m.body.ok
  }

  /** One message of the login loop. */
  method LoginTurn(server: Server, conn: NetworkConnection, id: uint32)
    returns (r: Result<bool>, ghost m: Option<Message>, ghost reply: seq<Message>)
    requires server.Valid() && conn.Valid() && Apart(server, conn) && Listed(server.Model(), id)
    modifies conn.Repr, server.clientList.list.nodes
    ensures server.Valid() && conn.Valid()
    ensures m == (if old(conn.inbox) == [] then None else Some(old(conn.inbox)[0]))
    ensures conn.inbox == if m == None then [] else old(conn.inbox)[1..]
    ensures r == if m == None then Err(PeerDisconnected)
                 else if !m.value.body.UserLogin? then Err(InvalidType)
                 else Ok(Login(old(server.Model()), id, CStr(m.value.body.loginName)).1)
    ensures server.Model() == if r.Ok? then Login(old(server.Model()), id, CStr(m.value.body.loginName)).0
                              else old(server.Model())
    ensures conn.outbox == old(conn.outbox) + reply
    ensures Refusals(reply) && |reply| == if r == Ok(false) then 1 else 0
  {
    hide conn.Valid, server.Valid, server.Model, Listed, Login, CStr, WellFormed;
    ghost var s := server.Model();
    reply := [];
    m := if conn.inbox == [] then None else Some(conn.inbox[0]);
    var msg := conn.WaitForMessageType(1);
    assert server.Model() == s;
    if msg.Err? {
      return Err(msg.error), m, reply;
    }
    var logged := server.LoginAttempt(id, CStr(msg.value.body.loginName));
    r := Ok(logged);
    if !logged {
      var refusal := SendStatus(conn, false);
      reply := [refusal];
    }
  }

  /** Waits for logins until one is accepted. */
  method HandleLogin(server: Server, conn: NetworkConnection, id: uint32)
    returns (r: Outcome, notice: Option<Message>, ghost n: nat, ghost replies: seq<Message>)
    requires server.Valid() && conn.Valid() && Apart(server, conn) && Listed(server.Model(), id)
    modifies conn.Repr, server.clientList.list.nodes
    ensures server.Valid() && conn.Valid()
    ensures n == Logins(old(server.Model()), id, old(conn.inbox)).1 && conn.inbox == old(conn.inbox)[n..]
    ensures server.Model() == Logins(old(server.Model()), id, old(conn.inbox)).0
    ensures r.Go? <==> NameAccepted(old(server.Model()), old(conn.inbox))
    ensures conn.outbox == old(conn.outbox) + replies
    ensures if r.Go?
            then r.next == CHAT && |replies| == n > 0 && Refusals(replies[..n - 1])
                 && replies[n - 1].body.Status? && replies[n - 1].body.ok
            else Refusals(replies)
    ensures notice.Some? == r.Go? && (notice.Some? ==> IsNotice(notice.value))
  {
    hide conn.Valid, server.Valid, server.Model, Listed, Login, CStr, WellFormed, IsNotice, Logins, Refusals,
      LoginProgress, NameAccepted;
    ghost var s0, inbox := server.Model(), conn.inbox;
    ghost var m, reply;
    var logged := false;
    notice, n, replies := None, 0, [];
    LoginsIff(s0, id, inbox);
    LoginStarts(id, s0, inbox);
    while !logged
      invariant server.Valid() && conn.Valid() && Listed(server.Model(), id)
      invariant Apart(server, conn)
      invariant n <= |inbox| && conn.inbox == inbox[n..]
      invariant LoginProgress(id, s0, inbox, server.Model(), n, logged)
      invariant conn.outbox == old(conn.outbox) + replies && Refusals(replies)
      invariant |replies| == if logged then n - 1 else n
      decreases |conn.inbox|
    {
      LoginProgresses(id, s0, inbox, server.Model(), n);
      var turn;
      turn, m, reply := LoginTurn(server, conn, id);
      MoreRefusals(replies, reply);
      replies := replies + reply;
      n := if m == None then n else n + 1;
      if turn.Err? {
        return Fail(turn.error), notice, n, replies;
      }
      logged := turn.value;
    }
    LoginEnds(id, s0, inbox, server.Model(), n);
    ghost var s := server.Model();
    var success := SendStatus(conn, true);
    assert server.Model() == s;
    assert (replies + [success])[..n - 1] == replies;
    replies := replies + [success];
    var announcement := Notification();
    r, notice := Go(CHAT), Some(announcement);
  }

  /** After `n` messages: a name was accepted, or what is still to come decides. */
  predicate LoginProgress(id: uint32, s0: Store, inbox: seq<Message>, s: Store, n: nat, logged: bool) {
    && n <= |inbox|
    && if logged then Logins(s0, id, inbox) == (s, n, true)
       else var o := Logins(s, id, inbox[n..]); Logins(s0, id, inbox) == (o.0, n + o.1, o.2)
  }

  lemma LoginStarts(id: uint32, s0: Store, inbox: seq<Message>)
    ensures LoginProgress(id, s0, inbox, s0, 0, false) && Refusals([]) && inbox[0..] == inbox
  {
  }

  lemma LoginProgresses(id: uint32, s0: Store, inbox: seq<Message>, s: Store, n: nat)
    requires LoginProgress(id, s0, inbox, s, n, false) && Listed(s, id)
    ensures if n == |inbox| then Logins(s0, id, inbox) == (s, n, false)
            else
              && inbox[n..] != [] && inbox[n..][0] == inbox[n] && inbox[n..][1..] == inbox[n + 1..]
              && if inbox[n].body.UserLogin? then
                   var (next, ok) := Login(s, id, CStr(inbox[n].body.loginName));
                   LoginProgress(id, s0, inbox, next, n + 1, ok) && Listed(next, id)
                 else Logins(s0, id, inbox) == (s, n + 1, false)
  {
    hide Login, CStr, Listed;
    if n < |inbox| {
      LoginsStep(s, id, inbox[n], inbox[n + 1..]);
      assert inbox[n..] == [inbox[n]] + inbox[n + 1..];
      if inbox[n].body.UserLogin? {
        StaysListed(s, id, CStr(inbox[n].body.loginName));
      }
    }
  }

  lemma LoginEnds(id: uint32, s0: Store, inbox: seq<Message>, s: Store, n: nat)
    requires LoginProgress(id, s0, inbox, s, n, true)
    ensures Logins(s0, id, inbox) == (s, n, true)
  {
  }

  lemma MoreRefusals(a: seq<Message>, b: seq<Message>)
    requires Refusals(a) && Refusals(b)
    ensures Refusals(a + b)
  {
  }

  lemma StaysListed(s: Store, id: uint32, name: CString)
    requires Listed(s, id)
    ensures Listed(Login(s, id, name).0, id)
    ensures !Login(s, id, name).1 ==> Login(s, id, name).0 == s
  {
    var k := ClientIndex(s.clients, id);
    var r := Login(s, id, name).0.clients;
    assert r[k].id == id;
  }

  // ----- chat -----

  /** The message with the address of its sender copied over the one it came with. */
  function WithAddress(m: Message, ip: CString): (r: Message)
    requires WellFormed(m) && m.body.UserChat? && |ip| < MAX_IP_BYTES
    ensures WellFormed(r) && r.body.UserChat? && CStr(r.body.ip) == ip
    ensures r.body.username == m.body.username && r.body.chatText == m.body.chatText && r.body.chatTime == m.body.chatTime
  {
    m.(body := m.body.(ip := StrCpy(m.body.ip, ip)))
  }

  /** What the chat handler relays: every chat message, with the address of its sender written over the one
      it came with. */
  function Relayed(inbox: seq<Message>, ip: CString): seq<Message>
    requires AllWellFormed(inbox) && |ip| < MAX_IP_BYTES
  {
    if inbox == [] then []
    else
      var front, m := inbox[..|inbox| - 1], inbox[|inbox| - 1];
      assert m in inbox;
      Relayed(front, ip) + if m.body.UserChat? then [WithAddress(m, ip)] else []
  }

  /** At each of these positions, in order, is the chat message relayed there. */
  ghost predicate RelayedAt(inbox: seq<Message>, ip: CString, relayed: seq<Message>, at: seq<nat>)
    requires |ip| < MAX_IP_BYTES
  {
    && |at| == |relayed| && (forall j, k :: 0 <= j < k < |at| ==> at[j] < at[k])
    && (forall k :: 0 <= k < |at| ==>
          at[k] < |inbox| && inbox[at[k]].body.UserChat? && WellFormed(inbox[at[k]]) && relayed[k] == WithAddress(inbox[at[k]], ip))
    && (forall i :: 0 <= i < |inbox| && inbox[i].body.UserChat? ==> i in at)
  }

  lemma RelayedOneMore(front: seq<Message>, m: Message, ip: CString, relayed: seq<Message>, at: seq<nat>)
    requires |ip| < MAX_IP_BYTES && WellFormed(m) && RelayedAt(front, ip, relayed, at)
    ensures if m.body.UserChat? then RelayedAt(front + [m], ip, relayed + [WithAddress(m, ip)], at + [|front|])
            else RelayedAt(front + [m], ip, relayed, at)
  {
    hide WellFormed, WithAddress;
    var inbox := front + [m];
    assert forall i :: 0 <= i < |front| ==> inbox[i] == front[i];
    if m.body.UserChat? {
      var all := at + [|front|];
      assert forall i :: i in at ==> i in all;
      assert all[|at|] == |front|;
    }
  }

  /** The messages relayed are the chat messages, each once and in their order. */
  lemma {:induction false} RelayedPositions(inbox: seq<Message>, ip: CString) returns (at: seq<nat>)
    requires AllWellFormed(inbox) && |ip| < MAX_IP_BYTES
    ensures RelayedAt(inbox, ip, Relayed(inbox, ip), at)
    decreases |inbox|
  {
    hide WellFormed, WithAddress;
    at := [];
    if inbox != [] {
      hide RelayedAt;
      var front, m := inbox[..|inbox| - 1], inbox[|inbox| - 1];
      assert m in inbox && inbox == front + [m];
      at := RelayedPositions(front, ip);
      RelayedOneMore(front, m, ip, Relayed(front, ip), at);
      if m.body.UserChat? {
        at := at + [|front|];
      }
    }
  }

  /** The tasks submitted are the ones requested, each once and in their order. */
  lemma {:induction false} SubmittedPositions(inbox: seq<Message>) returns (at: seq<nat>)
    ensures |at| == |Submitted(inbox)| && forall j, k :: 0 <= j < k < |at| ==> at[j] < at[k]
    ensures forall k :: 0 <= k < |at| ==>
              at[k] < |inbox| && inbox[at[k]].body.TaskRequest? && Submitted(inbox)[k] == inbox[at[k]].body.request
    ensures forall i :: 0 <= i < |inbox| && inbox[i].body.TaskRequest? ==> i in at
    decreases |inbox|
  {
    at := [];
    if inbox != [] {
      var last := |inbox| - 1;
      at := SubmittedPositions(inbox[..last]);
      if inbox[last].body.TaskRequest? {
        at := at + [last];
        assert last == at[|at| - 1];
      }
      assert forall i :: 0 <= i < last ==> inbox[i] == inbox[..last][i];
    }
  }

  /** The tasks it submits. */
  function Submitted(inbox: seq<Message>): seq<TaggedTask> {
    if inbox == [] then []
    else
      var front, m := inbox[..|inbox| - 1], inbox[|inbox| - 1];
      Submitted(front) + if m.body.TaskRequest? then [m.body.request] else []
  }

  /** server_client_count_update: the number of clients, cut to one byte. */
  function CountMessage(clientCount: nat): (m: Message)
    ensures WellFormed(m) && m.body.ConnectedClients? && m.body.count as int == clientCount % 0x100
  {
    CreateConnectedClients(clientCount % 0x100)
  }

  /** The server may have been stopped while the handler was waiting. */
  method ServerIsRunning() returns (running: bool) {
    running := *;
  }

  /** The chat loop: relays chat messages and submits tasks until the peer disconnects or the server stops; the
      message received while it stopped is dropped. The broadcasts and the thread pool are represented by what
      is handed to them. */
  method HandleChat(conn: NetworkConnection, ip: CString, clientCount: nat)
    returns (r: Outcome, broadcast: seq<Message>, submitted: seq<TaggedTask>, ghost n: nat)
    requires conn.Valid() && |ip| < MAX_IP_BYTES
    modifies conn.Repr
    ensures conn.Valid() && conn.outbox == old(conn.outbox)
    ensures n <= |old(conn.inbox)| && AllWellFormed(old(conn.inbox)[..n]) && AllWellFormed(broadcast)
    ensures broadcast == [CountMessage(clientCount)] + Relayed(old(conn.inbox)[..n], ip)
    ensures submitted == Submitted(old(conn.inbox)[..n])
    ensures if r.Fail? then r == Fail(PeerDisconnected) && n == |old(conn.inbox)| && conn.inbox == []
            else r == Go(DISCONNECT) && conn.inbox == if n < |old(conn.inbox)| then old(conn.inbox)[n + 1..] else []
  {
    hide WellFormed, WithAddress, Relayed, Submitted, AllWellFormed, conn.Valid;
    InboxWellFormed(conn);
    ghost var inbox := conn.inbox;
    n, broadcast, submitted := 0, [CountMessage(clientCount)], [];
    NothingRelayed(inbox, ip, clientCount);
    while true
      invariant conn.Valid() && conn.outbox == old(conn.outbox)
      invariant n <= |inbox| && conn.inbox == inbox[n..]
      invariant AllWellFormed(inbox[..n]) && AllWellFormed(Relayed(inbox[..n], ip))
      invariant broadcast == [CountMessage(clientCount)] + Relayed(inbox[..n], ip)
      invariant submitted == Submitted(inbox[..n])
      decreases |conn.inbox|
    {
      if n < |inbox| {
        ChatTurn(inbox, n, ip);
      }
      var msg := conn.WaitForMessage();
      CountFirst(clientCount, Relayed(inbox[..n], ip));
      var running := ServerIsRunning();
      if !running {
        return Go(DISCONNECT), broadcast, submitted, n;
      }
      if msg.Err? {
        return Fail(msg.error), broadcast, submitted, n;
      }
      var m := msg.value;
      if m.body.UserChat? {
        broadcast := broadcast + [WithAddress(m, ip)];
      } else if m.body.TaskRequest? {
        submitted := submitted + [m.body.request];
      }
      n := n + 1;
    }
  }

  lemma NothingRelayed(inbox: seq<Message>, ip: CString, count: nat)
    requires |ip| < MAX_IP_BYTES
    ensures AllWellFormed(inbox[..0]) && Relayed(inbox[..0], ip) == [] && Submitted(inbox[..0]) == [] && AllWellFormed([])
    ensures [CountMessage(count)] + [] == [CountMessage(count)]
  {
  }

  lemma CountFirst(count: nat, relayed: seq<Message>)
    requires AllWellFormed(relayed)
    ensures AllWellFormed([CountMessage(count)] + relayed)
  {
    hide WellFormed;
  }

  lemma ChatTurn(inbox: seq<Message>, n: nat, ip: CString)
    requires AllWellFormed(inbox) && n < |inbox| && |ip| < MAX_IP_BYTES
    requires AllWellFormed(inbox[..n]) && AllWellFormed(Relayed(inbox[..n], ip))
    ensures WellFormed(inbox[n]) && AllWellFormed(inbox[..n + 1]) && AllWellFormed(Relayed(inbox[..n + 1], ip))
    ensures Relayed(inbox[..n + 1], ip)
         == Relayed(inbox[..n], ip) + if inbox[n].body.UserChat? then [WithAddress(inbox[n], ip)] else []
    ensures Submitted(inbox[..n + 1])
         == Submitted(inbox[..n]) + if inbox[n].body.TaskRequest? then [inbox[n].body.request] else []
  {
    hide WellFormed, WithAddress, Relayed, Submitted;
    assert WellFormed(inbox[n]) by { assert inbox[n] in inbox; }
    RelayedSnoc(inbox[..n], inbox[n], ip);
    assert inbox[..n] + [inbox[n]] == inbox[..n + 1];
  }

  lemma RelayedSnoc(front: seq<Message>, m: Message, ip: CString)
    requires AllWellFormed(front) && WellFormed(m) && |ip| < MAX_IP_BYTES
    ensures AllWellFormed(front + [m])
    ensures Relayed(front + [m], ip) == Relayed(front, ip) + if m.body.UserChat? then [WithAddress(m, ip)] else []
    ensures Submitted(front + [m]) == Submitted(front) + if m.body.TaskRequest? then [m.body.request] else []
  {
    hide WellFormed, WithAddress;
    assert (front + [m])[..|front|] == front;
  }

  lemma InboxWellFormed(conn: NetworkConnection)
    requires conn.Valid()
    ensures AllWellFormed(conn.inbox)
  {
  }

  // ----- disconnect -----

  /** The client's files go, then the client; the others are told, and get the new number of clients. */
  method HandleDisconnect(server: Server, id: uint32) returns (notices: seq<Message>)
    requires server.Valid() && server.fileList.added <= TWO_TO_THE_32
    modifies server.clientList, server.clientList.list, server.clientList.list.nodes,
             server.fileList, server.fileList.list, server.fileList.list.nodes, server.disk
    ensures server.Valid() && server.Model() == Leave(old(server.Model()), id)
    ensures if Listed(old(server.Model()), id)
            then |notices| == 2 && IsNotice(notices[0]) && notices[1] == CountMessage(|server.Model().clients|)
            else notices == []
  {
    hide server.Valid, server.Model, Leave, ClientIndex, IsNotice;
    var client := server.FindClient(id);
    notices := [];
    server.Disconnect(id);
    if client != null {
      var m := Notification();
      var count := server.CountClients();
      notices := [m, CountMessage(count)];
    }
  }

  // ----- the state machine -----

  /** Client ids are unique: fewer than 2^32 clients were ever accepted. */
  ghost predicate IdsUnique(server: Server)
    reads server.clientList, server.fileList
  {
    server.clientList.added <= TWO_TO_THE_32 && server.fileList.added <= TWO_TO_THE_32
  }

  /** The state field of the client is the given state. */
  predicate InState(s: Store, id: uint32, state: AppState) {
    var k := ClientIndex(s.clients, id);
    k < |s.clients| && s.clients[k].state == state
  }

  /** Runs the handler of the state, which is in the client's state field. It lowers the rank, or fails in a state
      other than DISCONNECT; the client stays listed until the disconnect handler has run, and then it is gone. */
  method Handle(server: Server, conn: NetworkConnection, id: uint32, ip: CString, state: AppState) returns (r: Outcome)
    requires server.Valid() && conn.Valid() && Apart(server, conn) && IdsUnique(server)
    requires state != NULL && state != END && |ip| < MAX_IP_BYTES && InState(server.Model(), id, state)
    modifies conn.Repr, server.clientList, server.clientList.list, server.clientList.list.nodes,
             server.fileList, server.fileList.list, server.fileList.list.nodes, server.disk
    ensures server.Valid() && conn.Valid()
    ensures state == CONNECT ==> r == Go(LOGIN) && conn.inbox == old(conn.inbox) && server.Model() == old(server.Model())
    ensures state == LOGIN ==> (r == Go(CHAT) <==> NameAccepted(old(server.Model()), old(conn.inbox)))
    ensures (if r.Go? then r.next else DISCONNECT) == ServerRuns.NextState(state, r.Go?)
    ensures r.Go? ==> Rank(r.next) < Rank(state) && (r.next == END <==> state == DISCONNECT)
    ensures r.Fail? ==> state != DISCONNECT
    ensures state != DISCONNECT ==> Listed(server.Model(), id) && Apart(server, conn) && IdsUnique(server)
    ensures state != DISCONNECT ==> server.Model().files == old(server.Model()).files
    ensures state != DISCONNECT ==>
              server.clientList.list.nodes == old(server.clientList.list.nodes)
              && server.fileList.list.nodes == old(server.fileList.list.nodes)
    ensures state == DISCONNECT ==> !Listed(server.Model(), id) && server.Model() == Leave(old(server.Model()), id)
  {
    hide conn.Valid, server.Valid, server.Model, Listed, Logins, CStr, WellFormed, Leave, Relayed, Submitted,
      NameAccepted, InState;
    ghost var s := server.Model();
    InStateIsListed(s, id, state);
    match state {
      case CONNECT =>
        r := HandleConnect(conn);
        assert server.Model() == s;
      case LOGIN =>
        ghost var n, replies;
        var notice;
        ghost var inbox := conn.inbox;
        LoginsStayListed(s, id, inbox);
        r, notice, n, replies := HandleLogin(server, conn, id);
      case CHAT =>
        var broadcast, submitted;
        ghost var n;
        var count := server.CountClients();
        r, broadcast, submitted, n := HandleChat(conn, ip, count);
        assert server.Model() == s;
      case DISCONNECT =>
        server.ClientIds();
        LeaveUnlists(s, id);
        var notices := HandleDisconnect(server, id);
        r := Go(END);
    }
  }

  lemma {:induction false} LoginsStayListed(s: Store, id: uint32, inbox: seq<Message>)
    requires Listed(s, id)
    ensures Listed(Logins(s, id, inbox).0, id) && Logins(s, id, inbox).0.files == s.files
    decreases |inbox|
  {
    hide CStr;
    if inbox != [] && inbox[0].body.UserLogin? {
      StaysListed(s, id, CStr(inbox[0].body.loginName));
      LoginsStayListed(s, id, inbox[1..]);
    }
  }

  lemma LeaveUnlists(s: Store, id: uint32)
    requires ClientIdsRise(s.clients, s.clientsAdded)
    ensures !Listed(Leave(s, id), id)
  {
  }

  lemma InStateIsListed(s: Store, id: uint32, state: AppState)
    requires InState(s, id, state)
    ensures Listed(s, id)
  {
  }

  /** The states to be entered from the given one on: chat only when a name is accepted. */
  function Path(state: AppState, accepted: bool): seq<AppState> {
    match state
    case CONNECT => if accepted then [CONNECT, LOGIN, CHAT, DISCONNECT] else [CONNECT, LOGIN, DISCONNECT]
    case LOGIN => if accepted then [LOGIN, CHAT, DISCONNECT] else [LOGIN, DISCONNECT]
    case CHAT => [CHAT, DISCONNECT]
    case DISCONNECT => [DISCONNECT]
    case _ => []
  }

  /** One turn of the state machine: stores the state in the client and runs its handler. LOGIN follows CONNECT, CHAT
      follows LOGIN exactly when a name is accepted; the end follows DISCONNECT, and DISCONNECT everything else. */
  method Turn(server: Server, conn: NetworkConnection, id: uint32, ip: CString, state: AppState) returns (next: AppState)
    requires server.Valid() && conn.Valid() && Apart(server, conn) && IdsUnique(server)
    requires state != NULL && state != END && |ip| < MAX_IP_BYTES && Listed(server.Model(), id)
    modifies conn.Repr, server.clientList, server.clientList.list, server.clientList.list.nodes,
             server.fileList, server.fileList.list, server.fileList.list.nodes, server.disk
    ensures server.Valid() && conn.Valid()
    ensures next == match state
                    case CONNECT => LOGIN
                    case LOGIN => if NameAccepted(old(server.Model()), old(conn.inbox)) then CHAT else DISCONNECT
                    case CHAT => DISCONNECT
                    case _ => END
    ensures state == CONNECT ==>
              (NameAccepted(server.Model(), conn.inbox) <==> NameAccepted(old(server.Model()), old(conn.inbox)))
    ensures if next == END then !Listed(server.Model(), id) else Listed(server.Model(), id)
    ensures next != END ==>
              && Apart(server, conn) && IdsUnique(server)
              && server.clientList.list.nodes == old(server.clientList.list.nodes)
              && server.fileList.list.nodes == old(server.fileList.list.nodes)
  {
    hide conn.Valid, server.Valid, server.Model, Listed, Leave, NameAccepted, InState, UpdateClient;
    EnterChanges(server.Model(), id, state, conn.inbox);
    server.EnterState(id, state);
    var r := Handle(server, conn, id, ip, state);
    next := if r.Fail? then DISCONNECT else r.next;
  }

  /** The state machine: stores each state it enters in the client, and goes to DISCONNECT after any error. Which
      states it enters depends on the messages alone: LOGIN after CONNECT, CHAT exactly when a name is accepted,
      and in any case DISCONNECT, once and last; the client is gone afterwards. */
  method ServerStatesHandlerFsm(server: Server, conn: NetworkConnection, id: uint32, ip: CString, initial: AppState)
    returns (ghost entered: seq<AppState>)
    requires server.Valid() && conn.Valid() && Apart(server, conn) && IdsUnique(server)
    requires initial != NULL && initial != END && |ip| < MAX_IP_BYTES && Listed(server.Model(), id)
    modifies conn.Repr, server.clientList, server.clientList.list, server.clientList.list.nodes,
             server.fileList, server.fileList.list, server.fileList.list.nodes, server.disk
    ensures server.Valid() && !Listed(server.Model(), id)
    ensures initial == CONNECT ==>
              entered == if NameAccepted(old(server.Model()), old(conn.inbox)) then [CONNECT, LOGIN, CHAT, DISCONNECT]
                         else [CONNECT, LOGIN, DISCONNECT]
    ensures initial == LOGIN ==>
              entered == if NameAccepted(old(server.Model()), old(conn.inbox)) then [LOGIN, CHAT, DISCONNECT]
                         else [LOGIN, DISCONNECT]
    ensures initial == CHAT ==> entered == [CHAT, DISCONNECT]
    ensures initial == DISCONNECT ==> entered == [DISCONNECT]
  {
    hide conn.Valid, server.Valid, server.Model, Listed, NameAccepted, Apart;
    var current := initial;
    ghost var accepted := NameAccepted(server.Model(), conn.inbox);
    entered := [];
    while current != END
      invariant server.Valid() && conn.Valid()
      invariant current != END ==>
                  && Apart(server, conn) && IdsUnique(server) && current != NULL
                  && server.clientList.list.nodes == old(server.clientList.list.nodes)
                  && server.fileList.list.nodes == old(server.fileList.list.nodes)
      invariant if current == END then !Listed(server.Model(), id) else Listed(server.Model(), id)
      invariant entered + Path(current, accepted) == Path(initial, accepted)
      invariant current in {CONNECT, LOGIN} ==> NameAccepted(server.Model(), conn.inbox) == accepted
      decreases Rank(current)
    {
      ghost var state := current;
      current := Turn(server, conn, id, ip, current);
      PathStep(entered, state, current, accepted);
      entered := entered + [state];
    }
    assert entered + [] == entered;
  }

  lemma PathStep(entered: seq<AppState>, state: AppState, next: AppState, accepted: bool)
    requires state in {CONNECT, LOGIN, CHAT, DISCONNECT}
    requires next == ServerRuns.NextState(state, state == CONNECT || state == DISCONNECT || (state == LOGIN && accepted))
    ensures (entered + [state]) + Path(next, accepted) == entered + Path(state, accepted)
  {
  }

  /** Entering a state stores it in the client's field, and leaves the names as they are. */
  lemma EnterChanges(s: Store, id: uint32, state: AppState, inbox: seq<Message>)
    requires Listed(s, id)
    ensures var r := UpdateClient(s, s.clients[ClientIndex(s.clients, id)].(state := state));
            InState(r, id, state) && (NameAccepted(r, inbox) <==> NameAccepted(s, inbox))
  {
    hide CStr;
    var k := ClientIndex(s.clients, id);
    var r := UpdateClient(s, s.clients[k].(state := state));
    assert r.clients[k].id == id && ClientIndex(r.clients, id) == k;
    forall name: CString
      ensures NameFree(r, name) <==> NameFree(s, name)
    {
      SameNamesFree(s, r, name);
    }
    hide NameFree;
    assert forall j: nat :: AcceptedAt(r, inbox, j) <==> AcceptedAt(s, inbox, j);
  }

  lemma SameNamesFree(s: Store, r: Store, name: CString)
    requires |r.clients| == |s.clients| && forall i :: 0 <= i < |s.clients| ==> r.clients[i].name == s.clients[i].name
    ensures NameFree(r, name) <==> NameFree(s, name)
  {
    assert NameFree(r, name) <==> forall i :: 0 <= i < |r.clients| ==> r.clients[i].name != name;
    assert NameFree(s, name) <==> forall i :: 0 <= i < |s.clients| ==> s.clients[i].name != name;
  }
}
