/** server/client_hook.py: the broker between evaluator connections and the
    callers that send them code. A registry maps each logged-in key to its
    `Client`; each client keeps a table from conversation id to the queue of
    messages received for that conversation. The transport is reduced to the
    frames a connection receives and the messages it sends; locks are not
    modelled, each method below is one atomic step. */
module ClientHook {
  import opened Wrappers
  import opened Protocol
  import Store

  /** A frame received on a connection: a parsed JSON object, or text that
      `json.loads` rejected, with the text of its `JSONDecodeError`. */
  datatype Frame = Parsed(data: Dict) | Unparsable(reason: string)

  const NOT_CLIENT_SIDE := "Expected CLIENT side message, got SERVER"
  const ALREADY_REGISTERED := "Already registered"
  const INVALID_KEY := "Invalid key. Request a new one with `/client_key`"
  const ALREADY_LOGGED_IN := "Client already logged in. Request a new key with `/client_key` to invalidate that session"
  const NO_CONVERSATION := "No active conversation with that id"
  const NOT_REGISTERED := "Client needs to be registered first"

  /** `InvalidMessage(id, error)` */
  function InvalidReply(id: string, error: string): Message {
    ServerMessage(id, InvalidBody(Some(error)))
  }

  /** The server's end of one connection: every message sent on it, in order,
      and whether `abort_pings` and `close` were called on it. */
  class Socket {
    var sent: seq<Message>
    var pingsAborted: bool
    var closeRequested: bool

    constructor ()
      ensures sent == [] && !pingsAborted && !closeRequested
    {
      sent, pingsAborted, closeRequested := [], false, false;
    }

    method Send(m: Message)
      modifies this
      ensures sent == old(sent) + [m]
      ensures pingsAborted == old(pingsAborted) && closeRequested == old(closeRequested)
    {
      sent := sent + [m];
    }

    method AbortPings()
      modifies this
      ensures pingsAborted && sent == old(sent) && closeRequested == old(closeRequested)
    {
      pingsAborted := true;
    }

    method Close()
      modifies this
      ensures closeRequested && sent == old(sent) && pingsAborted == old(pingsAborted)
    {
      closeRequested := true;
    }
  }

  /** A registered evaluator connection (`Client`). */
  class Client {
    const key: string
    const socket: Socket
    var conversations: map<string, seq<Message>>

    constructor (key: string, socket: Socket)
      ensures this.key == key && this.socket == socket && conversations == map[]
    {
      this.key := key;
      this.socket := socket;
      conversations := map[];
    }
  }

  /** Removes `id` from the table when it is a key of it; `None` is never a key. */
  function Discard(table: map<string, seq<Message>>, id: Option<string>): (r: map<string, seq<Message>>)
    ensures id.Some? ==> r == table - {id.value}
    ensures id.None? ==> r == table
  {
    if id.Some? && id.value in table then table - {id.value} else table
  }

  /** A caller's exchange with one client, used as an `async with` block. */
  class Conversation {
    const client: Client
    var id: Option<string>

    constructor (client: Client)
      ensures this.client == client && id.None?
    {
      this.client := client;
      id := None;
    }

    /** `__aenter__`: opens an empty queue under a fresh id (`new_id()` is the parameter). */
    method Enter(freshId: string)
      requires freshId !in client.conversations
      modifies this, client
      ensures id == Some(freshId)
      ensures client.conversations == old(client.conversations)[freshId := []]
    {
      id := Some(freshId);
      client.conversations := client.conversations[freshId := []];
    }

    /** `__aexit__` as written: `id` is cleared before the membership test, so
        the test asks for `None` and the queue stays in the table. */
    method Exit()
      modifies this, client
      ensures id.None?
      ensures client.conversations == old(client.conversations)
    {
      id := None;
      client.conversations := Discard(client.conversations, id);
    }

    /** `__aexit__` corrected: the entry under the conversation's id is removed. */
    method Close()
      modifies this, client
      ensures id.None?
      ensures old(id).Some? ==> client.conversations == old(client.conversations) - {old(id).value}
      ensures old(id).None? ==> client.conversations == old(client.conversations)
    {
      client.conversations := Discard(client.conversations, id);
      id := None;
    }

    /** `send`: only inside the `async with` block; the message goes out on the client's socket. */
    method Send(m: Message)
      requires id.Some?
      modifies client.socket
      ensures client.socket.sent == old(client.socket.sent) + [m]
      ensures client.socket.pingsAborted == old(client.socket.pingsAborted)
      ensures client.socket.closeRequested == old(client.socket.closeRequested)
    {
      client.socket.Send(m);
    }

    /** `receive`: takes the oldest queued message; `None` where Python would wait. */
    method Receive() returns (m: Option<Message>)
      requires id.Some? && id.value in client.conversations
      modifies client
      ensures old(client.conversations)[id.value] == [] ==> m.None? && client.conversations == old(client.conversations)
      ensures old(client.conversations)[id.value] != [] ==>
        m == Some(old(client.conversations)[id.value][0])
        && client.conversations == old(client.conversations)[id.value := old(client.conversations)[id.value][1..]]
    {
      var queue := client.conversations[id.value];
      if queue == [] {
        m := None;
      } else {
        m := Some(queue[0]);
        client.conversations := client.conversations[id.value := queue[1..]];
      }
    }
  }

  /** The local state of one `handle_client` call: its socket, the `client`
      it registered (null until then) and the last decoded `message` (None
      while that local is still unbound). */
  class Handler {
    const socket: Socket
    var client: Client?
    var message: Option<Message>

    constructor (socket: Socket)
      ensures this.socket == socket && client == null && message.None?
    {
      this.socket := socket;
      client := null;
      message := None;
    }
  }

  /** Between two states, the handler sent exactly `reply` after `before` and changed nothing else. */
  twostate predicate Replied(s: ClientHookServer, h: Handler, before: seq<Message>, reply: Message)
    reads s, h, h.socket, h.client
  {
    s.clients == old(s.clients) && h.client == old(h.client)
    && (h.client != null ==> h.client.conversations == old(h.client.conversations))
    && h.socket.sent == before + [reply] && FlagsKept(h.socket)
  }

  /** Between two states, neither `abort_pings` nor `close` was called on `socket`. */
  twostate predicate FlagsKept(socket: Socket)
    reads socket
  {
    socket.pingsAborted == old(socket.pingsAborted) && socket.closeRequested == old(socket.closeRequested)
  }

  /** What the loop body does with a decoded message `msg` (lines 77-99), the
      socket having already sent `before`. */
  twostate predicate Dispatched(s: ClientHookServer, h: Handler, msg: Message, before: seq<Message>)
    reads s, s.store, h, h.socket, h.client
  {
    var c := old(h.client);
    if msg.ClientMessage? && msg.cbody.RegisterBody? then
      if c != null then Replied(s, h, before, InvalidReply(msg.id, ALREADY_REGISTERED))
      else if !Store.KeyValid(s.store.clients, msg.key) then Replied(s, h, before, InvalidReply(msg.id, INVALID_KEY))
      else if msg.key in old(s.clients) then Replied(s, h, before, InvalidReply(msg.id, ALREADY_LOGGED_IN))
      else
        h.client != null && fresh(h.client) && h.client.key == msg.key && h.client.socket == h.socket
        && h.client.conversations == map[]
        && s.clients == old(s.clients)[msg.key := h.client]
        && h.socket.sent == before + [ServerMessage(msg.id, ServerOkBody)] && FlagsKept(h.socket)
    else if c != null then
      if msg.id in old(c.conversations) then
        h.client == c && s.clients == old(s.clients) && h.socket.sent == before && FlagsKept(h.socket)
        && c.conversations == old(c.conversations)[msg.id := old(c.conversations)[msg.id] + [msg]]
      else Replied(s, h, before, InvalidReply(msg.id, NO_CONVERSATION))
    else Replied(s, h, before, InvalidReply(msg.id, NOT_REGISTERED))
  }

  class ClientHookServer {
    const store: Store.LanguageStore
    var clients: map<string, Client>

    /** Every registered client is filed under its own key. */
    ghost predicate Valid()
      reads this
    {
      forall k :: k in clients ==> clients[k].key == k
    }

    /** A connection that has registered is the one filed under its key. */
    ghost predicate Bound(h: Handler)
      reads this, h
    {
      h.client != null ==> h.client.key in clients && clients[h.client.key] == h.client
    }

    constructor (store: Store.LanguageStore)
      ensures Valid() && this.store == store && clients == map[]
    {
      this.store := store;
      clients := map[];
    }

    /** Lines 77-99: registration while unregistered, routing to a conversation
        queue once registered, and an INVALID reply for everything else. */
    method Dispatch(h: Handler, msg: Message)
      requires Valid() && Bound(h)
      modifies this, h, h.socket, h.client
      ensures Valid() && Bound(h)
      ensures h.message == old(h.message)
      ensures Dispatched(this, h, msg, old(h.socket.sent))
    {
      if msg.ClientMessage? && msg.cbody.RegisterBody? {
        if h.client != null {
          h.socket.Send(InvalidReply(msg.id, ALREADY_REGISTERED));
          return;
        }
        var valid := store.ValidateKey(msg.key);
        if !valid {
          h.socket.Send(InvalidReply(msg.id, INVALID_KEY));
          return;
        }
        if msg.key in clients {
          h.socket.Send(InvalidReply(msg.id, ALREADY_LOGGED_IN));
          return;
        }
        var c := new Client(msg.key, h.socket);
        clients := clients[c.key := c];
        h.client := c;
        h.socket.Send(ServerMessage(msg.id, ServerOkBody));
      } else if h.client != null {
        var c := h.client;
        if msg.id in c.conversations {
          c.conversations := c.conversations[msg.id := c.conversations[msg.id] + [msg]];
        } else {
          h.socket.Send(InvalidReply(msg.id, NO_CONVERSATION));
        }
      } else {
        h.socket.Send(InvalidReply(msg.id, NOT_REGISTERED));
      }
    }

    /** Lines 72-73 as written: the INVALID reply is sent, but without a
        `continue` the body goes on with the stale `message` of an earlier
        frame, or fails on the unbound local when there was none. */
    method HandleUnparsable(h: Handler, reason: string) returns (crashed: bool)
      requires Valid() && Bound(h)
      modifies this, h, h.socket, h.client
      ensures Valid() && Bound(h)
      ensures h.message == old(h.message)
      ensures crashed <==> old(h.message).None?
      ensures crashed ==> Replied(this, h, old(h.socket.sent), InvalidReply("", reason))
      ensures !crashed ==> Dispatched(this, h, old(h.message).value, old(h.socket.sent) + [InvalidReply("", reason)])
    {
      h.socket.Send(InvalidReply("", reason));
      if h.message.None? {
        return true;
      }
      Dispatch(h, h.message.value);
      return false;
    }

    /** Lines 72-73 corrected with the missing `continue`: only the INVALID reply. */
    method HandleUnparsableFixed(h: Handler, reason: string)
      modifies h.socket
      ensures Replied(this, h, old(h.socket.sent), InvalidReply("", reason))
      ensures h.message == old(h.message)
    {
      h.socket.Send(InvalidReply("", reason));
    }

    /** One iteration of the `async for` loop of `handle_client`. */
    method HandleFrame(h: Handler, frame: Frame) returns (crashed: bool)
      requires Valid() && Bound(h)
      modifies this, h, h.socket, h.client
      ensures Valid() && Bound(h)
      ensures crashed <==> frame.Unparsable? && old(h.message).None?
      ensures crashed ==> frame.Unparsable? && Replied(this, h, old(h.socket.sent), InvalidReply("", frame.reason))
      ensures frame.Parsed? && Decode(frame.data).Failure? ==>
        h.message == old(h.message)
        && Replied(this, h, old(h.socket.sent), InvalidReply("", Describe(Decode(frame.data).error)))
      ensures frame.Parsed? && Decode(frame.data).Success? ==> h.message == Some(Decode(frame.data).value)
      ensures frame.Parsed? && Decode(frame.data).Success? && Decode(frame.data).value.ServerMessage? ==>
        Replied(this, h, old(h.socket.sent), InvalidReply(Decode(frame.data).value.id, NOT_CLIENT_SIDE))
      ensures frame.Parsed? && Decode(frame.data).Success? && Decode(frame.data).value.ClientMessage? ==>
        Dispatched(this, h, Decode(frame.data).value, old(h.socket.sent))
      ensures frame.Unparsable? ==> h.message == old(h.message)
      ensures frame.Unparsable? && old(h.message).Some? ==>
        Dispatched(this, h, old(h.message).value, old(h.socket.sent) + [InvalidReply("", frame.reason)])
    {
      match frame
      case Unparsable(reason) =>
        crashed := HandleUnparsable(h, reason);
      case Parsed(data) =>
        crashed := false;
        var decoded := Decode(data);
        if decoded.Failure? {
          h.socket.Send(InvalidReply("", Describe(decoded.error)));
          return;
        }
        var msg := decoded.value;
        h.message := Some(msg);
        if msg.ServerMessage? {
          h.socket.Send(InvalidReply(msg.id, NOT_CLIENT_SIDE));
          return;
        }
        Dispatch(h, msg);
    }

    /** The `finally` block: a registered connection's key leaves the registry
        (a `KeyError` if it is already gone); its conversations are left as they are. */
    method Disconnect(h: Handler) returns (keyError: bool)
      requires Valid()
      modifies this
      ensures Valid()
      ensures keyError <==> h.client != null && h.client.key !in old(clients)
      ensures old(Bound(h)) ==> !keyError
      ensures h.client != null && !keyError ==> clients == old(clients) - {h.client.key}
      ensures h.client == null || keyError ==> clients == old(clients)
      ensures h.client != null ==> h.client.conversations == old(h.client.conversations)
    {
      if h.client != null {
        if h.client.key !in clients {
          return true;
        }
        clients := clients - {h.client.key};
      }
      return false;
    }

    /** `conversation(key)`: a new conversation with the client logged in under `key`, if any. */
    method ConversationFor(key: string) returns (c: Conversation?)
      ensures c != null <==> key in clients
      ensures c != null ==> fresh(c) && c.client == clients[key] && c.id.None?
    {
      if key in clients {
        c := new Conversation(clients[key]);
      } else {
        c := null;
      }
    }

    /** `kill_client_conn`: asks the connection logged in under `key` to stop;
        the registry itself is not touched. */
    method KillClientConn(key: string)
      modifies if key in clients then {clients[key].socket} else {}
      ensures clients == old(clients)
      ensures key in clients ==> clients[key].socket.pingsAborted && clients[key].socket.closeRequested
      ensures key in clients ==> clients[key].socket.sent == old(clients[key].socket.sent)
    {
      if key in clients {
        var socket := clients[key].socket;
        socket.AbortPings();
        socket.Close();
      }
    }
  }

  /** A new server whose one connection has logged in with `key`. */
  method LoggedIn(store: Store.LanguageStore, key: string) returns (server: ClientHookServer, h: Handler)
    requires Store.KeyValid(store.clients, key)
    ensures fresh(server) && fresh(h) && fresh(h.socket) && server.Valid() && server.Bound(h) && server.store == store
    ensures h.client != null && fresh(h.client) && h.client.key == key && h.client.socket == h.socket
    ensures server.clients == map[key := h.client] && h.client.conversations == map[]
    ensures h.socket.sent == [ServerMessage("login", ServerOkBody)]
  {
    server := new ClientHookServer(store);
    var socket := new Socket();
    h := new Handler(socket);
    var register := ClientMessage("login", key, RegisterBody);
    RoundTrip(register);
    var _ := server.HandleFrame(h, Parsed(Encode(register)));
  }

  /** A new server whose one connection has logged in with `key`, and a
      caller inside `async with` on a conversation with it under `cid`. */
  method OpenConversation(store: Store.LanguageStore, key: string, cid: string)
    returns (server: ClientHookServer, h: Handler, convo: Conversation)
    requires Store.KeyValid(store.clients, key)
    ensures fresh(server) && fresh(h) && fresh(h.socket) && server.Valid() && server.Bound(h) && server.store == store
    ensures h.client != null && fresh(h.client) && h.client.key == key && h.client.socket == h.socket
    ensures fresh(convo) && convo.client == h.client && convo.id == Some(cid)
    ensures server.clients == map[key := h.client] && h.client.conversations == map[cid := []]
    ensures h.socket.sent == [ServerMessage("login", ServerOkBody)]
  {
    server, h := LoggedIn(store, key);
    convo := server.ConversationFor(key);
    convo.Enter(cid);
  }

  /** The client sends a RESULT that survives encoding: the loop decodes it and dispatches it. */
  method ReceiveEncoded(server: ClientHookServer, h: Handler, result: Message)
    requires server.Valid() && server.Bound(h) && h.client != null
    requires result.ClientMessage? && result.cbody.ResultBody? && RoundTrips(result)
    modifies server, h, h.socket, h.client
    ensures server.Valid() && server.Bound(h)
    ensures h.message == Some(result)
    ensures Dispatched(server, h, result, old(h.socket.sent))
  {
    RoundTrip(result);
    var _ := server.HandleFrame(h, Parsed(Encode(result)));
  }

  /** A caller's evaluation: the EVALUATE goes out on the client's socket, the
      client's RESULT for the same id is queued, and the caller receives it. */
  method EvaluateExchange(store: Store.LanguageStore, key: string, cid: string, code: string, result: Message)
    returns (received: Option<Message>, sent: seq<Message>)
    requires Store.KeyValid(store.clients, key)
    requires result.ClientMessage? && result.key == key && result.id == cid && result.cbody.ResultBody?
    requires RoundTrips(result)
    ensures received == Some(result)
    ensures sent == [ServerMessage("login", ServerOkBody), ServerMessage(cid, EvaluateBody(code))]
  {
    var server, h, convo := OpenConversation(store, key, cid);
    convo.Send(ServerMessage(cid, EvaluateBody(code)));
    ReceiveEncoded(server, h, result);
    received := convo.Receive();
    sent := h.socket.sent;
  }

  /** As written, a reply that arrives after the caller left its `async with`
      block is still queued under the old id and never answered with INVALID. */
  method LateReplyAfterExit(store: Store.LanguageStore, key: string, cid: string, result: Message)
    returns (queued: seq<Message>, sent: seq<Message>)
    requires Store.KeyValid(store.clients, key)
    requires result.ClientMessage? && result.key == key && result.id == cid && result.cbody.ResultBody?
    requires RoundTrips(result)
    ensures queued == [result]
    ensures sent == [ServerMessage("login", ServerOkBody)]
  {
    var server, h, convo := OpenConversation(store, key, cid);
    convo.Exit();
    ReceiveEncoded(server, h, result);
    queued := h.client.conversations[cid];
    sent := h.socket.sent;
  }

  /** With the corrected exit, the same late reply finds no conversation and is answered with INVALID. */
  method LateReplyAfterClose(store: Store.LanguageStore, key: string, cid: string, result: Message)
    returns (open: bool, sent: seq<Message>)
    requires Store.KeyValid(store.clients, key)
    requires result.ClientMessage? && result.key == key && result.id == cid && result.cbody.ResultBody?
    requires RoundTrips(result)
    ensures !open
    ensures sent == [ServerMessage("login", ServerOkBody), InvalidReply(cid, NO_CONVERSATION)]
  {
    var server, h, convo := OpenConversation(store, key, cid);
    convo.Close();
    ReceiveEncoded(server, h, result);
    open := cid in h.client.conversations;
    sent := h.socket.sent;
  }

  /** As written, an unparsable frame after a RESULT makes the loop route that
      RESULT a second time: the caller's queue holds it twice. */
  method StaleResultDeliveredTwice(store: Store.LanguageStore, key: string, cid: string, result: Message, reason: string)
    returns (queued: seq<Message>, sent: seq<Message>)
    requires Store.KeyValid(store.clients, key)
    requires result.ClientMessage? && result.key == key && result.id == cid && result.cbody.ResultBody?
    requires RoundTrips(result)
    ensures queued == [result, result]
    ensures sent == [ServerMessage("login", ServerOkBody), InvalidReply("", reason)]
  {
    var server, h, convo := OpenConversation(store, key, cid);
    RoundTrip(result);
    ReceiveEncoded(server, h, result);
    var _ := server.HandleUnparsable(h, reason);
    queued := h.client.conversations[cid];
    sent := h.socket.sent;
  }

  /** Two connections presenting the same valid key: the first is logged in,
      the second is refused and the registry keeps the first binding. */
  method SecondLoginRefused(store: Store.LanguageStore, key: string)
    returns (first: seq<Message>, second: seq<Message>, firstBound: bool)
    requires Store.KeyValid(store.clients, key)
    ensures first == [ServerMessage("a", ServerOkBody)]
    ensures second == [InvalidReply("b", ALREADY_LOGGED_IN)]
    ensures firstBound
  {
    var server := new ClientHookServer(store);
    var s1 := new Socket();
    var s2 := new Socket();
    var h1 := new Handler(s1);
    var h2 := new Handler(s2);
    server.Dispatch(h1, ClientMessage("a", key, RegisterBody));
    var c1 := h1.client;
    server.Dispatch(h2, ClientMessage("b", key, RegisterBody));
    first, second := s1.sent, s2.sent;
    firstBound := key in server.clients && server.clients[key] == c1 && h2.client == null;
  }
}
