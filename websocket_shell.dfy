/** The WebSocket console (websocket_shell_service.go): who is admitted, how inbound
    frames reach the child's stdin, and how output is fanned out to the connected clients. */
module WebsocketShell {
  import opened Wrappers
  import opened Text
  import opened Environment
  import LogHistory

  /** The sub-protocol name a client offers ahead of its token. */
  const ProtocolName: string := "mc-server-runner-ws-v1"
  const DefaultPassword: string := "minecraft"

  const StatusForbidden: int := 403
  const StatusUnauthorized: int := 401
  const OriginNotAllowed: string := "origin not allowed"
  const InvalidPassword: string := "invalid password"

  datatype MessageType = MsgStdin | MsgStdout | MsgStderr | MsgWelcome | MsgAuthError

  /** `getWebsocketPassword`: `WEBSOCKET_PASSWORD`, else `RCON_PASSWORD`, else "minecraft";
      the first of them that is set and non-empty. */
  function GetWebsocketPassword(env: Env): (password: string)
    ensures password != ""
    ensures Getenv(env, "WEBSOCKET_PASSWORD") != "" ==> password == env["WEBSOCKET_PASSWORD"]
    ensures (Getenv(env, "WEBSOCKET_PASSWORD") == "" && Getenv(env, "RCON_PASSWORD") != "") ==>
              password == env["RCON_PASSWORD"]
    ensures (Getenv(env, "WEBSOCKET_PASSWORD") == "" && Getenv(env, "RCON_PASSWORD") == "") ==>
              password == DefaultPassword
  {
    if Getenv(env, "WEBSOCKET_PASSWORD") != "" then Getenv(env, "WEBSOCKET_PASSWORD")
    else if Getenv(env, "RCON_PASSWORD") != "" then Getenv(env, "RCON_PASSWORD")
    else DefaultPassword
  }

  // ---------------------------------------------------------------------------------
  // Token extraction from the Sec-WebSocket-Protocol header (section 11.3.4 of RFC 6455)

  /** What `extractAuthTokenFromProtocols` ends with. `IndexOutOfRange` is the run where the
      element naming the protocol is the last one: the guard `i+1 > len(protocols)` never
      holds, so `protocols[i+1]` is read past the end and the handler panics. */
  datatype TokenLookup = Token(token: string) | NoToken | IndexOutOfRange

  /** Every element of the split header, trimmed. */
  function TrimAll(protocols: seq<string>): (ts: seq<string>)
    ensures |ts| == |protocols|
    ensures forall i :: 0 <= i < |protocols| ==> ts[i] == TrimSpace(protocols[i])
  {
    seq(|protocols|, i requires 0 <= i < |protocols| => TrimSpace(protocols[i]))
  }

  /** Trimmed element `i` names the protocol and the trimmed element after it is a
      non-empty token. */
  predicate Hit(ts: seq<string>, i: nat, expected: string)
  {
    i + 1 < |ts| && ts[i] == expected && ts[i + 1] != ""
  }

  /** The search loop of `extractAuthTokenFromProtocols` over the trimmed elements, from
      element `i` on. */
  function Search(ts: seq<string>, i: nat, expected: string): TokenLookup
    requires i <= |ts|
    decreases |ts| - i
  {
    if i == |ts| then NoToken
    else if ts[i] == expected then
      if i + 1 == |ts| then IndexOutOfRange
      else if ts[i + 1] != "" then Token(ts[i + 1])
      else Search(ts, i + 1, expected)
    else Search(ts, i + 1, expected)
  }

  /** A token found from `k` on is the one after the first hit at or after `k`. */
  lemma {:induction false} SearchFindsFirstHit(ts: seq<string>, k: nat, expected: string) returns (i: nat)
    requires k <= |ts| && Search(ts, k, expected).Token?
    ensures k <= i && Hit(ts, i, expected)
    ensures Search(ts, k, expected).token == ts[i + 1]
    ensures forall j :: k <= j < i ==> !Hit(ts, j, expected)
    decreases |ts| - k
  {
    if Hit(ts, k, expected) {
      i := k;
    } else {
      i := SearchFindsFirstHit(ts, k + 1, expected);
    }
  }

  /** If some element from `k` on is followed by a token, the search does not fail: a hit
      is found before the end of the list is reached. */
  lemma {:induction false} SearchSucceedsOnHit(ts: seq<string>, k: nat, expected: string, i: nat)
    requires k <= i && Hit(ts, i, expected)
    ensures Search(ts, k, expected).Token?
    decreases i - k
  {
    if k < i && !Hit(ts, k, expected) {
      SearchSucceedsOnHit(ts, k + 1, expected, i);
    }
  }

  /** The search indexes past the end exactly when the last element names the protocol and
      no element before it is followed by a token. */
  lemma {:induction false} SearchOutOfRange(ts: seq<string>, k: nat, expected: string)
    requires k < |ts|
    ensures Search(ts, k, expected) == IndexOutOfRange <==>
              (ts[|ts| - 1] == expected && forall j :: k <= j < |ts| ==> !Hit(ts, j, expected))
    decreases |ts| - k
  {
    if k + 1 < |ts| {
      SearchOutOfRange(ts, k + 1, expected);
      assert (forall j :: k <= j < |ts| ==> !Hit(ts, j, expected)) <==>
             (!Hit(ts, k, expected) && forall j :: k + 1 <= j < |ts| ==> !Hit(ts, j, expected));
    }
  }

  /** `extractAuthTokenFromProtocols`, given the value of the `Sec-WebSocket-Protocol`
      header (`Header.Get` gives "" when it is absent). */
  method ExtractAuthTokenFromProtocols(protoHeader: string, expectedProto: string) returns (r: TokenLookup)
    ensures protoHeader == "" ==> r == NoToken
    ensures protoHeader != "" ==> r == Search(TrimAll(Split(protoHeader, ',')), 0, expectedProto)
  {
    if protoHeader == "" {
      return NoToken;
    }
    var protocols := Split(protoHeader, ',');
    ghost var ts := TrimAll(protocols);
    var i := 0;
    while i < |protocols|
      invariant 0 <= i <= |protocols|
      invariant Search(ts, 0, expectedProto) == Search(ts, i, expectedProto)
    {
      var tp := TrimSpace(protocols[i]);
      if tp == expectedProto {
        // The source's guard `i+1 > len(protocols)` cannot hold here; the read of
        // `protocols[i+1]` below is what fails when `i` is the last index.
        if i + 1 == |protocols| {
          return IndexOutOfRange;
        }
        var token := TrimSpace(protocols[i + 1]);
        if token != "" {
          return Token(token);
        }
      }
      i := i + 1;
    }
    return NoToken;
  }

  /** The extraction as specified by its outcome: a token is returned iff some element
      naming the protocol is followed by a non-empty one (and then it is the one after the
      first such element, by `SearchFindsFirstHit`); the run fails past the end iff the
      last element names the protocol and no earlier one is followed by a token. */
  lemma ExtractionOutcome(ts: seq<string>, expected: string)
    requires |ts| > 0
    ensures Search(ts, 0, expected).Token? <==> exists i :: Hit(ts, i, expected)
    ensures Search(ts, 0, expected) == IndexOutOfRange <==>
              (ts[|ts| - 1] == expected && forall j :: 0 <= j < |ts| ==> !Hit(ts, j, expected))
  {
    if Search(ts, 0, expected).Token? {
      var i := SearchFindsFirstHit(ts, 0, expected);
    }
    if exists i :: Hit(ts, i, expected) {
      var i :| Hit(ts, i, expected);
      SearchSucceedsOnHit(ts, 0, expected, i);
    }
    SearchOutOfRange(ts, 0, expected);
  }

  /** `isOriginAllowed`: `slices.Contains`, a scan for an exact match. */
  function IsOriginAllowed(origin: string, trustedOrigins: seq<string>): (allowed: bool)
    ensures allowed <==> origin in trustedOrigins
  {
    if |trustedOrigins| == 0 then false
    else trustedOrigins[0] == origin || IsOriginAllowed(origin, trustedOrigins[1..])
  }

  // ---------------------------------------------------------------------------------
  // Admission (ServeHTTP before the upgrade)

  datatype ServerConfig = ServerConfig(disableAuth: bool, trustedOrigins: seq<string>, disableOriginCheck: bool)

  /** The headers of an upgrade request that admission looks at ("" when absent), and
      the peer's address, by which the connection is known once registered. */
  datatype UpgradeRequest = UpgradeRequest(origin: string, protocolHeader: string, remoteAddr: string)

  /** How `ServeHTTP` answers before the upgrade: an `auth_err` body with a status
      (403 per section 15.5.4 of RFC 9110, 401 per its section 15.5.2), an admitted
      request, or a dropped connection (the handler panicked in token extraction and the
      HTTP server recovered it). */
  datatype Admission = Rejected(status: int, reason: string) | Admitted | Dropped

  function TokenCheck(req: UpgradeRequest): TokenLookup
  {
    if req.protocolHeader == "" then NoToken else Search(TrimAll(Split(req.protocolHeader, ',')), 0, ProtocolName)
  }

  /** The checks of `ServeHTTP`, in order: origin first (unless disabled), then the token
      (unless disabled). */
  function Admit(cfg: ServerConfig, req: UpgradeRequest, env: Env): (a: Admission)
    ensures (!cfg.disableOriginCheck && req.origin !in cfg.trustedOrigins) ==>
              a == Rejected(StatusForbidden, OriginNotAllowed)
    ensures a == Admitted <==>
              && (cfg.disableOriginCheck || req.origin in cfg.trustedOrigins)
              && (cfg.disableAuth || TokenCheck(req) == Token(GetWebsocketPassword(env)))
    ensures a == Rejected(StatusUnauthorized, InvalidPassword) <==>
              && (cfg.disableOriginCheck || req.origin in cfg.trustedOrigins)
              && !cfg.disableAuth
              && (TokenCheck(req) == NoToken
                  || (TokenCheck(req).Token? && TokenCheck(req).token != GetWebsocketPassword(env)))
    ensures a == Dropped <==>
              && (cfg.disableOriginCheck || req.origin in cfg.trustedOrigins)
              && !cfg.disableAuth
              && TokenCheck(req) == IndexOutOfRange
  {
    if !cfg.disableOriginCheck && !IsOriginAllowed(req.origin, cfg.trustedOrigins) then
      Rejected(StatusForbidden, OriginNotAllowed)
    else if !cfg.disableAuth then
      match TokenCheck(req)
      case IndexOutOfRange => Dropped
      case NoToken => Rejected(StatusUnauthorized, InvalidPassword)
      case Token(t) => if t != GetWebsocketPassword(env) then Rejected(StatusUnauthorized, InvalidPassword) else Admitted
    else Admitted
  }

  // ---------------------------------------------------------------------------------
  // Inbound frames

  /** A frame read by `handleIncoming`. For a text frame, `parsed` is the `content` of the
      JSON envelope when the payload parses, and `None` when `json.Unmarshal` fails. */
  datatype Frame = TextFrame(parsed: Option<string>) | BinaryFrame

  /** The stdin framing: a trailing "\n" is added only when missing. */
  function EnsureNewline(content: string): (line: string)
    ensures HasSuffix(line, "\n")
    ensures HasSuffix(content, "\n") ==> line == content
    ensures !HasSuffix(content, "\n") ==> line == content + "\n"
  {
    if HasSuffix(content, "\n") then content else content + "\n"
  }

  /** What a sequence of frames writes to the child's stdin, one write per well-formed
      text frame. */
  function StdinWrites(frames: seq<Frame>): seq<string>
  {
    if |frames| == 0 then []
    else match frames[0]
      case TextFrame(Some(c)) => [EnsureNewline(c)] + StdinWrites(frames[1..])
      case _ => StdinWrites(frames[1..])
  }

  /** Malformed and non-text frames write nothing and the reading goes on; a well-formed
      frame adds exactly one newline-terminated write. */
  lemma {:induction false} StdinWritesAppend(frames: seq<Frame>, f: Frame)
    ensures StdinWrites(frames + [f]) ==
              StdinWrites(frames) + (if f.TextFrame? && f.parsed.Some? then [EnsureNewline(f.parsed.value)] else [])
  {
    if |frames| > 0 {
      assert (frames + [f])[0] == frames[0];
      assert (frames + [f])[1..] == frames[1..] + [f];
      StdinWritesAppend(frames[1..], f);
    }
  }

  /** Every stdin write made by the relay is newline-terminated. */
  lemma {:induction false} StdinWritesTerminated(frames: seq<Frame>)
    ensures forall w :: w in StdinWrites(frames) ==> HasSuffix(w, "\n")
  {
    if |frames| > 0 {
      StdinWritesTerminated(frames[1..]);
    }
  }

  // ---------------------------------------------------------------------------------
  // Outbound frames

  /** The JSON value `broadcast` encodes: an envelope for stdout and stderr, and a nil
      message (encoded as JSON null) for any other type. */
  datatype OutputMessage = OutputMessage(kind: MessageType, content: string)

  function FrameFor(msgType: MessageType, msg: string): (m: Option<OutputMessage>)
    ensures m.Some? <==> msgType == MsgStdout || msgType == MsgStderr
    ensures m.Some? ==> m.value == OutputMessage(msgType, msg)
  {
    match msgType
    case MsgStdout => Some(OutputMessage(MsgStdout, msg))
    case MsgStderr => Some(OutputMessage(MsgStderr, msg))
    case _ => None
  }

  type ClientId = nat

  /** A connected client (`wsClient`); its connection is identified by the peer address. */
  datatype WsClient = WsClient(remoteAddr: string)

  class WebsocketServer {
    var clients: map<ClientId, WsClient>
    const config: ServerConfig
    /** Everything written to the child's stdin through `s.stdin`, write by write. */
    var stdinWrites: seq<string>

    constructor (config: ServerConfig)
      ensures this.config == config && clients == map[] && stdinWrites == []
    {
      this.config := config;
      clients := map[];
      stdinWrites := [];
    }

    /** The admitted part of `ServeHTTP`: register the client under a fresh session id and
        send the welcome frame holding the whole history. A request that is not admitted,
        or whose upgrade fails, registers nothing. */
    method Connect(req: UpgradeRequest, env: Env, upgraded: bool, sessionId: ClientId, history: LogHistory.LogRing)
      returns (admission: Admission, welcome: Option<seq<string>>)
      requires history.Valid()
      requires sessionId !in clients
      modifies this`clients
      ensures admission == Admit(config, req, env)
      ensures admission == Admitted && upgraded ==>
                clients == old(clients)[sessionId := WsClient(req.remoteAddr)]
                && welcome == Some(LogHistory.LastN(history.History, history.slots.Length))
      ensures !(admission == Admitted && upgraded) ==> clients == old(clients) && welcome == None
    {
      admission := Admit(config, req, env);
      welcome := None;
      if admission != Admitted || !upgraded {
        return;
      }
      clients := clients[sessionId := WsClient(req.remoteAddr)];
      var recent := history.GetAll();
      welcome := Some(recent);
    }

    /** `handleIncoming`: read frames until the connection fails; every well-formed text
        frame is newline-terminated and written to stdin, anything else is skipped. */
    method HandleIncoming(frames: seq<Frame>)
      modifies this`stdinWrites
      ensures stdinWrites == old(stdinWrites) + StdinWrites(frames)
    {
      var i := 0;
      while i < |frames|
        invariant 0 <= i <= |frames|
        invariant stdinWrites == old(stdinWrites) + StdinWrites(frames[..i])
      {
        StdinWritesAppend(frames[..i], frames[i]);
        assert frames[..i + 1] == frames[..i] + [frames[i]];
        if frames[i].TextFrame? && frames[i].parsed.Some? {
          var content := frames[i].parsed.value;
          if !HasSuffix(content, "\n") {
            content := content + "\n";
          }
          stdinWrites := stdinWrites + [content];
        }
        i := i + 1;
      }
      assert frames[..|frames|] == frames;
    }

    /** The read error that ends `handleIncoming` removes the session. */
    method Disconnect(sessionId: ClientId)
      modifies this`clients
      ensures clients == old(clients) - {sessionId}
    {
      clients := clients - {sessionId};
    }

    /** `ServeHTTP` as one session: admission, then (when admitted and upgraded) register,
        send the history, relay inbound frames until the read fails, and unregister. */
    method ServeHTTP(req: UpgradeRequest, env: Env, upgraded: bool, sessionId: ClientId,
                     history: LogHistory.LogRing, frames: seq<Frame>)
      returns (admission: Admission, welcome: Option<seq<string>>)
      requires history.Valid()
      requires sessionId !in clients
      modifies this`clients, this`stdinWrites
      ensures admission == Admit(config, req, env)
      ensures clients == old(clients)
      ensures admission == Admitted && upgraded ==>
                stdinWrites == old(stdinWrites) + StdinWrites(frames)
                && welcome == Some(LogHistory.LastN(history.History, history.slots.Length))
      ensures !(admission == Admitted && upgraded) ==> stdinWrites == old(stdinWrites) && welcome == None
    {
      admission, welcome := Connect(req, env, upgraded, sessionId, history);
      if welcome == None {
        return;
      }
      HandleIncoming(frames);
      Disconnect(sessionId);
    }

    /** `broadcast`: one frame typed by `msgType` to every client; each client whose write
        fails (those in `failing`) is closed and removed, and only those. */
    method Broadcast(msg: string, msgType: MessageType, failing: set<ClientId>)
      returns (delivered: map<ClientId, Option<OutputMessage>>, closed: set<ClientId>)
      modifies this`clients
      ensures delivered.Keys == old(clients).Keys
      ensures forall id :: id in delivered ==> delivered[id] == FrameFor(msgType, msg)
      ensures closed == old(clients).Keys * failing
      ensures clients == old(clients) - failing
    {
      delivered := map[];
      closed := {};
      var pending := clients.Keys;
      while pending != {}
        invariant pending <= old(clients).Keys
        invariant delivered.Keys == old(clients).Keys - pending
        invariant forall id :: id in delivered ==> delivered[id] == FrameFor(msgType, msg)
        invariant closed == (old(clients).Keys - pending) * failing
        invariant clients == old(clients) - closed
        decreases pending
      {
        var id :| id in pending;
        delivered := delivered[id := FrameFor(msgType, msg)];
        if id in failing {
          clients := clients - {id};
          closed := closed + {id};
        }
        pending := pending - {id};
      }
    }
  }

  /** `wsWriter`: the writer placed among the child's stdout or stderr writers. */
  class WsWriter {
    const writerType: MessageType
    var server: WebsocketServer?

    constructor (writerType: MessageType, server: WebsocketServer?)
      ensures this.writerType == writerType && this.server == server
    {
      this.writerType := writerType;
      this.server := server;
    }

    /** `Write`: with a server attached, broadcast the chunk and record it in the history;
        either way report the whole chunk written and no error. */
    method Write(p: string, history: LogHistory.LogRing, failing: set<ClientId>)
      returns (n: nat, err: Option<string>)
      requires history.Valid()
      modifies server, history, history.slots
      ensures n == |p| && err == None
      ensures history.Valid() && history.slots == old(history.slots)
      ensures server != null ==> history.History == old(history.History) + [p]
      ensures server != null ==> server.clients == old(server.clients) - failing
      ensures server != null ==> server.stdinWrites == old(server.stdinWrites)
      ensures server == null ==> history.History == old(history.History)
      ensures server == null ==> unchanged(history.slots)
    {
      if server != null {
        var delivered, closed := server.Broadcast(p, writerType, failing);
        history.Add(p);
      }
      return |p|, None;
    }
  }
}
