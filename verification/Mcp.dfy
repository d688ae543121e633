/**
 The JSON-RPC dispatcher. Reading JSON text is not modelled: the endpoint starts from a value.
 Error messages are left out of the responses; codes and data are kept.
 */
module Mcp {
  import opened Wrappers

  datatype Json =
    | Null
    | Bool(b: bool)
    | Num(literal: string)
    | Str(s: string)
    | Arr(items: seq<Json>)
    | Obj(fields: map<string, Json>)

  /** `Value::get` with a string key. */
  function Field(v: Json, key: string): Option<Json> {
    if v.Obj? && key in v.fields then Some(v.fields[key]) else None
  }

  /** An optional member: `null` reads as absent. */
  function Optional(v: Option<Json>): Option<Json> {
    if v == Some(Null) then None else v
  }

  const PARSE_ERROR := -32700
  const INVALID_REQUEST := -32600
  const METHOD_NOT_FOUND := -32601
  const INVALID_PARAMS := -32602

  datatype Request = Request(jsonrpc: string, id: Option<Json>, name: string, params: Option<Json>)

  datatype RpcError = RpcError(code: int, data: Option<Json>)

  datatype Response = Response(id: Json, result: Option<Json>, error: Option<RpcError>) {
    predicate ExactlyOne() {
      result.Some? != error.Some?
    }
  }

  datatype Action = Search(arguments: Json) | Get(arguments: Json) | Send(arguments: Json)

  /**
   What the dispatcher does not decide: whether a message's mailbox headers resolve (else the error
   code), whether a tool accepts its arguments, and how an action ends. The integer is the
   position of the message in its payload.
   */
  datatype World = World(
    credential: int -> Result<bool, string>,
    accepts: (string, Json) -> bool,
    outcome: (int, Action) -> Json,
    tools: Json,
    packageVersion: string)

  function OkResponse(id: Json, result: Json): Response {
    Response(id, Some(result), None)
  }

  function ErrorResponse(id: Json, code: int, data: Option<Json>): Response {
    Response(id, None, Some(RpcError(code, data)))
  }

  // -------------------------------------------------------------------------
  // Reading messages
  // -------------------------------------------------------------------------

  /** A request is an object, or the array of its members in order. */
  function ReadRequest(v: Json): Option<Request> {
    match v
    case Obj(fields) =>
      if "jsonrpc" in fields && fields["jsonrpc"].Str? && "method" in fields && fields["method"].Str? then
        Some(Request(fields["jsonrpc"].s, Optional(Field(v, "id")), fields["method"].s, Optional(Field(v, "params"))))
      else None
    case Arr(items) =>
      if 3 <= |items| <= 4 && items[0].Str? && items[2].Str? then
        Some(Request(items[0].s, Optional(Some(items[1])), items[2].s,
                     if |items| == 4 then Optional(Some(items[3])) else None))
      else None
    case _ => None
  }

  datatype ToolCall = ToolCall(name: string, arguments: Json)

  function ReadToolCall(params: Json): Option<ToolCall> {
    match params
    case Obj(fields) =>
      if "name" in fields && fields["name"].Str? then
        Some(ToolCall(fields["name"].s, if "arguments" in fields then fields["arguments"] else Obj(map[])))
      else None
    case Arr(items) =>
      if 1 <= |items| <= 2 && items[0].Str? then
        Some(ToolCall(items[0].s, if |items| == 2 then items[1] else Obj(map[])))
      else None
    case _ => None
  }

  // -------------------------------------------------------------------------
  // Answering one message
  // -------------------------------------------------------------------------

  const LATEST := "2025-06-18"
  const SUPPORTED := ["2025-06-18", "2025-03-26", "2024-11-05"]

  /** The protocol revision answered to `initialize`. */
  function Negotiate(params: Option<Json>): string {
    var requested := if params.Some? then Field(params.value, "protocolVersion") else None;
    if requested.Some? && requested.value.Str? && requested.value.s in SUPPORTED then requested.value.s else LATEST
  }

  function InitializeResult(w: World, params: Option<Json>): Json {
    Obj(map[
      "protocolVersion" := Str(Negotiate(params)),
      "capabilities" := Obj(map["tools" := Obj(map["listChanged" := Bool(false)])]),
      "serverInfo" := Obj(map["name" := Str("overfwd"), "version" := Str(w.packageVersion)])])
  }

  /** The action a tool name stands for. */
  function ActionFor(call: ToolCall): Option<Action> {
    if call.name == "email_search" then Some(Search(call.arguments))
    else if call.name == "email_get" then Some(Get(call.arguments))
    else if call.name == "email_send" then Some(Send(call.arguments))
    else None
  }

  /** The response to a `tools/call`, and the actions carried out. */
  function ToolsCall(w: World, at: int, params: Option<Json>, id: Json): (Response, seq<Action>) {
    if w.credential(at).Err? then (ErrorResponse(id, INVALID_PARAMS, Some(Str(w.credential(at).error))), [])
    else if params.None? then (ErrorResponse(id, INVALID_PARAMS, None), [])
    else match ReadToolCall(params.value)
      case None => (ErrorResponse(id, INVALID_PARAMS, None), [])
      case Some(call) =>
        match ActionFor(call)
        case None => (ErrorResponse(id, INVALID_PARAMS, None), [])
        case Some(action) =>
          if w.accepts(call.name, call.arguments) then (OkResponse(id, w.outcome(at, action)), [action])
          else (ErrorResponse(id, INVALID_PARAMS, None), [])
  }

  predicate StartsWith(s: string, prefix: string) {
    prefix <= s
  }

  /** The response to one message, if it gets one, and the actions carried out for it. */
  function HandleOne(w: World, at: int, v: Json): (Option<Response>, seq<Action>) {
    match ReadRequest(v)
    case None =>
      (match Field(v, "id")
       case Some(id) => (Some(ErrorResponse(id, INVALID_REQUEST, None)), [])
       case None => (None, []))
    case Some(request) =>
      match request.id
      case None => (None, [])
      case Some(id) =>
        if request.jsonrpc != "2.0" then (Some(ErrorResponse(id, INVALID_REQUEST, None)), [])
        else if request.name == "initialize" then (Some(OkResponse(id, InitializeResult(w, request.params))), [])
        else if request.name == "ping" then (Some(OkResponse(id, Obj(map[]))), [])
        else if request.name == "tools/list" then (Some(OkResponse(id, w.tools)), [])
        else if request.name == "tools/call" then
          var (response, done) := ToolsCall(w, at, request.params, id);
          (Some(response), done)
        else if StartsWith(request.name, "notifications/") then (None, [])
        else (Some(ErrorResponse(id, METHOD_NOT_FOUND, None)), [])
  }

  // -------------------------------------------------------------------------
  // The size gate
  // -------------------------------------------------------------------------

  const DEFAULT_BODY_LIMIT: nat := 2 * 1024 * 1024

  predicate IsStr(v: Option<Json>, s: string) {
    v == Some(Str(s))
  }

  /** Looks at the raw value: `Value::get` and `Value::pointer`. */
  predicate IsSendCall(item: Json) {
    && IsStr(Field(item, "method"), "tools/call")
    && var params := Field(item, "params");
       params.Some? && IsStr(Field(params.value, "name"), "email_send")
  }

  predicate IsSendOnly(v: Json) {
    match v
    case Arr(items) => items != [] && forall i :: 0 <= i < |items| ==> IsSendCall(items[i])
    case _ => IsSendCall(v)
  }

  // -------------------------------------------------------------------------
  // The endpoint
  // -------------------------------------------------------------------------

  /** A body is over the transport limit, unreadable, or read: its length, its type and its value. */
  datatype Incoming =
    | OverTransportLimit
    | Unreadable
    | Read(length: nat, isJsonType: bool, value: Option<Json>)

  datatype Reply = One(status: nat, response: Response) | Many(responses: seq<Response>) | Accepted

  const OK_STATUS: nat := 200
  const TOO_LARGE_STATUS: nat := 413

  /** The positions of the messages that get a response, ascending. */
  function AnsweredAt(w: World, items: seq<Json>, k: nat): (r: seq<nat>)
    requires k <= |items|
  {
    if k == 0 then []
    else AnsweredAt(w, items, k - 1) + if HandleOne(w, k - 1, items[k - 1]).0.Some? then [k - 1] else []
  }

  /** The responses to the first `k` messages. */
  function Responses(w: World, items: seq<Json>, k: nat): seq<Response>
    requires k <= |items|
  {
    if k == 0 then []
    else
      var response := HandleOne(w, k - 1, items[k - 1]).0;
      Responses(w, items, k - 1) + if response.Some? then [response.value] else []
  }

  /** The actions of the first `k` messages. */
  function Actions(w: World, items: seq<Json>, k: nat): seq<Action>
    requires k <= |items|
  {
    if k == 0 then [] else Actions(w, items, k - 1) + HandleOne(w, k - 1, items[k - 1]).1
  }

  /** What a payload past the gate is answered. */
  function Dispatched(w: World, v: Json): (Reply, seq<Action>) {
    match v
    case Arr(items) =>
      if items == [] then (One(OK_STATUS, ErrorResponse(Null, INVALID_REQUEST, None)), [])
      else
        var responses := Responses(w, items, |items|);
        (if responses == [] then Accepted else Many(responses), Actions(w, items, |items|))
    case Obj(_) =>
      var (response, done) := HandleOne(w, 0, v);
      (if response.Some? then One(OK_STATUS, response.value) else Accepted, done)
    case _ => (One(OK_STATUS, ErrorResponse(Null, INVALID_REQUEST, None)), [])
  }

  /** `done` is the actions carried out, in order. */
  method Endpoint(w: World, incoming: Incoming) returns (reply: Reply, done: seq<Action>)
    ensures incoming.OverTransportLimit? ==>
              reply == One(413, Response(Null, None, Some(RpcError(-32600, None)))) && done == []
    ensures incoming.Unreadable? || (incoming.Read? && (!incoming.isJsonType || incoming.value.None?)) ==>
              reply == One(200, Response(Null, None, Some(RpcError(-32700, None)))) && done == []
    ensures incoming.Read? && incoming.isJsonType && incoming.value.Some? ==>
              if incoming.length > 2 * 1024 * 1024 && !IsSendOnly(incoming.value.value)
              then reply == One(413, Response(Null, None, Some(RpcError(-32600, None)))) && done == []
              else (reply, done) == Dispatched(w, incoming.value.value)
    ensures incoming.Read? && incoming.length > 2 * 1024 * 1024 ==>
              forall i :: 0 <= i < |done| ==> done[i].Send?
  {
    done := [];
    match incoming {
      case OverTransportLimit =>
        reply := One(TOO_LARGE_STATUS, ErrorResponse(Null, INVALID_REQUEST, None));
      case Unreadable =>
        reply := One(OK_STATUS, ErrorResponse(Null, PARSE_ERROR, None));
      case Read(length, isJsonType, parsed) =>
        if !isJsonType || parsed.None? {
          reply := One(OK_STATUS, ErrorResponse(Null, PARSE_ERROR, None));
          return;
        }
        var value := parsed.value;
        if length > DEFAULT_BODY_LIMIT && !IsSendOnly(value) {
          reply := One(TOO_LARGE_STATUS, ErrorResponse(Null, INVALID_REQUEST, None));
          return;
        }
        if IsSendOnly(value) {
          GateAgrees(w, value);
        }
        match value {
          case Arr(items) =>
            if items == [] {
              reply := One(OK_STATUS, ErrorResponse(Null, INVALID_REQUEST, None));
              return;
            }
            var responses := [];
            for i := 0 to |items|
              invariant responses == Responses(w, items, i)
              invariant done == Actions(w, items, i)
            {
              var (response, acted) := HandleOne(w, i, items[i]);
              done := done + acted;
              if response.Some? {
                responses := responses + [response.value];
              }
            }
            reply := if responses == [] then Accepted else Many(responses);
          case Obj(_) =>
            var (response, acted) := HandleOne(w, 0, value);
            done := acted;
            reply := if response.Some? then One(OK_STATUS, response.value) else Accepted;
          case _ =>
            reply := One(OK_STATUS, ErrorResponse(Null, INVALID_REQUEST, None));
        }
    }
  }

  // -------------------------------------------------------------------------
  // What a message asks for, and what it gets
  // -------------------------------------------------------------------------

  /** The action a message asks for, whoever asks. */
  function AskedFor(v: Json): Option<Action> {
    match ReadRequest(v)
    case None => None
    case Some(r) =>
      if r.jsonrpc != "2.0" || r.id.None? || r.name != "tools/call" || r.params.None? then None
      else match ReadToolCall(r.params.value)
        case None => None
        case Some(call) => ActionFor(call)
  }

  function ToolName(action: Action): string {
    match action
    case Search(_) => "email_search"
    case Get(_) => "email_get"
    case Send(_) => "email_send"
  }

  /**
   At most one action a message: the one it asks for, once the mailbox headers resolve and the tool
   takes the arguments.
   */
  lemma ActsAsAsked(w: World, at: int, v: Json)
    ensures HandleOne(w, at, v).1 ==
              match AskedFor(v)
              case Some(action) =>
                if w.credential(at).Ok? && w.accepts(ToolName(action), action.arguments) then [action] else []
              case None => []
  {
  }

  /** The gate's reading of the raw value against the dispatcher's reading of the same message. */
  lemma SendCallsOnlySend(v: Json)
    ensures IsSendCall(v) && AskedFor(v).Some? ==> AskedFor(v).value.Send?
    ensures AskedFor(v).Some? && AskedFor(v).value.Send? ==>
              IsSendCall(v) || v.Arr? || Field(v, "params").value.Arr?
  {
  }

  /** What the gate lets through, member by member: a call of the one tool, or a batch of nothing else that is not empty. */
  lemma GateExactly(v: Json)
    ensures IsSendCall(v) <==>
              && v.Obj? && "method" in v.fields && v.fields["method"] == Str("tools/call")
              && "params" in v.fields && v.fields["params"].Obj?
              && "name" in v.fields["params"].fields && v.fields["params"].fields["name"] == Str("email_send")
    ensures v.Arr? ==> (IsSendOnly(v) <==> |v.items| > 0 && forall i :: 0 <= i < |v.items| ==> IsSendCall(v.items[i]))
    ensures !v.Arr? ==> (IsSendOnly(v) <==> IsSendCall(v))
  {
  }

  lemma {:induction false} ActionsAllSend(w: World, items: seq<Json>, k: nat)
    requires k <= |items| && forall i :: 0 <= i < |items| ==> IsSendCall(items[i])
    ensures forall i :: 0 <= i < |Actions(w, items, k)| ==> Actions(w, items, k)[i].Send?
  {
    hide HandleOne, IsSendCall, AskedFor;
    if k > 0 {
      ActionsAllSend(w, items, k - 1);
      ActsAsAsked(w, k - 1, items[k - 1]);
      SendCallsOnlySend(items[k - 1]);
    }
  }

  /** A payload the gate lets through over the limit can do nothing but send. */
  lemma GateAgrees(w: World, v: Json)
    requires IsSendOnly(v)
    ensures forall i :: 0 <= i < |Dispatched(w, v).1| ==> Dispatched(w, v).1[i].Send?
  {
    hide HandleOne, IsSendCall, AskedFor;
    match v
    case Arr(items) => ActionsAllSend(w, items, |items|);
    case _ =>
      ActsAsAsked(w, 0, v);
      SendCallsOnlySend(v);
  }

  /**
   Who gets an answer: a message that reads as a request and carries an id, unless it is a valid
   notification; and an unreadable object that has an `id` member, null or not.
   */
  predicate Answerable(v: Json) {
    match ReadRequest(v)
    case Some(r) => r.id.Some? && !(r.jsonrpc == "2.0" && StartsWith(r.name, "notifications/"))
    case None => Field(v, "id").Some?
  }

  function IdOf(v: Json): Option<Json> {
    match ReadRequest(v)
    case Some(r) => r.id
    case None => Field(v, "id")
  }

  // The same, on the members of a message and without the functions that read them.

  /** A JSON-RPC 2.0 request that carries an id and params, as an object or as the array of its members. */
  predicate IsRequest(v: Json, id: Json, name: string, params: Json) {
    && id != Null && params != Null
    && match v
       case Obj(fields) =>
         && "jsonrpc" in fields && fields["jsonrpc"] == Str("2.0") && "id" in fields && fields["id"] == id
         && "method" in fields && fields["method"] == Str(name) && "params" in fields && fields["params"] == params
       case Arr(items) => items == [Str("2.0"), id, Str(name), params]
       case _ => false
  }

  /** Params that name a tool and carry its arguments; left out, those are an empty object. */
  predicate NamesTool(params: Json, tool: string, arguments: Json) {
    match params
    case Obj(fields) =>
      && "name" in fields && fields["name"] == Str(tool)
      && arguments == if "arguments" in fields then fields["arguments"] else Obj(map[])
    case Arr(items) => items == [Str(tool), arguments] || (items == [Str(tool)] && arguments == Obj(map[]))
    case _ => false
  }

  /** A call acts on exactly the arguments it carries, once its headers resolve and the tool takes them. */
  lemma CallsCarryTheirArguments(w: World, at: int, v: Json, id: Json, params: Json, tool: string, arguments: Json)
    requires IsRequest(v, id, "tools/call", params) && NamesTool(params, tool, arguments)
    ensures var (response, done) := HandleOne(w, at, v);
            if w.credential(at).Err? then
              response == Some(Response(id, None, Some(RpcError(-32602, Some(Str(w.credential(at).error)))))) && done == []
            else if tool !in ["email_search", "email_get", "email_send"] || !w.accepts(tool, arguments) then
              response == Some(Response(id, None, Some(RpcError(-32602, None)))) && done == []
            else
              && done == [if tool == "email_search" then Search(arguments)
                          else if tool == "email_get" then Get(arguments) else Send(arguments)]
              && response == Some(Response(id, Some(w.outcome(at, done[0])), None))
  {
    hide Negotiate, InitializeResult;
    CallIsRead(v, id, params);
    ToolIsRead(params, tool, arguments);
    var i, p, t, c := "initialize", "ping", "tools/list", "tools/call";
    assert i[0] != c[0] && |p| != |c| && t[6] != c[6];
  }

  lemma CallIsRead(v: Json, id: Json, params: Json)
    requires IsRequest(v, id, "tools/call", params)
    ensures ReadRequest(v) == Some(Request("2.0", Some(id), "tools/call", Some(params)))
  {
  }

  lemma ToolIsRead(params: Json, tool: string, arguments: Json)
    requires NamesTool(params, tool, arguments)
    ensures ReadToolCall(params) == Some(ToolCall(tool, arguments))
  {
  }

  /** A call whose params are missing or name no tool does nothing. */
  lemma CallsNeedATool(w: World, at: int, v: Json)
    requires v.Obj? && "jsonrpc" in v.fields && v.fields["jsonrpc"] == Str("2.0")
    requires "method" in v.fields && v.fields["method"] == Str("tools/call") && "id" in v.fields && v.fields["id"] != Null
    requires "params" in v.fields ==> forall tool, arguments :: !NamesTool(v.fields["params"], tool, arguments)
    ensures var (response, done) := HandleOne(w, at, v);
            && done == [] && response.Some? && response.value.id == v.fields["id"] && response.value.result.None?
            && response.value.error.Some? && response.value.error.value.code == -32602
  {
    hide Negotiate, InitializeResult;
    if "params" in v.fields && ReadToolCall(v.fields["params"]).Some? {
      var call := ReadToolCall(v.fields["params"]).value;
      assert NamesTool(v.fields["params"], call.name, call.arguments) by {
        ReadToolIsNamed(v.fields["params"]);
      }
    }
    assert ReadRequest(v).value.name == "tools/call";
    ToolsCallIsItself();
  }

  lemma ReadToolIsNamed(params: Json)
    ensures ReadToolCall(params).Some? ==>
              NamesTool(params, ReadToolCall(params).value.name, ReadToolCall(params).value.arguments)
  {
    if params.Arr? && ReadToolCall(params).Some? {
      var items := params.items;
      if |items| == 1 {
        assert items == [items[0]];
      } else {
        assert items == [items[0], items[1]];
      }
    }
  }

  lemma ToolsCallIsItself()
    ensures "tools/call" !in ["initialize", "ping", "tools/list"]
  {
    var i, p, t, c := "initialize", "ping", "tools/list", "tools/call";
    assert i[0] != c[0] && |p| != |c| && t[6] != c[6];
  }

  /** Objects that are not calls, case by case: never an action, and the answer each one gets. */
  lemma ObjectsAreAnswered(w: World, at: int, fields: map<string, Json>)
    requires !("method" in fields && fields["method"] == Str("tools/call") && "jsonrpc" in fields
               && fields["jsonrpc"] == Str("2.0") && "id" in fields && fields["id"] != Null)
    ensures var (response, done) := HandleOne(w, at, Obj(fields));
            var readable := "jsonrpc" in fields && fields["jsonrpc"].Str? && "method" in fields && fields["method"].Str?;
            && done == []
            && (!readable && "id" in fields ==> response == Some(Response(fields["id"], None, Some(RpcError(-32600, None)))))
            && (!readable && "id" !in fields ==> response == None)
            && (readable && ("id" !in fields || fields["id"] == Null) ==> response == None)
            && (readable && "id" in fields && fields["id"] != Null ==>
                  var id, name := fields["id"], fields["method"].s;
                  if fields["jsonrpc"] != Str("2.0") then response == Some(Response(id, None, Some(RpcError(-32600, None))))
                  else if name == "ping" then response == Some(Response(id, Some(Obj(map[])), None))
                  else if name == "tools/list" then response == Some(Response(id, Some(w.tools), None))
                  else if name == "initialize" then
                    var version :=
                      if "params" in fields && fields["params"].Obj? && "protocolVersion" in fields["params"].fields
                         && fields["params"].fields["protocolVersion"] in
                              [Str("2025-06-18"), Str("2025-03-26"), Str("2024-11-05")]
                      then fields["params"].fields["protocolVersion"] else Str("2025-06-18");
                    response == Some(Response(id, Some(Obj(map[
                      "protocolVersion" := version,
                      "capabilities" := Obj(map["tools" := Obj(map["listChanged" := Bool(false)])]),
                      "serverInfo" := Obj(map["name" := Str("overfwd"), "version" := Str(w.packageVersion)])])), None))
                  else if "notifications/" <= name then response == None
                  else response == Some(Response(id, None, Some(RpcError(-32601, None)))))
  {
    hide Negotiate;
    var params := Optional(Field(Obj(fields), "params"));
    NegotiateExactly(params);
    var i, p, t, n := "initialize", "ping", "tools/list", "notifications/";
    assert i[0] != p[0] && i[0] != t[0] && p[0] != t[0];
  }

  lemma NegotiateExactly(params: Option<Json>)
    ensures var wanted := if params.Some? then Field(params.value, "protocolVersion") else None;
            Str(Negotiate(params)) ==
              if wanted.Some? && wanted.value in [Str("2025-06-18"), Str("2025-03-26"), Str("2024-11-05")]
              then wanted.value else Str("2025-06-18")
  {
  }

  /** An array of members reads as the object that has them; no other array reads as a message. */
  lemma ArraysReadAsObjects(w: World, at: int, items: seq<Json>)
    ensures HandleOne(w, at, Arr(items)) ==
              if 3 <= |items| <= 4 && items[0].Str? && items[2].Str? then
                HandleOne(w, at, Obj(
                  if |items| == 4 then map["jsonrpc" := items[0], "id" := items[1], "method" := items[2], "params" := items[3]]
                  else map["jsonrpc" := items[0], "id" := items[1], "method" := items[2]]))
              else (None, [])
  {
    hide ToolsCall, Negotiate, InitializeResult;
    if 3 <= |items| <= 4 && items[0].Str? && items[2].Str? {
      ArrayIsRead(items);
    }
  }

  lemma ArrayIsRead(items: seq<Json>)
    requires 3 <= |items| <= 4 && items[0].Str? && items[2].Str?
    ensures ReadRequest(Arr(items)) == ReadRequest(Obj(
              if |items| == 4 then map["jsonrpc" := items[0], "id" := items[1], "method" := items[2], "params" := items[3]]
              else map["jsonrpc" := items[0], "id" := items[1], "method" := items[2]]))
  {
    var j, i, m, p := "jsonrpc", "id", "method", "params";
    assert |j| != |i| && |j| != |m| && |i| != |m| && |m| == |p| && m[0] != p[0] && |i| != |p| && |j| != |p|;
  }

  /** What is wrong with a message that is answered with an error. */
  function Fault(v: Json): int {
    match ReadRequest(v)
    case None => INVALID_REQUEST
    case Some(r) =>
      if r.jsonrpc != "2.0" then INVALID_REQUEST
      else if r.name == "tools/call" then INVALID_PARAMS
      else METHOD_NOT_FOUND
  }

  /** One response exactly to the answerable messages, with their id, and either a result or an error. */
  lemma AnswersTheAnswerable(w: World, at: int, v: Json)
    ensures HandleOne(w, at, v).0.Some? <==> Answerable(v)
    ensures Answerable(v) ==>
              var response := HandleOne(w, at, v).0.value;
              && IdOf(v) == Some(response.id) && response.ExactlyOne()
              && (response.result.Some? <==>
                    && ReadRequest(v).Some? && ReadRequest(v).value.jsonrpc == "2.0"
                    && (ReadRequest(v).value.name in ["initialize", "ping", "tools/list"] || HandleOne(w, at, v).1 != []))
              && (response.error.Some? ==> response.error.value.code == Fault(v))
  {
    hide Negotiate, InitializeResult;
    var i, p, t, c, n := "initialize", "ping", "tools/list", "tools/call", "notifications/";
    assert i[0] != n[0] && p[0] != n[0] && t[0] != n[0] && c[0] != n[0] && t[6] != c[6];
  }

  /**
   Where the rule parts from "no answer means no id": a valid notification with an id gets none, an id
   of `null` counts as no id in a message that reads as a request, and counts as one in any other object.
   */
  lemma WhereIdsDoNotDecide()
    ensures !Answerable(Obj(map["jsonrpc" := Str("2.0"), "id" := Num("1"), "method" := Str("notifications/x")]))
    ensures !Answerable(Obj(map["jsonrpc" := Str("2.0"), "id" := Null, "method" := Str("ping")]))
    ensures Answerable(Obj(map["id" := Null])) && IdOf(Obj(map["id" := Null])) == Some(Null)
  {
    var notification := map["jsonrpc" := Str("2.0"), "id" := Num("1"), "method" := Str("notifications/x")];
    assert notification["jsonrpc"] == Str("2.0") && notification["method"] == Str("notifications/x");
    assert "notifications/x"[..14] == "notifications/";
    var ping := map["jsonrpc" := Str("2.0"), "id" := Null, "method" := Str("ping")];
    assert ping["jsonrpc"] == Str("2.0") && ping["method"] == Str("ping") && ping["id"] == Null;
    var bare := map["id" := Null];
    assert bare["id"] == Null && "jsonrpc" !in bare;
  }

  /** A call that acts is answered with that action's outcome; the fixed methods with their fixed results. */
  lemma ResultsBelong(w: World, at: int, v: Json)
    ensures var (response, done) := HandleOne(w, at, v);
            && (done != [] ==> response.Some? && response.value.result == Some(w.outcome(at, done[0])))
            && (response.Some? && response.value.result.Some? && done == [] ==>
                  response.value.result ==
                    var name := ReadRequest(v).value.name;
                    Some(if name == "ping" then Obj(map[]) else if name == "tools/list" then w.tools
                         else InitializeResult(w, ReadRequest(v).value.params)))
  {
    hide InitializeResult;
    AnswersTheAnswerable(w, at, v);
  }

  predicate Ascending(s: seq<nat>) {
    forall i, j :: 0 <= i < j < |s| ==> s[i] < s[j]
  }

  /** `at` lists the answerable positions below `k`. */
  ghost predicate ListsAnswerable(items: seq<Json>, k: nat, at: seq<nat>)
    requires k <= |items|
  {
    && Ascending(at)
    && (forall i :: 0 <= i < |at| ==> at[i] < k && Answerable(items[at[i]]))
    && (forall p: nat :: p < k && Answerable(items[p]) ==> p in at)
  }

  lemma {:induction false} ResponsesAreAnImage(w: World, items: seq<Json>, k: nat)
    requires k <= |items|
    ensures ListsAnswerable(items, k, AnsweredAt(w, items, k))
    ensures var at, rs := AnsweredAt(w, items, k), Responses(w, items, k);
            && |rs| == |at|
            && forall i :: 0 <= i < |rs| ==> HandleOne(w, at[i], items[at[i]]).0 == Some(rs[i])
  {
    hide HandleOne, Answerable;
    if k > 0 {
      ResponsesAreAnImage(w, items, k - 1);
      AnswersTheAnswerable(w, k - 1, items[k - 1]);
    }
  }

  /**
   A batch is answered by an order-preserving image of exactly its answerable messages, one response
   each with that message's id and either a result or an error; and by an empty 202 when there are none.
   */
  lemma BatchAnswers(w: World, items: seq<Json>)
    requires items != []
    ensures var reply := Dispatched(w, Arr(items)).0;
            && (reply.Accepted? <==> forall p :: 0 <= p < |items| ==> !Answerable(items[p]))
            && (!reply.Accepted? ==> reply.Many? && exists at ::
                  && ListsAnswerable(items, |items|, at) && |reply.responses| == |at|
                  && forall i :: 0 <= i < |at| ==>
                       && HandleOne(w, at[i], items[at[i]]).0 == Some(reply.responses[i])
                       && IdOf(items[at[i]]) == Some(reply.responses[i].id)
                       && reply.responses[i].ExactlyOne())
  {
    hide HandleOne, Answerable, IdOf;
    var at, rs := AnsweredAt(w, items, |items|), Responses(w, items, |items|);
    ResponsesAreAnImage(w, items, |items|);
    ImageIsWellFormed(w, items, at, rs, |rs|);
    if rs == [] {
      assert forall p: nat :: p < |items| ==> !Answerable(items[p]);
    } else {
      assert Answerable(items[at[0]]);
    }
  }

  lemma {:induction false} ImageIsWellFormed(w: World, items: seq<Json>, at: seq<nat>, rs: seq<Response>, k: nat)
    requires k <= |rs| == |at| && ListsAnswerable(items, |items|, at)
    requires forall i :: 0 <= i < |rs| ==> HandleOne(w, at[i], items[at[i]]).0 == Some(rs[i])
    ensures forall i :: 0 <= i < k ==> IdOf(items[at[i]]) == Some(rs[i].id) && rs[i].ExactlyOne()
  {
    hide HandleOne, Answerable, IdOf;
    if k > 0 {
      ImageIsWellFormed(w, items, at, rs, k - 1);
      AnswersTheAnswerable(w, at[k - 1], items[at[k - 1]]);
    }
  }

  predicate Asks(params: Option<Json>, version: string) {
    params.Some? && IsStr(Field(params.value, "protocolVersion"), version)
  }

  /** Message `p` acts when its turn comes. */
  predicate Acts(w: World, items: seq<Json>, p: nat)
    requires p < |items|
  {
    HandleOne(w, p, items[p]).1 != []
  }

  /** `at` lists the positions below `k` of the messages that act. */
  ghost predicate ListsActing(w: World, items: seq<Json>, k: nat, at: seq<nat>)
    requires k <= |items|
  {
    && Ascending(at)
    && (forall i :: 0 <= i < |at| ==> at[i] < k && Acts(w, items, at[i]))
    && (forall p: nat :: p < k && Acts(w, items, p) ==> p in at)
  }

  function ActingAt(w: World, items: seq<Json>, k: nat): seq<nat>
    requires k <= |items|
  {
    if k == 0 then [] else ActingAt(w, items, k - 1) + if Acts(w, items, k - 1) then [k - 1] else []
  }

  lemma {:induction false} ActingAtLists(w: World, items: seq<Json>, k: nat)
    requires k <= |items|
    ensures ListsActing(w, items, k, ActingAt(w, items, k))
  {
    hide Acts;
    if k > 0 {
      ActingAtLists(w, items, k - 1);
    }
  }

  lemma {:induction false} ActionsAreAnImage(w: World, items: seq<Json>, k: nat, i: nat)
    requires k <= |items|
    ensures |Actions(w, items, k)| == |ActingAt(w, items, k)|
    ensures i < |ActingAt(w, items, k)| ==>
              var p := ActingAt(w, items, k)[i]; p < k && HandleOne(w, p, items[p]).1 == [Actions(w, items, k)[i]]
  {
    hide HandleOne, AskedFor;
    if k > 0 {
      ActionsAreAnImage(w, items, k - 1, i);
      ActsAsAsked(w, k - 1, items[k - 1]);
    }
  }

  /** A batch carries out the action of each message that has one, one each, in order. */
  lemma BatchActs(w: World, items: seq<Json>)
    requires items != []
    ensures exists at ::
              && ListsActing(w, items, |items|, at) && |Dispatched(w, Arr(items)).1| == |at|
              && forall i :: 0 <= i < |at| ==> HandleOne(w, at[i], items[at[i]]).1 == [Dispatched(w, Arr(items)).1[i]]
  {
    hide HandleOne, Acts, Actions, ActingAt;
    var at := ActingAt(w, items, |items|);
    ActingAtLists(w, items, |items|);
    ActionsAreAnImage(w, items, |items|, 0);
    forall i | 0 <= i < |at| ensures HandleOne(w, at[i], items[at[i]]).1 == [Dispatched(w, Arr(items)).1[i]] {
      ActionsAreAnImage(w, items, |items|, i);
    }
  }

  /** A client that asks for a supported revision gets it, and every client gets a supported one. */
  lemma NegotiatesSupported(w: World, at: int, v: Json)
    requires ReadRequest(v).Some? && ReadRequest(v).value.jsonrpc == "2.0" && ReadRequest(v).value.id.Some?
    requires ReadRequest(v).value.name == "initialize"
    ensures exists version ::
              && version in SUPPORTED
              && HandleOne(w, at, v).0.Some? && HandleOne(w, at, v).0.value.result.Some?
              && IsStr(Field(HandleOne(w, at, v).0.value.result.value, "protocolVersion"), version)
              && forall wanted :: wanted in SUPPORTED && Asks(ReadRequest(v).value.params, wanted) ==> version == wanted
  {
    var version := Negotiate(ReadRequest(v).value.params);
    assert LATEST == SUPPORTED[0];
    assert IsStr(Field(HandleOne(w, at, v).0.value.result.value, "protocolVersion"), version);
  }
}
