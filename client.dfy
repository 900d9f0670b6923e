/**
 * The decision logic of `VedaClient`, with the HTTP transport taken out:
 * each call builds a `Request` (verb, endpoint name below the base URL,
 * parameters or JSON body) and is handed the transport's `Response` as an
 * input. What is modelled is how a status becomes a result or an
 * exception, which ticket is sent, what `authenticate` stores, and which
 * optional arguments reach the request.
 */
module Client {
  import opened Wrappers
  import opened Assoc
  import opened Json
  import opened Text
  import opened Models
  import opened Payload

  /**
   * The exceptions a call can end with: `VedaError` itself and its four
   * subclasses, and any exception from outside that hierarchy (a
   * `TypeError` or `JSONDecodeError` raised by the standard library).
   */
  datatype Failure =
    | AuthError                     // VedaAuthError
    | RequestError                  // VedaRequestError
    | ResponseError                 // VedaResponseError
    | ServerError(status: int)      // VedaServerError
    | UnexpectedStatus(status: int) // VedaError
    | RuntimeFault                  // not a VedaError

  /** The transport's answer: the status, the body parsed as JSON (None when it is not JSON), and the raw text. */
  datatype Response = Response(status: int, body: Option<Json>, text: string)

  datatype Verb = GET | POST | PUT

  /** What a call hands to the transport. */
  datatype Request = Request(verb: Verb, endpoint: string, payload: Assoc<Json>)

  /**
   * `_handle_response`: only 200 succeeds, with the parsed body or, when
   * the body is not JSON, {"content": text}; every other status raises.
   */
  function HandleResponse(response: Response): (r: Result<Json, Failure>)
    ensures r.Ok? <==> response.status == 200
    ensures r.Ok? && response.body.Some? ==> r.value == response.body.value
    ensures r.Ok? && response.body.None? ==> r.value == JObj([("content", JStr(response.text))])
    ensures r == Err(AuthError) <==> response.status == 472
    ensures r == Err(ResponseError) <==> response.status == 473
    ensures r == Err(RequestError) <==> response.status == 400
    ensures (r.Err? && r.error.ServerError?) <==> response.status >= 500
    ensures (r.Err? && r.error.UnexpectedStatus?) <==>
      response.status < 500 && response.status != 200 && response.status != 400 &&
      response.status != 472 && response.status != 473
    ensures r.Err? && (r.error.ServerError? || r.error.UnexpectedStatus?) ==> r.error.status == response.status
    ensures r != Err(RuntimeFault)
  {
    if response.status == 200 then
      match response.body
      case Some(j) => Ok(j)
      case None => Ok(JObj([("content", JStr(response.text))]))
    else if response.status == 472 then Err(AuthError)
    else if response.status == 473 then Err(ResponseError)
    else if response.status == 400 then Err(RequestError)
    else if response.status >= 500 then Err(ServerError(response.status))
    else Err(UnexpectedStatus(response.status))
  }

  /**
   * The prologue of every ticketed call: an explicit ticket is used
   * whenever it is not None, the stored one otherwise; a falsy result
   * raises before any request is made.
   */
  function ResolveTicket(explicit: Json, stored: Json): (r: Result<Json, Failure>)
    ensures r.Ok? <==> Truthy(if explicit != JNull then explicit else stored)
    ensures r.Ok? ==> r.value == if explicit != JNull then explicit else stored
    ensures r.Err? ==> r.error == AuthError
  {
    var ticket := if explicit == JNull then stored else explicit;
    if !Truthy(ticket) then Err(AuthError) else Ok(ticket)
  }

  /** An explicit empty ticket does not fall back to the stored one. */
  lemma EmptyTicketNoFallback(stored: Json)
    ensures ResolveTicket(JStr(""), stored) == Err(AuthError)
  {
  }

  /** A truthy explicit ticket is sent whatever is stored. */
  lemma ExplicitTicketWins(explicit: Json, stored: Json)
    requires Truthy(explicit)
    ensures ResolveTicket(explicit, stored) == Ok(explicit)
  {
  }

  /** Parameters of `authenticate`: login and password always, the secret only when truthy. */
  function AuthFields(login: string, password: string, secret: Json): seq<Field>
  {
    [Field("login", JStr(login), Always), Field("password", JStr(password), Always),
     Field("secret", secret, WhenTruthy)]
  }

  /** Optional arguments of `query`, None where not given. */
  datatype QueryOptions = QueryOptions(
    sort: Json, databases: Json, reopen: Json, from: Json, top: Json, limit: Json, trace: Json)

  /** Body of `query`: sort and databases only when truthy, the rest whenever not None. */
  function QueryFields(ticket: Json, query: string, o: QueryOptions): seq<Field>
  {
    [Field("ticket", ticket, Always), Field("query", JStr(query), Always),
     Field("sort", o.sort, WhenTruthy), Field("databases", o.databases, WhenTruthy),
     Field("reopen", o.reopen, WhenNotNone), Field("from", o.from, WhenNotNone),
     Field("top", o.top, WhenNotNone), Field("limit", o.limit, WhenNotNone),
     Field("trace", o.trace, WhenNotNone)]
  }

  /** Optional arguments shared by the write calls, None where not given. */
  datatype WriteOptions = WriteOptions(
    prepareEvents: Json, assignedSubsystems: Json, eventId: Json, transactionId: Json)

  /** The entries of the dict literal, each always sent. */
  function Mandatory(head: Assoc<Json>): (fs: seq<Field>)
    ensures |fs| == |head|
  {
    seq(|head|, i requires 0 <= i < |head| => Field(head[i].0, head[i].1, Always))
  }

  /**
   * Body of a write call: its mandatory entries, then prepare_events and
   * assigned_subsystems whenever not None, event_id and transaction_id only
   * when truthy.
   */
  function WriteFields(head: Assoc<Json>, o: WriteOptions): seq<Field>
  {
    Mandatory(head) +
    [Field("prepare_events", o.prepareEvents, WhenNotNone),
     Field("assigned_subsystems", o.assignedSubsystems, WhenNotNone),
     Field("event_id", o.eventId, WhenTruthy),
     Field("transaction_id", o.transactionId, WhenTruthy)]
  }

  /** The keys a write call may add after its mandatory entries. */
  predicate OptionalWriteKey(k: string)
  {
    k == "prepare_events" || k == "assigned_subsystems" || k == "event_id" || k == "transaction_id"
  }

  /** A dict literal with unique keys, none of them optional, gives distinct write fields. */
  lemma WriteDistinct(head: Assoc<Json>, o: WriteOptions)
    requires UniqueKeys(head)
    requires forall i :: 0 <= i < |head| ==> !OptionalWriteKey(head[i].0)
    ensures DistinctKeys(WriteFields(head, o))
  {
    var fs := WriteFields(head, o);
    forall i, j | 0 <= i < j < |fs| ensures fs[i].key != fs[j].key {
      if j < |head| {
        assert fs[i].key == head[i].0 && fs[j].key == head[j].0;
      } else if i < |head| {
        assert fs[i].key == head[i].0 && OptionalWriteKey(fs[j].key);
      }
    }
  }

  /** The query body's keys are distinct. */
  lemma QueryDistinct(ticket: Json, query: string, o: QueryOptions)
    ensures DistinctKeys(QueryFields(ticket, query, o))
  {
  }

  /** What `query` always sends: the ticket and the query. */
  lemma QueryBodyContents(ticket: Json, query: string, o: QueryOptions)
    ensures var d := Assemble(QueryFields(ticket, query, o));
      Get(d, "ticket") == Some(ticket) && Get(d, "query") == Some(JStr(query))
  {
    var fs := QueryFields(ticket, query, o);
    QueryDistinct(ticket, query, o);
    var d := Assemble(fs);
    assert Get(d, "ticket") == Some(ticket) by {
      AssembleLookup(fs, 0);
    }
    assert Get(d, "query") == Some(JStr(query)) by {
      AssembleLookup(fs, 1);
    }
  }

  /** sort and databases are sent only when truthy: an empty string or list is left out. */
  lemma QueryBodyTruthy(ticket: Json, query: string, o: QueryOptions)
    ensures var d := Assemble(QueryFields(ticket, query, o));
      Get(d, "sort") == (if Truthy(o.sort) then Some(o.sort) else None) &&
      Get(d, "databases") == (if Truthy(o.databases) then Some(o.databases) else None)
  {
    var fs := QueryFields(ticket, query, o);
    QueryDistinct(ticket, query, o);
    AssembleLookup(fs, 2);
    AssembleLookup(fs, 3);
  }

  /** reopen, from, top, limit and trace are sent whenever they are not None, so 0 and False are sent. */
  lemma QueryBodyOptional(ticket: Json, query: string, o: QueryOptions)
    ensures var d := Assemble(QueryFields(ticket, query, o));
      Get(d, "reopen") == (if o.reopen != JNull then Some(o.reopen) else None) &&
      Get(d, "from") == (if o.from != JNull then Some(o.from) else None) &&
      Get(d, "top") == (if o.top != JNull then Some(o.top) else None) &&
      Get(d, "limit") == (if o.limit != JNull then Some(o.limit) else None) &&
      Get(d, "trace") == (if o.trace != JNull then Some(o.trace) else None)
  {
    var fs := QueryFields(ticket, query, o);
    QueryDistinct(ticket, query, o);
    AssembleLookup(fs, 4);
    AssembleLookup(fs, 5);
    AssembleLookup(fs, 6);
    AssembleLookup(fs, 7);
    AssembleLookup(fs, 8);
  }

  /** What `authenticate` sends: login and password always, the secret only when truthy. */
  lemma AuthParamsContents(login: string, password: string, secret: Json)
    ensures var d := Assemble(AuthFields(login, password, secret));
      Get(d, "login") == Some(JStr(login)) && Get(d, "password") == Some(JStr(password)) &&
      Get(d, "secret") == (if Truthy(secret) then Some(secret) else None)
  {
    var fs := AuthFields(login, password, secret);
    AssembleLookup(fs, 0);
    AssembleLookup(fs, 1);
    AssembleLookup(fs, 2);
  }

  /**
   * What a write call sends besides its mandatory entries: prepare_events
   * and assigned_subsystems whenever not None, event_id and transaction_id
   * only when truthy.
   */
  lemma WriteBodyContents(head: Assoc<Json>, o: WriteOptions)
    requires UniqueKeys(head)
    requires forall i :: 0 <= i < |head| ==> !OptionalWriteKey(head[i].0)
    ensures var d := Assemble(WriteFields(head, o));
      Get(d, "prepare_events") == (if o.prepareEvents != JNull then Some(o.prepareEvents) else None) &&
      Get(d, "assigned_subsystems") == (if o.assignedSubsystems != JNull then Some(o.assignedSubsystems) else None) &&
      Get(d, "event_id") == (if Truthy(o.eventId) then Some(o.eventId) else None) &&
      Get(d, "transaction_id") == (if Truthy(o.transactionId) then Some(o.transactionId) else None)
    ensures forall i :: 0 <= i < |head| ==> Get(Assemble(WriteFields(head, o)), head[i].0) == Some(head[i].1)
  {
    var fs := WriteFields(head, o);
    var n := |head|;
    WriteDistinct(head, o);
    AssembleLookup(fs, n);
    AssembleLookup(fs, n + 1);
    AssembleLookup(fs, n + 2);
    AssembleLookup(fs, n + 3);
    forall i | 0 <= i < n ensures Get(Assemble(fs), head[i].0) == Some(head[i].1) {
      AssembleLookup(fs, i);
    }
  }

  /** The individual argument of a write call: an `Individual` object, or a dict sent as it is. */
  datatype IndividualArg = Object(ind: Individual) | Dict(record: Json)

  /** The JSON a write call sends for its individual argument. */
  function ArgJson(arg: IndividualArg): (j: Json)
    reads if arg.Object? then {arg.ind} else {}
    ensures arg.Dict? ==> j == arg.record
    ensures arg.Object? ==> j == arg.ind.ToDict()
  {
    match arg
    case Object(ind) => ind.ToDict()
    case Dict(record) => record
  }

  /** All the individual arguments' objects. */
  function Objects(args: seq<IndividualArg>): set<object>
  {
    set i | 0 <= i < |args| && args[i].Object? :: args[i].ind
  }

  /** The individuals named by a prefix of the arguments are among those of all of them. */
  lemma ObjectsPrefix(args: seq<IndividualArg>, n: nat)
    requires n <= |args|
    ensures Objects(args[..n]) <= Objects(args)
  {
    forall o | o in Objects(args[..n]) ensures o in Objects(args) {
      var i :| 0 <= i < n && args[..n][i].Object? && args[..n][i].ind == o;
      assert args[i] == args[..n][i];
    }
  }

  /** The JSON list `put_individuals` sends. */
  function ArgsJson(args: seq<IndividualArg>): (js: seq<Json>)
    reads Objects(args)
    ensures |js| == |args|
    ensures forall i :: 0 <= i < |args| ==> js[i] == ArgJson(args[i])
  {
    if args == [] then []
    else
      var n := |args| - 1;
      ObjectsPrefix(args, n);
      assert args[n].Object? ==> args[n].ind in Objects(args);
      assert forall i :: 0 <= i < n ==> args[..n][i] == args[i];
      ArgsJson(args[..n]) + [ArgJson(args[n])]
  }

  /** The edit calls, which differ only in their endpoint. */
  datatype EditOp = RemoveFrom | SetIn | AddTo

  function EditEndpoint(op: EditOp): string
  {
    match op
    case RemoveFrom => "remove_from_individual"
    case SetIn => "set_in_individual"
    case AddTo => "add_to_individual"
  }

  /** `VedaClient`: the stored ticket and user uri (None until `authenticate` stores them). */
  class VedaClient {
    var ticket: Json
    var userUri: Json

    constructor()
      ensures ticket == JNull && userUri == JNull
    {
      ticket := JNull;
      userUri := JNull;
    }

    /**
     * `authenticate(login, password, secret)`: when the handled result
     * holds "id", the ticket and user uri are stored; otherwise nothing
     * changes. `"id" in result` on None, a bool or an int raises
     * TypeError; on a list or a string it is a membership test, and only
     * when it holds does `result["id"]` then raise TypeError.
     */
    method Authenticate(login: string, password: string, secret: Json, response: Response)
      returns (request: Request, r: Result<Json, Failure>)
      modifies this
      ensures request == Request(GET, "authenticate", Assemble(AuthFields(login, password, secret)))
      ensures HandleResponse(response).Err? ==> r == HandleResponse(response)
      ensures r.Ok? ==> r == HandleResponse(response)
      ensures r.Err? && HandleResponse(response).Ok? ==>
        r.error == RuntimeFault && !HandleResponse(response).value.JObj?
      ensures HandleResponse(response).Ok? ==>
        var result := HandleResponse(response).value;
        (r.Err? <==> Contains(result, "id").None? || (Contains(result, "id") == Some(true) && !result.JObj?))
      ensures r.Ok? && r.value.JObj? && "id" in Keys(r.value.fields) ==>
        ticket == GetOr(r.value.fields, "id", JNull) &&
        userUri == GetOr(r.value.fields, "user_uri", JNull)
      ensures !(r.Ok? && r.value.JObj? && "id" in Keys(r.value.fields)) ==>
        ticket == old(ticket) && userUri == old(userUri)
    {
      var params := Assemble(AuthFields(login, password, secret));
      request := Request(GET, "authenticate", params);
      r := HandleResponse(response);
      if r.Err? {
        return;
      }
      var result := r.value;
      var hasId := Contains(result, "id");
      if hasId.None? {
        r := Err(RuntimeFault);
        return;
      }
      if hasId.value {
        var id := Subscript(result, "id");
        if id.None? {
          r := Err(RuntimeFault);
          return;
        }
        ticket := id.value;
        userUri := GetOr(result.fields, "user_uri", JNull);
      }
    }

    /**
     * `is_ticket_valid(ticket)`: never raises for a status; 200 gives the
     * parsed body (a body that is not JSON raises from the JSON decoder),
     * any other status False.
     */
    method IsTicketValid(explicit: Json, response: Response)
      returns (request: Option<Request>, r: Result<Json, Failure>)
      ensures var t := ResolveTicket(explicit, ticket);
        (t.Err? ==> request == None && r == Err(AuthError)) &&
        (t.Ok? ==> request == Some(Request(GET, "is_ticket_valid", [("ticket", t.value)])))
      ensures ResolveTicket(explicit, ticket).Ok? && response.status != 200 ==> r == Ok(JBool(false))
      ensures ResolveTicket(explicit, ticket).Ok? && response.status == 200 ==>
        r == if response.body.Some? then Ok(response.body.value) else Err(RuntimeFault)
      ensures r.Err? ==> r.error == AuthError || r.error == RuntimeFault
    {
      var t := ResolveTicket(explicit, ticket);
      if t.Err? {
        return None, Err(AuthError);
      }
      request := Some(Request(GET, "is_ticket_valid", [("ticket", t.value)]));
      if response.status == 200 {
        if response.body.None? {
          return request, Err(RuntimeFault);
        }
        return request, Ok(response.body.value);
      }
      return request, Ok(JBool(false));
    }

    /** `query(query, ...)`: the body as `QueryFields` says, posted; the result handled. */
    method Query(query: string, o: QueryOptions, explicit: Json, response: Response)
      returns (request: Option<Request>, r: Result<Json, Failure>)
      ensures var t := ResolveTicket(explicit, ticket);
        (t.Err? ==> request == None && r == Err(AuthError)) &&
        (t.Ok? ==> request == Some(Request(POST, "query", Assemble(QueryFields(t.value, query, o)))) &&
                   r == HandleResponse(response))
    {
      var t := ResolveTicket(explicit, ticket);
      if t.Err? {
        return None, Err(AuthError);
      }
      var data := Assemble(QueryFields(t.value, query, o));
      return Some(Request(POST, "query", data)), HandleResponse(response);
    }

    /** `put_individual(individual, ...)`: an object is sent as its `to_dict()`, a dict as it is. */
    method PutIndividual(arg: IndividualArg, o: WriteOptions, explicit: Json, response: Response)
      returns (request: Option<Request>, r: Result<Json, Failure>)
      ensures var t := ResolveTicket(explicit, ticket);
        (t.Err? ==> request == None && r == Err(AuthError)) &&
        (t.Ok? ==> (r == HandleResponse(response) &&
          request == Some(Request(PUT, "put_individual",
            Assemble(WriteFields([("ticket", t.value), ("individual", ArgJson(arg))], o))))))
    {
      var t := ResolveTicket(explicit, ticket);
      if t.Err? {
        return None, Err(AuthError);
      }
      var individual := ArgJson(arg);
      var data := Assemble(WriteFields([("ticket", t.value), ("individual", individual)], o));
      return Some(Request(PUT, "put_individual", data)), HandleResponse(response);
    }

    /** `put_individuals(individuals, ...)`: each object converted in a loop, dicts sent as they are. */
    method PutIndividuals(args: seq<IndividualArg>, o: WriteOptions, explicit: Json, response: Response)
      returns (request: Option<Request>, r: Result<Json, Failure>)
      ensures var t := ResolveTicket(explicit, ticket);
        (t.Err? ==> request == None && r == Err(AuthError)) &&
        (t.Ok? ==> (r == HandleResponse(response) &&
          request == Some(Request(PUT, "put_individuals",
            Assemble(WriteFields([("ticket", t.value), ("individuals", JArr(ArgsJson(args)))], o))))))
    {
      var t := ResolveTicket(explicit, ticket);
      if t.Err? {
        return None, Err(AuthError);
      }
      var dicts: seq<Json> := [];
      for i := 0 to |args|
        invariant dicts == ArgsJson(args[..i])
      {
        assert args[..i + 1][..i] == args[..i];
        if args[i].Object? {
          dicts := dicts + [args[i].ind.ToDict()];
        } else {
          dicts := dicts + [args[i].record];
        }
      }
      assert args[..|args|] == args;
      assert dicts == ArgsJson(args);
      var data := Assemble(WriteFields([("ticket", t.value), ("individuals", JArr(dicts))], o));
      return Some(Request(PUT, "put_individuals", data)), HandleResponse(response);
    }

    /** `remove_individual(uri, ...)` */
    method RemoveIndividual(uri: string, o: WriteOptions, explicit: Json, response: Response)
      returns (request: Option<Request>, r: Result<Json, Failure>)
      ensures var t := ResolveTicket(explicit, ticket);
        (t.Err? ==> request == None && r == Err(AuthError)) &&
        (t.Ok? ==> (r == HandleResponse(response) &&
          request == Some(Request(PUT, "remove_individual",
            Assemble(WriteFields([("ticket", t.value), ("uri", JStr(uri))], o))))))
    {
      var t := ResolveTicket(explicit, ticket);
      if t.Err? {
        return None, Err(AuthError);
      }
      var data := Assemble(WriteFields([("ticket", t.value), ("uri", JStr(uri))], o));
      return Some(Request(PUT, "remove_individual", data)), HandleResponse(response);
    }

    /** `remove_from_individual`, `set_in_individual` and `add_to_individual`. */
    method EditIndividual(op: EditOp, uri: string, arg: IndividualArg, o: WriteOptions,
                          explicit: Json, response: Response)
      returns (request: Option<Request>, r: Result<Json, Failure>)
      ensures var t := ResolveTicket(explicit, ticket);
        (t.Err? ==> request == None && r == Err(AuthError)) &&
        (t.Ok? ==> (r == HandleResponse(response) &&
          request == Some(Request(PUT, EditEndpoint(op),
            Assemble(WriteFields([("ticket", t.value), ("uri", JStr(uri)), ("individual", ArgJson(arg))], o))))))
    {
      var t := ResolveTicket(explicit, ticket);
      if t.Err? {
        return None, Err(AuthError);
      }
      var individual := ArgJson(arg);
      var data := Assemble(WriteFields([("ticket", t.value), ("uri", JStr(uri)), ("individual", individual)], o));
      return Some(Request(PUT, EditEndpoint(op), data)), HandleResponse(response);
    }

    /**
     * `get_operation_state(module_id, wait_op_id)`: sent without a ticket;
     * on 200 the text parsed as an integer (ResponseError when it is not
     * one); any other status raises through `_handle_response`, so the
     * call never returns normally then.
     */
    method GetOperationState(moduleId: int, waitOpId: int, response: Response)
      returns (request: Request, r: Result<int, Failure>)
      ensures request == Request(GET, "get_operation_state",
        [("module_id", JInt(moduleId)), ("wait_op_id", JInt(waitOpId))])
      ensures r.Ok? <==> response.status == 200 && ParseInt(response.text).Some?
      ensures r.Ok? ==> r.value == ParseInt(response.text).value
      ensures response.status == 200 && ParseInt(response.text).None? ==> r == Err(ResponseError)
      ensures response.status != 200 ==> r == Err(HandleResponse(response).error)
    {
      request := Request(GET, "get_operation_state",
        [("module_id", JInt(moduleId)), ("wait_op_id", JInt(waitOpId))]);
      if response.status == 200 {
        var n := ParseInt(response.text);
        if n.None? {
          return request, Err(ResponseError);
        }
        return request, Ok(n.value);
      }
      var handled := HandleResponse(response);
      if handled.Ok? {
        assert false;
      }
      return request, Err(handled.error);
    }
  }
}
