/** `json_rpc_call`: wrap a call in a JSON-RPC 2.0 envelope, post it to the Odoo
    server, and read the decoded response. */
module JsonRpc {
  import opened Results
  import opened Python

  /** The payload posted to the server. */
  datatype Request = Request(url: string, jsonrpc: string, procedure: string, params: Value, id: int)

  /** What the server hands back: a decoded JSON body, or a failure of the HTTP
      exchange (connection error, timeout, non-2xx status). */
  datatype Reply = Delivered(body: Value) | HttpFailure(reason: string)

  /** The envelope `json_rpc_call` builds: protocol "2.0" and request id 1. */
  function Envelope(url: string, procedure: string, params: Value): Request {
    Request(url, "2.0", procedure, params, 1)
  }

  /** How `json_rpc_call` reads a reply. A transport failure becomes HttpError; a
      dict with an "error" key is an Odoo error, whatever that key holds; otherwise
      the "result" entry is returned (KeyError when absent). Any body that is not a
      dict raises TypeError: on None, a bool or an int the `in` test itself raises,
      and on a list or a string, where `in` is a membership or substring test, the
      string subscript that follows it raises. */
  function InterpretReply(reply: Reply): (r: Result<Value, Error>)
    ensures r.Ok? <==>
      && reply.Delivered?
      && reply.body.Dict?
      && Lookup(reply.body.entries, "error").None?
      && Lookup(reply.body.entries, "result").Some?
    ensures r.Ok? ==> r.value == Get(reply.body.entries, "result")
    ensures reply.Delivered? && reply.body.Dict? && Lookup(reply.body.entries, "error").Some? ==>
      r == Err(OdooRpcError(Get(reply.body.entries, "error")))
    ensures reply.Delivered? && !reply.body.Dict? ==> r == Err(TypeError)
    ensures reply.HttpFailure? ==> r == Err(HttpError(reply.reason))
  {
    match reply
    case HttpFailure(reason) => Err(HttpError(reason))
    case Delivered(body) =>
      match body
      case Dict(es) =>
        if Lookup(es, "error").Some? then Err(OdooRpcError(Get(es, "error")))
        else if Lookup(es, "result").Some? then Ok(Get(es, "result"))
        else Err(KeyError(Str("result")))
      case _ => Err(TypeError)
  }

  /** The Odoo server behind the RPC URL. It answers each request by a fixed
      function and keeps every request it receives, in order. */
  class OdooServer {
    const answer: Request -> Reply
    var requests: seq<Request>

    constructor(answer: Request -> Reply)
      ensures this.answer == answer && requests == []
    {
      this.answer := answer;
      requests := [];
    }

    method Post(request: Request) returns (reply: Reply)
      modifies this
      ensures reply == answer(request)
      ensures requests == old(requests) + [request]
    {
      requests := requests + [request];
      reply := answer(request);
    }
  }

  /** `json_rpc_call(url, method, params)`: exactly one request to the server, and
      the reading of its reply. */
  method JsonRpcCall(server: OdooServer, url: string, procedure: string, params: Value)
    returns (r: Result<Value, Error>)
    modifies server
    ensures server.requests == old(server.requests) + [Envelope(url, procedure, params)]
    ensures r == InterpretReply(server.answer(Envelope(url, procedure, params)))
  {
    var reply := server.Post(Envelope(url, procedure, params));
    r := InterpretReply(reply);
  }
}
