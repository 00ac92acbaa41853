/** The dummy action tool's `execute`: echo the `message` keyword argument,
    falling back to `query` when the message is missing or falsy. */
module DummyAction {

  /** The Python values a keyword argument can carry, as far as truthiness
      can tell them apart; any other object records its own `bool()`. */
  datatype PyValue =
    | NoneValue
    | BoolValue(b: bool)
    | IntValue(i: int)
    | FloatValue(x: real)
    | StrValue(s: string)
    | ListValue(items: seq<PyValue>)
    | OtherValue(truthy: bool)

  /** Python's `bool(v)`. */
  predicate Truthy(v: PyValue) {
    match v
    case NoneValue => false
    case BoolValue(b) => b
    case IntValue(i) => i != 0
    case FloatValue(x) => x != 0.0
    case StrValue(s) => |s| > 0
    case ListValue(items) => |items| > 0
    case OtherValue(t) => t
  }

  const Completed: string := "Dummy action completed successfully"
  const Unprovided: string := "No message provided"

  /** The dictionary `execute` returns; `message` is whatever object was chosen. */
  datatype Response = Response(status: string, message: PyValue, result: string)

  /** `dict.get(key, default)`. */
  function Get(kwargs: map<string, PyValue>, key: string, default: PyValue): (v: PyValue)
    ensures key in kwargs ==> v == kwargs[key]
    ensures key !in kwargs ==> v == default
  {
    if key in kwargs then kwargs[key] else default
  }

  /** `DummyActionTool.execute(**kwargs)`. It always succeeds; a truthy
      `message` is echoed; otherwise a present `query` replaces it, whatever
      its own truthiness; otherwise the falsy message (or `""`) stays. The
      returned object is truthy exactly when the message is, or the message
      is not and a query is given that is. */
  function Execute(kwargs: map<string, PyValue>): (r: Response)
    ensures r.status == "success" && r.result == Completed
    ensures "message" in kwargs && Truthy(kwargs["message"]) ==> r.message == kwargs["message"]
    ensures ("message" !in kwargs || !Truthy(kwargs["message"])) && "query" in kwargs ==> r.message == kwargs["query"]
    ensures "message" in kwargs && !Truthy(kwargs["message"]) && "query" !in kwargs ==> r.message == kwargs["message"]
    ensures "message" !in kwargs && "query" !in kwargs ==> r.message == StrValue("")
    ensures Truthy(r.message) <==>
      ("message" in kwargs && Truthy(kwargs["message"]))
      || ("query" in kwargs && Truthy(kwargs["query"]) && !("message" in kwargs && Truthy(kwargs["message"])))
  {
    var message := Get(kwargs, "message", StrValue(""));
    var chosen :=
      if !Truthy(message) && "query" in kwargs then Get(kwargs, "query", StrValue(Unprovided))
      else message;
    Response("success", chosen, Completed)
  }

  /** The echoed object is always one the caller passed, or the empty string;
      in particular the `"No message provided"` default is never used. */
  lemma EchoComesFromCaller(kwargs: map<string, PyValue>)
    ensures var m := Execute(kwargs).message;
      ("message" in kwargs && m == kwargs["message"])
      || ("query" in kwargs && m == kwargs["query"])
      || m == StrValue("")
    ensures Execute(kwargs).message == StrValue(Unprovided) ==>
      ("message" in kwargs && kwargs["message"] == StrValue(Unprovided))
      || ("query" in kwargs && kwargs["query"] == StrValue(Unprovided))
  {
  }

  /** Only the `message` and `query` arguments matter: calls that agree on
      them (presence and value) get the same response. */
  lemma OnlyMessageAndQueryMatter(a: map<string, PyValue>, b: map<string, PyValue>)
    requires ("message" in a <==> "message" in b) && ("message" in a ==> a["message"] == b["message"])
    requires ("query" in a <==> "query" in b) && ("query" in a ==> a["query"] == b["query"])
    ensures Execute(a) == Execute(b)
  {
  }

  /** A query never displaces a truthy message, but does displace a falsy one,
      even one passed explicitly. */
  lemma QueryDisplacesOnlyFalsyMessages(message: PyValue, query: PyValue)
    ensures Execute(map["message" := message, "query" := query]).message ==
      if Truthy(message) then message else query
  {
  }
}
