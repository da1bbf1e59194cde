/**
 * AppHttpException: the application's HTTP error.  It carries a message, a
 * status code, an optional context and the location of the code that raised
 * it, and exposes them to FastAPI as the `detail` of an HTTPException.
 */
module Exceptions {
  import opened Wrappers
  import opened Text
  import opened Json
  import opened Paths

  /** Where an error happened: the `loc` dict of the error reports. */
  datatype Loc = Loc(file: string, funcName: string, line: int, code: Option<string>)

  function CodeJson(code: Option<string>): Json {
    match code
    case None => Null
    case Some(c) => Str(c)
  }

  /** The `loc` dict: a dict display with four distinct keys, in the order written. */
  function LocJson(l: Loc): Dict {
    [("file", Str(l.file)), ("function", Str(l.funcName)), ("line", Int(l.line)), ("code", CodeJson(l.code))]
  }

  /** The four entries of the `loc` dict and nothing else. */
  lemma LocJsonEntries(l: Loc)
    ensures Get(LocJson(l), "file") == Some(Str(l.file))
    ensures Get(LocJson(l), "function") == Some(Str(l.funcName))
    ensures Get(LocJson(l), "line") == Some(Int(l.line))
    ensures Get(LocJson(l), "code") == Some(CodeJson(l.code))
    ensures Keys(LocJson(l)) == ["file", "function", "line", "code"] && UniqueKeys(LocJson(l))
  {
    var d := LocJson(l);
    var d1, d2, d3 := d[1..], d[2..], d[3..];
    assert d == [d[0]] + d1 && d1 == [d[1]] + d2 && d2 == [d[2]] + d3 && d3 == [d[3]] + [];
    forall k ensures Get(d, k) == if k == "file" then Some(Str(l.file)) else Get(d1, k) {
      GetCons(d[0], d1, k);
    }
    forall k ensures Get(d1, k) == if k == "function" then Some(Str(l.funcName)) else Get(d2, k) {
      GetCons(d[1], d2, k);
    }
    forall k ensures Get(d2, k) == if k == "line" then Some(Int(l.line)) else Get(d3, k) {
      GetCons(d[2], d3, k);
    }
    GetCons(d[3], [], "code");
    assert Keys(d3) == ["code"];
    assert Keys(d2) == ["line", "code"];
    assert Keys(d1) == ["function", "line", "code"];
    assert UniqueKeys(d3) && UniqueKeys(d2) && UniqueKeys(d1);
  }

  /** The location reported when there is no traceback to read it from. */
  const UnknownLoc: Loc := Loc("unknown", "unknown", 0, None)

  /** An entry of `inspect.stack()`: the fields of a FrameInfo the source reads. */
  datatype StackFrame = StackFrame(filename: string, funcName: string, lineno: int,
                                   codeContext: Option<seq<string>>)

  const DefaultMessage: string := "Error interno del servidor"
  const DefaultStatus: int := 500

  /** The number of trailing path components kept for a file outside the root. */
  const CallerDepth: nat := 2

  /**
   * `__get_caller_info`: the frame that created the exception (index 2 of the
   * stack, above `__get_caller_info` and `__init__`), its file named relative
   * to the project root or else by its last two components, and its first
   * line of code stripped (None when the frame has no code context).
   */
  function CallerInfo(stack: seq<StackFrame>, rootDir: string): (l: Loc)
    requires |stack| > 2
    ensures l.funcName == stack[2].funcName && l.line == stack[2].lineno
    ensures l.file == TailFile(Parse(stack[2].filename), Some(Parse(rootDir)), CallerDepth)
    ensures l.code.None? <==> stack[2].codeContext.None? || stack[2].codeContext.value == []
    ensures l.code.Some? ==> l.code.value == Strip(stack[2].codeContext.value[0])
  {
    var frame := stack[2];
    var file := TailFile(Parse(frame.filename), Some(Parse(rootDir)), CallerDepth);
    var code := match frame.codeContext
      case Some(lines) => if lines != [] then Some(Strip(lines[0])) else None
      case None => None;
    Loc(file, frame.funcName, frame.lineno, code)
  }

  /**
   * `raise AppHttpException(message=..., status_code=..., context=...)` as the
   * code that raises it writes it; the location is added by `CallerInfo` from
   * the interpreter's stack at that point.
   */
  datatype Raised = Raised(message: string, statusCode: int, context: Dict)

  /** An AppHttpException once constructed.  `extra` holds the keyword extras. */
  datatype AppHttpException = AppHttpException(
    className: string,
    message: string,
    statusCode: int,
    context: Json,
    loc: Loc,
    extra: Dict)

  /** The names `__init__` binds itself: a keyword extra never has one of them. */
  predicate ValidExtra(extra: Dict) {
    UniqueKeys(extra) && forall k :: k in Keys(extra) ==> k !in ["message", "status_code", "context"]
  }

  /**
   * `AppHttpException(...)`.  An omitted message or status takes its default
   * ("Error interno del servidor", 500); an omitted context is None (Null).
   */
  function NewAppHttpException(message: Option<string>, statusCode: Option<int>, context: Json,
                               extra: Dict, stack: seq<StackFrame>, rootDir: string)
    : (e: AppHttpException)
    requires |stack| > 2 && ValidExtra(extra)
    ensures e.className == "AppHttpException"
    ensures e.message == if message.Some? then message.value else DefaultMessage
    ensures e.statusCode == if statusCode.Some? then statusCode.value else DefaultStatus
    ensures e.context == context && e.extra == extra
    ensures e.loc == CallerInfo(stack, rootDir)
  {
    AppHttpException(
      "AppHttpException",
      if message.Some? then message.value else DefaultMessage,
      if statusCode.Some? then statusCode.value else DefaultStatus,
      context,
      CallerInfo(stack, rootDir),
      extra)
  }

  /** The `detail` handed to HTTPException: message, context, location, extras. */
  function Detail(e: AppHttpException): Dict {
    [("msg", Str(e.message)), ("context", e.context), ("loc", Object(LocJson(e.loc))),
     ("extra", Object(e.extra))]
  }

  /** The four entries of `detail`, and no other key. */
  lemma DetailEntries(e: AppHttpException)
    ensures Get(Detail(e), "msg") == Some(Str(e.message))
    ensures Get(Detail(e), "context") == Some(e.context)
    ensures Get(Detail(e), "loc") == Some(Object(LocJson(e.loc)))
    ensures Get(Detail(e), "extra") == Some(Object(e.extra))
    ensures Keys(Detail(e)) == ["msg", "context", "loc", "extra"] && UniqueKeys(Detail(e))
  {
    var d := Detail(e);
    var d1, d2, d3 := d[1..], d[2..], d[3..];
    assert d == [d[0]] + d1 && d1 == [d[1]] + d2 && d2 == [d[2]] + d3 && d3 == [d[3]] + [];
    forall k ensures Get(d, k) == if k == "msg" then Some(Str(e.message)) else Get(d1, k) {
      GetCons(d[0], d1, k);
    }
    forall k ensures Get(d1, k) == if k == "context" then Some(e.context) else Get(d2, k) {
      GetCons(d[1], d2, k);
    }
    forall k ensures Get(d2, k) == if k == "loc" then Some(Object(LocJson(e.loc))) else Get(d3, k) {
      GetCons(d[2], d3, k);
    }
    GetCons(d[3], [], "extra");
    assert Keys(d3) == ["extra"];
    assert Keys(d2) == ["loc", "extra"];
    assert Keys(d1) == ["context", "loc", "extra"];
    assert UniqueKeys(d3) && UniqueKeys(d2) && UniqueKeys(d1);
  }

  /** The HTTP status of the HTTPException: the exception's own status code. */
  function HttpStatus(e: AppHttpException): int {
    e.statusCode
  }

  /**
   * The extras change nothing but `detail["extra"]`: two exceptions that differ
   * only in their extras have the same status, and their details agree on
   * every other key, whether or not it is one of the four.
   */
  lemma ExtrasOnlyUnderExtra(e: AppHttpException, extra: Dict)
    ensures var e' := e.(extra := extra);
            && HttpStatus(e') == HttpStatus(e)
            && forall k :: k != "extra" ==> Get(Detail(e'), k) == Get(Detail(e), k)
  {
    var e' := e.(extra := extra);
    var common := [("msg", Str(e.message)), ("context", e.context), ("loc", Object(LocJson(e.loc)))];
    forall k | k != "extra" ensures Get(Detail(e'), k) == Get(Detail(e), k) {
      GetAfter(common, ("extra", Object(e.extra)), k);
      GetAfter(common, ("extra", Object(extra)), k);
      assert Detail(e) == common + [("extra", Object(e.extra))];
      assert Detail(e') == common + [("extra", Object(extra))];
    }
  }
}
