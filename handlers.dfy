/**
 * The exception handlers of app/exceptions/HandlerExceptions.py and the
 * traceback helpers they rely on.  The traceback itself is an input: the
 * frames `traceback.extract_tb` lists, or the chain of `tb_next` links.
 */
module Handlers {
  import opened Wrappers
  import opened Text
  import opened Json
  import opened Paths
  import opened Exceptions

  /** A `traceback.FrameSummary`: file, function, line number and source line. */
  datatype TraceFrame = TraceFrame(filename: string, name: string, lineno: int, line: Option<string>)

  /** An entry of the `tb_next` chain: the code object's file and name, and the line. */
  datatype TbEntry = TbEntry(filename: string, name: string, lineno: int)

  const Development: string := "development"

  // ------------------------------------------------------------ traceback

  /** One entry of `full_trace`: the frame with its file name shortened. */
  function FrameLoc(f: TraceFrame, root: Option<PurePath>): Loc {
    Loc(TraceFile(Parse(f.filename), root), f.name, f.lineno, f.line)
  }

  /** The entries of `full_trace`, one per frame, in order. */
  function TraceLocs(frames: seq<TraceFrame>, root: Option<PurePath>): seq<Loc> {
    seq(|frames|, i requires 0 <= i < |frames| => FrameLoc(frames[i], root))
  }

  /** The result of `_get_full_traceback_info`. */
  datatype TraceInfo = TraceInfo(origin: Loc, fullTrace: seq<Loc>)

  /**
   * `_get_full_traceback_info`: one entry per frame, in order; the origin is
   * the last entry, or the unknown location when there are no frames.
   */
  method FullTracebackInfo(frames: seq<TraceFrame>, root: Option<PurePath>) returns (info: TraceInfo)
    ensures info.fullTrace == TraceLocs(frames, root)
    ensures |info.fullTrace| == |frames|
    ensures frames == [] ==> info.origin == UnknownLoc
    ensures frames != [] ==> info.origin == info.fullTrace[|frames| - 1]
  {
    ghost var all := TraceLocs(frames, root);
    var traceFrames: seq<Loc> := [];
    var describe := (f: TraceFrame) => FrameLoc(f, root);
    for i := 0 to |frames|
      invariant traceFrames == all[..i]
    {
      traceFrames := traceFrames + [describe(frames[i])];
      assert all[..i + 1] == all[..i] + [all[i]];
    }
    assert all[..|frames|] == all;
    assert traceFrames == all;
    var origin := if traceFrames != [] then traceFrames[|traceFrames| - 1] else UnknownLoc;
    info := TraceInfo(origin, traceFrames);
  }

  /** `_get_full_traceback`: the same entries as `full_trace`, on their own. */
  method FullTraceback(frames: seq<TraceFrame>, root: Option<PurePath>) returns (result: seq<Loc>)
    ensures result == TraceLocs(frames, root)
    ensures |result| == |frames|
  {
    ghost var all := TraceLocs(frames, root);
    result := [];
    var describe := (f: TraceFrame) => FrameLoc(f, root);
    for i := 0 to |frames|
      invariant result == all[..i]
    {
      result := result + [describe(frames[i])];
      assert all[..i + 1] == all[..i] + [all[i]];
    }
    assert all[..|frames|] == all;
  }

  /** The source line that `linecache.getline` returns, or None where it raises. */
  type LineSource = (string, int) -> Option<string>

  /**
   * What `_get_exception_info` reports about a frame: the file relative to
   * the root or else its last `depth` components, the function, the line
   * and the stripped source line.
   */
  function FrameInfo(frame: TbEntry, root: Option<PurePath>, depth: int, getline: LineSource): Loc {
    var path := Parse(frame.filename);
    var code := match getline(PathStr(path), frame.lineno)
      case Some(l) => Some(Strip(l))
      case None => None;
    Loc(TailFile(path, root, depth), frame.name, frame.lineno, code)
  }

  /**
   * `_get_exception_info`: the unknown location without a traceback;
   * otherwise it walks `tb_next` to the last link and describes that frame.
   */
  method ExceptionInfo(tb: seq<TbEntry>, root: Option<PurePath>, depth: int, getline: LineSource)
    returns (loc: Loc)
    ensures tb == [] ==> loc == UnknownLoc
    ensures tb != [] ==> loc == FrameInfo(tb[|tb| - 1], root, depth, getline)
  {
    if tb == [] {
      return UnknownLoc;
    }
    var i := 0;
    while i + 1 < |tb|
      invariant 0 <= i < |tb|
    {
      i := i + 1;
    }
    assert tb[i] == tb[|tb| - 1];
    loc := FrameInfo(tb[i], root, depth, getline);
  }

  /**
   * With the default depth, a frame outside the root is named by its last two
   * components: the file and its directory.
   */
  lemma FrameInfoOutsideRoot(frame: TbEntry, root: Option<PurePath>, getline: LineSource)
    requires |Parse(frame.filename).names| >= 2
    requires root.None? || RelativeTo(Parse(frame.filename), root.value).None?
    ensures var p := Parse(frame.filename);
            Parse(FrameInfo(frame, root, 2, getline).file) == PurePath(false, p.names[|p.names| - 2..])
  {
    TailFileOutsideRoot(Parse(frame.filename), root, 2);
  }

  // -------------------------------------------------------------- handlers

  /**
   * `app_exception_handler`: message and class name always; in development
   * also the context when it is truthy and the location (never empty).
   * The response status is the exception's status code.
   */
  method AppExceptionHandler(exc: AppHttpException, appEnv: string) returns (status: int, detail: Dict)
    ensures status == exc.statusCode
    ensures Get(detail, "msg") == Some(Str(exc.message))
    ensures Get(detail, "type") == Some(Str(exc.className))
    ensures Get(detail, "context")
            == if appEnv == Development && Truthy(exc.context) then Some(exc.context) else None
    ensures Get(detail, "loc")
            == if appEnv == Development then Some(Object(LocJson(exc.loc))) else None
    ensures forall k :: k != "msg" && k != "type" && k != "context" && k != "loc" ==> Get(detail, k) == None
  {
    detail := [("msg", Str(exc.message)), ("type", Str(exc.className))];
    GetPair("msg", Str(exc.message), "type", Str(exc.className));
    if appEnv == Development {
      if Truthy(exc.context) {
        detail := Insert(detail, "context", exc.context);
      }
      if Truthy(Object(LocJson(exc.loc))) {
        detail := Insert(detail, "loc", Object(LocJson(exc.loc)));
      }
    }
    status := exc.statusCode;
  }

  const InternalErrorType: string := "InternalServerError"

  /**
   * The generic handler's report: `msg` and `type`, then in development
   * `context` and `loc` assigned behind them; no other key.
   */
  lemma GenericReportKeys(m: Json, t: Json, c: Json, l: Json, development: bool)
    ensures var base := [("msg", m), ("type", t)];
            var d := if development then Insert(Insert(base, "context", c), "loc", l) else base;
            && Get(d, "msg") == Some(m) && Get(d, "type") == Some(t)
            && Get(d, "context") == (if development then Some(c) else None)
            && Get(d, "loc") == (if development then Some(l) else None)
            && forall k :: k != "msg" && k != "type" && k != "context" && k != "loc" ==> Get(d, k) == None
  {
    GetPair("msg", m, "type", t);
  }

  /** The development-only context of the generic handler. */
  function ErrorContext(exc: PyException): (d: Dict)
    ensures Get(d, "type_error") == Some(Str(exc.className))
    ensures Get(d, "exception") == Some(Str(exc.text))
  {
    GetPair("type_error", Str(exc.className), "exception", Str(exc.text));
    [("type_error", Str(exc.className)), ("exception", Str(exc.text))]
  }

  /**
   * `generic_exception_handler`: always 500 with the fixed message and type;
   * in development also the exception's class and text, and where it came
   * from: the last frame of the traceback, or the unknown location.
   */
  method GenericExceptionHandler(exc: PyException, frames: seq<TraceFrame>, rootDir: string,
                                 appEnv: string)
    returns (status: int, detail: Dict)
    ensures status == 500
    ensures Get(detail, "msg") == Some(Str(DefaultMessage))
    ensures Get(detail, "type") == Some(Str(InternalErrorType))
    ensures Get(detail, "context")
            == if appEnv == Development then Some(Object(ErrorContext(exc))) else None
    ensures Get(detail, "loc")
            == if appEnv != Development then None
               else if frames == [] then Some(Object(LocJson(UnknownLoc)))
               else Some(Object(LocJson(TraceLocs(frames, Some(Parse(rootDir)))[|frames| - 1])))
    ensures forall k :: k != "msg" && k != "type" && k != "context" && k != "loc" ==> Get(detail, k) == None
  {
    detail := [("msg", Str(DefaultMessage)), ("type", Str(InternalErrorType))];
    var root := Some(Parse(rootDir));
    var traceInfo := FullTracebackInfo(frames, root);
    GenericReportKeys(Str(DefaultMessage), Str(InternalErrorType), Object(ErrorContext(exc)),
                      Object(LocJson(traceInfo.origin)), appEnv == Development);
    if appEnv == Development {
      detail := Insert(Insert(detail, "context", Object(ErrorContext(exc))), "loc", Object(LocJson(traceInfo.origin)));
    }
    status := 500;
  }
}
