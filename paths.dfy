/**
 * The part of Python's `pathlib.PurePosixPath` that the error reporting uses to
 * shorten file names: parsing, `parts`, `name`, `str()` and `relative_to`.
 */
module Paths {
  import opened Wrappers
  import opened Text

  /** A POSIX path as pathlib holds it: anchored at `/` or not, then its names. */
  datatype PurePath = PurePath(absolute: bool, names: seq<string>)

  /** pathlib drops empty and `.` components when it parses a path. */
  predicate IsName(n: string) {
    n != "" && n != "." && '/' !in n
  }

  predicate ValidPath(p: PurePath) {
    forall i :: 0 <= i < |p.names| ==> IsName(p.names[i])
  }

  /** The components of a split that pathlib keeps. */
  function KeepNames(pieces: seq<string>): (names: seq<string>)
    requires forall i :: 0 <= i < |pieces| ==> '/' !in pieces[i]
    ensures forall i :: 0 <= i < |names| ==> IsName(names[i])
  {
    if pieces == [] then []
    else if pieces[0] == "" || pieces[0] == "." then
      KeepNames(pieces[1..])
    else [pieces[0]] + KeepNames(pieces[1..])
  }

  /** Pieces that are all names are all kept. */
  lemma {:induction false} KeepAllNames(pieces: seq<string>)
    requires forall i :: 0 <= i < |pieces| ==> pieces[i] != "" && pieces[i] != "." && '/' !in pieces[i]
    ensures KeepNames(pieces) == pieces
  {
    if pieces != [] {
      KeepAllNames(pieces[1..]);
    }
  }

  /** `PurePosixPath(s)`. */
  function Parse(s: string): (p: PurePath)
    ensures ValidPath(p)
  {
    PurePath(|s| > 0 && s[0] == '/', KeepNames(Split(s, '/')))
  }

  /** `path.parts`: the anchor `/` (when there is one) followed by the names. */
  function Parts(p: PurePath): seq<string> {
    (if p.absolute then ["/"] else []) + p.names
  }

  /** `str(path)`. */
  function PathStr(p: PurePath): string {
    if p.absolute then "/" + Join(p.names, "/")
    else if p.names == [] then "."
    else Join(p.names, "/")
  }

  /** `path.name`: the last name, or the empty string for `/` and `.`. */
  function Name(p: PurePath): string {
    if p.names == [] then "" else p.names[|p.names| - 1]
  }

  /** Rendering a path and parsing it again gives the same path. */
  lemma ParsePathStr(p: PurePath)
    requires ValidPath(p)
    ensures Parse(PathStr(p)) == p
  {
    var s := PathStr(p);
    if p.names == [] {
      if p.absolute {
        assert s == "/";
        assert Split(s, '/') == ["", ""];
      } else {
        assert s == ".";
        SplitNoSeparator(s, '/');
      }
    } else {
      NamesJoin(p.names);
      if p.absolute {
        var j := Join(p.names, "/");
        assert s == [] + ['/'] + j;
        SplitAtSeparator([], '/', j);
        assert Split(s, '/') == [""] + p.names;
        assert ([""] + p.names)[1..] == p.names;
        assert KeepNames([""] + p.names) == KeepNames(p.names);
      } else {
        assert s[0] == p.names[0][0];
      }
    }
  }

  /** The names of a valid path, joined by `/`, split back into themselves and are all kept. */
  lemma NamesJoin(names: seq<string>)
    requires |names| >= 1
    requires forall i :: 0 <= i < |names| ==> IsName(names[i])
    ensures Split(Join(names, "/"), '/') == names && KeepNames(names) == names
  {
    forall q | q in names ensures '/' !in q {
    }
    SplitJoin(names, '/');
    KeepAllNames(names);
  }

  /**
   * `path.relative_to(root)`, None where pathlib raises ValueError: the root
   * must have the same anchor and its names must start the path's names.
   */
  function RelativeTo(p: PurePath, root: PurePath): (r: Option<PurePath>)
    ensures r.Some? <==> p.absolute == root.absolute && root.names <= p.names
    ensures r.Some? ==> !r.value.absolute && root.names + r.value.names == p.names
  {
    if p.absolute == root.absolute && root.names <= p.names
    then Some(PurePath(false, p.names[|root.names|..]))
    else None
  }

  /** Python's `xs[start:]`, negative starts counting from the end. */
  function SliceFrom<T>(xs: seq<T>, start: int): (r: seq<T>)
    ensures |r| <= |xs| && r == xs[|xs| - |r|..]
  {
    if start < 0 then (if |xs| + start < 0 then xs else xs[|xs| + start..])
    else if start > |xs| then []
    else xs[start..]
  }

  /**
   * `str(path.relative_to(root)).replace("\\", "/")` when the path is under the
   * root, None otherwise (or when there is no root, `if project_root:`).
   */
  function RelativeFile(p: PurePath, root: Option<PurePath>): (f: Option<string>)
    ensures f.Some? <==> root.Some? && RelativeTo(p, root.value).Some?
    ensures f.Some? ==> '\\' !in f.value
  {
    if root.None? then None
    else match RelativeTo(p, root.value)
      case None => None
      case Some(rel) => Some(Replace(PathStr(rel), '\\', '/'))
  }

  /**
   * File name of a traceback frame: relative to the project root when the
   * path is inside it, otherwise the bare file name.
   */
  function TraceFile(p: PurePath, root: Option<PurePath>): string {
    match RelativeFile(p, root)
    case Some(f) => f
    case None => Name(p)
  }

  /**
   * File name of the caller of an exception: relative to the project root when
   * the path is inside it, otherwise `"/".join(path.parts[-depth:])`.
   */
  function TailFile(p: PurePath, root: Option<PurePath>, depth: int): string {
    match RelativeFile(p, root)
    case Some(f) => f
    case None => Join(SliceFrom(Parts(p), -depth), "/")
  }

  /**
   * Inside the root, the file name is the path relative to the root: read
   * back as a path and put under the root, it is the original path.
   */
  lemma TraceFileUnderRoot(p: PurePath, root: PurePath)
    requires ValidPath(p)
    requires forall i :: 0 <= i < |p.names| ==> '\\' !in p.names[i]
    requires RelativeTo(p, root).Some?
    ensures TraceFile(p, Some(root)) == TailFile(p, Some(root), 2)
    ensures var f := Parse(TraceFile(p, Some(root)));
            !f.absolute && root.names + f.names == p.names
  {
    var rel := RelativeTo(p, root).value;
    assert forall i :: 0 <= i < |rel.names| ==> rel.names[i] == p.names[|root.names| + i];
    NoBackslashInPathStr(rel);
    ParsePathStr(rel);
  }

  lemma {:induction false} NoBackslashInJoin(names: seq<string>)
    requires forall i :: 0 <= i < |names| ==> '\\' !in names[i]
    ensures '\\' !in Join(names, "/")
  {
    if |names| > 1 {
      NoBackslashInJoin(names[1..]);
    }
  }

  lemma NoBackslashInPathStr(p: PurePath)
    requires forall i :: 0 <= i < |p.names| ==> '\\' !in p.names[i]
    ensures Replace(PathStr(p), '\\', '/') == PathStr(p)
  {
    NoBackslashInJoin(p.names);
  }

  /** Outside the root, a traceback frame is named by its base name alone. */
  lemma TraceFileOutsideRoot(p: PurePath, root: Option<PurePath>)
    requires ValidPath(p)
    requires root.None? || RelativeTo(p, root.value).None?
    ensures TraceFile(p, root) == Name(p) && '/' !in TraceFile(p, root)
  {
  }

  /**
   * Outside the root, the caller's file is its last `depth` components joined
   * by `/`: for a path with at least `depth` names, exactly those names.
   */
  lemma {:induction false} TailFileOutsideRoot(p: PurePath, root: Option<PurePath>, depth: nat)
    requires ValidPath(p)
    requires root.None? || RelativeTo(p, root.value).None?
    requires 1 <= depth <= |p.names|
    ensures var f := TailFile(p, root, depth);
            f == Join(p.names[|p.names| - depth..], "/")
            && Parse(f) == PurePath(false, p.names[|p.names| - depth..])
  {
    var parts := Parts(p);
    var tail := p.names[|p.names| - depth..];
    assert SliceFrom(parts, -(depth as int)) == tail;
    ParsePathStr(PurePath(false, tail));
  }

  /**
   * A file directly under `/` and outside the root comes out with a doubled
   * slash: the anchor `/` is one of the last two parts, and joining adds another.
   */
  lemma TailFileOfTopLevelFile(name: string, root: Option<PurePath>)
    requires IsName(name)
    requires root.None? || RelativeTo(PurePath(true, [name]), root.value).None?
    ensures TailFile(PurePath(true, [name]), root, 2) == "//" + name
  {
    var p := PurePath(true, [name]);
    assert SliceFrom(Parts(p), -2) == ["/", name];
    assert Join(["/", name], "/") == "/" + "/" + Join([name], "/");
  }
}
