/** The two helpers the forest code takes from the WSGI publisher library. Their source is
    not part of this model: split_path_info is rebuilt from the behaviour its callers rely on,
    and traversal is reduced to the set of physical paths that resolve. */
module Wsgi {
  import opened Base
  import opened Strings

  /** The physical paths (below the application root) that traverse can reach. */
  type Tree = set<seq<string>>

  /** A name split_path_info can return: never empty, never '.' or '..', never holding '/'. */
  predicate IsSegment(s: string)
  {
    s != "" && s != "." && s != ".." && '/' !in s
  }

  predicate AllSegments(segs: seq<string>)
  {
    forall k | 0 <= k < |segs| :: IsSegment(segs[k])
  }

  /** The stack walk of split_path_info over the pieces of path.split('/'). */
  function CleanPieces(stack: seq<string>, pieces: seq<string>, path: string): (r: Result<seq<string>>)
    requires AllSegments(stack)
    requires forall k | 0 <= k < |pieces| :: '/' !in pieces[k]
    ensures r.Ok? ==> AllSegments(r.value)
    decreases |pieces|
  {
    if pieces == [] then Ok(stack)
    else if pieces[0] == "" || pieces[0] == "." then CleanPieces(stack, pieces[1..], path)
    else if pieces[0] == ".." then
      if stack == [] then Err(PathEscapesRoot(path))
      else CleanPieces(stack[..|stack| - 1], pieces[1..], path)
    else CleanPieces(stack + [pieces[0]], pieces[1..], path)
  }

  /** split_path_info: the names of a path with '.', '..' and empty pieces resolved. */
  function SplitPathInfo(path: string): (r: Result<seq<string>>)
    ensures r.Ok? ==> AllSegments(r.value)
  {
    CleanPieces([], Split(path, '/'), path)
  }

  /** The absolute path string of some names: "/a/b" for ["a", "b"], "" for none. */
  function PathString(segs: seq<string>): string
  {
    if segs == [] then "" else "/" + segs[0] + PathString(segs[1..])
  }

  lemma {:induction false} PathStringJoin(segs: seq<string>)
    requires segs != []
    ensures PathString(segs) == "/" + Join(segs, '/')
  {
    if |segs| > 1 {
      PathStringJoin(segs[1..]);
    }
  }

  lemma {:induction false} CleanPiecesOfSegments(stack: seq<string>, segs: seq<string>, path: string)
    requires AllSegments(stack) && AllSegments(segs)
    ensures CleanPieces(stack, segs, path) == Ok(stack + segs)
    decreases |segs|
  {
    if segs != [] {
      CleanPiecesOfSegments(stack + [segs[0]], segs[1..], path);
      assert stack + [segs[0]] + segs[1..] == stack + segs;
    } else {
      assert stack + segs == stack;
    }
  }

  /** split_path_info gives back the names of any path string built from names. */
  lemma SplitPathInfoRoundTrip(segs: seq<string>)
    requires AllSegments(segs)
    ensures SplitPathInfo(PathString(segs)) == Ok(segs)
  {
    if segs != [] {
      PathStringJoin(segs);
      SplitJoin(segs, '/');
      SplitCons("", Join(segs, '/'), '/');
      assert "/" + Join(segs, '/') == "" + ['/'] + Join(segs, '/');
      var pieces := Split(PathString(segs), '/');
      assert pieces == [""] + segs;
      assert pieces[1..] == segs;
      CleanPiecesOfSegments([], segs, PathString(segs));
      assert [] + segs == segs;
      assert CleanPieces([], pieces, PathString(segs)) == CleanPieces([], segs, PathString(segs));
    }
  }

  /** Resolving the result of split_path_info again changes nothing. */
  lemma SplitPathInfoIdempotent(path: string)
    requires SplitPathInfo(path).Ok?
    ensures SplitPathInfo(PathString(SplitPathInfo(path).value)) == SplitPathInfo(path)
  {
    SplitPathInfoRoundTrip(SplitPathInfo(path).value);
  }

  /** A path whose first name is '..' climbs above the root and is refused. */
  lemma SplitPathInfoEscapes(rest: string)
    requires rest == "" || rest[0] == '/'
    ensures SplitPathInfo("/.." + rest) == Err(PathEscapesRoot("/.." + rest))
  {
    var path := "/.." + rest;
    assert path == "" + ['/'] + (".." + rest);
    SplitCons("", ".." + rest, '/');
    var tail: seq<string>;
    if rest == "" {
      SplitNoSep("..", '/');
      tail := [];
    } else {
      assert ".." + rest == ".." + ['/'] + rest[1..];
      SplitCons("..", rest[1..], '/');
      tail := Split(rest[1..], '/');
    }
    var pieces := Split(path, '/');
    assert pieces == ["", ".."] + tail;
    assert pieces[1..] == [".."] + tail;
    assert CleanPieces([], pieces[1..], path) == Err(PathEscapesRoot(path));
    assert CleanPieces([], pieces, path) == CleanPieces([], pieces[1..], path);
  }

  /** The walk over the pieces of /./a//b/..: the empty piece and '.' are skipped, a is
      pushed, the empty piece is skipped, b is pushed and '..' pops it. */
  lemma CleanResolves(a: string, b: string, path: string)
    requires IsSegment(a) && IsSegment(b)
    ensures CleanPieces([], ["", ".", a, "", b, ".."], path) == Ok([a])
  {
    var p := ["", ".", a, "", b, ".."];
    assert p[1..] == [".", a, "", b, ".."];
    assert CleanPieces([], p, path) == CleanPieces([], [".", a, "", b, ".."], path);
    assert [".", a, "", b, ".."][1..] == [a, "", b, ".."];
    assert CleanPieces([], [".", a, "", b, ".."], path) == CleanPieces([], [a, "", b, ".."], path);
    assert [a, "", b, ".."][1..] == ["", b, ".."] && [] + [a] == [a];
    assert CleanPieces([], [a, "", b, ".."], path) == CleanPieces([a], ["", b, ".."], path);
    assert ["", b, ".."][1..] == [b, ".."];
    assert CleanPieces([a], ["", b, ".."], path) == CleanPieces([a], [b, ".."], path);
    assert [b, ".."][1..] == [".."] && [a] + [b] == [a, b];
    assert CleanPieces([a], [b, ".."], path) == CleanPieces([a, b], [".."], path);
    assert [a, b][..1] == [a] && [".."][1..] == [];
  }

  /** '.', empty names and a '..' that climbs back are resolved away: the path /./a//b/..
      names a alone. */
  lemma SplitPathInfoResolves(a: string, b: string)
    requires IsSegment(a) && IsSegment(b)
    ensures SplitPathInfo(Join(["", ".", a, "", b, ".."], '/')) == Ok([a])
  {
    SplitJoin(["", ".", a, "", b, ".."], '/');
    CleanResolves(a, b, Join(["", ".", a, "", b, ".."], '/'));
  }
}
