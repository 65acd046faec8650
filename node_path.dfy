/**
 * The POSIX flavour of Node's `path.join` and `path.normalize`, which
 * socket-path.ts and server-bootstrap.ts use to place their socket and pid
 * files: the arguments are glued with `/`, then empty and `.` segments are
 * dropped, `..` removes the segment before it, and a leading or trailing
 * slash is kept.
 */
module NodePath {
  import opened Strings

  /** How `normalizeString` treats one segment, given the segments kept so far. */
  function Step(kept: seq<string>, seg: string, allowAboveRoot: bool): seq<string> {
    if seg == "" || seg == "." then kept
    else if seg == ".." then
      if |kept| > 0 && kept[|kept| - 1] != ".." then kept[..|kept| - 1]
      else if allowAboveRoot then kept + [".."]
      else kept
    else kept + [seg]
  }

  /** `normalizeString`: the segments left once every segment is processed in order. */
  function Resolve(segs: seq<string>, allowAboveRoot: bool): seq<string> {
    if segs == [] then [] else Step(Resolve(segs[..|segs| - 1], allowAboveRoot), segs[|segs| - 1], allowAboveRoot)
  }

  /**
   * A resolved segment list: no empty or `.` segment, no slash inside a
   * segment, and `..` only in a leading run, and only above a relative root.
   */
  predicate Clean(segs: seq<string>, allowAboveRoot: bool) {
    && (forall k :: 0 <= k < |segs| ==> segs[k] != "" && segs[k] != "." && '/' !in segs[k])
    && (forall i, j :: 0 <= i < j < |segs| && segs[j] == ".." ==> segs[i] == "..")
    && (!allowAboveRoot ==> forall k :: 0 <= k < |segs| ==> segs[k] != "..")
  }

  /** Resolving segments without slashes always gives a clean list. */
  lemma {:induction false} ResolveClean(segs: seq<string>, allowAboveRoot: bool)
    requires forall k :: 0 <= k < |segs| ==> '/' !in segs[k]
    ensures Clean(Resolve(segs, allowAboveRoot), allowAboveRoot)
  {
    if segs != [] {
      var init := segs[..|segs| - 1];
      ResolveClean(init, allowAboveRoot);
      var kept := Resolve(init, allowAboveRoot);
      var r := Resolve(segs, allowAboveRoot);
      var seg := segs[|segs| - 1];
      if seg == ".." && |kept| > 0 && kept[|kept| - 1] != ".." {
        assert r == kept[..|kept| - 1];
      } else if seg == ".." && allowAboveRoot {
        assert r == kept + [".."];
        forall i, j | 0 <= i < j < |r| && r[j] == ".." ensures r[i] == ".." {
          if j == |kept| {
            assert kept[|kept| - 1] == "..";
            if i < |kept| - 1 {
              assert kept[i] == "..";
            }
          }
        }
      } else if seg != "" && seg != "." && seg != ".." {
        assert r == kept + [seg];
      }
    }
  }

  /** A clean list resolves to itself. */
  lemma {:induction false} ResolveCleanFixed(segs: seq<string>, allowAboveRoot: bool)
    requires Clean(segs, allowAboveRoot)
    ensures Resolve(segs, allowAboveRoot) == segs
  {
    if segs != [] {
      var init := segs[..|segs| - 1];
      var last := segs[|segs| - 1];
      assert Clean(init, allowAboveRoot);
      ResolveCleanFixed(init, allowAboveRoot);
      if last == ".." {
        if |init| > 0 {
          assert init[|init| - 1] == segs[|init| - 1];
        }
      }
      assert init + [last] == segs;
    }
  }

  /** Resolving is idempotent. */
  lemma ResolveIdempotent(segs: seq<string>, allowAboveRoot: bool)
    requires forall k :: 0 <= k < |segs| ==> '/' !in segs[k]
    ensures Resolve(Resolve(segs, allowAboveRoot), allowAboveRoot) == Resolve(segs, allowAboveRoot)
  {
    ResolveClean(segs, allowAboveRoot);
    ResolveCleanFixed(Resolve(segs, allowAboveRoot), allowAboveRoot);
  }

  /** `path.normalize(p)`. */
  function Normalize(p: string): string {
    if p == "" then "."
    else
      var isAbsolute := p[0] == '/';
      var trailing := p[|p| - 1] == '/';
      var segs := Resolve(SplitOn(p, '/'), !isAbsolute);
      if segs == [] then (if isAbsolute then "/" else if trailing then "./" else ".")
      else (if isAbsolute then "/" else "") + JoinWith(segs, '/') + (if trailing then "/" else "")
  }

  /** `path.join(a, b)`: the non-empty arguments glued with `/`, then normalised. */
  function Join(a: string, b: string): string {
    var joined := if a == "" then b else if b == "" then a else a + "/" + b;
    if joined == "" then "." else Normalize(joined)
  }

  /** A file name with no directory part: joining it adds exactly one segment. */
  predicate PlainName(name: string) {
    name != "" && name != "." && name != ".." && '/' !in name
  }

  /** What `Join(dir, name)` puts in front of a plain name: the normalised directory and a slash. */
  function DirPrefix(dir: string): string
    requires dir != ""
  {
    var segs := Resolve(SplitOn(dir, '/'), dir[0] != '/');
    (if dir[0] == '/' then "/" else "") + (if segs == [] then "" else JoinWith(segs, '/') + "/")
  }

  lemma {:induction false} JoinWithSnoc(segs: seq<string>, x: string, c: char)
    requires |segs| >= 1
    ensures JoinWith(segs + [x], c) == JoinWith(segs, c) + [c] + x
  {
    if |segs| > 1 {
      assert (segs + [x])[1..] == segs[1..] + [x];
      JoinWithSnoc(segs[1..], x, c);
    }
  }

  lemma SplitPlain(name: string, c: char)
    requires c !in name
    ensures SplitOn(name, c) == [name]
  {
    JoinSplit(name, c);
  }

  /**
   * Joining a directory with a plain name gives the directory's prefix
   * followed by the name, whatever the directory looks like.
   */
  lemma JoinPlainName(dir: string, name: string)
    requires dir != "" && PlainName(name)
    ensures Join(dir, name) == DirPrefix(dir) + name
  {
    var joined := dir + "/" + name;
    assert joined[0] == dir[0];
    assert joined[|joined| - 1] == name[|name| - 1];
    var allow := dir[0] != '/';
    var pieces := SplitOn(dir, '/');
    JoinedSplit(dir, name);
    ResolveSnoc(pieces, name, allow);
    var segs := Resolve(pieces, allow);
    if segs != [] {
      JoinWithSnoc(segs, name, '/');
      assert Join(dir, name) == (if dir[0] == '/' then "/" else "") + (JoinWith(segs, '/') + "/" + name);
    } else {
      assert JoinWith(segs + [name], '/') == name;
      assert Join(dir, name) == (if dir[0] == '/' then "/" else "") + name;
    }
  }

  lemma JoinedSplit(dir: string, name: string)
    requires PlainName(name)
    ensures SplitOn(dir + "/" + name, '/') == SplitOn(dir, '/') + [name]
  {
    SplitConcat(dir, '/', name);
    SplitPlain(name, '/');
  }

  lemma ResolveSnoc(pieces: seq<string>, name: string, allow: bool)
    requires PlainName(name)
    ensures Resolve(pieces + [name], allow) == Resolve(pieces, allow) + [name]
  {
    assert (pieces + [name])[..|pieces|] == pieces;
  }

  /** A trailing slash on a directory changes nothing in front of the joined name. */
  lemma DirPrefixTrailingSlash(d: string)
    requires d != ""
    ensures DirPrefix(d + "/") == DirPrefix(d)
  {
    var e := d + "/";
    assert e[0] == d[0];
    assert e == d + ['/'] + "";
    SplitConcat(d, '/', "");
    var pieces := SplitOn(d, '/');
    assert (pieces + [""])[..|pieces|] == pieces;
  }
}
