/**
 * Where the macOS intermediary server puts its socket and pid files
 * (src/macos/socket-path.ts): a base directory chosen from an explicit
 * argument and the environment, stripped of trailing slashes, and a file
 * name carrying the user id.
 */
module SocketPath {
  import opened Common
  import opened Strings
  import opened NodePath

  /** The parts of the process environment the resolver reads. */
  datatype Env = Env(
    ewWorkDir: Option<string>,
    tmpDir: Option<string>,
    sudoUid: Option<string>,
    /** `process.getuid()`, or `None` where the platform has no `getuid`. */
    uid: Option<nat>)

  const DefaultBaseDir := "/tmp"

  /** Where an `a || b || ...` chain stops: the first truthy candidate, if any. */
  function FirstTruthy(candidates: seq<Option<string>>): (r: Option<nat>)
    ensures r.Some? ==> r.value < |candidates| && Truthy(candidates[r.value])
    ensures r.Some? ==> forall j :: 0 <= j < r.value ==> !Truthy(candidates[j])
    ensures r.None? ==> forall j :: 0 <= j < |candidates| ==> !Truthy(candidates[j])
  {
    if candidates == [] then None
    else if Truthy(candidates[0]) then Some(0)
    else
      match FirstTruthy(candidates[1..])
      case None => None
      case Some(k) => Some(k + 1)
  }

  /** `baseDir || EWWORKDIR || TMPDIR || '/tmp'`. */
  function EnvBase(baseDir: Option<string>, env: Env): string {
    var candidates := [baseDir, env.ewWorkDir, env.tmpDir];
    match FirstTruthy(candidates)
    case None => DefaultBaseDir
    case Some(k) => candidates[k].value
  }

  /** `s.replace(/\/+$/, '')`: the longest prefix that does not end in a slash. */
  function StripTrailingSlashes(s: string): (r: string)
    ensures |r| <= |s| && r == s[..|r|]
    ensures r == [] || r[|r| - 1] != '/'
    ensures forall i :: |r| <= i < |s| ==> s[i] == '/'
  {
    if s != [] && s[|s| - 1] == '/' then StripTrailingSlashes(s[..|s| - 1]) else s
  }

  /** `getSocketDir`. */
  function GetSocketDir(baseDir: Option<string>, env: Env): string {
    var stripped := StripTrailingSlashes(EnvBase(baseDir, env));
    if stripped == "" then DefaultBaseDir else stripped
  }

  /** `getUidSuffix`: `SUDO_UID || String(getuid()) || 'nouid'`. */
  function GetUidSuffix(env: Env): (r: string)
    ensures r != ""
  {
    if Truthy(env.sudoUid) then env.sudoUid.value
    else if env.uid.Some? then NatToString(env.uid.value)
    else "nouid"
  }

  function SocketFileName(uid: string): string { "ewmd-" + uid + ".sock" }

  function PidFileName(uid: string): string { "ewmd-" + uid + ".pid" }

  /** `getSocketPath`. */
  function GetSocketPath(baseDir: Option<string>, env: Env): string {
    Join(GetSocketDir(baseDir, env), SocketFileName(GetUidSuffix(env)))
  }

  /** `getPidPath`. */
  function GetPidPath(baseDir: Option<string>, env: Env): string {
    Join(GetSocketDir(baseDir, env), PidFileName(GetUidSuffix(env)))
  }

  // ---------------------------------------------------------------- properties

  /**
   * The base is the first non-empty one of the argument, `EWWORKDIR` and
   * `TMPDIR`, and `/tmp` when all three are missing or empty.
   */
  lemma EnvBasePriority(baseDir: Option<string>, env: Env)
    ensures Truthy(baseDir) ==> EnvBase(baseDir, env) == baseDir.value
    ensures !Truthy(baseDir) && Truthy(env.ewWorkDir) ==> EnvBase(baseDir, env) == env.ewWorkDir.value
    ensures !Truthy(baseDir) && !Truthy(env.ewWorkDir) && Truthy(env.tmpDir) ==> EnvBase(baseDir, env) == env.tmpDir.value
    ensures !Truthy(baseDir) && !Truthy(env.ewWorkDir) && !Truthy(env.tmpDir) ==> EnvBase(baseDir, env) == DefaultBaseDir
  {
    var candidates := [baseDir, env.ewWorkDir, env.tmpDir];
    assert candidates[0] == baseDir && candidates[1] == env.ewWorkDir && candidates[2] == env.tmpDir;
  }

  /**
   * The uid suffix is a non-empty `SUDO_UID`, else the real uid in decimal
   * (which reads back as that uid), else `nouid`; only `SUDO_UID` can bring
   * a slash into the file name.
   */
  lemma UidSuffixPriority(env: Env)
    ensures Truthy(env.sudoUid) ==> GetUidSuffix(env) == env.sudoUid.value
    ensures !Truthy(env.sudoUid) && env.uid.Some? ==>
      AllDigits(GetUidSuffix(env)) && ParseDigits(GetUidSuffix(env)) == env.uid.value
    ensures !Truthy(env.sudoUid) && env.uid.None? ==> GetUidSuffix(env) == "nouid"
    ensures !Truthy(env.sudoUid) ==> '/' !in GetUidSuffix(env)
  {
    if !Truthy(env.sudoUid) {
      var s := GetUidSuffix(env);
      if env.uid.Some? {
        ParseNatToString(env.uid.value);
        assert forall i :: 0 <= i < |s| ==> s[i] != '/';
      } else {
        assert s == "nouid";
        assert forall i :: 0 <= i < |s| ==> s[i] != '/';
      }
    }
  }

  /**
   * The directory never ends in a slash and is never empty: it is the base
   * without its trailing slashes, or `/tmp` when the base is only slashes.
   */
  lemma SocketDirShape(baseDir: Option<string>, env: Env)
    ensures var dir := GetSocketDir(baseDir, env);
      dir != "" && dir[|dir| - 1] != '/'
    ensures var base, dir := EnvBase(baseDir, env), GetSocketDir(baseDir, env);
      (forall i :: 0 <= i < |base| ==> base[i] == '/') ==> dir == DefaultBaseDir
    ensures var base, dir := EnvBase(baseDir, env), GetSocketDir(baseDir, env);
      (exists i :: 0 <= i < |base| && base[i] != '/') ==>
        StartsWith(base, dir) && forall i :: |dir| <= i < |base| ==> base[i] == '/'
  {
    var base := EnvBase(baseDir, env);
    var stripped := StripTrailingSlashes(base);
    if exists i :: 0 <= i < |base| && base[i] != '/' {
      var i :| 0 <= i < |base| && base[i] != '/';
      assert i < |stripped|;
      assert GetSocketDir(baseDir, env) == stripped;
    }
  }

  /** Both files of a directory: its joined prefix, then `ewmd-<uid>` and the extension. */
  lemma FilesInDir(dir: string, uid: string)
    requires dir != "" && '/' !in uid
    ensures Join(dir, SocketFileName(uid)) == DirPrefix(dir) + "ewmd-" + uid + ".sock"
    ensures Join(dir, PidFileName(uid)) == DirPrefix(dir) + "ewmd-" + uid + ".pid"
  {
    FileNamesPlain(uid);
    JoinPlainName(dir, SocketFileName(uid));
    JoinPlainName(dir, PidFileName(uid));
  }

  /** The socket and the pid file sit side by side: same directory, same uid, different extension. */
  lemma SocketAndPidSideBySide(baseDir: Option<string>, env: Env)
    requires '/' !in GetUidSuffix(env)
    ensures var prefix, uid := DirPrefix(GetSocketDir(baseDir, env)), GetUidSuffix(env);
      && GetSocketPath(baseDir, env) == prefix + "ewmd-" + uid + ".sock"
      && GetPidPath(baseDir, env) == prefix + "ewmd-" + uid + ".pid"
  {
    SocketDirShape(baseDir, env);
    FilesInDir(GetSocketDir(baseDir, env), GetUidSuffix(env));
  }

  lemma FileNamesPlain(uid: string)
    requires '/' !in uid
    ensures PlainName(SocketFileName(uid)) && PlainName(PidFileName(uid))
  {
    var s, p := SocketFileName(uid), PidFileName(uid);
    assert s[0] == 'e' && p[0] == 'e';
    assert s[|s| - 1] == 'k' && p[|p| - 1] == 'd';
    assert |s| >= 10 && |p| >= 9;
  }

  /** Two users resolving against the same directory never share a socket. */
  lemma DistinctUidsDistinctSockets(baseDir: Option<string>, env1: Env, env2: Env)
    requires GetSocketDir(baseDir, env1) == GetSocketDir(baseDir, env2)
    requires '/' !in GetUidSuffix(env1) && '/' !in GetUidSuffix(env2)
    requires GetUidSuffix(env1) != GetUidSuffix(env2)
    ensures GetSocketPath(baseDir, env1) != GetSocketPath(baseDir, env2)
  {
    SocketAndPidSideBySide(baseDir, env1);
    SocketAndPidSideBySide(baseDir, env2);
    var prefix := DirPrefix(GetSocketDir(baseDir, env1));
    var u1, u2 := GetUidSuffix(env1), GetUidSuffix(env2);
    var p1, p2 := prefix + "ewmd-" + u1 + ".sock", prefix + "ewmd-" + u2 + ".sock";
    if |u1| == |u2| {
      assert u1 == p1[|prefix| + 5..|prefix| + 5 + |u1|];
      assert u2 == p2[|prefix| + 5..|prefix| + 5 + |u2|];
    }
  }

  /** A one-level absolute directory `/x` joins as `/x/`. */
  lemma DirPrefixTopLevel(x: string)
    requires PlainName(x)
    ensures DirPrefix("/" + x) == "/" + x + "/"
  {
    var d := "/" + x;
    assert d == [] + ['/'] + x;
    SplitConcat([], '/', x);
    SplitPlain(x, '/');
    assert SplitOn(d, '/') == [""] + [x];
    assert SplitOn(d, '/')[..1] == [""];
    assert Resolve([""], false) == [];
    assert Resolve(SplitOn(d, '/'), false) == [x];
  }

  /** A directory one level deeper joins as its parent's prefix, the name and a slash. */
  lemma DirPrefixDeeper(d: string, x: string)
    requires d != "" && PlainName(x)
    ensures DirPrefix(d + "/" + x) == DirPrefix(d) + x + "/"
  {
    var e := d + "/" + x;
    assert e[0] == d[0];
    JoinedSplit(d, x);
    var allow := d[0] != '/';
    ResolveSnoc(SplitOn(d, '/'), x, allow);
    var segs := Resolve(SplitOn(d, '/'), allow);
    if segs != [] {
      JoinWithSnoc(segs, x, '/');
    } else {
      assert JoinWith(segs + [x], '/') == x;
    }
  }

  /**
   * With `/tmp` passed explicitly the socket is `/tmp/ewmd-<uid>.sock`, and
   * it stays under the 104-byte limit of socket addresses as long as the
   * uid has fewer than 89 characters.
   */
  lemma DefaultTmpSocket(env: Env)
    requires '/' !in GetUidSuffix(env)
    ensures var p, uid := GetSocketPath(Some("/tmp"), env), GetUidSuffix(env);
      && StartsWith(p, "/tmp/")
      && p == "/tmp/ewmd-" + uid + ".sock"
      && EndsWith(p, ".sock")
      && |p| == 15 + |uid|
      && (|uid| < 89 ==> |p| < 104)
  {
    TmpDir(Some("/tmp"), env);
    var uid := GetUidSuffix(env);
    FilesInDir("/tmp", uid);
    TmpSocketShape(uid);
  }

  lemma TmpSocketShape(uid: string)
    ensures var p := "/tmp/" + "ewmd-" + uid + ".sock";
      && StartsWith(p, "/tmp/")
      && p == "/tmp/ewmd-" + uid + ".sock"
      && EndsWith(p, ".sock")
      && |p| == 15 + |uid|
  {
    var p := "/tmp/" + "ewmd-" + uid + ".sock";
    assert p[..5] == "/tmp/";
    assert p[|p| - 5..] == ".sock";
  }

  lemma TmpDir(baseDir: Option<string>, env: Env)
    requires baseDir == Some("/tmp")
    ensures GetSocketDir(baseDir, env) == "/tmp"
    ensures DirPrefix("/tmp") == "/tmp/"
  {
    EnvBasePriority(baseDir, env);
    assert StripTrailingSlashes("/tmp") == "/tmp";
    var d := "/" + "tmp";
    assert d == "/tmp";
    DirPrefixTopLevel("tmp");
    assert DirPrefix(d) == "/" + "tmp" + "/";
  }

  lemma VarTmpDir(env: Env)
    requires env.ewWorkDir == Some("/var/tmp")
    ensures GetSocketDir(None, env) == "/var/tmp"
    ensures DirPrefix("/var/tmp") == "/var/tmp/"
  {
    EnvBasePriority(None, env);
    assert StripTrailingSlashes("/var/tmp") == "/var/tmp";
    var d := "/" + "var";
    var e := d + "/" + "tmp";
    assert e == "/var/tmp";
    DirPrefixTopLevel("var");
    assert DirPrefix(d) == "/var/";
    DirPrefixDeeper(d, "tmp");
    assert DirPrefix(e) == "/var/" + "tmp" + "/";
  }

  /** With no argument, a set `EWWORKDIR` of `/var/tmp` puts the socket under `/var/tmp/`. */
  lemma WorkDirOverride(env: Env)
    requires env.ewWorkDir == Some("/var/tmp")
    requires '/' !in GetUidSuffix(env)
    ensures StartsWith(GetSocketPath(None, env), "/var/tmp/")
  {
    VarTmpDir(env);
    var uid := GetUidSuffix(env);
    FilesInDir("/var/tmp", uid);
    VarTmpSocketShape(uid);
  }

  lemma VarTmpSocketShape(uid: string)
    ensures StartsWith("/var/tmp/" + "ewmd-" + uid + ".sock", "/var/tmp/")
  {
    var p := "/var/tmp/" + "ewmd-" + uid + ".sock";
    assert p[..9] == "/var/tmp/";
  }
}
