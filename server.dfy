/**
 * The macOS intermediary server (src/macos/server.ts): at start-up it
 * replaces a running instance's pid file with its own, listens on a socket,
 * and for every call envelope it receives it rebuilds the callback
 * arguments, runs the method on the service the envelope names, and answers
 * with one `return` envelope. The host's files, the signals sent and the
 * envelopes written are the server's observable state. The service objects
 * are a parameter: for a method name and its arguments, what the method did.
 */
module BridgeServer {
  import opened Common
  import opened Strings
  import opened NodePath
  import opened Envelopes

  const SocketFile := "ewmd-intermediary.sock"
  const PidFile := "ewmd-intermediary.pid"

  /** The two services behind one connection. */
  datatype Target = NetworkWMTarget | HiMDTarget

  /** `service === 'nwjs' ? nwDevice : himdDevice`: anything else, absent included, goes to HiMD. */
  function Route(service: Option<string>): (t: Target)
    ensures t == NetworkWMTarget <==> service == Some("nwjs")
    ensures t == HiMDTarget <==> service != Some("nwjs")
  {
    if service == Some("nwjs") then NetworkWMTarget else HiMDTarget
  }

  /** What the service method receives for each argument. */
  datatype ServerArg = Passed(arg: Arg) | Closure(callbackName: string)

  /** The argument at `i` after the placeholder loop: a placeholder becomes a closure named after the call and `i`. */
  function RehydratedArg(name: string, a: Arg, i: nat): ServerArg {
    if a == FunctionMarker then Closure(CallbackName(name, i)) else Passed(a)
  }

  function Rehydrated(call: CallEnvelope): (r: seq<ServerArg>)
    ensures |r| == |call.allArgs|
    ensures forall i :: 0 <= i < |r| ==> r[i] == RehydratedArg(call.name, call.allArgs[i], i)
  {
    seq(|call.allArgs|, i requires 0 <= i < |call.allArgs| => RehydratedArg(call.name, call.allArgs[i], i))
  }

  /**
   * Exactly the placeholders become closures, each closure's callback name
   * is unique to its position, and the other arguments pass unchanged.
   */
  lemma RehydratedClosures(call: CallEnvelope)
    ensures var r := Rehydrated(call);
      && (forall i :: 0 <= i < |r| ==> (r[i].Closure? <==> call.allArgs[i] == FunctionMarker))
      && (forall i :: 0 <= i < |r| && r[i].Passed? ==> r[i].arg == call.allArgs[i])
      && (forall i, j :: 0 <= i < j < |r| && r[i].Closure? && r[j].Closure? ==> r[i].callbackName != r[j].callbackName)
  {
    var r := Rehydrated(call);
    forall i, j | 0 <= i < j < |r| && r[i].Closure? && r[j].Closure?
      ensures r[i].callbackName != r[j].callbackName
    {
      if r[i].callbackName == r[j].callbackName {
        CallbackNameInjective(call.name, i, call.name, j);
      }
    }
  }

  /** The loop over `allArgs`, done in place on the argument array. */
  method Rehydrate(call: CallEnvelope) returns (args: array<ServerArg>)
    ensures fresh(args) && args[..] == Rehydrated(call)
  {
    var all := call.allArgs;
    args := new ServerArg[|all|](i requires 0 <= i < |all| => Passed(all[i]));
    for i := 0 to args.Length
      invariant forall j :: 0 <= j < i ==> args[j] == RehydratedArg(call.name, all[j], j)
      invariant forall j :: i <= j < args.Length ==> args[j] == Passed(all[j])
    {
      if all[i] == FunctionMarker {
        args[i] := Closure(CallbackName(call.name, i));
      }
    }
  }

  /** How the awaited method ended. */
  datatype Outcome = Resolved(value: JsValue) | Threw(error: JsValue)

  /** One call of a closure: the argument position it was passed at, and what it was called with. */
  datatype Invocation = Invocation(position: nat, values: seq<JsValue>)

  /** What a service method did: the closures it called while it ran, in order, and its outcome. */
  datatype Trace = Trace(invoked: seq<Invocation>, outcome: Outcome)

  /** A method can only call what it was given as a function. */
  predicate InvokesClosures(args: seq<ServerArg>, trace: Trace) {
    forall k :: 0 <= k < |trace.invoked| ==>
      trace.invoked[k].position < |args| && args[trace.invoked[k].position].Closure?
  }

  /** `[result, null]` or `[null, err]`. */
  function ReturnFor(name: string, outcome: Outcome): ServerEnvelope {
    match outcome
    case Resolved(v) => Return(name, v, Null)
    case Threw(e) => Return(name, Null, e)
  }

  function CallbackFor(call: CallEnvelope, args: seq<ServerArg>, inv: Invocation): ServerEnvelope
    requires inv.position < |args| && args[inv.position].Closure?
  {
    Callback(call.service, args[inv.position].callbackName, inv.values)
  }

  /** Everything one call makes the server write: a callback per closure call, then the return. */
  function Dispatched(call: CallEnvelope, trace: Trace): seq<ServerEnvelope>
    requires InvokesClosures(Rehydrated(call), trace)
  {
    var args := Rehydrated(call);
    seq(|trace.invoked|, k requires 0 <= k < |trace.invoked| => CallbackFor(call, args, trace.invoked[k]))
      + [ReturnFor(call.name, trace.outcome)]
  }

  /**
   * Every call is answered by exactly one `return`, last, under the call's
   * name, carrying the result or the error as thrown; before it come the
   * callbacks in the order the method made them, each named after the call
   * and the position of the placeholder it stands for.
   */
  lemma DispatchedShape(call: CallEnvelope, trace: Trace)
    requires InvokesClosures(Rehydrated(call), trace)
    ensures var r := Dispatched(call, trace);
      && |r| == |trace.invoked| + 1
      && r[|r| - 1].Return? && r[|r| - 1].name == call.name
      && (forall k :: 0 <= k < |r| - 1 ==> r[k].Callback?)
      && (forall k :: 0 <= k < |trace.invoked| ==>
            && call.allArgs[trace.invoked[k].position] == FunctionMarker
            && r[k] == Callback(call.service, CallbackName(call.name, trace.invoked[k].position), trace.invoked[k].values))
      && (trace.outcome.Resolved? ==> r[|r| - 1] == Return(call.name, trace.outcome.value, Null))
      && (trace.outcome.Threw? ==> r[|r| - 1] == Return(call.name, Null, trace.outcome.error))
  {
    RehydratedClosures(call);
  }

  /** The longest prefix of decimal digits. */
  function LeadingDigits(s: string): (r: string)
    ensures AllDigits(r) && |r| <= |s| && r == s[..|r|]
    ensures |r| < |s| ==> !IsDigit(s[|r|])
  {
    if s != [] && IsDigit(s[0]) then [s[0]] + LeadingDigits(s[1..]) else []
  }

  predicate IsHexDigit(c: char) { IsDigit(c) || 'a' <= c <= 'f' || 'A' <= c <= 'F' }

  function HexDigitValue(c: char): (d: nat)
    requires IsHexDigit(c)
    ensures d < 16
    ensures IsDigit(c) ==> d == DigitValue(c)
  {
    if IsDigit(c) then DigitValue(c)
    else if 'a' <= c <= 'f' then c as int - 'a' as int + 10
    else c as int - 'A' as int + 10
  }

  /** The longest prefix of hexadecimal digits. */
  function LeadingHexDigits(s: string): (r: string)
    ensures |r| <= |s| && r == s[..|r|]
    ensures forall i :: 0 <= i < |r| ==> IsHexDigit(r[i])
    ensures |r| < |s| ==> !IsHexDigit(s[|r|])
  {
    if s != [] && IsHexDigit(s[0]) then [s[0]] + LeadingHexDigits(s[1..]) else []
  }

  /** The value of a string of hexadecimal digits, most significant first. */
  function ParseHexDigits(s: string): nat
    requires forall i :: 0 <= i < |s| ==> IsHexDigit(s[i])
  {
    if s == [] then 0 else 16 * ParseHexDigits(s[..|s| - 1]) + HexDigitValue(s[|s| - 1])
  }

  /** Without a radix, `parseInt` reads a `0x` or `0X` prefix as hexadecimal. */
  predicate HasHexPrefix(s: string) {
    |s| >= 2 && s[0] == '0' && (s[1] == 'x' || s[1] == 'X')
  }

  /**
   * `parseInt(s)` with no radix: white space, an optional sign, then either
   * `0x`/`0X` and the hexadecimal digits up to the first other character,
   * or the decimal digits up to the first non-digit; `None` stands for
   * `NaN`.
   */
  function ParseInt(s: string): Option<int> {
    var t := TrimStart(s);
    var negative := t != [] && t[0] == '-';
    var body := if t != [] && (t[0] == '-' || t[0] == '+') then t[1..] else t;
    if HasHexPrefix(body) then
      var digits := LeadingHexDigits(body[2..]);
      var magnitude: int := ParseHexDigits(digits);
      if digits == [] then None
      else if negative then Some(-magnitude)
      else Some(magnitude)
    else
      var digits := LeadingDigits(body);
      var magnitude: int := ParseDigits(digits);
      if digits == [] then None
      else if negative then Some(-magnitude)
      else Some(magnitude)
  }

  /** A pid file holding `0x` and hexadecimal digits names the pid those digits spell. */
  lemma ParseIntHex(digits: string)
    requires digits != [] && forall i :: 0 <= i < |digits| ==> IsHexDigit(digits[i])
    ensures ParseInt("0x" + digits) == Some(ParseHexDigits(digits))
  {
    var s := "0x" + digits;
    DigitsUntrimmed(s);
    assert s[2..] == digits;
    AllHexLeading(digits);
  }

  lemma {:induction false} AllHexLeading(s: string)
    requires forall i :: 0 <= i < |s| ==> IsHexDigit(s[i])
    ensures LeadingHexDigits(s) == s
  {
    if s != [] {
      AllHexLeading(s[1..]);
    }
  }

  /** `0x1f` is pid 31, where a decimal reading would stop at `0`. */
  lemma ParseIntHexExample()
    ensures ParseInt("0x1f") == Some(31)
  {
    ParseIntHex("1f");
    assert "0x" + "1f" == "0x1f";
    var one := "1f"[..1];
    assert one == "1" && one[..0] == [];
    assert ParseHexDigits(one) == 1;
    assert HexDigitValue('f') == 15;
  }

  /** The pid one server writes is the pid the next one reads back and signals. */
  lemma PidRoundTrip(pid: nat)
    ensures ParseInt(NatToString(pid)) == Some(pid)
  {
    var s := NatToString(pid);
    DigitsUntrimmed(s);
    assert s[0] != '-' && s[0] != '+';
    assert |s| >= 2 ==> IsDigit(s[1]);
    AllDigitsLeading(s);
    ParseNatToString(pid);
  }

  /** A string that starts with a digit has no white space to trim. */
  lemma DigitsUntrimmed(s: string)
    requires s != [] && IsDigit(s[0])
    ensures TrimStart(s) == s
  {
    assert !IsJsWhiteSpace(s[0]);
  }

  lemma {:induction false} AllDigitsLeading(s: string)
    requires AllDigits(s)
    ensures LeadingDigits(s) == s
  {
    if s != [] {
      AllDigitsLeading(s[1..]);
    }
  }

  function Signals(pid: Option<int>): seq<int> {
    if pid.Some? then [pid.value] else []
  }

  /** One connection's server: the host's files and what the server did to them and on the wire. */
  class IntermediaryServer {
    const socketName: string
    const pidFile: string
    /** The host's files, by path, with their contents. */
    var files: map<string, string>
    /** The paths removed, in order. */
    var unlinked: seq<string>
    /** The pids sent `SIGTERM`. */
    var signalled: seq<int>
    var exited: bool
    /** The envelopes written to the connection. */
    var written: seq<ServerEnvelope>

    /** Both files live in `EWWORKDIR`. */
    constructor(workDir: string, hostFiles: map<string, string>)
      ensures socketName == Join(workDir, SocketFile) && pidFile == Join(workDir, PidFile)
      ensures files == hostFiles && unlinked == [] && signalled == [] && !exited && written == []
    {
      socketName := Join(workDir, SocketFile);
      pidFile := Join(workDir, PidFile);
      files := hostFiles;
      unlinked := [];
      signalled := [];
      exited := false;
      written := [];
    }

    /** `canFail(() => fs.unlinkSync(path))`: a missing file is no error. */
    method Unlink(path: string)
      modifies this
      ensures files == old(files) - {path}
      ensures unlinked == old(unlinked) + (if path in old(files) then [path] else [])
      ensures signalled == old(signalled) && exited == old(exited) && written == old(written)
    {
      if path in files {
        files := files - {path};
        unlinked := unlinked + [path];
      }
    }

    /**
     * `main`: a pid file left by an earlier server gets that server
     * signalled and is removed; the new pid is written; a stale socket is
     * removed and the socket is created by listening.
     */
    method Start(pid: nat)
      modifies this
      ensures signalled == old(signalled) + (if pidFile in old(files) then Signals(ParseInt(old(files)[pidFile])) else [])
      ensures files == ((old(files) - {pidFile})[pidFile := NatToString(pid)] - {socketName})[socketName := ""]
      ensures pidFile != socketName ==> files[pidFile] == NatToString(pid)
      ensures unlinked == old(unlinked) + (if pidFile in old(files) then [pidFile] else [])
        + (if socketName == pidFile || socketName in old(files) then [socketName] else [])
      ensures exited == old(exited) && written == old(written)
    {
      if pidFile in files {
        var oldPid := ParseInt(files[pidFile]);
        signalled := signalled + Signals(oldPid);
        Unlink(pidFile);
      }
      files := files[pidFile := NatToString(pid)];
      Unlink(socketName);
      files := files[socketName := ""];
    }

    /** `closeAll`: the socket, then the pid file, are removed, whatever fails, and the process exits. */
    method CloseAll()
      modifies this
      ensures files == old(files) - {socketName, pidFile}
      ensures socketName !in files && pidFile !in files
      ensures unlinked == old(unlinked)
        + (if socketName in old(files) then [socketName] else [])
        + (if pidFile in old(files) && pidFile != socketName then [pidFile] else [])
      ensures exited && signalled == old(signalled) && written == old(written)
    {
      Unlink(socketName);
      Unlink(pidFile);
      exited := true;
    }

    /** A USB device going away closes everything iff either service reports it as its own. */
    method OnUsbDisconnect(networkWMConnected: bool, himdConnected: bool)
      modifies this
      ensures networkWMConnected || himdConnected ==> exited && files == old(files) - {socketName, pidFile}
      ensures !(networkWMConnected || himdConnected) ==> files == old(files) && exited == old(exited)
      ensures written == old(written) && signalled == old(signalled)
    {
      if networkWMConnected || himdConnected {
        CloseAll();
      }
    }

    /**
     * One decoded call: the arguments are rebuilt, the method of the routed
     * service runs (its closures write callback envelopes as it calls them),
     * and the return envelope is written.
     */
    method HandleCall(call: CallEnvelope, service: (Target, string, seq<ServerArg>) -> Trace)
      requires InvokesClosures(Rehydrated(call), service(Route(call.service), call.name, Rehydrated(call)))
      modifies this
      ensures written == old(written) + Dispatched(call, service(Route(call.service), call.name, Rehydrated(call)))
      ensures files == old(files) && unlinked == old(unlinked) && signalled == old(signalled) && exited == old(exited)
    {
      var args := Rehydrate(call);
      var rehydrated := args[..];
      var trace := service(Route(call.service), call.name, rehydrated);
      ghost var before := written;
      for k := 0 to |trace.invoked|
        invariant |written| == |before| + k && written[..|before|] == before
        invariant forall j :: 0 <= j < k ==> written[|before| + j] == CallbackFor(call, rehydrated, trace.invoked[j])
        invariant files == old(files) && unlinked == old(unlinked) && signalled == old(signalled) && exited == old(exited)
      {
        var inv := trace.invoked[k];
        written := written + [Callback(call.service, rehydrated[inv.position].callbackName, inv.values)];
      }
      written := written + [ReturnFor(call.name, trace.outcome)];
      assert written == before + Dispatched(call, trace);
    }
  }
}
