/**
 * The client end of the macOS bridge (`Connection` in
 * src/macos/server-bootstrap.ts): one pending-call slot that every
 * `callMethod` overwrites, and a demultiplexer that settles the pending
 * call's promise on a `return` envelope and hands `callback` envelopes to
 * the callback handler. A call is known by a number; a promise settles once,
 * so only the first resolve or reject of a call counts.
 */
module BridgeConnection {
  import opened Common
  import opened Strings
  import opened NodePath
  import opened Envelopes
  import SocketPath

  const SocketFile := "ewmd-intermediary.sock"

  /** `getSocketName`: `TMPDIR`, or `/tmp/` when it is unset or empty, joined with the socket's name. */
  function GetSocketName(tmpDir: Option<string>): string {
    Join(if Truthy(tmpDir) then tmpDir.value else "/tmp/", SocketFile)
  }

  lemma SocketFilePlain()
    ensures PlainName(SocketFile)
  {
    assert SocketFile[0] == 'e';
  }

  /** The socket sits directly in the chosen directory. */
  lemma GetSocketNameShape(tmpDir: Option<string>)
    ensures var dir := if Truthy(tmpDir) then tmpDir.value else "/tmp/";
      GetSocketName(tmpDir) == DirPrefix(dir) + SocketFile
  {
    SocketFilePlain();
    JoinPlainName(if Truthy(tmpDir) then tmpDir.value else "/tmp/", SocketFile);
  }

  /** Without `TMPDIR` the socket is `/tmp/ewmd-intermediary.sock`. */
  lemma DefaultSocketName(tmpDir: Option<string>)
    requires !Truthy(tmpDir)
    ensures GetSocketName(tmpDir) == "/tmp/" + SocketFile
  {
    GetSocketNameShape(tmpDir);
    TmpPrefix();
  }

  lemma TmpPrefix()
    ensures DirPrefix("/tmp/") == "/tmp/"
  {
    var tmp := "tmp";
    assert PlainName(tmp);
    SocketPath.DirPrefixTopLevel(tmp);
    DirPrefixTrailingSlash("/" + tmp);
    assert "/" + tmp + "/" == "/tmp/";
  }

  /** How a promise settled. */
  datatype Settlement = Fulfilled(value: JsValue) | Rejected(reason: JsValue)

  /** `resolve`/`reject` of a promise: only the first one has an effect. */
  function SettleOnce(settled: map<nat, Settlement>, call: nat, s: Settlement): map<nat, Settlement> {
    if call in settled then settled else settled[call := s]
  }

  /**
   * A `return` envelope for the pending call: a name other than the awaited
   * one rejects with `"mismatch"` first; then a truthy error rejects with it
   * and anything else resolves with the result.
   */
  function AfterReturn(settled: map<nat, Settlement>, call: nat, awaitedName: string, env: ServerEnvelope): map<nat, Settlement>
    requires env.Return?
  {
    var first := if env.name != awaitedName then SettleOnce(settled, call, Rejected(Str("mismatch"))) else settled;
    SettleOnce(first, call, if JsTruthy(env.err) then Rejected(env.err) else Fulfilled(env.out))
  }

  /**
   * A `return` settles the pending call, unless it was settled already, and
   * nothing else: with the mismatch, the error, or the result, in that order
   * of precedence. A falsy error (`[null, undefined]`) counts as success.
   */
  lemma ReturnSettlement(settled: map<nat, Settlement>, call: nat, awaitedName: string, env: ServerEnvelope)
    requires env.Return?
    ensures var r := AfterReturn(settled, call, awaitedName, env);
      && call in r
      && (call in settled ==> r == settled)
      && (call !in settled ==>
            r[call] == (if env.name != awaitedName then Rejected(Str("mismatch"))
                        else if JsTruthy(env.err) then Rejected(env.err)
                        else Fulfilled(env.out)))
      && r.Keys == settled.Keys + {call}
      && (forall c :: c in settled && c != call ==> r[c] == settled[c])
  {
  }

  /** A callback envelope as the handler receives it. */
  datatype HandlerCall = HandlerCall(name: string, values: seq<JsValue>)

  class Connection {
    /** `awaitingReturnName`: `None` until the first call. */
    var awaitingReturnName: Option<string>
    /** The call whose `resolve`/`reject` the slot holds. */
    var awaitingCall: Option<nat>
    /** How each call's promise settled, for those that did. */
    var settled: map<nat, Settlement>
    var hasCallbackHandler: bool
    /** What the callback handler was called with, in order. */
    var handled: seq<HandlerCall>
    /** The envelopes written to the server. */
    var written: seq<CallEnvelope>
    /** How many calls were made: the number of the next one. */
    var calls: nat

    /** The slot is empty only before the first call, and only calls that were made settle. */
    ghost predicate Valid()
      reads this
    {
      && awaitingReturnName.Some? == awaitingCall.Some?
      && (awaitingCall.Some? ==> awaitingCall.value < calls)
      && (forall c :: c in settled ==> c < calls)
    }

    constructor()
      ensures Valid()
      ensures awaitingReturnName == None && awaitingCall == None && settled == map[]
      ensures !hasCallbackHandler && handled == [] && written == [] && calls == 0
    {
      awaitingReturnName := None;
      awaitingCall := None;
      settled := map[];
      hasCallbackHandler := false;
      handled := [];
      written := [];
      calls := 0;
    }

    method SetCallbackHandler()
      requires Valid()
      modifies this
      ensures Valid() && hasCallbackHandler
      ensures awaitingReturnName == old(awaitingReturnName) && awaitingCall == old(awaitingCall)
      ensures settled == old(settled) && handled == old(handled) && written == old(written) && calls == old(calls)
    {
      hasCallbackHandler := true;
    }

    /**
     * `callMethod`: function arguments are replaced by placeholders in place,
     * the slot is overwritten whatever it held, and the envelope (with no
     * `service` field) is written. The new call is unsettled.
     */
    method CallMethod(name: string, allArgs: seq<Arg>) returns (call: nat)
      requires Valid()
      modifies this
      ensures Valid()
      ensures call == old(calls) && calls == call + 1 && call !in settled
      ensures awaitingReturnName == Some(name) && awaitingCall == Some(call)
      ensures written == old(written) + [CallEnvelope(None, name, Marked(allArgs))]
      ensures settled == old(settled) && handled == old(handled) && hasCallbackHandler == old(hasCallbackHandler)
    {
      var args := new Arg[|allArgs|](i requires 0 <= i < |allArgs| => allArgs[i]);
      for i := 0 to args.Length
        invariant forall j :: 0 <= j < i ==> args[j] == MarkArg(allArgs[j])
        invariant forall j :: i <= j < args.Length ==> args[j] == allArgs[j]
        invariant calls == old(calls) && settled == old(settled) && written == old(written)
        invariant handled == old(handled) && hasCallbackHandler == old(hasCallbackHandler)
      {
        if args[i].Function? {
          args[i] := FunctionMarker;
        }
      }
      call := calls;
      calls := calls + 1;
      awaitingReturnName := Some(name);
      awaitingCall := Some(call);
      assert args[..] == Marked(allArgs);
      written := written + [CallEnvelope(None, name, args[..])];
    }

    /**
     * The demultiplexer. A `return` before any call finds no `reject` to
     * call and throws (`ok` is false, nothing changes); otherwise it settles
     * the pending call and leaves the slot as it is. A `callback` goes to the
     * handler if there is one.
     */
    method Receive(env: ServerEnvelope) returns (ok: bool)
      requires Valid()
      modifies this
      ensures Valid()
      ensures ok <==> env.Callback? || old(awaitingCall).Some?
      ensures env.Return? && ok ==> settled == AfterReturn(old(settled), old(awaitingCall).value, old(awaitingReturnName).value, env)
      ensures !(env.Return? && ok) ==> settled == old(settled)
      ensures handled == old(handled) + (if env.Callback? && hasCallbackHandler then [HandlerCall(env.name, env.values)] else [])
      ensures awaitingReturnName == old(awaitingReturnName) && awaitingCall == old(awaitingCall)
      ensures written == old(written) && calls == old(calls) && hasCallbackHandler == old(hasCallbackHandler)
    {
      ok := true;
      match env
      case Return(name, out, err) =>
        if awaitingCall.None? {
          return false;
        }
        var call := awaitingCall.value;
        if Some(name) != awaitingReturnName {
          settled := SettleOnce(settled, call, Rejected(Str("mismatch")));
        }
        if JsTruthy(err) {
          settled := SettleOnce(settled, call, Rejected(err));
        } else {
          settled := SettleOnce(settled, call, Fulfilled(out));
        }
      case Callback(_, name, values) =>
        if hasCallbackHandler {
          handled := handled + [HandlerCall(name, values)];
        }
    }
  }

  /** The envelopes of a stream, handed to the demultiplexer one after the other: the settlements. */
  function SettledBy(settled: map<nat, Settlement>, call: nat, awaitedName: string, envs: seq<ServerEnvelope>): map<nat, Settlement>
  {
    if envs == [] then settled
    else
      var before := SettledBy(settled, call, awaitedName, envs[..|envs| - 1]);
      var last := envs[|envs| - 1];
      if last.Return? then AfterReturn(before, call, awaitedName, last) else before
  }

  /** ... and what the callback handler gets. */
  function HandledBy(envs: seq<ServerEnvelope>): seq<HandlerCall> {
    if envs == [] then []
    else
      var last := envs[|envs| - 1];
      HandledBy(envs[..|envs| - 1]) + (if last.Callback? then [HandlerCall(last.name, last.values)] else [])
  }
  /** Callbacks settle nothing. */
  lemma {:induction false} CallbacksSettleNothing(settled: map<nat, Settlement>, call: nat, awaitedName: string, envs: seq<ServerEnvelope>)
    requires forall k :: 0 <= k < |envs| ==> envs[k].Callback?
    ensures SettledBy(settled, call, awaitedName, envs) == settled
  {
    if envs != [] {
      CallbacksSettleNothing(settled, call, awaitedName, envs[..|envs| - 1]);
    }
  }

  /** The callback handler sees the callbacks of a stream of callbacks, in order and unchanged. */
  lemma {:induction false} CallbacksHandled(envs: seq<ServerEnvelope>)
    requires forall k :: 0 <= k < |envs| ==> envs[k].Callback?
    ensures |HandledBy(envs)| == |envs|
    ensures forall k :: 0 <= k < |envs| ==> HandledBy(envs)[k] == HandlerCall(envs[k].name, envs[k].values)
  {
    if envs != [] {
      CallbacksHandled(envs[..|envs| - 1]);
    }
  }

  /**
   * A stream of callbacks closed by one `return`, as the server answers a
   * call: the return alone settles the call, and the handler gets every
   * callback before it.
   */
  lemma AnsweredCall(settled: map<nat, Settlement>, call: nat, awaitedName: string, envs: seq<ServerEnvelope>)
    requires |envs| >= 1 && envs[|envs| - 1].Return?
    requires forall k :: 0 <= k < |envs| - 1 ==> envs[k].Callback?
    ensures SettledBy(settled, call, awaitedName, envs) == AfterReturn(settled, call, awaitedName, envs[|envs| - 1])
    ensures |HandledBy(envs)| == |envs| - 1
    ensures forall k :: 0 <= k < |envs| - 1 ==> HandledBy(envs)[k] == HandlerCall(envs[k].name, envs[k].values)
  {
    var init := envs[..|envs| - 1];
    CallbacksSettleNothing(settled, call, awaitedName, init);
    CallbacksHandled(init);
  }
}
