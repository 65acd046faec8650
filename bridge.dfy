/**
 * The macOS HiMD path end to end (src/main.ts with the modules above): the
 * renderer calls the invoker `_himd_<m>`; the main process hands the
 * arguments to `Connection.callMethod(m, ...)` without the prefix; the
 * server runs `m` on the HiMD service and answers with callbacks and one
 * return; the main process forwards each callback to the renderer under the
 * prefixed name, where the preload's table finds the function that was
 * passed.
 */
module Bridge {
  import opened Common
  import opened Envelopes
  import BridgeServer
  import BridgeConnection
  import Preload

  /** The prefix the main process puts on the HiMD invokers and on forwarded callbacks. */
  const HiMDPrefix := "_himd_"

  /** The envelope the main process writes for a renderer call of `_himd_<m>` with `args`. */
  function MainCall(m: string, args: seq<Arg>): CallEnvelope {
    CallEnvelope(None, m, Marked(Marked(args)))
  }

  /** Placeholders survive a second marking unchanged. */
  lemma MarkTwice(args: seq<Arg>)
    ensures Marked(Marked(args)) == Marked(args)
  {
    assert forall i :: 0 <= i < |args| ==> MarkArg(MarkArg(args[i])) == MarkArg(args[i]);
  }

  /**
   * The `k`-th callback the HiMD method makes reaches the renderer: the call
   * goes to the HiMD service (the main process sets no `service`), the
   * handler receives it `k`-th with the method's values, and the prefixed
   * name is registered by the renderer's call exactly when the renderer
   * passed a function at that position, mapped to that function; whatever
   * else the table held.
   */
  lemma CallbackReachesRenderer(m: string, args: seq<Arg>, trace: BridgeServer.Trace, k: nat, table: map<string, nat>)
    requires BridgeServer.InvokesClosures(BridgeServer.Rehydrated(MainCall(m, args)), trace)
    requires k < |trace.invoked|
    ensures var r := BridgeServer.Dispatched(MainCall(m, args), trace);
      var pos := trace.invoked[k].position;
      var regs := Preload.Registrations(HiMDPrefix + m, args);
      var handled := BridgeConnection.HandledBy(r);
      && BridgeServer.Route(MainCall(m, args).service) == BridgeServer.HiMDTarget
      && k < |handled| && handled[k].values == trace.invoked[k].values
      && pos < |args| && !args[pos].Data?
      && (HiMDPrefix + handled[k].name in regs <==> args[pos].Function?)
      && (args[pos].Function? ==>
            && HiMDPrefix + handled[k].name in table + regs
            && (table + regs)[HiMDPrefix + handled[k].name] == args[pos].fn)
  {
    var call := MainCall(m, args);
    var r := BridgeServer.Dispatched(call, trace);
    var pos := trace.invoked[k].position;
    BridgeServer.DispatchedShape(call, trace);
    BridgeConnection.AnsweredCall(map[], 0, m, r);
    MarkTwice(args);
    assert call.allArgs[pos] == Marked(args)[pos];
    var name := HiMDPrefix + CallbackName(m, pos);
    assert name == CallbackName(HiMDPrefix + m, pos);
    Preload.RegistrationsExact(HiMDPrefix + m, args);
    var regs := Preload.Registrations(HiMDPrefix + m, args);
    if name in regs {
      var i :| 0 <= i < |args| && args[i].Function? && name == CallbackName(HiMDPrefix + m, i);
      CallbackNameInjective(HiMDPrefix + m, i, HiMDPrefix + m, pos);
    }
  }

  /** What the main process's `callMethod` promise settles to, for the method's outcome. */
  function SettlementOf(outcome: BridgeServer.Outcome): BridgeConnection.Settlement {
    match outcome
    case Resolved(v) => BridgeConnection.Fulfilled(v)
    case Threw(e) => if JsTruthy(e) then BridgeConnection.Rejected(e) else BridgeConnection.Fulfilled(Null)
  }

  /**
   * The call settles once the server's answer is read: with the value the
   * method resolved with, or with the error it threw; an error that is
   * falsy (`throw null`, `throw 0`, `throw ""`) fulfils the call with `null`.
   */
  lemma CallSettles(m: string, args: seq<Arg>, trace: BridgeServer.Trace, settled: map<nat, BridgeConnection.Settlement>, c: nat)
    requires BridgeServer.InvokesClosures(BridgeServer.Rehydrated(MainCall(m, args)), trace)
    requires c !in settled
    ensures var s := BridgeConnection.SettledBy(settled, c, m, BridgeServer.Dispatched(MainCall(m, args), trace));
      && c in s && s[c] == SettlementOf(trace.outcome)
      && (forall d :: d in settled ==> d in s && s[d] == settled[d])
  {
    var r := BridgeServer.Dispatched(MainCall(m, args), trace);
    BridgeServer.DispatchedShape(MainCall(m, args), trace);
    BridgeConnection.AnsweredCall(settled, c, m, r);
    BridgeConnection.ReturnSettlement(settled, c, m, r[|r| - 1]);
  }
}
