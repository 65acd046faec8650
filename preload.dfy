/**
 * The renderer's side of the IPC bridge (src/preload.ts): one invoker per
 * method name the main process defines; an invoker registers each function
 * argument as `${name}_callback${i}`, sends a placeholder in its place, and
 * drops what it registered once the call resolves; a `_callback` message
 * calls the callback registered under its name.
 */
module Preload {
  import opened Envelopes

  /**
   * The callbacks a call of `name` with `args` registers: each function
   * argument under the name of its position.
   */
  function Registrations(name: string, args: seq<Arg>): map<string, nat> {
    if args == [] then map[]
    else
      var last := args[|args| - 1];
      var before := Registrations(name, args[..|args| - 1]);
      if last.Function? then before[CallbackName(name, |args| - 1) := last.fn] else before
  }

  /**
   * Every function argument is registered under its own position's name,
   * mapped to itself (no later argument overwrites it), and nothing else is
   * registered.
   */
  lemma {:induction false} RegistrationsExact(name: string, args: seq<Arg>)
    ensures forall i :: 0 <= i < |args| && args[i].Function? ==>
      CallbackName(name, i) in Registrations(name, args) && Registrations(name, args)[CallbackName(name, i)] == args[i].fn
    ensures forall k :: k in Registrations(name, args) ==>
      exists i :: 0 <= i < |args| && args[i].Function? && k == CallbackName(name, i)
  {
    if args != [] {
      var n := |args| - 1;
      var init := args[..n];
      RegistrationsExact(name, init);
      var r := Registrations(name, args);
      forall i | 0 <= i < |args| && args[i].Function?
        ensures CallbackName(name, i) in r && r[CallbackName(name, i)] == args[i].fn
      {
        if i < n {
          assert init[i] == args[i];
          if CallbackName(name, i) == CallbackName(name, n) {
            CallbackNameInjective(name, i, name, n);
          }
        }
      }
      forall k | k in r
        ensures exists i :: 0 <= i < |args| && args[i].Function? && k == CallbackName(name, i)
      {
        if k != CallbackName(name, n) || !args[n].Function? {
          assert k in Registrations(name, init);
          var i :| 0 <= i < |init| && init[i].Function? && k == CallbackName(name, i);
          assert args[i] == init[i];
        }
      }
    }
  }

  /** One more argument registers at most its own position. */
  lemma RegistrationsSnoc(name: string, args: seq<Arg>, i: nat)
    requires i < |args|
    ensures Registrations(name, args[..i + 1]) ==
      if args[i].Function? then Registrations(name, args[..i])[CallbackName(name, i) := args[i].fn]
      else Registrations(name, args[..i])
  {
    assert args[..i + 1][..i] == args[..i];
  }

  /** Adding a key to the right operand of a union is adding it to the union. */
  lemma UnionUpdate<K, V>(m: map<K, V>, r: map<K, V>, k: K, v: V)
    ensures (m + r)[k := v] == m + r[k := v]
    ensures r[k := v].Keys == r.Keys + {k}
  {
  }

  /**
   * Two calls of the same method in flight share the callback names of the
   * positions where both pass a function: the later registration replaces
   * the earlier one, and when the earlier call resolves, it removes the
   * later call's callback.
   */
  lemma SharedCallbackNames(callbacks: map<string, nat>, name: string, first: seq<Arg>, second: seq<Arg>, i: nat)
    requires i < |first| && i < |second| && first[i].Function? && second[i].Function?
    ensures var both := callbacks + Registrations(name, first) + Registrations(name, second);
      && CallbackName(name, i) in both && both[CallbackName(name, i)] == second[i].fn
      && CallbackName(name, i) !in both - Registrations(name, first).Keys
  {
    RegistrationsExact(name, first);
    RegistrationsExact(name, second);
  }

  /** A named call as it goes to `ipcRenderer.invoke`. */
  datatype Sent = Sent(name: string, args: seq<Arg>)

  /** A registered callback being called: the function and its arguments. */
  datatype CallbackRun = CallbackRun(fn: nat, values: seq<JsValue>)

  class PreloadBridge {
    /** The `callbacks` table. */
    var callbacks: map<string, nat>
    /** The method names an invoker was defined for. */
    var invokers: set<string>
    /** What went to `ipcRenderer.invoke`, in order. */
    var sent: seq<Sent>
    /** The callbacks that ran, in order. */
    var runs: seq<CallbackRun>

    constructor()
      ensures callbacks == map[] && invokers == {} && sent == [] && runs == []
    {
      callbacks := map[];
      invokers := {};
      sent := [];
      runs := [];
    }

    /** The loop over the defined names: an invoker for each. */
    method DefineInvokers(defined: seq<string>)
      modifies this
      ensures invokers == old(invokers) + set n | n in defined
      ensures callbacks == old(callbacks) && sent == old(sent) && runs == old(runs)
    {
      for k := 0 to |defined|
        invariant invokers == old(invokers) + set n | n in defined[..k]
        invariant callbacks == old(callbacks) && sent == old(sent) && runs == old(runs)
      {
        assert defined[..k + 1] == defined[..k] + [defined[k]];
        invokers := invokers + {defined[k]};
      }
      assert defined[..|defined|] == defined;
    }

    /**
     * An invoker: the function arguments are registered and replaced by
     * placeholders in place, and the call is sent. `registered` is the set of
     * names registered for this call.
     */
    method Invoke(name: string, allArgs: seq<Arg>) returns (registered: set<string>)
      requires name in invokers
      modifies this
      ensures callbacks == old(callbacks) + Registrations(name, allArgs)
      ensures registered == Registrations(name, allArgs).Keys
      ensures sent == old(sent) + [Sent(name, Marked(allArgs))]
      ensures invokers == old(invokers) && runs == old(runs)
    {
      var args := new Arg[|allArgs|](i requires 0 <= i < |allArgs| => allArgs[i]);
      registered := {};
      for i := 0 to args.Length
        invariant forall j :: 0 <= j < i ==> args[j] == MarkArg(allArgs[j])
        invariant forall j :: i <= j < args.Length ==> args[j] == allArgs[j]
        invariant callbacks == old(callbacks) + Registrations(name, allArgs[..i])
        invariant registered == Registrations(name, allArgs[..i]).Keys
        invariant invokers == old(invokers) && sent == old(sent) && runs == old(runs)
      {
        RegistrationsSnoc(name, allArgs, i);
        if args[i].Function? {
          UnionUpdate(old(callbacks), Registrations(name, allArgs[..i]), CallbackName(name, i), args[i].fn);
          callbacks := callbacks[CallbackName(name, i) := args[i].fn];
          registered := registered + {CallbackName(name, i)};
          args[i] := FunctionMarker;
        }
      }
      assert allArgs[..args.Length] == allArgs;
      assert args[..] == Marked(allArgs);
      sent := sent + [Sent(name, args[..])];
    }

    /** The call resolved: what it registered is deleted. */
    method Resolved(registered: set<string>)
      modifies this
      ensures callbacks == old(callbacks) - registered
      ensures invokers == old(invokers) && sent == old(sent) && runs == old(runs)
    {
      callbacks := callbacks - registered;
    }

    /**
     * A `_callback` message: the callback registered under `cbname` runs. A
     * name with nothing registered is a call of `undefined`, which throws.
     */
    method OnCallback(cbname: string, values: seq<JsValue>) returns (ok: bool)
      modifies this
      ensures ok <==> cbname in callbacks
      ensures runs == old(runs) + (if ok then [CallbackRun(callbacks[cbname], values)] else [])
      ensures callbacks == old(callbacks) && invokers == old(invokers) && sent == old(sent)
    {
      if cbname !in callbacks {
        return false;
      }
      runs := runs + [CallbackRun(callbacks[cbname], values)];
      ok := true;
    }
  }
}
