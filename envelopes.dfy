/**
 * The values that cross the macOS bridge between the Electron main process
 * and the intermediary server, and the renderer's IPC: JavaScript values as
 * far as the bridge looks at them, call arguments with function placeholders,
 * and the three kinds of envelope. The MessagePack framing is not modelled:
 * a stream is a sequence of envelopes.
 */
module Envelopes {
  import opened Common
  import opened Strings

  /** A JavaScript value: the bridge only tests truthiness and passes values on. */
  datatype JsValue = Undefined | Null | Bool(b: bool) | Number(n: int) | Str(s: string) | Object(id: nat)

  /** JavaScript's truthiness (`if (v)`). */
  predicate JsTruthy(v: JsValue) {
    match v
    case Undefined => false
    case Null => false
    case Bool(b) => b
    case Number(n) => n != 0
    case Str(s) => s != ""
    case Object(_) => true
  }

  /**
   * A call argument: plain data, a function (known by its identity), or the
   * placeholder `{interprocessType: 'function'}` that stands for a function
   * once it has crossed a process boundary.
   */
  datatype Arg = Data(value: JsValue) | Function(fn: nat) | FunctionMarker

  /** A function argument becomes the placeholder; anything else is kept. */
  function MarkArg(a: Arg): Arg {
    if a.Function? then FunctionMarker else a
  }

  /** The arguments after the placeholder loop. */
  function Marked(args: seq<Arg>): (r: seq<Arg>)
    ensures |r| == |args|
    ensures forall i :: 0 <= i < |args| ==> r[i] == MarkArg(args[i])
  {
    seq(|args|, i requires 0 <= i < |args| => MarkArg(args[i]))
  }

  /**
   * After marking no function is left, a placeholder sits exactly where a
   * function or a placeholder was, data is untouched, and marking twice
   * changes nothing more.
   */
  lemma MarkedFacts(args: seq<Arg>)
    ensures forall i :: 0 <= i < |args| ==> !Marked(args)[i].Function?
    ensures forall i :: 0 <= i < |args| ==> (Marked(args)[i] == FunctionMarker <==> !args[i].Data?)
    ensures forall i :: 0 <= i < |args| && args[i].Data? ==> Marked(args)[i] == args[i]
    ensures Marked(Marked(args)) == Marked(args)
  {
  }

  const CallbackInfix := "_callback"

  /** `${name}_callback${i}`: the name of the callback passed at position `i` of a call to `name`. */
  function CallbackName(name: string, i: nat): string {
    name + CallbackInfix + NatToString(i)
  }

  lemma CallbackInfixShape()
    ensures |CallbackInfix| == 9 && CallbackInfix[0] == '_'
    ensures forall k :: 1 <= k < 9 ==> CallbackInfix[k] != '_' && !IsDigit(CallbackInfix[k])
  {
  }

  /** The last underscore of a callback name is the one that starts `_callback`. */
  lemma LastUnderscore(name: string, i: nat)
    ensures CallbackName(name, i)[|name|] == '_'
    ensures forall k :: |name| < k < |CallbackName(name, i)| ==> CallbackName(name, i)[k] != '_'
  {
    var s, d := CallbackName(name, i), NatToString(i);
    CallbackInfixShape();
    forall k | |name| < k < |s| ensures s[k] != '_' {
      if k < |name| + 9 {
        assert s[k] == CallbackInfix[k - |name|];
      } else {
        assert s[k] == d[k - |name| - 9];
      }
    }
  }

  /**
   * Callback names never collide: the method name and the position can be
   * read back from the name. Digits hold no underscore, so the last
   * underscore of the name is the one that starts `_callback`.
   */
  lemma {:induction false} CallbackNameInjective(a: string, i: nat, b: string, j: nat)
    requires CallbackName(a, i) == CallbackName(b, j)
    ensures a == b && i == j
  {
    var s := CallbackName(a, i);
    var d, e := NatToString(i), NatToString(j);
    if |d| != |e| {
      LastUnderscore(a, i);
      LastUnderscore(b, j);
      assert false;
    } else {
      assert a == s[..|s| - |d| - 9];
      assert d == s[|s| - |d|..];
      NatToStringInjective(i, j);
    }
  }

  /** What the main process sends to the server: no `service` field is set by the macOS client. */
  datatype CallEnvelope = CallEnvelope(service: Option<string>, name: string, allArgs: seq<Arg>)

  /** What the server sends back: one `return` per call (`value` is `[out, err]`), and `callback`s. */
  datatype ServerEnvelope =
    | Return(name: string, out: JsValue, err: JsValue)
    | Callback(service: Option<string>, name: string, values: seq<JsValue>)
}
