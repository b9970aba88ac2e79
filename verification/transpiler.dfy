/** The renderer: one pass over a Twing syntax tree that produces a PHP
    template. `Render` is the dispatcher; each `case` is one of the source's
    `transpile...Node` methods. */
module Transpiler {
  import opened Wrappers
  import opened Strings
  import opened Ast
  import opened Operators

  /** `String(value)` of a constant, with string values wrapped in double
      quotes unless rendered raw. No escaping is added inside the quotes. */
  function RenderValue(v: Value, raw: bool): string
  {
    match v
    case CStr(s) => if raw then s else "\"" + s + "\""
    case CInt(i) => IntToString(i)
    case CBool(b) => if b then "true" else "false"
    case CNull => "null"
  }

  /** The dispatcher: routes each node kind to its renderer. `raw` is
      consulted only by constants; every sub-render the renderers start
      themselves is non-raw unless they say otherwise. */
  function Render(n: Node, raw: bool): string
    requires WellFormed(n)
    decreases n, 1
  {
    match n
    case Module(_) => RenderModule(n)
    case Print(_) => RenderPrint(n)
    case Text(data) => data
    case Name(x) => "$" + x
    case AssignName(x) => "$" + x
    case Constant(v) => RenderValue(v, raw)
    case ArrayLiteral(_) => RenderArray(n)
    case For(_, _, _, _) => RenderFor(n)
    case If(_, _) => RenderIf(n)
    case GetAttr(_, _, _, _) => RenderGetAttr(n)
    case Binary(_, _, _) => RenderBinary(n)
    case Unary(_, _) => RenderUnary(n)
    case Comment(data) => RenderComment(data)
    case FunctionCall(_, _) => RenderFunctionCall(n)
    case Set(_, _, _) => RenderSet(n)
    case Conditional(_, _, _) => RenderConditional(n)
    case MethodCall(_, _) => RenderMethodCall(n)
    case Import => ""
    case Macro(_, params, body) =>
      // no renderer of its own: the generic fallback over body, then arguments
      Render(body, false) + RenderDefaults(params)
    case Container(children) => RenderEach(children)
  }

  /** The generic fallback: the non-raw renders of `ns`, concatenated in order. */
  function RenderEach(ns: seq<Node>): string
    requires AllWellFormed(ns)
    decreases ns
  {
    if |ns| == 0 then "" else Render(ns[0], false) + RenderEach(ns[1..])
  }

  /** The generic fallback over a macro's `arguments` node: the default values in order. */
  function RenderDefaults(params: seq<Param>): string
    requires forall i | 0 <= i < |params| :: WellFormed(params[i].defaultValue)
    decreases params
  {
    if |params| == 0 then "" else Render(params[0].defaultValue, false) + RenderDefaults(params[1..])
  }

  /** Hoisted macros first, then every other child in order. */
  function RenderModule(n: Node): string
    requires n.Module? && WellFormed(n)
    decreases n, 0
  {
    var slots := n.slots;
    var m := slots[MacrosIndex(slots).value].node;
    assert HoldsOnlyMacros(m) && WellFormed(m);
    (if m.Container? then RenderMacros(m.children) else "") + RenderSlots(slots)
  }

  function RenderPrint(n: Node): string
    requires n.Print? && WellFormed(n)
    decreases n, 0
  {
    "<?=" + Render(n.expr, false) + "?>"
  }

  function RenderComment(data: string): string
  {
    "<?php /*" + Join(SplitLines(data), "\n") + "*/ ?>"
  }

  /** `[k1=>v1,k2=>v2,...]` for array and hash expressions alike. */
  function RenderArray(n: Node): string
    requires n.ArrayLiteral? && WellFormed(n)
    decreases n, 0
  {
    var pairs := n.pairs;
    "[" + Join(seq(|pairs|, i requires 0 <= i < |pairs| =>
                     Render(pairs[i].key, false) + "=>" + Render(pairs[i].value, false)), ",")
    + "]"
  }

  function RenderFor(n: Node): string
    requires n.For? && WellFormed(n)
    decreases n, 0
  {
    "<?php foreach (" + Render(n.sequence, false) + " as " + Render(n.keyTarget, false) + " => "
    + Render(n.valueTarget, false) + "): ?>" + Render(n.body, false) + "<?php endforeach; ?>"
  }

  /** The if renderer: one piece per position of the flattened test/body
      sequence, then the optional else branch and one closing `endif`. */
  function RenderIf(n: Node): string
    requires n.If? && WellFormed(n)
    decreases n, 0
  {
    var tests := n.tests;
    Flatten(seq(|tests|, i requires 0 <= i < |tests| => IfPiece(tests, i)))
    + (if n.elseBody.Some? then "<?php else: ?>" + Render(n.elseBody.value, true) else "")
    + "<?php endif; ?>"
  }

  /** One turn of the if renderer's loop: an even position opens a branch
      (`if` at position 0, `elseif` later) on its test; an odd position is
      that branch's body, rendered raw. */
  function IfPiece(tests: seq<Node>, i: nat): string
    requires i < |tests| && forall j | 0 <= j < |tests| :: WellFormed(tests[j])
    decreases tests
  {
    if i % 2 == 0 then Opener(i == 0) + Render(tests[i], false) + "): ?>"
    else Render(tests[i], true)
  }

  /** The opening of a branch: `if` for the first, `elseif` for the rest. */
  function Opener(first: bool): string
  {
    if first then "<?php if (" else "<?php elseif ("
  }

  function RenderGetAttr(n: Node): string
    requires n.GetAttr? && WellFormed(n)
    decreases n, 0
  {
    var callArgs := n.callArgs;
    Render(n.subject, false)
    + (if n.access == ArrayAccess then "[" + Render(n.attribute, false) + "]"
       else "->" + Render(n.attribute, true))
    + (if n.access == MethodAccess then
         "(" + Join(seq(|callArgs|, i requires 0 <= i < |callArgs| =>
                          Render(callArgs[i].value, false)), ",") + ")"
       else "")
  }

  function RenderBinary(n: Node): string
    requires n.Binary? && WellFormed(n)
    decreases n, 0
  {
    BinaryPrefix(n.op) + "(" + Render(n.left, false) + ")" + BinaryToken(n.op)
    + "(" + Render(n.right, false) + ")" + BinarySuffix(n.op)
  }

  function RenderUnary(n: Node): string
    requires n.Unary? && WellFormed(n)
    decreases n, 0
  {
    UnaryToken(n.uop) + "(" + Render(n.operand, false) + ")"
  }

  function RenderFunctionCall(n: Node): string
    requires n.FunctionCall? && WellFormed(n)
    decreases n, 0
  {
    n.name + "(" + RenderArgs(n.args) + ")"
  }

  function RenderMethodCall(n: Node): string
    requires n.MethodCall? && WellFormed(n)
    decreases n, 0
  {
    "$" + n.methodName + "(" + RenderArgs(n.args) + ")"
  }

  function RenderConditional(n: Node): string
    requires n.Conditional? && WellFormed(n)
    decreases n, 0
  {
    Render(n.expr1, false) + " ? " + Render(n.expr2, false) + " : " + Render(n.expr3, false)
  }

  /** One assignment per name, newline-joined, in the form the node selects. */
  function RenderSet(n: Node): string
    requires n.Set? && WellFormed(n)
    decreases n, 0
  {
    var names := n.names;
    var values := n.values;
    Join(seq(|names|, k requires 0 <= k < |names| =>
               if n.capture then
                 "<?php ob_start(); ?>" + Render(values, false)
                 + "<?php $" + names[k] + " = ob_get_clean() ?>"
               else if values.Constant? then
                 "<?php $" + names[k] + " = " + Render(values, false) + " ?>"
               else
                 "<?php $" + names[k] + " = " + PositionalValue(values, k) + " ?>"),
         "\n")
  }

  /** The render of `values.getNode(k)`: the k-th child of a plain node, or
      of an array or hash, whose children alternate between keys and values. */
  function PositionalValue(values: Node, k: nat): string
    requires HasPositional(values, k)
    decreases values, 0
  {
    if values.Container? then Render(values.children[k], false)
    else if k % 2 == 0 then Render(values.pairs[k / 2].key, false)
    else Render(values.pairs[k / 2].value, false)
  }

  /** The closures of the hoisted macros, in declaration order. */
  function RenderMacros(macros: seq<Node>): string
    requires forall i | 0 <= i < |macros| :: macros[i].Macro? && WellFormed(macros[i])
    decreases macros
  {
    if |macros| == 0 then "" else RenderMacro(macros[0]) + RenderMacros(macros[1..])
  }

  /** A hoisted macro: a closure bound to `$name` that captures itself by reference. */
  function RenderMacro(m: Node): string
    requires m.Macro? && WellFormed(m)
    decreases m, 0
  {
    var params := m.params;
    "<?php $" + m.name + " = function("
    + Join(seq(|params|, i requires 0 <= i < |params| =>
                 "$" + params[i].name + "=" + Render(params[i].defaultValue, false)), ",")
    + ") use (&$" + m.name + ") { ?>\n"
    + Render(m.body, false)
    + "<?php } ?>\n"
  }

  /** The module's children other than the `macros` slot, rendered in order. */
  function RenderSlots(slots: seq<Slot>): string
    requires SlotsWellFormed(slots)
    decreases slots
  {
    if |slots| == 0 then ""
    else (if slots[0].name == "macros" then "" else Render(slots[0].node, false))
         + RenderSlots(slots[1..])
  }

  /** A call's argument values, comma-joined; keys of keyed arguments are dropped. */
  function RenderArgs(args: Arguments): string
    requires ArgsWellFormed(args)
    decreases args
  {
    match args
    case KeyedArgs(entries) =>
      Join(seq(|entries|, i requires 0 <= i < |entries| => Render(entries[i].value, false)), ",")
    case PlainArgs(items) =>
      Join(seq(|items|, i requires 0 <= i < |items| => Render(items[i], false)), ",")
  }

  /** The comment renderer's loop: push each line and a line feed after
      every line but the last. The output wraps `data` unchanged. */
  method AssembleComment(data: string) returns (out: string)
    ensures out == "<?php /*" + data + "*/ ?>"
    ensures out == RenderComment(data)
  {
    var parts := SplitLines(data);
    out := "<?php /*";
    var index := 0;
    while index < |parts|
      invariant 0 <= index <= |parts|
      invariant index == 0 ==> out == "<?php /*"
      invariant 0 < index < |parts| ==> out == "<?php /*" + Join(parts[..index], "\n") + "\n"
      invariant index == |parts| ==> out == "<?php /*" + Join(parts, "\n")
    {
      if index > 0 {
        JoinSnoc(parts[..index], parts[index], "\n");
        assert parts[..index] + [parts[index]] == parts[..index + 1];
      }
      out := out + parts[index];
      if index < |parts| - 1 {
        out := out + "\n";
      }
      index := index + 1;
      assert index == |parts| ==> parts[..index] == parts;
    }
    out := out + "*/ ?>";
    JoinSplitLines(data);
  }
}
