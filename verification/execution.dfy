/** The renderer as the source runs it: it takes any tree, and where the
    source would throw (no `macros` slot, a hoisted child that is not a
    macro, a positional value that does not exist) the whole call fails,
    as the exception would end it. `ExecAgrees` shows that this renderer
    fails on exactly the trees `WellFormed` rejects and otherwise gives
    `Render`'s text. */
module Execution {
  import opened Wrappers
  import opened Strings
  import opened Ast
  import opened Operators
  import opened Transpiler

  /** Why a render was refused: the source threw. */
  datatype Error = MalformedNode

  /** The text of one node, or the failure that ended the render. */
  type Outcome = Result<string, Error>

  /** The texts of a list of nodes, or the failure that ended the render. */
  type Outcomes = Result<seq<string>, Error>

  function Exec(n: Node, raw: bool): Outcome
    decreases n, 2
  {
    match n
    case Module(_) => ExecModule(n)
    case Print(e) =>
      var x := Exec(e, false);
      if x.Failure? then Failure(MalformedNode) else Success("<?=" + x.value + "?>")
    case Text(data) => Success(data)
    case Name(x) => Success("$" + x)
    case AssignName(x) => Success("$" + x)
    case Constant(v) => Success(RenderValue(v, raw))
    case ArrayLiteral(pairs) =>
      var es := ExecEntries(n, 0);
      if es.Failure? then Failure(MalformedNode) else Success("[" + Join(es.value, ",") + "]")
    case For(s, k, v, b) =>
      var xs, xk, xv, xb := Exec(s, false), Exec(k, false), Exec(v, false), Exec(b, false);
      if xs.Failure? || xk.Failure? || xv.Failure? || xb.Failure? then Failure(MalformedNode)
      else Success("<?php foreach (" + xs.value + " as " + xk.value + " => " + xv.value + "): ?>"
                   + xb.value + "<?php endforeach; ?>")
    case If(_, _) => ExecIf(n)
    case GetAttr(_, _, _, _) => ExecGetAttr(n)
    case Binary(op, l, r) =>
      var xl, xr := Exec(l, false), Exec(r, false);
      if xl.Failure? || xr.Failure? then Failure(MalformedNode)
      else Success(BinaryPrefix(op) + "(" + xl.value + ")" + BinaryToken(op)
                   + "(" + xr.value + ")" + BinarySuffix(op))
    case Unary(op, e) =>
      var x := Exec(e, false);
      if x.Failure? then Failure(MalformedNode) else Success(UnaryToken(op) + "(" + x.value + ")")
    case Comment(data) => Success(RenderComment(data))
    case FunctionCall(name, args) =>
      var xa := ExecArgs(args);
      if xa.Failure? then Failure(MalformedNode) else Success(name + "(" + xa.value + ")")
    case Set(_, _, _) => ExecSet(n)
    case Conditional(e1, e2, e3) =>
      var x1, x2, x3 := Exec(e1, false), Exec(e2, false), Exec(e3, false);
      if x1.Failure? || x2.Failure? || x3.Failure? then Failure(MalformedNode)
      else Success(x1.value + " ? " + x2.value + " : " + x3.value)
    case MethodCall(name, args) =>
      var xa := ExecArgs(args);
      if xa.Failure? then Failure(MalformedNode) else Success("$" + name + "(" + xa.value + ")")
    case Import => Success("")
    case Macro(_, params, body) =>
      var xb, xd := Exec(body, false), ExecDefaults(params);
      if xb.Failure? || xd.Failure? then Failure(MalformedNode) else Success(xb.value + xd.value)
    case Container(children) => ExecEach(children)
  }

  /** `getNode('macros')` throws when the slot is missing; each child of the
      slot is read as a macro. */
  function ExecModule(n: Node): Outcome
    requires n.Module?
    decreases n, 1
  {
    match MacrosIndex(n.slots)
    case None => Failure(MalformedNode)
    case Some(p) =>
      var hoisted := ExecHoisted(n.slots[p].node);
      var rest := ExecSlots(n.slots);
      if hoisted.Failure? || rest.Failure? then Failure(MalformedNode)
      else Success(hoisted.value + rest.value)
  }

  /** The closures of the children of the `macros` slot `m`. A node kind
      without children hoists nothing; the remaining kinds are refused (see
      `HoldsOnlyMacros`). */
  function ExecHoisted(m: Node): Outcome
    decreases m, 2
  {
    if m.Container? then ExecMacros(m.children)
    else if HoldsOnlyMacros(m) then Success("") else Failure(MalformedNode)
  }

  /** The hoisted closures; a child that is not a macro lacks the `name`
      attribute or the `arguments` and `body` nodes the closure reads. */
  function ExecMacros(ms: seq<Node>): Outcome
    decreases ms
  {
    if |ms| == 0 then Success("")
    else if !ms[0].Macro? then Failure(MalformedNode)
    else
      var h, t := ExecMacro(ms[0]), ExecMacros(ms[1..]);
      if h.Failure? || t.Failure? then Failure(MalformedNode) else Success(h.value + t.value)
  }

  function ExecMacro(m: Node): Outcome
    requires m.Macro?
    decreases m, 1
  {
    var xp, xb := ExecParams(m.params), Exec(m.body, false);
    if xp.Failure? || xb.Failure? then Failure(MalformedNode)
    else Success("<?php $" + m.name + " = function(" + Join(xp.value, ",") + ") use (&$" + m.name
                 + ") { ?>\n" + xb.value + "<?php } ?>\n")
  }

  /** One `$name=default` per declared parameter. */
  function ExecParams(params: seq<Param>): Outcomes
    decreases params
  {
    if |params| == 0 then Success([])
    else
      var d, t := Exec(params[0].defaultValue, false), ExecParams(params[1..]);
      if d.Failure? || t.Failure? then Failure(MalformedNode)
      else Success(["$" + params[0].name + "=" + d.value] + t.value)
  }

  /** The module's children in order, skipping those called `macros`. */
  function ExecSlots(slots: seq<Slot>): Outcome
    decreases slots
  {
    if |slots| == 0 then Success("")
    else
      var h := if slots[0].name == "macros" then Success("") else Exec(slots[0].node, false);
      var t := ExecSlots(slots[1..]);
      if h.Failure? || t.Failure? then Failure(MalformedNode) else Success(h.value + t.value)
  }

  /** The generic fallback: every child, concatenated. */
  function ExecEach(ns: seq<Node>): Outcome
    decreases ns
  {
    if |ns| == 0 then Success("")
    else
      var h, t := Exec(ns[0], false), ExecEach(ns[1..]);
      if h.Failure? || t.Failure? then Failure(MalformedNode) else Success(h.value + t.value)
  }

  /** The generic fallback over a macro's `arguments` node. */
  function ExecDefaults(params: seq<Param>): Outcome
    decreases params
  {
    if |params| == 0 then Success("")
    else
      var h, t := Exec(params[0].defaultValue, false), ExecDefaults(params[1..]);
      if h.Failure? || t.Failure? then Failure(MalformedNode) else Success(h.value + t.value)
  }

  /** One `key=>value` entry per pair of the array `n`, from the i-th on. */
  function ExecEntries(n: Node, i: nat): Outcomes
    requires n.ArrayLiteral?
    decreases n, 1, |n.pairs| - i
  {
    if i >= |n.pairs| then Success([])
    else
      var k, v, t := Exec(n.pairs[i].key, false), Exec(n.pairs[i].value, false), ExecEntries(n, i + 1);
      if k.Failure? || v.Failure? || t.Failure? then Failure(MalformedNode)
      else Success([k.value + "=>" + v.value] + t.value)
  }

  /** The argument values of the method access `n`, from the i-th on; the
      keys are never visited. */
  function ExecCallArgs(n: Node, i: nat): Outcomes
    requires n.GetAttr?
    decreases n, 0, |n.callArgs| - i
  {
    if i >= |n.callArgs| then Success([])
    else
      var v, t := Exec(n.callArgs[i].value, false), ExecCallArgs(n, i + 1);
      if v.Failure? || t.Failure? then Failure(MalformedNode) else Success([v.value] + t.value)
  }

  /** The values of keyed arguments, from the i-th on. */
  function ExecKeyed(args: Arguments, i: nat): Outcomes
    requires args.KeyedArgs?
    decreases args, 0, |args.entries| - i
  {
    if i >= |args.entries| then Success([])
    else
      var v, t := Exec(args.entries[i].value, false), ExecKeyed(args, i + 1);
      if v.Failure? || t.Failure? then Failure(MalformedNode) else Success([v.value] + t.value)
  }

  /** Each node of a list. */
  function ExecList(ns: seq<Node>): Outcomes
    decreases ns
  {
    if |ns| == 0 then Success([])
    else
      var h, t := Exec(ns[0], false), ExecList(ns[1..]);
      if h.Failure? || t.Failure? then Failure(MalformedNode) else Success([h.value] + t.value)
  }

  /** A call's argument values, comma-joined. */
  function ExecArgs(args: Arguments): Outcome
    decreases args, 1
  {
    var xs := match args
      case KeyedArgs(_) => ExecKeyed(args, 0)
      case PlainArgs(items) => ExecList(items);
    if xs.Failure? then Failure(MalformedNode) else Success(Join(xs.value, ","))
  }

  /** The if loop's pieces from position `i` on: a test opens a branch, a
      body is rendered raw. */
  function ExecPieces(tests: seq<Node>, i: nat): Outcomes
    decreases tests, |tests| - i
  {
    if i >= |tests| then Success([])
    else
      var t, rest := Exec(tests[i], i % 2 == 1), ExecPieces(tests, i + 1);
      if t.Failure? || rest.Failure? then Failure(MalformedNode)
      else Success([if i % 2 == 0 then Opener(i == 0) + t.value + "): ?>" else t.value] + rest.value)
  }

  function ExecIf(n: Node): Outcome
    requires n.If?
    decreases n, 1
  {
    var pieces := ExecPieces(n.tests, 0);
    var e := if n.elseBody.Some? then Exec(n.elseBody.value, true) else Success("");
    if pieces.Failure? || e.Failure? then Failure(MalformedNode)
    else Success(Flatten(pieces.value)
                 + (if n.elseBody.Some? then "<?php else: ?>" + e.value else "")
                 + "<?php endif; ?>")
  }

  function ExecGetAttr(n: Node): Outcome
    requires n.GetAttr?
    decreases n, 1
  {
    var s := Exec(n.subject, false);
    var a := Exec(n.attribute, n.access != ArrayAccess);
    var xs := if n.access == MethodAccess then ExecCallArgs(n, 0) else Success([]);
    if s.Failure? || a.Failure? || xs.Failure? then Failure(MalformedNode)
    else Success(s.value
                 + (if n.access == ArrayAccess then "[" + a.value + "]" else "->" + a.value)
                 + (if n.access == MethodAccess then "(" + Join(xs.value, ",") + ")" else ""))
  }

  /** With no name the loops run zero times and the values are never read. */
  function ExecSet(n: Node): Outcome
    requires n.Set?
    decreases n, 1
  {
    var names := n.names;
    if |names| == 0 then Success("")
    else if n.capture || n.values.Constant? then
      var v := Exec(n.values, false);
      if v.Failure? then Failure(MalformedNode)
      else Success(Join(seq(|names|, k requires 0 <= k < |names| =>
                              if n.capture then
                                "<?php ob_start(); ?>" + v.value + "<?php $" + names[k] + " = ob_get_clean() ?>"
                              else "<?php $" + names[k] + " = " + v.value + " ?>"), "\n"))
    else
      var segments := ExecSegments(names, n.values, 0);
      if segments.Failure? then Failure(MalformedNode) else Success(Join(segments.value, "\n"))
  }

  /** The positional assignments from the k-th name on. */
  function ExecSegments(names: seq<string>, values: Node, k: nat): Outcomes
    decreases values, 1, |names| - k
  {
    if k >= |names| then Success([])
    else
      var v, rest := ExecPositional(values, k), ExecSegments(names, values, k + 1);
      if v.Failure? || rest.Failure? then Failure(MalformedNode)
      else Success(["<?php $" + names[k] + " = " + v.value + " ?>"] + rest.value)
  }

  /** `values.getNode(k)`, which throws when there is no k-th child. */
  function ExecPositional(values: Node, k: nat): Outcome
    decreases values, 0
  {
    match values
    case Container(children) =>
      if k < |children| then Exec(children[k], false) else Failure(MalformedNode)
    case ArrayLiteral(pairs) =>
      if k >= 2 * |pairs| then Failure(MalformedNode)
      else if k % 2 == 0 then Exec(pairs[k / 2].key, false)
      else Exec(pairs[k / 2].value, false)
    case _ => Failure(MalformedNode)
  }

  // ----- agreement with the renderer -----

  /** The source's renderer fails on exactly the trees that are not well
      formed, and on the others it produces the model's render. */
  lemma {:induction false} ExecAgrees(n: Node, raw: bool)
    ensures Exec(n, raw) == if WellFormed(n) then Success(Render(n, raw)) else Failure(MalformedNode)
    decreases n, 2
  {
    match n
    case Module(_) => ModuleAgrees(n, raw);
    case Print(_) => OperatorAgrees(n, raw);
    case Text(_) => LeafAgrees(n, raw);
    case Name(_) => LeafAgrees(n, raw);
    case AssignName(_) => LeafAgrees(n, raw);
    case Constant(_) => LeafAgrees(n, raw);
    case ArrayLiteral(_) => ArrayAgrees(n, raw);
    case For(_, _, _, _) => OperatorAgrees(n, raw);
    case If(_, _) => IfAgrees(n, raw);
    case GetAttr(_, _, _, _) => GetAttrAgrees(n, raw);
    case Binary(_, _, _) => OperatorAgrees(n, raw);
    case Unary(_, _) => OperatorAgrees(n, raw);
    case Comment(_) => LeafAgrees(n, raw);
    case FunctionCall(_, _) => CallAgrees(n, raw);
    case Set(_, _, _) => SetAgrees(n, raw);
    case Conditional(_, _, _) => OperatorAgrees(n, raw);
    case MethodCall(_, _) => CallAgrees(n, raw);
    case Import => LeafAgrees(n, raw);
    case Macro(_, _, _) => FallbackAgrees(n, raw);
    case Container(_) => FallbackAgrees(n, raw);
  }

  /** The nodes rendered without visiting any other node. */
  lemma {:induction false} LeafAgrees(n: Node, raw: bool)
    requires n.Text? || n.Name? || n.AssignName? || n.Constant? || n.Comment? || n.Import?
    ensures Exec(n, raw) == if WellFormed(n) then Success(Render(n, raw)) else Failure(MalformedNode)
  {
  }

  lemma {:induction false} ModuleAgrees(n: Node, raw: bool)
    requires n.Module?
    ensures Exec(n, raw) == if WellFormed(n) then Success(Render(n, raw)) else Failure(MalformedNode)
    decreases n, 1
  {
    SlotsAgree(n.slots);
    match MacrosIndex(n.slots)
    case None =>
    case Some(p) => HoistedAgrees(n.slots[p].node);
  }

  lemma {:induction false} HoistedAgrees(m: Node)
    ensures ExecHoisted(m)
            == if HoldsOnlyMacros(m) && WellFormed(m)
               then Success(if m.Container? then RenderMacros(m.children) else "")
               else Failure(MalformedNode)
    decreases m, 3
  {
    if m.Container? {
      MacrosAgree(m.children);
    }
  }

  lemma {:induction false} SlotsAgree(slots: seq<Slot>)
    ensures ExecSlots(slots) == if SlotsWellFormed(slots) then Success(RenderSlots(slots)) else Failure(MalformedNode)
    decreases slots
  {
    if |slots| > 0 {
      if slots[0].name != "macros" {
        ExecAgrees(slots[0].node, false);
      }
      SlotsAgree(slots[1..]);
      assert SlotsWellFormed(slots)
             <==> (slots[0].name != "macros" ==> WellFormed(slots[0].node)) && SlotsWellFormed(slots[1..]) by {
        assert forall i | 1 <= i < |slots| :: slots[1..][i - 1] == slots[i];
      }
    }
  }

  lemma {:induction false} MacrosAgree(ms: seq<Node>)
    ensures ExecMacros(ms)
            == if forall i | 0 <= i < |ms| :: ms[i].Macro? && WellFormed(ms[i])
               then Success(RenderMacros(ms)) else Failure(MalformedNode)
    decreases ms
  {
    if |ms| > 0 {
      if ms[0].Macro? {
        MacroAgrees(ms[0]);
      }
      MacrosAgree(ms[1..]);
      assert forall i | 1 <= i < |ms| :: ms[1..][i - 1] == ms[i];
    }
  }

  lemma {:induction false} MacroAgrees(m: Node)
    requires m.Macro?
    ensures ExecMacro(m) == if WellFormed(m) then Success(RenderMacro(m)) else Failure(MalformedNode)
    decreases m, 1
  {
    var params := m.params;
    ParamsOutcome(params);
    forall i | 0 <= i < |params|
      ensures Exec(params[i].defaultValue, false)
              == if WellFormed(params[i].defaultValue) then Success(Render(params[i].defaultValue, false))
                 else Failure(MalformedNode)
    {
      ExecAgrees(params[i].defaultValue, false);
    }
    ExecAgrees(m.body, false);
    if WellFormed(m) {
      assert ExecParams(params).value
          == seq(|params|, i requires 0 <= i < |params| =>
                   "$" + params[i].name + "=" + Render(params[i].defaultValue, false));
    }
  }

  /** The parameter list succeeds exactly when every default does, and holds
      one `$name=default` text per parameter. */
  lemma {:induction false} ParamsOutcome(params: seq<Param>)
    ensures ExecParams(params).Success? <==> forall i | 0 <= i < |params| :: Exec(params[i].defaultValue, false).Success?
    ensures ExecParams(params).Success?
            ==> |ExecParams(params).value| == |params|
                && forall i | 0 <= i < |params| ::
                     ExecParams(params).value[i] == "$" + params[i].name + "=" + Exec(params[i].defaultValue, false).value
  {
    if |params| > 0 {
      ParamsOutcome(params[1..]);
      assert forall i | 1 <= i < |params| :: params[1..][i - 1] == params[i];
    }
  }

  /** The generic fallback: a macro reached as an ordinary child renders its
      body and then its default values; a plain node renders its children. */
  lemma {:induction false} FallbackAgrees(n: Node, raw: bool)
    requires n.Macro? || n.Container?
    ensures Exec(n, raw) == if WellFormed(n) then Success(Render(n, raw)) else Failure(MalformedNode)
    decreases n, 1
  {
    if n.Macro? {
      ExecAgrees(n.body, false);
      DefaultsAgree(n.params);
    } else {
      EachAgrees(n.children);
    }
  }

  lemma {:induction false} EachAgrees(ns: seq<Node>)
    ensures ExecEach(ns) == if AllWellFormed(ns) then Success(RenderEach(ns)) else Failure(MalformedNode)
    decreases ns
  {
    if |ns| > 0 {
      ExecAgrees(ns[0], false);
      EachAgrees(ns[1..]);
      assert forall i | 1 <= i < |ns| :: ns[1..][i - 1] == ns[i];
    }
  }

  lemma {:induction false} DefaultsAgree(params: seq<Param>)
    ensures ExecDefaults(params)
            == if forall i | 0 <= i < |params| :: WellFormed(params[i].defaultValue)
               then Success(RenderDefaults(params)) else Failure(MalformedNode)
    decreases params
  {
    if |params| > 0 {
      ExecAgrees(params[0].defaultValue, false);
      DefaultsAgree(params[1..]);
      assert forall i | 1 <= i < |params| :: params[1..][i - 1] == params[i];
    }
  }

  /** The nodes whose renderers wrap their operands in fixed text. */
  lemma {:induction false} OperatorAgrees(n: Node, raw: bool)
    requires n.Print? || n.For? || n.Binary? || n.Unary? || n.Conditional?
    ensures Exec(n, raw) == if WellFormed(n) then Success(Render(n, raw)) else Failure(MalformedNode)
    decreases n, 1
  {
    match n
    case Print(e) => ExecAgrees(e, false);
    case For(s, k, v, b) =>
      ExecAgrees(s, false);
      ExecAgrees(k, false);
      ExecAgrees(v, false);
      ExecAgrees(b, false);
    case Binary(_, l, r) =>
      ExecAgrees(l, false);
      ExecAgrees(r, false);
    case Unary(_, e) => ExecAgrees(e, false);
    case Conditional(e1, e2, e3) =>
      ExecAgrees(e1, false);
      ExecAgrees(e2, false);
      ExecAgrees(e3, false);
  }

  /** The entries list succeeds exactly when every key and value does, and
      holds one `key=>value` text per remaining pair. */
  lemma {:induction false} EntriesOutcome(n: Node, i: nat)
    requires n.ArrayLiteral? && i <= |n.pairs|
    ensures ExecEntries(n, i).Success?
            <==> forall j | i <= j < |n.pairs| :: Exec(n.pairs[j].key, false).Success? && Exec(n.pairs[j].value, false).Success?
    ensures ExecEntries(n, i).Success?
            ==> |ExecEntries(n, i).value| == |n.pairs| - i
                && forall j | i <= j < |n.pairs| ::
                     ExecEntries(n, i).value[j - i] == Exec(n.pairs[j].key, false).value + "=>" + Exec(n.pairs[j].value, false).value
    decreases |n.pairs| - i
  {
    if i < |n.pairs| {
      EntriesOutcome(n, i + 1);
    }
  }

  lemma {:induction false} ArrayAgrees(n: Node, raw: bool)
    requires n.ArrayLiteral?
    ensures Exec(n, raw) == if WellFormed(n) then Success(Render(n, raw)) else Failure(MalformedNode)
    decreases n, 1
  {
    var pairs := n.pairs;
    EntriesOutcome(n, 0);
    forall j | 0 <= j < |pairs|
      ensures Exec(pairs[j].key, false) == if WellFormed(pairs[j].key) then Success(Render(pairs[j].key, false)) else Failure(MalformedNode)
      ensures Exec(pairs[j].value, false) == if WellFormed(pairs[j].value) then Success(Render(pairs[j].value, false)) else Failure(MalformedNode)
    {
      ExecAgrees(pairs[j].key, false);
      ExecAgrees(pairs[j].value, false);
    }
    if WellFormed(n) {
      assert ExecEntries(n, 0).value
          == seq(|pairs|, j requires 0 <= j < |pairs| =>
                   Render(pairs[j].key, false) + "=>" + Render(pairs[j].value, false));
    }
  }

  /** The argument values of a method access succeed exactly when each does. */
  lemma {:induction false} CallArgsOutcome(n: Node, i: nat)
    requires n.GetAttr? && i <= |n.callArgs|
    ensures ExecCallArgs(n, i).Success? <==> forall j | i <= j < |n.callArgs| :: Exec(n.callArgs[j].value, false).Success?
    ensures ExecCallArgs(n, i).Success?
            ==> |ExecCallArgs(n, i).value| == |n.callArgs| - i
                && forall j | i <= j < |n.callArgs| :: ExecCallArgs(n, i).value[j - i] == Exec(n.callArgs[j].value, false).value
    decreases |n.callArgs| - i
  {
    if i < |n.callArgs| {
      CallArgsOutcome(n, i + 1);
    }
  }

  lemma {:induction false} GetAttrAgrees(n: Node, raw: bool)
    requires n.GetAttr?
    ensures Exec(n, raw) == if WellFormed(n) then Success(Render(n, raw)) else Failure(MalformedNode)
    decreases n, 1
  {
    var args := n.callArgs;
    ExecAgrees(n.subject, false);
    ExecAgrees(n.attribute, n.access != ArrayAccess);
    CallArgsOutcome(n, 0);
    forall j | 0 <= j < |args|
      ensures Exec(args[j].value, false) == if WellFormed(args[j].value) then Success(Render(args[j].value, false)) else Failure(MalformedNode)
    {
      ExecAgrees(args[j].value, false);
    }
    if forall j | 0 <= j < |args| :: WellFormed(args[j].value) {
      assert ExecCallArgs(n, 0).value == seq(|args|, j requires 0 <= j < |args| => Render(args[j].value, false));
    }
  }

  /** The values of keyed arguments succeed exactly when each does. */
  lemma {:induction false} KeyedOutcome(args: Arguments, i: nat)
    requires args.KeyedArgs? && i <= |args.entries|
    ensures ExecKeyed(args, i).Success? <==> forall j | i <= j < |args.entries| :: Exec(args.entries[j].value, false).Success?
    ensures ExecKeyed(args, i).Success?
            ==> |ExecKeyed(args, i).value| == |args.entries| - i
                && forall j | i <= j < |args.entries| :: ExecKeyed(args, i).value[j - i] == Exec(args.entries[j].value, false).value
    decreases |args.entries| - i
  {
    if i < |args.entries| {
      KeyedOutcome(args, i + 1);
    }
  }

  /** Each node of a list succeeds exactly when every node does. */
  lemma {:induction false} ListOutcome(ns: seq<Node>)
    ensures ExecList(ns).Success? <==> forall i | 0 <= i < |ns| :: Exec(ns[i], false).Success?
    ensures ExecList(ns).Success?
            ==> |ExecList(ns).value| == |ns| && forall i | 0 <= i < |ns| :: ExecList(ns).value[i] == Exec(ns[i], false).value
  {
    if |ns| > 0 {
      ListOutcome(ns[1..]);
      assert forall i | 1 <= i < |ns| :: ns[1..][i - 1] == ns[i];
    }
  }

  lemma {:induction false} ArgsAgree(args: Arguments)
    ensures ExecArgs(args) == if ArgsWellFormed(args) then Success(RenderArgs(args)) else Failure(MalformedNode)
    decreases args, 1
  {
    match args
    case KeyedArgs(entries) =>
      KeyedOutcome(args, 0);
      forall j | 0 <= j < |entries|
        ensures Exec(entries[j].value, false) == if WellFormed(entries[j].value) then Success(Render(entries[j].value, false)) else Failure(MalformedNode)
      {
        ExecAgrees(entries[j].value, false);
      }
      if ArgsWellFormed(args) {
        assert ExecKeyed(args, 0).value
            == seq(|entries|, j requires 0 <= j < |entries| => Render(entries[j].value, false));
      }
    case PlainArgs(items) =>
      ListOutcome(items);
      forall j | 0 <= j < |items|
        ensures Exec(items[j], false) == if WellFormed(items[j]) then Success(Render(items[j], false)) else Failure(MalformedNode)
      {
        ExecAgrees(items[j], false);
      }
      if ArgsWellFormed(args) {
        assert ExecList(items).value == seq(|items|, j requires 0 <= j < |items| => Render(items[j], false));
      }
  }

  lemma {:induction false} CallAgrees(n: Node, raw: bool)
    requires n.FunctionCall? || n.MethodCall?
    ensures Exec(n, raw) == if WellFormed(n) then Success(Render(n, raw)) else Failure(MalformedNode)
    decreases n, 1
  {
    ArgsAgree(n.args);
  }

  /** The if loop's pieces succeed exactly when every test and body does. */
  lemma {:induction false} PiecesOutcome(tests: seq<Node>, i: nat)
    requires i <= |tests|
    ensures ExecPieces(tests, i).Success? <==> forall j | i <= j < |tests| :: Exec(tests[j], j % 2 == 1).Success?
    ensures ExecPieces(tests, i).Success?
            ==> |ExecPieces(tests, i).value| == |tests| - i
                && forall j | i <= j < |tests| ::
                     ExecPieces(tests, i).value[j - i]
                     == if j % 2 == 0 then Opener(j == 0) + Exec(tests[j], false).value + "): ?>"
                        else Exec(tests[j], true).value
    decreases |tests| - i
  {
    if i < |tests| {
      PiecesOutcome(tests, i + 1);
    }
  }

  lemma {:induction false} IfAgrees(n: Node, raw: bool)
    requires n.If?
    ensures Exec(n, raw) == if WellFormed(n) then Success(Render(n, raw)) else Failure(MalformedNode)
    decreases n, 1
  {
    var tests := n.tests;
    PiecesOutcome(tests, 0);
    forall j | 0 <= j < |tests|
      ensures Exec(tests[j], j % 2 == 1) == if WellFormed(tests[j]) then Success(Render(tests[j], j % 2 == 1)) else Failure(MalformedNode)
    {
      ExecAgrees(tests[j], j % 2 == 1);
    }
    if n.elseBody.Some? {
      ExecAgrees(n.elseBody.value, true);
    }
    if AllWellFormed(tests) {
      assert ExecPieces(tests, 0).value == seq(|tests|, j requires 0 <= j < |tests| => IfPiece(tests, j));
    }
  }

  lemma {:induction false} PositionalAgrees(values: Node, k: nat)
    ensures ExecPositional(values, k)
            == if HasPositional(values, k) then Success(PositionalValue(values, k)) else Failure(MalformedNode)
    decreases values, 0
  {
    match values
    case Container(children) =>
      if k < |children| {
        ExecAgrees(children[k], false);
      }
    case ArrayLiteral(pairs) =>
      if k < 2 * |pairs| {
        if k % 2 == 0 {
          ExecAgrees(pairs[k / 2].key, false);
        } else {
          ExecAgrees(pairs[k / 2].value, false);
        }
      }
    case _ =>
  }

  /** The positional assignments succeed exactly when every value exists,
      and then hold one assignment per name. */
  lemma {:induction false} SegmentsAgree(names: seq<string>, values: Node, k: nat)
    requires k <= |names|
    ensures ExecSegments(names, values, k).Success? <==> forall j | k <= j < |names| :: HasPositional(values, j)
    ensures ExecSegments(names, values, k).Success? ==> |ExecSegments(names, values, k).value| == |names| - k
    ensures ExecSegments(names, values, k).Success?
            ==> forall j | k <= j < |names| ::
                  HasPositional(values, j)
                  && ExecSegments(names, values, k).value[j - k]
                     == "<?php $" + names[j] + " = " + PositionalValue(values, j) + " ?>"
    decreases values, 1, |names| - k
  {
    if k < |names| {
      PositionalAgrees(values, k);
      SegmentsAgree(names, values, k + 1);
    }
  }

  lemma {:induction false} SetAgrees(n: Node, raw: bool)
    requires n.Set?
    ensures Exec(n, raw) == if WellFormed(n) then Success(Render(n, raw)) else Failure(MalformedNode)
    decreases n, 1
  {
    var names := n.names;
    var values := n.values;
    if |names| > 0 {
      if n.capture || values.Constant? {
        ExecAgrees(values, false);
      } else {
        SegmentsAgree(names, values, 0);
      }
      if WellFormed(n) {
        var texts := seq(|names|, k requires 0 <= k < |names| =>
                           if n.capture then
                             "<?php ob_start(); ?>" + Render(values, false)
                             + "<?php $" + names[k] + " = ob_get_clean() ?>"
                           else if values.Constant? then
                             "<?php $" + names[k] + " = " + Render(values, false) + " ?>"
                           else
                             "<?php $" + names[k] + " = " + PositionalValue(values, k) + " ?>");
        if n.capture || values.Constant? {
          var v := Exec(values, false).value;
          assert seq(|names|, k requires 0 <= k < |names| =>
                       if n.capture then
                         "<?php ob_start(); ?>" + v + "<?php $" + names[k] + " = ob_get_clean() ?>"
                       else "<?php $" + names[k] + " = " + v + " ?>")
              == texts;
        } else {
          assert ExecSegments(names, values, 0).value == texts;
        }
        assert RenderSet(n) == Join(texts, "\n");
      }
    }
  }

  /** Render a whole tree as the source does: a failure exactly when the
      source would throw somewhere in it, which is exactly when the tree is
      not well formed, and the model's render otherwise. */
  function TranspileTree(root: Node): (r: Result<string, Error>)
    ensures r.Failure? <==> !WellFormed(root)
    ensures r.Success? ==> r.value == Render(root, false)
  {
    ExecAgrees(root, false);
    Exec(root, false)
  }
}
