/** The Twing syntax tree the renderer consumes, as a closed datatype: one
    constructor per node class the renderer distinguishes, and `Container`
    for every other node class, which the renderer treats as a plain list of
    children. */
module Ast {
  import opened Wrappers
  import opened Strings

  /** The scalar held by a constant expression. */
  datatype Value = CStr(str: string) | CInt(num: SafeInteger) | CBool(flag: bool) | CNull

  /** The binary expression classes the renderer maps to a target operator,
      and `Unmapped` for the classes it has no entry for (`in`, `not in`,
      `..`, `matches`, `starts with`, `ends with`). */
  datatype BinaryOp =
    | Add | And | BitwiseAnd | BitwiseOr | BitwiseXor | Concat | Div | Equal
    | FloorDiv | Greater | GreaterEqual | Less | LessEqual | Mod | Mul
    | NotEqual | Or | Power | Sub | Unmapped

  /** The unary expression classes. */
  datatype UnaryOp = Neg | Not | Pos

  /** The `type` attribute of an attribute access: `foo.bar`, `foo["bar"]`, `foo.bar()`. */
  datatype Access = AnyAccess | ArrayAccess | MethodAccess

  /** One key/value entry of an array or hash expression, in insertion order. */
  datatype Pair = Pair(key: Node, value: Node)

  /** One named child of a module node. */
  datatype Slot = Slot(name: string, node: Node)

  /** One declared macro parameter with its default-value expression. */
  datatype Param = Param(name: string, defaultValue: Node)

  /** The `arguments` node of a call: an array expression (read through its
      key/value pairs) or a plain node whose children are the arguments. */
  datatype Arguments = KeyedArgs(entries: seq<Pair>) | PlainArgs(items: seq<Node>)

  datatype Node =
    | Module(slots: seq<Slot>)
    | Print(expr: Node)
    | Text(data: string)
    | Comment(data: string)
    | Name(name: string)
    | AssignName(name: string)
    | Constant(value: Value)
      /** Array and hash expressions alike. */
    | ArrayLiteral(pairs: seq<Pair>)
    | For(sequence: Node, keyTarget: Node, valueTarget: Node, body: Node)
      /** `tests` is the flattened sequence test0, body0, test1, body1, ... */
    | If(tests: seq<Node>, elseBody: Option<Node>)
    | GetAttr(subject: Node, attribute: Node, access: Access, callArgs: seq<Pair>)
    | Binary(op: BinaryOp, left: Node, right: Node)
    | Unary(uop: UnaryOp, operand: Node)
    | FunctionCall(name: string, args: Arguments)
    | MethodCall(methodName: string, args: Arguments)
    | Conditional(expr1: Node, expr2: Node, expr3: Node)
      /** `names` are the assigned names; `values` is the captured body, a
          single constant, or a node whose k-th child is the k-th value. */
    | Set(capture: bool, names: seq<string>, values: Node)
    | Import
    | Macro(name: string, params: seq<Param>, body: Node)
      /** Any node class without a renderer of its own. */
    | Container(children: seq<Node>)

  /** Index of the first module slot called `macros`, if any. */
  function MacrosIndex(slots: seq<Slot>): (r: Option<nat>)
    ensures r.Some? ==> r.value < |slots| && slots[r.value].name == "macros"
                        && forall j | 0 <= j < r.value :: slots[j].name != "macros"
    ensures r.None? ==> forall j | 0 <= j < |slots| :: slots[j].name != "macros"
  {
    if |slots| == 0 then None
    else if slots[0].name == "macros" then Some(0)
    else match MacrosIndex(slots[1..])
      case None => None
      case Some(k) => Some(k + 1)
  }

  /** The node in a module's `macros` slot can be hoisted: every child of
      it is a macro. A plain node qualifies when its children are macros,
      and so does a kind that has no children at all. */
  predicate HoldsOnlyMacros(m: Node)
  {
    match m
    case Container(children) => forall i | 0 <= i < |children| :: children[i].Macro?
    case Text(_) => true
    case Comment(_) => true
    case Name(_) => true
    case AssignName(_) => true
    case Constant(_) => true
    case ArrayLiteral(pairs) => |pairs| == 0
    case _ => false
  }

  /** The module has a `macros` slot whose node holds only macros. */
  predicate HasMacrosSlot(slots: seq<Slot>)
  {
    match MacrosIndex(slots)
    case None => false
    case Some(p) => HoldsOnlyMacros(slots[p].node)
  }

  /** A positional assignment finds its k-th value: `values.getNode(k)`
      exists and is well formed. A plain node numbers its children in order;
      an array or hash numbers its keys and values alternately. Other kinds
      have only named children. */
  predicate HasPositional(values: Node, k: nat)
    decreases values, 0
  {
    match values
    case Container(children) => k < |children| && WellFormed(children[k])
    case ArrayLiteral(pairs) =>
      k < 2 * |pairs|
      && (if k % 2 == 0 then WellFormed(pairs[k / 2].key) else WellFormed(pairs[k / 2].value))
    case _ => false
  }

  /** The node has the shape its kind promises wherever the renderer looks
      into it: every module has a `macros` slot holding macros, and a
      positional assignment has a value for every name. These are the places
      where the renderer would otherwise fail; nodes it never visits (a
      second `macros` slot, the values of an assignment to no name) are not
      constrained. */
  predicate WellFormed(n: Node)
    decreases n, 1
  {
    match n
    case Module(slots) =>
      SlotsWellFormed(slots) && HasMacrosSlot(slots) && WellFormed(slots[MacrosIndex(slots).value].node)
    case Print(e) => WellFormed(e)
    case Text(_) => true
    case Comment(_) => true
    case Name(_) => true
    case AssignName(_) => true
    case Constant(_) => true
    case ArrayLiteral(pairs) =>
      forall i | 0 <= i < |pairs| :: WellFormed(pairs[i].key) && WellFormed(pairs[i].value)
    case For(s, k, v, b) => WellFormed(s) && WellFormed(k) && WellFormed(v) && WellFormed(b)
    case If(tests, els) =>
      (forall i | 0 <= i < |tests| :: WellFormed(tests[i]))
      && (els.Some? ==> WellFormed(els.value))
    case GetAttr(subject, attribute, access, callArgs) =>
      WellFormed(subject) && WellFormed(attribute)
      && (access == MethodAccess ==>
            forall i | 0 <= i < |callArgs| :: WellFormed(callArgs[i].value))
    case Binary(_, l, r) => WellFormed(l) && WellFormed(r)
    case Unary(_, x) => WellFormed(x)
    case FunctionCall(_, args) => ArgsWellFormed(args)
    case MethodCall(_, args) => ArgsWellFormed(args)
    case Conditional(e1, e2, e3) => WellFormed(e1) && WellFormed(e2) && WellFormed(e3)
    case Set(capture, names, values) =>
      if capture || values.Constant? then |names| == 0 || WellFormed(values)
      else forall k | 0 <= k < |names| :: HasPositional(values, k)
    case Import => true
    case Macro(_, params, body) =>
      WellFormed(body) && forall i | 0 <= i < |params| :: WellFormed(params[i].defaultValue)
    case Container(children) => forall i | 0 <= i < |children| :: WellFormed(children[i])
  }

  /** Every node of the list is well formed. */
  predicate AllWellFormed(ns: seq<Node>)
  {
    forall i | 0 <= i < |ns| :: WellFormed(ns[i])
  }

  /** Every slot of the list other than a `macros` slot holds a
      well-formed node: the slots the module renderer visits in order. */
  predicate SlotsWellFormed(slots: seq<Slot>)
    decreases slots
  {
    forall i | 0 <= i < |slots| :: slots[i].name != "macros" ==> WellFormed(slots[i].node)
  }

  /** Every argument value is well formed (keys of keyed arguments are never rendered). */
  predicate ArgsWellFormed(args: Arguments)
    decreases args
  {
    match args
    case KeyedArgs(entries) => forall i | 0 <= i < |entries| :: WellFormed(entries[i].value)
    case PlainArgs(items) => forall i | 0 <= i < |items| :: WellFormed(items[i])
  }
}
