/** The transpiler's function registry and its entry point: a template may
    only call functions that were registered (or that the Twing environment
    provides itself); any other call makes the template fail to parse, before
    anything is rendered. */
module Registry {
  import opened Wrappers
  import opened Ast
  import opened Transpiler
  import opened Execution

  /** The names handed to `registerFunction`, as a set: order and repeats
      do not matter. */
  datatype Registry = Registry(functions: set<string>)

  /** A fresh transpiler knows no function. */
  function NewRegistry(): (r: Registry)
    ensures forall name :: name !in r.functions
  {
    Registry({})
  }

  /** Registering adds exactly the one name and forgets none. */
  function RegisterFunction(reg: Registry, name: string): (r: Registry)
    ensures name in r.functions
    ensures forall other :: other in r.functions <==> other == name || other in reg.functions
  {
    Registry(reg.functions + {name})
  }

  /** The union of a list of sets. */
  function UnionAll(sets: seq<set<string>>): (u: set<string>)
    ensures forall x :: x in u <==> exists i | 0 <= i < |sets| :: x in sets[i]
  {
    if |sets| == 0 then {}
    else
      var rest := UnionAll(sets[1..]);
      assert forall x | x in rest :: exists i | 1 <= i < |sets| :: x in sets[i] by {
        forall x | x in rest ensures exists i | 1 <= i < |sets| :: x in sets[i] {
          var k :| 0 <= k < |sets[1..]| && x in sets[1..][k];
          assert x in sets[k + 1];
        }
      }
      sets[0] + rest
  }

  /** The names of every function call anywhere in the tree: the names the
      parser looks up in the environment. */
  function Calls(n: Node): set<string>
    decreases n
  {
    match n
    case Module(slots) =>
      UnionAll(seq(|slots|, i requires 0 <= i < |slots| => Calls(slots[i].node)))
    case Print(e) => Calls(e)
    case Text(_) => {}
    case Comment(_) => {}
    case Name(_) => {}
    case AssignName(_) => {}
    case Constant(_) => {}
    case ArrayLiteral(pairs) =>
      UnionAll(seq(|pairs|, i requires 0 <= i < |pairs| => Calls(pairs[i].key) + Calls(pairs[i].value)))
    case For(s, k, v, b) => Calls(s) + Calls(k) + Calls(v) + Calls(b)
    case If(tests, els) =>
      UnionAll(seq(|tests|, i requires 0 <= i < |tests| => Calls(tests[i])))
      + (if els.Some? then Calls(els.value) else {})
    case GetAttr(subject, attribute, _, callArgs) =>
      Calls(subject) + Calls(attribute)
      + UnionAll(seq(|callArgs|, i requires 0 <= i < |callArgs| =>
                       Calls(callArgs[i].key) + Calls(callArgs[i].value)))
    case Binary(_, l, r) => Calls(l) + Calls(r)
    case Unary(_, x) => Calls(x)
    case FunctionCall(name, args) => {name} + ArgCalls(args)
    case MethodCall(_, args) => ArgCalls(args)
    case Conditional(e1, e2, e3) => Calls(e1) + Calls(e2) + Calls(e3)
    case Set(_, _, values) => Calls(values)
    case Import => {}
    case Macro(_, params, body) =>
      UnionAll(seq(|params|, i requires 0 <= i < |params| => Calls(params[i].defaultValue)))
      + Calls(body)
    case Container(children) =>
      UnionAll(seq(|children|, i requires 0 <= i < |children| => Calls(children[i])))
  }

  /** The calls inside a call's arguments, keys included. */
  function ArgCalls(args: Arguments): set<string>
    decreases args
  {
    match args
    case KeyedArgs(entries) =>
      UnionAll(seq(|entries|, i requires 0 <= i < |entries| =>
                     Calls(entries[i].key) + Calls(entries[i].value)))
    case PlainArgs(items) =>
      UnionAll(seq(|items|, i requires 0 <= i < |items| => Calls(items[i])))
  }

  /** Why a template produced no output. */
  datatype Rejection =
    | UnknownFunctions(names: set<string>)  // the parser met calls to these names
    | Malformed                             // the renderer would have failed

  /** The entry point on an already parsed tree: the parse fails on calls to
      functions neither registered nor built into the environment, and the
      render fails on malformed trees; otherwise the output is the render. */
  function Transpile(reg: Registry, builtins: set<string>, root: Node): (r: Result<string, Rejection>)
    ensures r.Success? <==> Calls(root) <= reg.functions + builtins && WellFormed(root)
    ensures r.Success? ==> r.value == Render(root, false)
    ensures r.Failure? && r.error.UnknownFunctions? ==>
              r.error.names != {}
              && forall f :: f in r.error.names <==> f in Calls(root) && f !in reg.functions && f !in builtins
    ensures r.Failure? && r.error.Malformed? ==> !WellFormed(root) && Calls(root) <= reg.functions + builtins
  {
    var unknown := Calls(root) - reg.functions - builtins;
    assert unknown == {} <==> Calls(root) <= reg.functions + builtins by {
      if unknown == {} {
        forall f | f in Calls(root) ensures f in reg.functions + builtins {
          assert f !in unknown;
        }
      }
    }
    if unknown != {} then Failure(UnknownFunctions(unknown))
    else match TranspileTree(root)
      case Success(out) => Success(out)
      case Failure(_) => Failure(Malformed)
  }

  /** Registering the same name twice is registering it once, and the order
      of registration does not matter. */
  lemma RegistrationIsASet(reg: Registry, a: string, b: string)
    ensures RegisterFunction(RegisterFunction(reg, a), a) == RegisterFunction(reg, a)
    ensures RegisterFunction(RegisterFunction(reg, a), b) == RegisterFunction(RegisterFunction(reg, b), a)
  {
  }

  /** Registering more functions never turns an accepted template into a
      rejected one, and never changes its output. */
  lemma RegistrationIsMonotone(reg: Registry, builtins: set<string>, root: Node, name: string)
    requires Transpile(reg, builtins, root).Success?
    ensures Transpile(RegisterFunction(reg, name), builtins, root) == Transpile(reg, builtins, root)
  {
  }

  /** A call to `name` is rejected, naming it, until `name` is registered,
      and renders as a plain call afterwards. */
  lemma RegistrationEnablesCall(reg: Registry, builtins: set<string>, name: string, items: seq<Node>)
    requires name !in reg.functions && name !in builtins
    requires AllWellFormed(items)
    requires forall i | 0 <= i < |items| :: Calls(items[i]) <= reg.functions + builtins
    ensures var root := Print(FunctionCall(name, PlainArgs(items)));
            && Transpile(reg, builtins, root) == Failure(UnknownFunctions({name}))
            && Transpile(RegisterFunction(reg, name), builtins, root)
               == Success("<?=" + name + "(" + RenderArgs(PlainArgs(items)) + ")?>")
  {
    var root := Print(FunctionCall(name, PlainArgs(items)));
    var inner := ArgCalls(PlainArgs(items));
    assert Calls(root) == {name} + inner;
    forall f | f in inner ensures f in reg.functions + builtins {
      var i :| 0 <= i < |items| && f in Calls(items[i]);
    }
    assert Calls(root) - reg.functions - builtins == {name};
    assert Calls(root) <= RegisterFunction(reg, name).functions + builtins;
    assert WellFormed(root);
    var call := name + "(" + RenderArgs(PlainArgs(items)) + ")";
    assert Render(root.expr, false) == RenderFunctionCall(root.expr) == call;
    assert Render(root, false) == RenderPrint(root) == "<?=" + call + "?>";
    assert "<?=" + call + "?>" == "<?=" + name + "(" + RenderArgs(PlainArgs(items)) + ")?>";
    assert Calls(root) - reg.functions - builtins == {name};
  }
}
