/** Concrete templates and the PHP the renderer gives them, for the syntax
    trees the Twing front end builds from them. Each tree is written out by
    hand; the front end itself is not modelled. Long expected outputs are
    assembled from their parts in small steps, one literal join at a time. */
module Scenarios {
  import opened Wrappers
  import opened Strings
  import opened Ast
  import opened Transpiler
  import opened Registry
  import opened Execution
  import Operators
  import StatementLaws
  import ExpressionLaws

  /** A module as the front end builds it: the template body, an empty
      block list and the macros slot. */
  function Template(body: seq<Node>, macros: seq<Node>): Node
  {
    Module([Slot("body", Container(body)), Slot("blocks", Container([])),
            Slot("macros", Container(macros))])
  }

  /** Joining two or three strings puts the separator between neighbours. */
  lemma JoinTwo(a: string, b: string, sep: string)
    ensures Join([a, b], sep) == a + sep + b
  {
    assert [a, b][1..] == [b];
  }

  lemma JoinThree(a: string, b: string, c: string, sep: string)
    ensures Join([a, b, c], sep) == a + sep + b + sep + c
  {
    assert [a, b, c][1..] == [b, c];
    JoinTwo(b, c, sep);
    assert a + sep + (b + sep + c) == a + sep + b + sep + c;
  }

  // ----- prints and attribute access -----

  /** `{{ foo }}` */
  lemma PrintVariable()
    ensures WellFormed(Template([Print(Name("foo"))], []))
            && Render(Template([Print(Name("foo"))], []), false) == "<?=$foo?>"
  {
    var a := Print(Name("foo"));
    StatementLaws.PrintShape(Name("foo"), false);
    RenderOne(a);
    TemplateRender([a], []);
    assert RenderMacros([]) == "";
    PrintVariableText();
  }

  lemma PrintVariableText()
    ensures "" + ("<?=" + "$foo" + "?>") == "<?=$foo?>"
  {
  }

  /** `{{ foo.bar }}` */
  lemma PropertyAccess()
    ensures Render(Print(GetAttr(Name("foo"), Constant(CStr("bar")), AnyAccess, [])), false)
            == "<?=$foo->bar?>"
  {
  }

  /** `{{ foo["bar"] }}` */
  lemma SubscriptAccess()
    ensures Render(Print(GetAttr(Name("foo"), Constant(CStr("bar")), ArrayAccess, [])), false)
            == "<?=$foo[\"bar\"]?>"
  {
  }

  /** `{{ foo.bar() }}` */
  lemma MethodWithoutArguments()
    ensures Render(Print(GetAttr(Name("foo"), Constant(CStr("bar")), MethodAccess, [])), false)
            == "<?=$foo->bar()?>"
  {
  }

  function TwoPositional(): seq<Pair>
  {
    [Pair(Constant(CInt(0)), Constant(CInt(1))), Pair(Constant(CInt(1)), Constant(CInt(2)))]
  }

  /** Positional arguments keep only their values. */
  lemma TwoPositionalValues()
    ensures ArgsWellFormed(KeyedArgs(TwoPositional()))
    ensures RenderArgs(KeyedArgs(TwoPositional())) == "1,2"
  {
    var args := TwoPositional();
    var values := seq(|args|, i requires 0 <= i < |args| => Render(args[i].value, false));
    assert values[0] == "1" && values[1] == "2";
    assert values == ["1", "2"];
    JoinTwo("1", "2", ",");
    assert RenderArgs(KeyedArgs(args)) == Join(values, ",");
  }

  lemma MethodText()
    ensures "<?=" + ("$foo" + "->" + "bar" + "(" + "1,2" + ")") + "?>" == "<?=$foo->bar(1,2)?>"
  {
    assert "$foo" + "->" + "bar" == "$foo->bar";
    assert "$foo->bar" + "(" + "1,2" + ")" == "$foo->bar(1,2)";
  }

  /** `{{ foo.bar(1, 2) }}`: the arguments arrive keyed by position and only
      the values are written. */
  lemma MethodWithArguments()
    ensures Render(Print(GetAttr(Name("foo"), Constant(CStr("bar")), MethodAccess, TwoPositional())), false)
            == "<?=$foo->bar(1,2)?>"
  {
    var n := GetAttr(Name("foo"), Constant(CStr("bar")), MethodAccess, TwoPositional());
    ExpressionLaws.MethodForm(Name("foo"), Constant(CStr("bar")), TwoPositional(), false);
    TwoPositionalValues();
    assert Render(n, false) == "$foo" + "->" + "bar" + "(" + "1,2" + ")";
    StatementLaws.PrintShape(n, false);
    MethodText();
  }

  // ----- comments -----

  /** `{#foo#}` */
  lemma OneLineComment()
    ensures Render(Comment("foo"), false) == "<?php /*foo*/ ?>"
  {
    StatementLaws.CommentWrapsData("foo", false);
    assert "<?php /*" + "foo" + "*/ ?>" == "<?php /*foo*/ ?>";
  }

  lemma TwoLineCommentText()
    ensures "<?php /*" + "foo\nbar" + "*/ ?>" == "<?php /*foo\nbar*/ ?>"
  {
    assert "<?php /*" + "foo\nbar" == "<?php /*foo\nbar";
  }

  /** A comment spanning two lines keeps its line feed. */
  lemma TwoLineComment()
    ensures Render(Comment("foo\nbar"), false) == "<?php /*foo\nbar*/ ?>"
  {
    StatementLaws.CommentWrapsData("foo\nbar", false);
    TwoLineCommentText();
  }

  // ----- loops -----

  /** `{% for value in values %}\n{{ value }}\n{% endfor %}`: the parser
      supplies the key target `_key`. */
  function ValuesLoop(): Node
  {
    For(Name("values"), AssignName("_key"), AssignName("value"),
        Container([Print(Name("value")), Text("\n")]))
  }

  lemma LoopBody()
    ensures WellFormed(ValuesLoop().body)
    ensures Render(ValuesLoop().body, false) == "<?=" + "$value" + "?>" + ("\n" + "")
  {
    var b := ValuesLoop().body;
    assert RenderEach([Text("\n")]) == "\n" + "";
    assert b.children[1..] == [Text("\n")];
    StatementLaws.PrintShape(Name("value"), false);
  }

  lemma LoopParts()
    ensures WellFormed(ValuesLoop())
    ensures Render(ValuesLoop(), false)
            == "<?php foreach (" + "$values" + " as " + "$_key" + " => " + "$value" + "): ?>"
               + ("<?=" + "$value" + "?>" + ("\n" + "")) + "<?php endforeach; ?>"
  {
    var n := ValuesLoop();
    LoopBody();
    LoopTargets();
    StatementLaws.ForShape(n.sequence, n.keyTarget, n.valueTarget, n.body, false);
  }

  lemma LoopTargets()
    ensures WellFormed(Name("values")) && Render(Name("values"), false) == "$values"
    ensures WellFormed(AssignName("_key")) && Render(AssignName("_key"), false) == "$_key"
    ensures WellFormed(AssignName("value")) && Render(AssignName("value"), false) == "$value"
  {
  }

  lemma LoopHead()
    ensures "<?php foreach (" + "$values" + " as " + "$_key" + " => " + "$value" + "): ?>"
            == "<?php foreach ($values as $_key => $value): ?>"
  {
    assert "<?php foreach (" + "$values" == "<?php foreach ($values";
    assert "<?php foreach ($values" + " as " == "<?php foreach ($values as ";
    assert "<?php foreach ($values as " + "$_key" == "<?php foreach ($values as $_key";
    assert "<?php foreach ($values as $_key" + " => " == "<?php foreach ($values as $_key => ";
    assert "<?php foreach ($values as $_key => " + "$value" == "<?php foreach ($values as $_key => $value";
  }

  lemma LoopText()
    ensures "<?php foreach (" + "$values" + " as " + "$_key" + " => " + "$value" + "): ?>"
            + ("<?=" + "$value" + "?>" + ("\n" + "")) + "<?php endforeach; ?>"
            == "<?php foreach ($values as $_key => $value): ?><?=$value?>\n<?php endforeach; ?>"
  {
    LoopHead();
    LoopPrint();
    assert "<?php foreach ($values as $_key => $value): ?>" + "<?=$value?>\n"
           == "<?php foreach ($values as $_key => $value): ?><?=$value?>\n";
  }

  lemma LoopPrint()
    ensures "<?=" + "$value" + "?>" + ("\n" + "") == "<?=$value?>\n"
  {
    assert "<?=" + "$value" == "<?=$value";
    assert "<?=$value" + "?>" == "<?=$value?>";
  }

  lemma LoopOverValues()
    ensures WellFormed(ValuesLoop())
            && Render(ValuesLoop(), false)
               == "<?php foreach ($values as $_key => $value): ?><?=$value?>\n<?php endforeach; ?>"
  {
    LoopParts();
    LoopText();
  }

  // ----- arrays and hashes -----

  function Numbers(): seq<Pair>
  {
    [Pair(Constant(CInt(0)), Constant(CInt(1))),
     Pair(Constant(CInt(1)), Constant(CInt(2))),
     Pair(Constant(CInt(2)), Constant(CInt(3)))]
  }

  function Letters(): seq<Pair>
  {
    [Pair(Constant(CStr("a")), Constant(CInt(1))),
     Pair(Constant(CStr("b")), Constant(CInt(2))),
     Pair(Constant(CStr("c")), Constant(CInt(3)))]
  }

  lemma NumberEntries()
    ensures ExpressionLaws.Entries(Numbers()) == ["0=>1", "1=>2", "2=>3"]
  {
    var entries := ExpressionLaws.Entries(Numbers());
    assert entries[0] == "0=>1" && entries[1] == "1=>2" && entries[2] == "2=>3";
  }

  lemma LetterEntries()
    ensures ExpressionLaws.Entries(Letters()) == ["\"a\"=>1", "\"b\"=>2", "\"c\"=>3"]
  {
    var entries := ExpressionLaws.Entries(Letters());
    assert entries[0] == "\"a\"=>1" && entries[1] == "\"b\"=>2" && entries[2] == "\"c\"=>3";
  }

  lemma ArrayTexts()
    ensures "[" + Join(["0=>1", "1=>2", "2=>3"], ",") + "]" == "[0=>1,1=>2,2=>3]"
    ensures "[" + Join(["\"a\"=>1", "\"b\"=>2", "\"c\"=>3"], ",") + "]" == "[\"a\"=>1,\"b\"=>2,\"c\"=>3]"
  {
    JoinThree("0=>1", "1=>2", "2=>3", ",");
    assert "0=>1" + "," + "1=>2" + "," + "2=>3" == "0=>1,1=>2,2=>3";
    JoinThree("\"a\"=>1", "\"b\"=>2", "\"c\"=>3", ",");
    assert "\"a\"=>1" + "," + "\"b\"=>2" == "\"a\"=>1,\"b\"=>2";
    assert "\"a\"=>1,\"b\"=>2" + "," + "\"c\"=>3" == "\"a\"=>1,\"b\"=>2,\"c\"=>3";
  }

  /** `[1, 2, 3]`: list keys are the positions, written bare. */
  lemma ListLiteral()
    ensures Render(ArrayLiteral(Numbers()), false) == "[0=>1,1=>2,2=>3]"
  {
    ExpressionLaws.ArrayShape(Numbers(), false);
    NumberEntries();
    ArrayTexts();
  }

  /** `{a: 1, b:2, c:3}`: hash keys are string constants, written quoted. */
  lemma HashLiteral()
    ensures Render(ArrayLiteral(Letters()), false) == "[\"a\"=>1,\"b\"=>2,\"c\"=>3]"
  {
    ExpressionLaws.ArrayShape(Letters(), false);
    LetterEntries();
    ArrayTexts();
  }

  // ----- calls and operators -----

  /** `{{ 1 // 2 }}` */
  lemma FloorDivision()
    ensures Render(Print(Binary(FloorDiv, Constant(CInt(1)), Constant(CInt(2)))), false)
            == "<?=floor((1)/(2))?>"
  {
  }

  /** The text of the call `foo("bar")`, assembled from its pieces. */
  lemma CallText()
    ensures "<?=" + "foo" + "(" + Join(["\"bar\""], ",") + ")?>" == "<?=foo(\"bar\")?>"
  {
    assert "<?=" + "foo" + "(" == "<?=foo(";
    assert "<?=foo(" + "\"bar\"" == "<?=foo(\"bar\"";
  }

  /** `{{foo("bar")}}` is refused by a fresh transpiler, naming `foo`, and
      renders as a plain PHP call once `foo` is registered. */
  lemma RegisteredCall()
    ensures var root := Print(FunctionCall("foo", PlainArgs([Constant(CStr("bar"))])));
            && Transpile(NewRegistry(), {}, root) == Failure(UnknownFunctions({"foo"}))
            && Transpile(RegisterFunction(NewRegistry(), "foo"), {}, root) == Success("<?=foo(\"bar\")?>")
  {
    var items := [Constant(CStr("bar"))];
    assert Calls(items[0]) == {};
    RegistrationEnablesCall(NewRegistry(), {}, "foo", items);
    var values := seq(|items|, i requires 0 <= i < |items| => Render(items[i], false));
    assert values[0] == "\"bar\"";
    assert values == ["\"bar\""];
    assert RenderArgs(PlainArgs(items)) == Join(["\"bar\""], ",");
    CallText();
  }

  // ----- if -----

  function FooIsFive(): Node
  {
    If([Binary(Equal, Name("foo"), Constant(CInt(5))), Text("    TRUE\n")], None)
  }

  lemma EqualityText()
    ensures "(" + "$foo" + ")" + "==" + "(" + "5" + ")" == "($foo)==(5)"
  {
    assert "(" + "$foo" + ")" == "($foo)";
    assert "($foo)" + "==" + "(" == "($foo)==(";
  }

  lemma FooIsFiveTest()
    ensures Render(Binary(Equal, Name("foo"), Constant(CInt(5))), false) == "($foo)==(5)"
  {
    ExpressionLaws.BinaryShape(Equal, Name("foo"), Constant(CInt(5)), false);
    assert Render(Constant(CInt(5)), false) == "5";
    assert Operators.BinaryToken(Equal) == "==";
    EqualityText();
  }

  /** An if with one test, one body and no else: the opening clause and `endif`. */
  lemma SingleBranch(t: Node, b: Node)
    requires WellFormed(t) && WellFormed(b)
    ensures WellFormed(If([t, b], None))
    ensures StatementLaws.IfClauses(If([t, b], None))
            == ["<?php if (" + Render(t, false) + "): ?>" + Render(b, true), "<?php endif; ?>"]
  {
    var tests := [t, b];
    assert tests[2..] == [];
    StatementLaws.ClausesUnfold(tests, true);
  }

  lemma IfHeadText()
    ensures "<?php if (" + "($foo)==(5)" + "): ?>" + "    TRUE\n" == "<?php if (($foo)==(5)): ?>    TRUE\n"
  {
    assert "<?php if (" + "($foo)==(5)" == "<?php if (($foo)==(5)";
    assert "<?php if (($foo)==(5)" + "): ?>" == "<?php if (($foo)==(5)): ?>";
  }

  lemma FooIsFiveClauses()
    ensures StatementLaws.IfClauses(FooIsFive())
            == ["<?php if (($foo)==(5)): ?>    TRUE\n", "<?php endif; ?>"]
  {
    SingleBranch(Binary(Equal, Name("foo"), Constant(CInt(5))), Text("    TRUE\n"));
    FooIsFiveTest();
    IfHeadText();
  }

  lemma IfText()
    ensures Flatten(["<?php if (($foo)==(5)): ?>    TRUE\n", "<?php endif; ?>"])
            == "<?php if (($foo)==(5)): ?>    TRUE\n<?php endif; ?>"
  {
    JoinTwo("<?php if (($foo)==(5)): ?>    TRUE\n", "<?php endif; ?>", "");
    assert "<?php if (($foo)==(5)): ?>    TRUE\n" + "" + "<?php endif; ?>"
           == "<?php if (($foo)==(5)): ?>    TRUE\n<?php endif; ?>";
  }

  /** `{% if (foo == 5) %}\n    TRUE\n{% endif %}`: both operands of the
      comparison are parenthesised. */
  lemma IfOnly()
    ensures Render(FooIsFive(), false) == "<?php if (($foo)==(5)): ?>    TRUE\n<?php endif; ?>"
  {
    StatementLaws.IfRendersClauses(FooIsFive(), false);
    FooIsFiveClauses();
    IfText();
  }

  /** The expected output written next to that template, `<?php if ($foo==5): ?>…`,
      is not what the renderer produces: the operands keep their parentheses. */
  lemma IfOnlyDiffersFromWrittenExpectation()
    ensures Render(FooIsFive(), false) != "<?php if ($foo==5): ?>    TRUE\n<?php endif; ?>"
  {
    IfOnly();
    WrittenExpectationDiffers();
  }

  lemma WrittenExpectationDiffers()
    ensures "<?php if (($foo)==(5)): ?>    TRUE\n<?php endif; ?>"
            != "<?php if ($foo==5): ?>    TRUE\n<?php endif; ?>"
  {
    assert "<?php if (($foo)==(5)): ?>    TRUE\n<?php endif; ?>"[10] == '(';
  }

  // ----- set -----

  lemma CaptureParts()
    ensures Render(Container([Text("Foo "), Print(Name("bar"))]), false) == "Foo <?=$bar?>"
  {
    assert RenderEach([Print(Name("bar"))]) == "<?=$bar?>";
  }

  lemma CaptureText()
    ensures "<?php ob_start(); ?>" + "Foo <?=$bar?>" + ("<?php $" + "foo") + " = ob_get_clean() ?>"
            == "<?php ob_start(); ?>Foo <?=$bar?><?php $foo = ob_get_clean() ?>"
  {
    CaptureHead();
    CaptureTail();
    var head, tail := "<?php ob_start(); ?>" + "Foo <?=$bar?>", ("<?php $" + "foo") + " = ob_get_clean() ?>";
    assert head + ("<?php $" + "foo") + " = ob_get_clean() ?>" == head + tail;
  }

  lemma CaptureHead()
    ensures "<?php ob_start(); ?>" + "Foo <?=$bar?>" == "<?php ob_start(); ?>Foo <?=$bar?>"
  {
  }

  lemma CaptureTail()
    ensures ("<?php $" + "foo") + " = ob_get_clean() ?>" == "<?php $foo = ob_get_clean() ?>"
  {
    assert "<?php $" + "foo" == "<?php $foo";
  }

  /** An assignment to a single name is that name's assignment alone. */
  lemma SingleName(n: Node)
    requires n.Set? && WellFormed(n) && |n.names| == 1
    ensures Render(n, false) == StatementLaws.Assignment(n, 0)
  {
    StatementLaws.SetSegments(n, false);
    var lines := seq(|n.names|, k requires 0 <= k < |n.names| => StatementLaws.Assignment(n, k));
    assert lines == [StatementLaws.Assignment(n, 0)];
  }

  lemma CaptureLine()
    ensures var n := Set(true, ["foo"], Container([Text("Foo "), Print(Name("bar"))]));
            StatementLaws.Assignment(n, 0)
            == "<?php ob_start(); ?>Foo <?=$bar?><?php $foo = ob_get_clean() ?>"
  {
    CaptureParts();
    CaptureText();
  }

  /** `{% set foo %}Foo {{ bar }}{% endset %}`: output buffering captures the body. */
  lemma CaptureAssignment()
    ensures Render(Set(true, ["foo"], Container([Text("Foo "), Print(Name("bar"))])), false)
            == "<?php ob_start(); ?>Foo <?=$bar?><?php $foo = ob_get_clean() ?>"
  {
    SingleName(Set(true, ["foo"], Container([Text("Foo "), Print(Name("bar"))])));
    CaptureLine();
  }

  lemma PositionalText()
    ensures Join([("<?php $" + "a") + " = " + "1" + " ?>", ("<?php $" + "b") + " = " + "2" + " ?>"], "\n")
            == "<?php $a = 1 ?>\n<?php $b = 2 ?>"
  {
    assert ("<?php $" + "a") + " = " + "1" + " ?>" == "<?php $a = 1 ?>";
    assert ("<?php $" + "b") + " = " + "2" + " ?>" == "<?php $b = 2 ?>";
    JoinTwo("<?php $a = 1 ?>", "<?php $b = 2 ?>", "\n");
    assert "<?php $a = 1 ?>" + "\n" + "<?php $b = 2 ?>" == "<?php $a = 1 ?>\n<?php $b = 2 ?>";
  }

  /** `{% set a, b = 1, 2 %}`: one assignment per name, one per line. */
  lemma PositionalAssignment()
    ensures Render(Set(false, ["a", "b"], Container([Constant(CInt(1)), Constant(CInt(2))])), false)
            == "<?php $a = 1 ?>\n<?php $b = 2 ?>"
  {
    var n := Set(false, ["a", "b"], Container([Constant(CInt(1)), Constant(CInt(2))]));
    StatementLaws.SetSegments(n, false);
    var lines := seq(|n.names|, k requires 0 <= k < |n.names| => StatementLaws.Assignment(n, k));
    assert lines[0] == ("<?php $" + "a") + " = " + "1" + " ?>";
    assert lines[1] == ("<?php $" + "b") + " = " + "2" + " ?>";
    assert lines == [lines[0], lines[1]];
    PositionalText();
  }

  // ----- macros -----

  function FooMacro(): Node
  {
    Macro("foo", [Param("arg1", Constant(CInt(1)))], Text("Foo"))
  }

  lemma MacroParts()
    ensures RenderMacro(FooMacro())
            == "<?php $" + "foo" + " = function(" + "$arg1=1" + ") use (&$" + "foo" + ") { ?>\n"
               + "Foo" + "<?php } ?>\n"
  {
    var params := FooMacro().params;
    var defaults := seq(|params|, i requires 0 <= i < |params| =>
                          "$" + params[i].name + "=" + Render(params[i].defaultValue, false));
    assert defaults[0] == "$arg1=1";
    assert defaults == ["$arg1=1"];
  }

  lemma MacroText()
    ensures "<?php $" + "foo" + " = function(" + "$arg1=1" + ") use (&$" + "foo" + ") { ?>\n"
            + "Foo" + "<?php } ?>\n"
            == "<?php $foo = function($arg1=1) use (&$foo) { ?>\nFoo<?php } ?>\n"
  {
    assert "<?php $" + "foo" == "<?php $foo";
    assert "<?php $foo" + " = function(" == "<?php $foo = function(";
    assert "<?php $foo = function(" + "$arg1=1" == "<?php $foo = function($arg1=1";
    assert "<?php $foo = function($arg1=1" + ") use (&$" == "<?php $foo = function($arg1=1) use (&$";
    assert "<?php $foo = function($arg1=1) use (&$" + "foo" == "<?php $foo = function($arg1=1) use (&$foo";
    assert "<?php $foo = function($arg1=1) use (&$foo" + ") { ?>\n"
           == "<?php $foo = function($arg1=1) use (&$foo) { ?>\n";
    assert "<?php $foo = function($arg1=1) use (&$foo) { ?>\n" + "Foo"
           == "<?php $foo = function($arg1=1) use (&$foo) { ?>\nFoo";
    assert "<?php $foo = function($arg1=1) use (&$foo) { ?>\nFoo" + "<?php } ?>\n"
           == "<?php $foo = function($arg1=1) use (&$foo) { ?>\nFoo<?php } ?>\n";
  }

  lemma CallerParts()
    ensures Render(Print(MethodCall("foo", KeyedArgs([]))), false) == "<?=$foo()?>"
  {
    assert RenderArgs(KeyedArgs([])) == "";
    assert Render(MethodCall("foo", KeyedArgs([])), false) == "$foo()";
  }

  lemma HoistingText()
    ensures "<?php $foo = function($arg1=1) use (&$foo) { ?>\nFoo<?php } ?>\n" + "" + "<?=$foo()?>"
            == "<?php $foo = function($arg1=1) use (&$foo) { ?>\nFoo<?php } ?>\n<?=$foo()?>"
  {
  }

  /** A front-end module is well formed when its body is and its macros are
      macros; its `macros` slot is the third. */
  lemma TemplateWellFormed(body: seq<Node>, macros: seq<Node>)
    requires AllWellFormed(body)
    requires forall i | 0 <= i < |macros| :: macros[i].Macro? && WellFormed(macros[i])
    ensures WellFormed(Template(body, macros))
    ensures MacrosIndex(Template(body, macros).slots) == Some(2)
  {
    TemplateMacrosIndex(body, macros);
    TemplateMacrosSlot(body, macros);
    TemplateSlotsWellFormed(body, macros);
  }

  /** The `macros` slot of a front-end module holds well-formed macros. */
  lemma TemplateMacrosSlot(body: seq<Node>, macros: seq<Node>)
    requires forall i | 0 <= i < |macros| :: macros[i].Macro? && WellFormed(macros[i])
    ensures HasMacrosSlot(Template(body, macros).slots)
    ensures WellFormed(Template(body, macros).slots[2].node)
  {
    TemplateMacrosIndex(body, macros);
    assert HoldsOnlyMacros(Container(macros));
  }

  /** The slots a front-end module visits in order are well formed. */
  lemma TemplateSlotsWellFormed(body: seq<Node>, macros: seq<Node>)
    requires AllWellFormed(body)
    ensures SlotsWellFormed(Template(body, macros).slots)
  {
    var slots := Template(body, macros).slots;
    assert WellFormed(slots[0].node) && WellFormed(slots[1].node);
  }

  /** The `macros` slot of a front-end module is its third. */
  lemma TemplateMacrosIndex(body: seq<Node>, macros: seq<Node>)
    ensures MacrosIndex(Template(body, macros).slots) == Some(2)
  {
    var slots := Template(body, macros).slots;
    assert slots[1..][1..] == [slots[2]];
    assert MacrosIndex([slots[2]]) == Some(0);
    assert MacrosIndex(slots[1..]) == Some(1);
  }

  /** The empty block list renders nothing. */
  lemma EmptyBlocks()
    ensures SlotsWellFormed([Slot("blocks", Container([]))])
    ensures RenderSlots([Slot("blocks", Container([]))]) == ""
  {
    assert [Slot("blocks", Container([]))][1..] == [];
    assert Render(Container([]), false) == "";
  }

  /** The slots of a front-end module render as its body: the block list is
      empty and the `macros` slot renders nothing. */
  lemma TemplateSlots(body: seq<Node>, macros: seq<Node>)
    requires AllWellFormed(body)
    requires forall i | 0 <= i < |macros| :: macros[i].Macro? && WellFormed(macros[i])
    ensures SlotsWellFormed(Template(body, macros).slots)
    ensures RenderSlots(Template(body, macros).slots) == RenderEach(body)
  {
    var s := Template(body, macros).slots;
    var a := [s[0], s[1]];
    assert WellFormed(s[0].node) && WellFormed(s[2].node);
    EmptyBlocks();
    StatementLaws.SkipMacrosSlot(a, s[2], []);
    assert s == a + ([s[2]] + []);
    assert a[1..] == [s[1]];
    assert RenderSlots(a) == RenderEach(body) + RenderSlots([s[1]]);
  }

  /** A front-end module renders its macros, then its body. */
  lemma TemplateRender(body: seq<Node>, macros: seq<Node>)
    requires AllWellFormed(body)
    requires forall i | 0 <= i < |macros| :: macros[i].Macro? && WellFormed(macros[i])
    ensures WellFormed(Template(body, macros))
    ensures Render(Template(body, macros), false) == RenderMacros(macros) + RenderEach(body)
  {
    var n := Template(body, macros);
    TemplateWellFormed(body, macros);
    TemplateSlots(body, macros);
    assert Render(n, false) == RenderModule(n);
    assert RenderModule(n) == RenderMacros(macros) + RenderSlots(n.slots);
  }

  /** A body of one node renders as that node. */
  lemma RenderOne(a: Node)
    requires WellFormed(a)
    ensures AllWellFormed([a]) && RenderEach([a]) == Render(a, false)
  {
    assert [a][1..] == [];
    assert Render(a, false) + "" == Render(a, false);
  }

  /** `{{ _self.foo() }}` followed by `{% macro foo(arg1=1) %}Foo{% endmacro %}`. */
  function CallerAndMacro(): Node
  {
    Template([Print(MethodCall("foo", KeyedArgs([])))], [FooMacro()])
  }

  lemma HoistingParts()
    ensures WellFormed(CallerAndMacro())
            && Render(CallerAndMacro(), false) == RenderMacro(FooMacro()) + "" + "<?=$foo()?>"
  {
    var a := Print(MethodCall("foo", KeyedArgs([])));
    assert WellFormed(a);
    assert WellFormed(FooMacro());
    RenderOne(a);
    TemplateRender([a], [FooMacro()]);
    assert RenderMacros([FooMacro()]) == RenderMacro(FooMacro()) + "";
    CallerParts();
  }

  /** The closure is declared before the call that uses it. */
  lemma MacroHoisting()
    ensures TranspileTree(CallerAndMacro())
            == Success("<?php $foo = function($arg1=1) use (&$foo) { ?>\nFoo<?php } ?>\n<?=$foo()?>")
  {
    HoistingParts();
    MacroParts();
    MacroText();
    HoistingText();
  }

  // ----- edge trees -----

  /** Trees the renderer accepts although they look incomplete: a capture
      assigned to no name never reads its values, a `macros` slot without
      children hoists nothing, and `getNode(0)` of a hash is its first key. */
  lemma EdgeTrees()
    ensures TranspileTree(Set(true, [], Module([]))) == Success("")
    ensures TranspileTree(Module([Slot("macros", Text("x"))])) == Success("")
    ensures TranspileTree(Set(false, ["a"], ArrayLiteral([Pair(Constant(CInt(0)), Constant(CInt(7)))])))
            == Success("<?php $a = 0 ?>")
  {
    ChildlessMacrosSlot();
    HashPositionalValue();
  }

  lemma ChildlessMacrosSlot()
    ensures WellFormed(Module([Slot("macros", Text("x"))]))
    ensures Render(Module([Slot("macros", Text("x"))]), false) == ""
  {
    var m := Module([Slot("macros", Text("x"))]);
    assert MacrosIndex(m.slots) == Some(0);
    assert RenderSlots(m.slots[1..]) == "";
    assert Render(m, false) == RenderModule(m) == "";
  }

  lemma HashPositionalValue()
    ensures WellFormed(Set(false, ["a"], ArrayLiteral([Pair(Constant(CInt(0)), Constant(CInt(7)))])))
    ensures Render(Set(false, ["a"], ArrayLiteral([Pair(Constant(CInt(0)), Constant(CInt(7)))])), false)
            == "<?php $a = 0 ?>"
  {
    var n := Set(false, ["a"], ArrayLiteral([Pair(Constant(CInt(0)), Constant(CInt(7)))]));
    assert HasPositional(n.values, 0);
    StatementLaws.SetSegments(n, false);
    var lines := seq(|n.names|, k requires 0 <= k < |n.names| => StatementLaws.Assignment(n, k));
    assert lines[0] == ("<?php $" + "a") + " = " + "0" + " ?>";
    assert ("<?php $" + "a") + " = " + "0" + " ?>" == "<?php $a = 0 ?>";
    assert lines == ["<?php $a = 0 ?>"];
    assert Join(["<?php $a = 0 ?>"], "\n") == "<?php $a = 0 ?>";
  }

  // ----- refusals -----

  /** A positional assignment with fewer values than names is refused, and
      so is a module without a macros slot. */
  lemma MalformedTrees()
    ensures TranspileTree(Set(false, ["a", "b"], Container([Constant(CInt(1))]))) == Failure(MalformedNode)
    ensures TranspileTree(Module([Slot("body", Container([]))])) == Failure(MalformedNode)
  {
  }
}
