/** What the expression renderers promise: the operator shapes, the three
    attribute-access forms, argument flattening, and the fact that raw mode
    changes nothing but the quoting of string constants. */
module ExpressionLaws {
  import opened Strings
  import opened Ast
  import opened Operators
  import opened Transpiler

  /** Raw mode only drops the quotes around a string constant: every other
      node renders the same either way. */
  lemma RawOnlyUnquotesStrings(n: Node)
    requires WellFormed(n)
    ensures Render(n, true) != Render(n, false) <==> n.Constant? && n.value.CStr?
    ensures n.Constant? && n.value.CStr? ==> Render(n, false) == "\"" + Render(n, true) + "\""
  {
    if n.Constant? && n.value.CStr? {
      assert |Render(n, false)| == |Render(n, true)| + 2;
    }
  }

  /** Names and assignment targets always carry the `$` prefix, raw or not. */
  lemma NamesAreVariables(x: string, raw: bool)
    ensures Render(Name(x), raw) == "$" + x
    ensures Render(AssignName(x), raw) == "$" + x
  {
  }

  /** Distinct variable names give distinct variables: the `$` prefix loses nothing. */
  lemma NamesDistinct(x: string, y: string, raw: bool)
    ensures Render(Name(x), raw) == Render(Name(y), raw) <==> x == y
  {
    NamesAreVariables(x, raw);
    NamesAreVariables(y, raw);
    Cancel("$", x, y, "");
  }

  /** Constants render as `String(value)`; a string is quoted (without any
      escaping) unless raw, an integer is its decimal numeral. */
  lemma ConstantForms(s: string, i: SafeInteger, raw: bool)
    ensures Render(Constant(CStr(s)), false) == "\"" + s + "\""
    ensures Render(Constant(CStr(s)), true) == s
    ensures ParseInt(Render(Constant(CInt(i)), raw)) == i
    ensures Render(Constant(CBool(true)), raw) == "true"
    ensures Render(Constant(CBool(false)), raw) == "false"
    ensures Render(Constant(CNull), raw) == "null"
  {
    IntToStringRoundTrip(i);
  }

  /** The text of a binary expression around operand texts `left` and `right`. */
  function BinaryText(op: BinaryOp, left: string, right: string): string
  {
    BinaryPrefix(op) + "(" + left + ")" + BinaryToken(op) + "(" + right + ")" + BinarySuffix(op)
  }

  /** A binary expression renders as the text of its operator around its
      operands' renders. */
  lemma BinaryRendersText(op: BinaryOp, l: Node, r: Node, raw: bool)
    requires WellFormed(l) && WellFormed(r)
    ensures Render(Binary(op, l, r), raw) == BinaryText(op, Render(l, false), Render(r, false))
  {
    assert Render(Binary(op, l, r), raw) == RenderBinary(Binary(op, l, r));
  }

  /** A binary operator other than floor division renders as its two
      operands in parentheses around the operator's PHP spelling. */
  lemma BinaryShape(op: BinaryOp, l: Node, r: Node, raw: bool)
    requires WellFormed(l) && WellFormed(r)
    requires op != FloorDiv
    ensures Render(Binary(op, l, r), raw)
            == "(" + Render(l, false) + ")" + BinaryToken(op) + "(" + Render(r, false) + ")"
  {
    BinaryRendersText(op, l, r, raw);
    BinaryTextPlain(op, Render(l, false), Render(r, false));
  }

  /** Floor division is division wrapped in PHP's `floor`. */
  lemma FloorDivWrapsDiv(l: Node, r: Node, raw: bool)
    requires WellFormed(l) && WellFormed(r)
    ensures Render(Binary(FloorDiv, l, r), raw) == "floor(" + Render(Binary(Div, l, r), raw) + ")"
  {
    BinaryRendersText(FloorDiv, l, r, raw);
    BinaryRendersText(Div, l, r, raw);
  }

  /** Between fixed operand texts, the operator text is determined by the whole. */
  lemma OperatorCancels(left: string, right: string, ta: string, tb: string)
    requires "(" + left + ")" + ta + "(" + right + ")" == "(" + left + ")" + tb + "(" + right + ")"
    ensures ta == tb
  {
    var x := "(" + left + ")" + ta + "(" + right + ")";
    assert |ta| == |tb|;
    assert x[|left| + 2 .. |left| + 2 + |ta|] == ta;
    assert x[|left| + 2 .. |left| + 2 + |tb|] == tb;
  }

  /** Floor division's text starts with `f`, every other operator's with `(`. */
  lemma BinaryTextFirstChar(op: BinaryOp, left: string, right: string)
    ensures |BinaryText(op, left, right)| > 0
    ensures BinaryText(op, left, right)[0] == if op == FloorDiv then 'f' else '('
  {
    assert BinaryPrefix(op) == if op == FloorDiv then "floor(" else "";
  }

  /** Without floor division's wrapper the text is the operands around the spelling. */
  lemma BinaryTextPlain(op: BinaryOp, left: string, right: string)
    requires op != FloorDiv
    ensures BinaryText(op, left, right) == "(" + left + ")" + BinaryToken(op) + "(" + right + ")"
  {
    assert BinaryPrefix(op) == "" && BinarySuffix(op) == "";
  }

  /** Two operators give the same text around the same operands only when
      they are the same operator. */
  lemma BinaryTextsDistinct(a: BinaryOp, b: BinaryOp, left: string, right: string)
    ensures BinaryText(a, left, right) == BinaryText(b, left, right) <==> a == b
  {
    if a != b && BinaryText(a, left, right) == BinaryText(b, left, right) {
      BinaryTextFirstChar(a, left, right);
      BinaryTextFirstChar(b, left, right);
      if a != FloorDiv && b != FloorDiv {
        BinaryTextPlain(a, left, right);
        BinaryTextPlain(b, left, right);
        OperatorCancels(left, right, BinaryToken(a), BinaryToken(b));
        BinaryTokensDistinct(a, b);
      }
    }
  }

  /** Two binary expressions over the same operands render alike exactly
      when they use the same operator: the output never conflates two
      operators, floor division and division included. */
  lemma BinaryOperatorsDistinguishable(a: BinaryOp, b: BinaryOp, l: Node, r: Node)
    requires WellFormed(l) && WellFormed(r)
    ensures Render(Binary(a, l, r), false) == Render(Binary(b, l, r), false) <==> a == b
  {
    BinaryRendersText(a, l, r, false);
    BinaryRendersText(b, l, r, false);
    BinaryTextsDistinct(a, b, Render(l, false), Render(r, false));
  }

  /** A unary operator renders as its spelling before the parenthesised operand. */
  lemma UnaryShape(op: UnaryOp, x: Node, raw: bool)
    requires WellFormed(x)
    ensures Render(Unary(op, x), raw) == UnaryToken(op) + "(" + Render(x, false) + ")"
  {
    assert Render(Unary(op, x), raw) == RenderUnary(Unary(op, x));
  }

  /** Two unary expressions over the same operand render alike exactly when
      they use the same operator. */
  lemma UnaryOperatorsDistinguishable(a: UnaryOp, b: UnaryOp, x: Node)
    requires WellFormed(x)
    ensures Render(Unary(a, x), false) == Render(Unary(b, x), false) <==> a == b
  {
    UnaryShape(a, x, false);
    UnaryShape(b, x, false);
    UnaryTokensDistinct(a, b);
    if Render(Unary(a, x), false) == Render(Unary(b, x), false) {
      assert Render(Unary(a, x), false)[0] == UnaryToken(a)[0];
      assert Render(Unary(b, x), false)[0] == UnaryToken(b)[0];
    }
  }

  /** A print's expression is recoverable: equal prints mean equal expression renders. */
  lemma PrintInjective(e1: Node, e2: Node)
    requires WellFormed(e1) && WellFormed(e2)
    ensures Render(Print(e1), false) == Render(Print(e2), false) <==> Render(e1, false) == Render(e2, false)
  {
    var x1, x2 := Render(e1, false), Render(e2, false);
    assert Render(Print(e1), false) == RenderPrint(Print(e1)) == "<?=" + x1 + "?>";
    assert Render(Print(e2), false) == RenderPrint(Print(e2)) == "<?=" + x2 + "?>";
    Cancel("<?=", x1, x2, "?>");
  }

  /** A unary expression's operand is recoverable under a fixed operator. */
  lemma UnaryOperandInjective(op: UnaryOp, e1: Node, e2: Node)
    requires WellFormed(e1) && WellFormed(e2)
    ensures Render(Unary(op, e1), false) == Render(Unary(op, e2), false) <==> Render(e1, false) == Render(e2, false)
  {
    UnaryShape(op, e1, false);
    UnaryShape(op, e2, false);
    Cancel(UnaryToken(op) + "(", Render(e1, false), Render(e2, false), ")");
  }

  /** A loop's body is recoverable when sequence and targets are fixed. */
  lemma ForBodyInjective(s: Node, k: Node, v: Node, b1: Node, b2: Node)
    requires WellFormed(s) && WellFormed(k) && WellFormed(v) && WellFormed(b1) && WellFormed(b2)
    ensures Render(For(s, k, v, b1), false) == Render(For(s, k, v, b2), false)
            <==> Render(b1, false) == Render(b2, false)
  {
    var x1, x2 := Render(b1, false), Render(b2, false);
    var head := "<?php foreach (" + Render(s, false) + " as " + Render(k, false) + " => "
                + Render(v, false) + "): ?>";
    assert Render(For(s, k, v, b1), false) == RenderFor(For(s, k, v, b1)) == head + x1 + "<?php endforeach; ?>";
    assert Render(For(s, k, v, b2), false) == RenderFor(For(s, k, v, b2)) == head + x2 + "<?php endforeach; ?>";
    Cancel(head, x1, x2, "<?php endforeach; ?>");
  }

  /** The comma-joined values of a call's arguments, in order. */
  function ArgValues(entries: seq<Pair>): seq<Node>
  {
    seq(|entries|, i requires 0 <= i < |entries| => entries[i].value)
  }

  /** Keyed arguments render like the plain list of their values: keys are dropped. */
  lemma ArgumentsKeepOnlyValues(entries: seq<Pair>)
    requires forall i | 0 <= i < |entries| :: WellFormed(entries[i].value)
    ensures ArgsWellFormed(PlainArgs(ArgValues(entries)))
    ensures RenderArgs(KeyedArgs(entries)) == RenderArgs(PlainArgs(ArgValues(entries)))
  {
    var values := ArgValues(entries);
    assert seq(|entries|, i requires 0 <= i < |entries| => Render(entries[i].value, false))
        == seq(|values|, i requires 0 <= i < |values| => Render(values[i], false));
  }

  lemma PropertyForm(subject: Node, attribute: Node, callArgs: seq<Pair>, raw: bool)
    requires WellFormed(subject) && WellFormed(attribute)
    ensures Render(GetAttr(subject, attribute, AnyAccess, callArgs), raw)
            == Render(subject, false) + "->" + Render(attribute, true)
  {
    assert Render(GetAttr(subject, attribute, AnyAccess, callArgs), raw)
        == RenderGetAttr(GetAttr(subject, attribute, AnyAccess, callArgs));
    var s, a := Render(subject, false), Render(attribute, true);
    assert Render(GetAttr(subject, attribute, AnyAccess, callArgs), raw) == s + ("->" + a) + "";
    assert s + ("->" + a) + "" == s + "->" + a;
  }

  lemma SubscriptForm(subject: Node, attribute: Node, callArgs: seq<Pair>, raw: bool)
    requires WellFormed(subject) && WellFormed(attribute)
    ensures Render(GetAttr(subject, attribute, ArrayAccess, callArgs), raw)
            == Render(subject, false) + "[" + Render(attribute, false) + "]"
  {
    assert Render(GetAttr(subject, attribute, ArrayAccess, callArgs), raw)
        == RenderGetAttr(GetAttr(subject, attribute, ArrayAccess, callArgs));
    var s, a := Render(subject, false), Render(attribute, false);
    assert Render(GetAttr(subject, attribute, ArrayAccess, callArgs), raw) == s + ("[" + a + "]") + "";
    assert s + ("[" + a + "]") + "" == s + "[" + a + "]";
  }

  lemma MethodForm(subject: Node, attribute: Node, callArgs: seq<Pair>, raw: bool)
    requires WellFormed(subject) && WellFormed(attribute)
    requires forall i | 0 <= i < |callArgs| :: WellFormed(callArgs[i].value)
    ensures Render(GetAttr(subject, attribute, MethodAccess, callArgs), raw)
            == Render(subject, false) + "->" + Render(attribute, true)
               + "(" + RenderArgs(KeyedArgs(callArgs)) + ")"
  {
    var s, a, j := Render(subject, false), Render(attribute, true), RenderArgs(KeyedArgs(callArgs));
    assert Render(GetAttr(subject, attribute, MethodAccess, callArgs), raw) == s + ("->" + a) + ("(" + j + ")");
    assert s + ("->" + a) == s + "->" + a;
    assert s + "->" + a + ("(" + j + ")") == s + "->" + a + "(" + j + ")";
  }

  /** The three attribute-access forms all start with the rendered object:
      `obj->member` with the member raw, `obj[key]` with the key non-raw,
      and the method form is the any form followed by the argument list. */
  lemma GetAttrForms(subject: Node, attribute: Node, callArgs: seq<Pair>, raw: bool)
    requires WellFormed(subject) && WellFormed(attribute)
    requires forall i | 0 <= i < |callArgs| :: WellFormed(callArgs[i].value)
    ensures Render(GetAttr(subject, attribute, AnyAccess, callArgs), raw)
            == Render(subject, false) + "->" + Render(attribute, true)
    ensures Render(GetAttr(subject, attribute, ArrayAccess, callArgs), raw)
            == Render(subject, false) + "[" + Render(attribute, false) + "]"
    ensures Render(GetAttr(subject, attribute, MethodAccess, callArgs), raw)
            == Render(GetAttr(subject, attribute, AnyAccess, callArgs), raw)
               + "(" + RenderArgs(KeyedArgs(callArgs)) + ")"
  {
    PropertyForm(subject, attribute, callArgs, raw);
    SubscriptForm(subject, attribute, callArgs, raw);
    MethodForm(subject, attribute, callArgs, raw);
  }

  /** A method call on `_self` invokes the hoisted closure: it is the
      function call of the same name and arguments behind a `$`. */
  lemma MethodCallInvokesClosure(m: string, args: Arguments, raw: bool)
    requires ArgsWellFormed(args)
    ensures Render(MethodCall(m, args), raw) == "$" + Render(FunctionCall(m, args), raw)
    ensures Render(FunctionCall(m, args), raw) == m + "(" + RenderArgs(args) + ")"
  {
    assert Render(MethodCall(m, args), raw) == RenderMethodCall(MethodCall(m, args));
    assert Render(FunctionCall(m, args), raw) == RenderFunctionCall(FunctionCall(m, args));
  }

  /** The three access forms of the same object and attribute never render
      alike: the character after the object is `-` for a property or method
      and `[` for a subscript, and a method adds an argument list. */
  lemma AccessFormsDistinguishable(subject: Node, attribute: Node, callArgs: seq<Pair>, a: Access, b: Access)
    requires WellFormed(subject) && WellFormed(attribute)
    requires forall i | 0 <= i < |callArgs| :: WellFormed(callArgs[i].value)
    ensures (Render(GetAttr(subject, attribute, a, callArgs), false)
             == Render(GetAttr(subject, attribute, b, callArgs), false)) <==> a == b
  {
    GetAttrForms(subject, attribute, callArgs, false);
    var any := Render(GetAttr(subject, attribute, AnyAccess, callArgs), false);
    var sub := Render(GetAttr(subject, attribute, ArrayAccess, callArgs), false);
    var call := Render(GetAttr(subject, attribute, MethodAccess, callArgs), false);
    var at := |Render(subject, false)|;
    assert any[at] == '-';
    assert sub[at] == '[';
    assert call[at] == any[at];
    assert |call| > |any|;
  }

  /** The function a call text invokes: what stands before the first `(`. */
  function Callee(call: string): string
  {
    Before(call, '(')
  }

  /** A function call invokes the function of its name; a method call on
      `_self` invokes the variable of its name. (A name with a parenthesis
      would blur the reading.) */
  lemma CallTargets(name: string, args: Arguments, raw: bool)
    requires ArgsWellFormed(args) && '(' !in name
    ensures Callee(Render(FunctionCall(name, args), raw)) == name
    ensures Callee(Render(MethodCall(name, args), raw)) == "$" + name
  {
    MethodCallInvokesClosure(name, args, raw);
    var tail := RenderArgs(args) + ")";
    assert Render(FunctionCall(name, args), raw) == name + ['('] + tail;
    assert Render(MethodCall(name, args), raw) == "$" + name + ['('] + tail;
    BeforeFirst(name, '(', RenderArgs(args) + ")");
    BeforeFirst("$" + name, '(', RenderArgs(args) + ")");
  }

  /** A conditional expression renders as a PHP ternary of its three parts. */
  lemma ConditionalShape(e1: Node, e2: Node, e3: Node, raw: bool)
    requires WellFormed(e1) && WellFormed(e2) && WellFormed(e3)
    ensures Render(Conditional(e1, e2, e3), raw)
            == Render(e1, false) + " ? " + Render(e2, false) + " : " + Render(e3, false)
  {
    assert Render(Conditional(e1, e2, e3), raw) == RenderConditional(Conditional(e1, e2, e3));
  }

  /** A ternary's text determines its condition when both branches are fixed. */
  lemma TernaryConditionCancels(c1: string, c2: string, t: string, e: string)
    ensures c1 + " ? " + t + " : " + e == c2 + " ? " + t + " : " + e <==> c1 == c2
  {
    var tail := " ? " + t + " : " + e;
    assert c1 + " ? " + t + " : " + e == "" + c1 + tail;
    assert c2 + " ? " + t + " : " + e == "" + c2 + tail;
    Cancel("", c1, c2, tail);
  }

  /** A ternary's text determines its else branch when the rest is fixed. */
  lemma TernaryElseCancels(c: string, t: string, e1: string, e2: string)
    ensures c + " ? " + t + " : " + e1 == c + " ? " + t + " : " + e2 <==> e1 == e2
  {
    var head := c + " ? " + t + " : ";
    assert head + e1 == head + e1 + "";
    assert head + e2 == head + e2 + "";
    Cancel(head, e1, e2, "");
  }

  /** The condition of a conditional expression is recoverable when both
      branches are fixed, and the else branch when the condition and the
      then branch are fixed. */
  lemma ConditionalPartsRecoverable(e1: Node, e2: Node, e3: Node, x: Node, y: Node)
    requires WellFormed(e1) && WellFormed(e2) && WellFormed(e3) && WellFormed(x) && WellFormed(y)
    ensures (Render(Conditional(x, e2, e3), false) == Render(Conditional(y, e2, e3), false))
            <==> Render(x, false) == Render(y, false)
    ensures (Render(Conditional(e1, e2, x), false) == Render(Conditional(e1, e2, y), false))
            <==> Render(x, false) == Render(y, false)
  {
    ConditionalShape(x, e2, e3, false);
    ConditionalShape(y, e2, e3, false);
    TernaryConditionCancels(Render(x, false), Render(y, false), Render(e2, false), Render(e3, false));
    ConditionalShape(e1, e2, x, false);
    ConditionalShape(e1, e2, y, false);
    TernaryElseCancels(Render(e1, false), Render(e2, false), Render(x, false), Render(y, false));
  }

  /** The entry of an array or hash literal: key, `=>`, value, both non-raw. */
  function Entry(p: Pair): string
    requires WellFormed(p.key) && WellFormed(p.value)
  {
    Render(p.key, false) + "=>" + Render(p.value, false)
  }

  /** The entries of an array literal's pairs, in order. */
  function Entries(pairs: seq<Pair>): (es: seq<string>)
    requires forall i | 0 <= i < |pairs| :: WellFormed(pairs[i].key) && WellFormed(pairs[i].value)
    ensures |es| == |pairs|
    ensures forall i | 0 <= i < |pairs| :: es[i] == Entry(pairs[i])
  {
    seq(|pairs|, i requires 0 <= i < |pairs| => Entry(pairs[i]))
  }

  /** An array or hash literal is its entries, comma-joined in insertion
      order, inside square brackets. */
  lemma ArrayShape(pairs: seq<Pair>, raw: bool)
    requires forall i | 0 <= i < |pairs| :: WellFormed(pairs[i].key) && WellFormed(pairs[i].value)
    ensures Render(ArrayLiteral(pairs), raw)
            == "[" + Join(Entries(pairs), ",") + "]"
  {
    assert Entries(pairs)
        == seq(|pairs|, i requires 0 <= i < |pairs| =>
                 Render(pairs[i].key, false) + "=>" + Render(pairs[i].value, false));
  }

  /** Appending pairs appends entries: the literal of `a + b` lists the
      entries of `a`, a comma, then the entries of `b`. */
  lemma ArrayAppend(a: seq<Pair>, b: seq<Pair>, raw: bool)
    requires forall i | 0 <= i < |a| :: WellFormed(a[i].key) && WellFormed(a[i].value)
    requires forall i | 0 <= i < |b| :: WellFormed(b[i].key) && WellFormed(b[i].value)
    requires |a| > 0 && |b| > 0
    ensures WellFormed(ArrayLiteral(a + b))
    ensures Render(ArrayLiteral(a + b), raw) == "[" + Join(Entries(a), ",") + "," + Join(Entries(b), ",") + "]"
  {
    var ab := a + b;
    assert forall i | 0 <= i < |ab| :: ab[i] == if i < |a| then a[i] else b[i - |a|];
    ArrayShape(ab, raw);
    assert Entries(ab) == Entries(a) + Entries(b);
    JoinAppend(Entries(a), Entries(b), ",");
  }
}
