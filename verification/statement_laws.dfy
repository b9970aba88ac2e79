/** What the statement renderers promise: text and comments pass through
    unchanged, the if chain has one clause per test/body pair and one
    closing `endif`, an assignment has one line per name, and a module
    hoists its macros in front of everything else. */
module StatementLaws {
  import opened Wrappers
  import opened Strings
  import opened Ast
  import opened Transpiler
  import opened ExpressionLaws

  /** Text passes through byte for byte, line feeds included. */
  lemma TextVerbatim(data: string, raw: bool)
    ensures Render(Text(data), raw) == data
  {
  }

  /** Splitting the comment at line feeds and re-inserting them loses
      nothing: the comment is its data inside `/*` and `*/`. */
  lemma CommentWrapsData(data: string, raw: bool)
    ensures Render(Comment(data), raw) == "<?php /*" + data + "*/ ?>"
  {
    JoinSplitLines(data);
  }

  /** A print statement wraps its expression in PHP's short echo tag. */
  lemma PrintShape(e: Node, raw: bool)
    requires WellFormed(e)
    ensures Render(Print(e), raw) == "<?=" + Render(e, false) + "?>"
  {
    assert Render(Print(e), raw) == RenderPrint(Print(e));
  }

  /** A for loop binds the key and value targets over the sequence and
      closes with `endforeach`. */
  lemma ForShape(s: Node, k: Node, v: Node, b: Node, raw: bool)
    requires WellFormed(s) && WellFormed(k) && WellFormed(v) && WellFormed(b)
    ensures Render(For(s, k, v, b), raw)
            == "<?php foreach (" + Render(s, false) + " as " + Render(k, false) + " => "
               + Render(v, false) + "): ?>" + Render(b, false) + "<?php endforeach; ?>"
  {
    assert Render(For(s, k, v, b), raw) == RenderFor(For(s, k, v, b));
  }

  // ----- if -----

  /** Reference reading of an if node's flattened tests, two at a time: one
      clause per test/body pair (a trailing test without body gets a clause
      of its own). */
  function Clauses(tests: seq<Node>, first: bool): (r: seq<string>)
    requires forall j | 0 <= j < |tests| :: WellFormed(tests[j])
    ensures |r| == (|tests| + 1) / 2
    ensures |tests| > 0 ==> StartsWith(r[0], Opener(first))
    ensures forall i | 1 <= i < |r| :: StartsWith(r[i], Opener(false))
    decreases |tests|
  {
    if |tests| == 0 then []
    else
      var head := Opener(first) + Render(tests[0], false) + "): ?>";
      if |tests| == 1 then [head]
      else
        var rest := Clauses(tests[2..], false);
        assert (head + Render(tests[1], true))[..|Opener(first)|] == Opener(first);
        assert forall i | 1 <= i < |[head + Render(tests[1], true)] + rest| ::
          ([head + Render(tests[1], true)] + rest)[i] == rest[i - 1];
        [head + Render(tests[1], true)] + rest
  }

  /** All clauses of an if node: the branches, the else clause when present,
      and the closing `endif`. */
  function IfClauses(n: Node): seq<string>
    requires n.If? && WellFormed(n)
  {
    Clauses(n.tests, true)
    + (if n.elseBody.Some? then ["<?php else: ?>" + Render(n.elseBody.value, true)] else [])
    + ["<?php endif; ?>"]
  }

  /** The loop's pieces from position `s` on. */
  function PiecesFrom(tests: seq<Node>, s: nat): (r: seq<string>)
    requires forall j | 0 <= j < |tests| :: WellFormed(tests[j])
    requires s <= |tests|
    ensures |r| == |tests| - s
    ensures forall j | 0 <= j < |r| :: r[j] == IfPiece(tests, s + j)
    decreases |tests| - s
  {
    if s == |tests| then [] else [IfPiece(tests, s)] + PiecesFrom(tests, s + 1)
  }

  /** From an even position on, the clauses are the loop's pieces glued in
      test/body pairs. */
  lemma {:induction false} ClausesPairPieces(tests: seq<Node>, s: nat)
    requires forall j | 0 <= j < |tests| :: WellFormed(tests[j])
    requires s <= |tests| && s % 2 == 0
    ensures Clauses(tests[s..], s == 0) == PairUp(PiecesFrom(tests, s))
    decreases |tests| - s
  {
    if |tests| == s {
      assert tests[s..] == [];
      assert PiecesFrom(tests, s) == [];
    } else if |tests| - s == 1 {
      LastTest(tests, s);
    } else {
      ClausesPairPieces(tests, s + 2);
      ClausesStep(tests, s);
      PiecesStep(tests, s);
      assert Clauses(tests[s + 2..], s + 2 == 0) == PairUp(PiecesFrom(tests, s + 2));
    }
  }

  /** A trailing test without a body is a clause of its own. */
  lemma LastTest(tests: seq<Node>, s: nat)
    requires forall j | 0 <= j < |tests| :: WellFormed(tests[j])
    requires s + 1 == |tests| && s % 2 == 0
    ensures Clauses(tests[s..], s == 0) == PairUp(PiecesFrom(tests, s))
  {
    assert tests[s..] == [tests[s]];
    assert PiecesFrom(tests, s) == [IfPiece(tests, s)];
    assert IfPiece(tests, s) == Opener(s == 0) + Render(tests[s], false) + "): ?>";
  }

  /** One test/body pair of clauses, read from position `s`. */
  lemma ClausesStep(tests: seq<Node>, s: nat)
    requires forall j | 0 <= j < |tests| :: WellFormed(tests[j])
    requires s + 2 <= |tests| && s % 2 == 0
    ensures Clauses(tests[s..], s == 0)
            == [IfPiece(tests, s) + IfPiece(tests, s + 1)] + Clauses(tests[s + 2..], false)
  {
    var suffix := tests[s..];
    assert suffix[2..] == tests[s + 2..];
    assert suffix[0] == tests[s] && suffix[1] == tests[s + 1];
    var pair := IfPiece(tests, s) + IfPiece(tests, s + 1);
    assert pair == Opener(s == 0) + Render(suffix[0], false) + "): ?>" + Render(suffix[1], true);
    ClausesUnfold(suffix, s == 0);
    SeqStep(Clauses(suffix, s == 0), Opener(s == 0) + Render(suffix[0], false) + "): ?>" + Render(suffix[1], true),
            pair, Clauses(suffix[2..], false), Clauses(tests[s + 2..], false));
  }

  /** Replacing the head and the tail of a list by equal ones. */
  lemma SeqStep(xs: seq<string>, head: string, head': string, tail: seq<string>, tail': seq<string>)
    requires xs == [head] + tail && head == head' && tail == tail'
    ensures xs == [head'] + tail'
  {
  }

  /** The first clause of two or more tests is the first test/body pair. */
  lemma ClausesUnfold(tests: seq<Node>, first: bool)
    requires forall j | 0 <= j < |tests| :: WellFormed(tests[j])
    requires |tests| >= 2
    ensures Clauses(tests, first)
            == [Opener(first) + Render(tests[0], false) + "): ?>" + Render(tests[1], true)]
               + Clauses(tests[2..], false)
  {
  }

  /** One test/body pair of the loop's pieces, glued, from position `s`. */
  lemma PiecesStep(tests: seq<Node>, s: nat)
    requires forall j | 0 <= j < |tests| :: WellFormed(tests[j])
    requires s + 2 <= |tests|
    ensures PairUp(PiecesFrom(tests, s))
            == [IfPiece(tests, s) + IfPiece(tests, s + 1)] + PairUp(PiecesFrom(tests, s + 2))
  {
    var pieces := PiecesFrom(tests, s);
    assert pieces[2..] == PiecesFrom(tests, s + 2);
  }

  /** The if renderer's position-by-position loop produces exactly the
      clauses read off the test/body pairs, then else and endif. */
  lemma IfRendersClauses(n: Node, raw: bool)
    requires n.If? && WellFormed(n)
    ensures Render(n, raw) == Flatten(IfClauses(n))
  {
    var tests := n.tests;
    assert Render(n, raw) == RenderIf(n);
    ClausesPairPieces(tests, 0);
    assert tests[0..] == tests;
    FlattenPairUp(PiecesFrom(tests, 0));
    assert PiecesFrom(tests, 0) == seq(|tests|, i requires 0 <= i < |tests| => IfPiece(tests, i));
    var branches := Clauses(tests, true);
    var elsePart := if n.elseBody.Some? then ["<?php else: ?>" + Render(n.elseBody.value, true)] else [];
    FlattenAppend(branches + elsePart, ["<?php endif; ?>"]);
    FlattenAppend(branches, elsePart);
  }

  /** The clause list has one `if`/`elseif` clause per test/body pair, an
      `else` clause exactly when the else slot is present, and exactly one
      `endif`, which comes last, whatever the number of `elseif`s. */
  lemma IfClauseStructure(n: Node)
    requires n.If? && WellFormed(n)
    ensures var c := IfClauses(n);
            && |c| == (|n.tests| + 1) / 2 + (if n.elseBody.Some? then 1 else 0) + 1
            && (|n.tests| > 0 ==> StartsWith(c[0], "<?php if ("))
            && (forall i | 1 <= i < (|n.tests| + 1) / 2 :: StartsWith(c[i], "<?php elseif ("))
            && (n.elseBody.Some? ==> StartsWith(c[|c| - 2], "<?php else: ?>"))
            && c[|c| - 1] == "<?php endif; ?>"
            && (forall i | 0 <= i < |c| - 1 :: c[i] != "<?php endif; ?>")
  {
    var branches := Clauses(n.tests, true);
    var c := IfClauses(n);
    forall i | 0 <= i < |c| - 1
      ensures c[i] != "<?php endif; ?>"
    {
      if i < |branches| {
        assert c[i] == branches[i];
        var opener := Opener(i == 0);
        assert StartsWith(c[i], opener);
        assert c[i][7] == c[i][..|opener|][7] == opener[7] != 'n';
      } else {
        assert c[i] == "<?php else: ?>" + Render(n.elseBody.value, true);
        assert c[i][7] == 'l';
      }
    }
  }

  // ----- set -----

  /** The assignment for the k-th name, in the form the node selects:
      capture, a shared constant, or the k-th value (for an array or hash,
      the k-th of its keys and values read alternately). */
  function Assignment(n: Node, k: nat): string
    requires n.Set? && WellFormed(n) && k < |n.names|
  {
    var target := "<?php $" + n.names[k];
    if n.capture then
      "<?php ob_start(); ?>" + Render(n.values, false) + target + " = ob_get_clean() ?>"
    else if n.values.Constant? then target + " = " + Render(n.values, false) + " ?>"
    else target + " = " + PositionalValue(n.values, k) + " ?>"
  }

  /** An assignment renders one segment per name, newline-joined. */
  lemma SetSegments(n: Node, raw: bool)
    requires n.Set? && WellFormed(n)
    ensures Render(n, raw)
            == Join(seq(|n.names|, k requires 0 <= k < |n.names| => Assignment(n, k)), "\n")
  {
    var names := n.names;
    var values := n.values;
    assert Render(n, raw) == RenderSet(n);
    var reference := seq(|names|, k requires 0 <= k < |names| => Assignment(n, k));
    var rendered := seq(|names|, k requires 0 <= k < |names| =>
                 if n.capture then
                   "<?php ob_start(); ?>" + Render(values, false)
                   + "<?php $" + names[k] + " = ob_get_clean() ?>"
                 else if values.Constant? then
                   "<?php $" + names[k] + " = " + Render(values, false) + " ?>"
                 else
                   "<?php $" + names[k] + " = " + PositionalValue(values, k) + " ?>");
    forall k | 0 <= k < |names|
      ensures reference[k] == rendered[k]
    {
    }
    assert reference == rendered;
  }

  /** When no segment spans lines, the output has exactly one line per
      assigned name, in order. */
  lemma SetOneLinePerName(n: Node, raw: bool)
    requires n.Set? && WellFormed(n) && |n.names| >= 1
    requires forall k | 0 <= k < |n.names| :: '\n' !in Assignment(n, k)
    ensures SplitLines(Render(n, raw))
            == seq(|n.names|, k requires 0 <= k < |n.names| => Assignment(n, k))
  {
    SetSegments(n, raw);
    SplitJoinLines(seq(|n.names|, k requires 0 <= k < |n.names| => Assignment(n, k)));
  }

  // ----- modules, macros and containers -----

  /** The nodes of a list of module slots, in order. */
  function SlotNodes(slots: seq<Slot>): seq<Node>
  {
    seq(|slots|, i requires 0 <= i < |slots| => slots[i].node)
  }

  /** Rendering the generic fallback distributes over list append. */
  lemma {:induction false} RenderEachAppend(a: seq<Node>, b: seq<Node>)
    requires AllWellFormed(a) && AllWellFormed(b)
    ensures RenderEach(a + b) == RenderEach(a) + RenderEach(b)
  {
    if |a| == 0 {
      assert a + b == b;
    } else {
      assert (a + b)[1..] == a[1..] + b;
      RenderEachAppend(a[1..], b);
    }
  }

  /** Rendering the non-macro slots distributes over list append. */
  lemma {:induction false} RenderSlotsAppend(a: seq<Slot>, b: seq<Slot>)
    requires SlotsWellFormed(a) && SlotsWellFormed(b)
    ensures RenderSlots(a + b) == RenderSlots(a) + RenderSlots(b)
  {
    if |a| == 0 {
      assert a + b == b;
    } else {
      assert (a + b)[1..] == a[1..] + b;
      RenderSlotsAppend(a[1..], b);
    }
  }

  /** Slots none of which is the `macros` slot all render, in order. */
  lemma {:induction false} PlainSlots(slots: seq<Slot>)
    requires SlotsWellFormed(slots)
    requires forall i | 0 <= i < |slots| :: slots[i].name != "macros"
    ensures AllWellFormed(SlotNodes(slots))
    ensures RenderSlots(slots) == RenderEach(SlotNodes(slots))
  {
    if |slots| > 0 {
      PlainSlots(slots[1..]);
      assert SlotNodes(slots)[1..] == SlotNodes(slots[1..]);
    }
  }

  /** The macros a module hoists: the children of its `macros` slot (none
      when that slot is a node kind without children). */
  function HoistedMacros(n: Node): (ms: seq<Node>)
    requires n.Module? && WellFormed(n)
    ensures forall i | 0 <= i < |ms| :: ms[i].Macro? && WellFormed(ms[i])
  {
    var m := n.slots[MacrosIndex(n.slots).value].node;
    assert HoldsOnlyMacros(m) && WellFormed(m);
    if m.Container? then m.children else []
  }


  /** Both sides of a cut through a well-formed slot list are well formed. */
  lemma SlotsPrefixSuffix(slots: seq<Slot>, p: nat)
    requires SlotsWellFormed(slots) && p <= |slots|
    ensures SlotsWellFormed(slots[..p]) && SlotsWellFormed(slots[p..])
  {
    forall i | 0 <= i < p && slots[..p][i].name != "macros" ensures WellFormed(slots[..p][i].node) {
      assert slots[..p][i] == slots[i];
    }
    forall i | 0 <= i < |slots| - p && slots[p..][i].name != "macros" ensures WellFormed(slots[p..][i].node) {
      assert slots[p..][i] == slots[p + i];
    }
  }

  /** A `macros` slot between two slot lists renders nothing. */
  lemma SkipMacrosSlot(a: seq<Slot>, m: Slot, b: seq<Slot>)
    requires SlotsWellFormed(a) && SlotsWellFormed(b)
    requires m.name == "macros"
    ensures SlotsWellFormed([m] + b) && SlotsWellFormed(a + ([m] + b))
    ensures RenderSlots(a + ([m] + b)) == RenderSlots(a) + RenderSlots(b)
  {
    MacrosSlotSilent(m, b);
    SlotsConcat(a, [m] + b);
    RenderSlotsAppend(a, [m] + b);
  }

  /** The `macros` slot at the head of a list renders nothing. */
  lemma MacrosSlotSilent(m: Slot, b: seq<Slot>)
    requires SlotsWellFormed(b)
    requires m.name == "macros"
    ensures SlotsWellFormed([m] + b)
    ensures RenderSlots([m] + b) == RenderSlots(b)
  {
    SlotsConcat([m], b);
    assert ([m] + b)[1..] == b;
  }

  /** Concatenating well-formed slot lists keeps them well formed. */
  lemma SlotsConcat(a: seq<Slot>, b: seq<Slot>)
    requires SlotsWellFormed(a) && SlotsWellFormed(b)
    ensures SlotsWellFormed(a + b)
  {
    forall i | 0 <= i < |a + b| && (a + b)[i].name != "macros" ensures WellFormed((a + b)[i].node) {
      if i >= |a| {
        assert (a + b)[i] == b[i - |a|];
      }
    }
  }

  /** The slots around the single `macros` slot render in their order, and
      the `macros` slot in between contributes nothing. */
  lemma SlotsAroundMacros(slots: seq<Slot>, p: nat)
    requires SlotsWellFormed(slots)
    requires p < |slots| && slots[p].name == "macros"
    requires forall j | 0 <= j < |slots| :: slots[j].name == "macros" ==> j == p
    ensures AllWellFormed(SlotNodes(slots[..p])) && AllWellFormed(SlotNodes(slots[p + 1..]))
    ensures RenderSlots(slots) == RenderEach(SlotNodes(slots[..p])) + RenderEach(SlotNodes(slots[p + 1..]))
  {
    var before := slots[..p];
    var after := slots[p + 1..];
    SlotsPrefixSuffix(slots, p);
    SlotsPrefixSuffix(slots, p + 1);
    SkipMacrosSlot(before, slots[p], after);
    SplitAt(slots, p);
    OtherNames(slots, p);
    PlainSlots(before);
    PlainSlots(after);
  }

  /** A list is its prefix, the element at the cut, and its suffix. */
  lemma SplitAt<T>(s: seq<T>, p: nat)
    requires p < |s|
    ensures s == s[..p] + ([s[p]] + s[p + 1..])
  {
  }

  /** No slot of the list is called `macros`. */
  predicate NoMacrosSlot(slots: seq<Slot>)
  {
    forall i | 0 <= i < |slots| :: slots[i].name != "macros"
  }

  /** Around the only `macros` slot, no slot is called `macros`. */
  lemma OtherNames(slots: seq<Slot>, p: nat)
    requires p < |slots|
    requires forall j | 0 <= j < |slots| :: slots[j].name == "macros" ==> j == p
    ensures NoMacrosSlot(slots[..p]) && NoMacrosSlot(slots[p + 1..])
  {
    var before := slots[..p];
    var after := slots[p + 1..];
    forall i | 0 <= i < |before|
      ensures before[i].name != "macros"
    {
      assert before[i] == slots[i];
    }
    forall i | 0 <= i < |after|
      ensures after[i].name != "macros"
    {
      assert after[i] == slots[p + 1 + i];
    }
  }

  /** A module renders its macro closures first, in declaration order, then
      the children before and after the `macros` slot, in their original
      order; the `macros` slot itself renders nothing else. */
  lemma ModuleHoistsMacros(n: Node, raw: bool)
    requires n.Module? && WellFormed(n)
    requires forall j | 0 <= j < |n.slots| :: n.slots[j].name == "macros" ==> j == MacrosIndex(n.slots).value
    ensures var p := MacrosIndex(n.slots).value;
            && AllWellFormed(SlotNodes(n.slots[..p])) && AllWellFormed(SlotNodes(n.slots[p + 1..]))
            && Render(n, raw)
               == RenderMacros(HoistedMacros(n))
                  + RenderEach(SlotNodes(n.slots[..p])) + RenderEach(SlotNodes(n.slots[p + 1..]))
  {
    var p := MacrosIndex(n.slots).value;
    SlotsAroundMacros(n.slots, p);
    ModuleSplits(n, raw);
    Regroup(Render(n, raw), RenderMacros(HoistedMacros(n)), RenderSlots(n.slots),
            RenderEach(SlotNodes(n.slots[..p])), RenderEach(SlotNodes(n.slots[p + 1..])));
  }

  /** A text made of a head and a tail, where the tail has two parts, is the
      head followed by the two parts. */
  lemma Regroup(r: string, head: string, tail: string, a: string, b: string)
    requires r == head + tail && tail == a + b
    ensures r == head + a + b
  {
  }

  /** A module's output is its hoisted closures, then its slots. */
  lemma ModuleSplits(n: Node, raw: bool)
    requires n.Module? && WellFormed(n)
    ensures Render(n, raw) == RenderMacros(HoistedMacros(n)) + RenderSlots(n.slots)
  {
    assert RenderModule(n) == RenderMacros(HoistedMacros(n)) + RenderSlots(n.slots);
    assert Render(n, raw) == RenderModule(n);
  }

  /** The variable a closure text assigns: what stands between `<?php `
      and the first space. */
  function BoundVariable(closure: string): string
  {
    if |closure| < 6 then "" else Before(closure[6..], ' ')
  }

  /** A hoisted closure is assigned to the variable `$name` of its macro: the
      variable `BoundVariable` reads off the closure text is `$name`. (A name
      with a space would blur the reading.) The by-reference capture of the
      same variable is spelled out by `ClosureText`. */
  lemma ClosureBindsName(name: string, params: seq<Param>, body: Node)
    requires WellFormed(Macro(name, params, body))
    requires ' ' !in name
    ensures BoundVariable(RenderMacro(Macro(name, params, body))) == "$" + name
    ensures StartsWith(RenderMacro(Macro(name, params, body)), "<?php $" + name + " = function(")
  {
    var closure := RenderMacro(Macro(name, params, body));
    var opening := "<?php $" + name + " = function(";
    var rest := closure[|opening|..];
    assert closure == opening + rest;
    OpeningBindsName(name, rest);
  }

  /** The whole closure of a hoisted macro: `$name` assigned a function whose
      parameter list is one `$param=default` per parameter, comma-joined in
      declaration order, which captures `$name` itself by reference (so the
      body can call the macro again), and whose body is the macro's body
      between `{ ?>` and a line feed and `<?php } ?>` and a line feed. With
      `ClosureBindsName`, the captured variable is the one the closure is
      assigned to. */
  lemma ClosureText(name: string, params: seq<Param>, body: Node)
    requires WellFormed(Macro(name, params, body))
    ensures RenderMacro(Macro(name, params, body))
            == "<?php $" + name + " = function("
               + Join(seq(|params|, i requires 0 <= i < |params| =>
                            "$" + params[i].name + "=" + Render(params[i].defaultValue, false)), ",")
               + ") use (&$" + name + ") { ?>\n"
               + Render(body, false)
               + "<?php } ?>\n"
  {
  }

  /** The body of a macro is recoverable from its closure: two macros with
      the same name and parameters give the same closure exactly when their
      bodies render alike. */
  lemma MacroBodyRecoverable(name: string, params: seq<Param>, b1: Node, b2: Node)
    requires WellFormed(Macro(name, params, b1)) && WellFormed(Macro(name, params, b2))
    ensures RenderMacro(Macro(name, params, b1)) == RenderMacro(Macro(name, params, b2))
            <==> Render(b1, false) == Render(b2, false)
  {
    ClosureText(name, params, b1);
    ClosureText(name, params, b2);
    var head := "<?php $" + name + " = function("
                + Join(seq(|params|, i requires 0 <= i < |params| =>
                             "$" + params[i].name + "=" + Render(params[i].defaultValue, false)), ",")
                + ") use (&$" + name + ") { ?>\n";
    Cancel(head, Render(b1, false), Render(b2, false), "<?php } ?>\n");
  }

  /** Any text that opens like a closure of `name` assigns `$name`. */
  lemma OpeningBindsName(name: string, rest: string)
    requires ' ' !in name
    ensures BoundVariable("<?php $" + name + " = function(" + rest) == "$" + name
  {
    var closure := "<?php $" + name + " = function(" + rest;
    assert closure[6..] == ("$" + name) + [' '] + ("= function(" + rest);
    BeforeFirst("$" + name, ' ', "= function(" + rest);
  }

  /** Calling a macro reaches its closure: `_self.name(...)` becomes a call of
      the variable `$name`, which is exactly the variable the hoisted closure
      of the macro `name` is assigned to. */
  lemma MacroCallReachesClosure(name: string, params: seq<Param>, body: Node, args: Arguments, raw: bool)
    requires WellFormed(Macro(name, params, body)) && ArgsWellFormed(args)
    requires ' ' !in name && '(' !in name
    ensures Callee(Render(MethodCall(name, args), raw)) == BoundVariable(RenderMacro(Macro(name, params, body)))
  {
    CallTargets(name, args, raw);
    ClosureBindsName(name, params, body);
  }

  /** A module binds every macro it hoists: for each hoisted macro, the
      module's output begins with the closure texts, so the variable a call
      of that macro reads has been assigned before any template text runs. */
  lemma HoistedClosuresComeFirst(n: Node, raw: bool)
    requires n.Module? && WellFormed(n)
    ensures StartsWith(Render(n, raw), RenderMacros(HoistedMacros(n)))
  {
    ModuleSplits(n, raw);
    var h := RenderMacros(HoistedMacros(n));
    assert (h + RenderSlots(n.slots))[..|h|] == h;
  }

  /** The output of a module that hoists macros opens with the whole closure
      of its first macro, as `ClosureText` spells it out. */
  lemma ModuleOpensWithClosure(n: Node, raw: bool)
    requires n.Module? && WellFormed(n) && |HoistedMacros(n)| > 0
    ensures StartsWith(Render(n, raw), RenderMacro(HoistedMacros(n)[0]))
  {
    var ms := HoistedMacros(n);
    HoistedClosuresComeFirst(n, raw);
    var c := RenderMacro(ms[0]);
    var h := RenderMacros(ms);
    assert h == c + RenderMacros(ms[1..]);
    assert h[..|c|] == c;
    assert Render(n, raw)[..|h|] == h;
    assert Render(n, raw)[..|c|] == h[..|c|];
  }

  /** A node without a renderer of its own is transparent: a container of
      `a + b` renders as the container of `a` followed by that of `b`. */
  lemma ContainerAppend(a: seq<Node>, b: seq<Node>, raw: bool)
    requires forall i | 0 <= i < |a| :: WellFormed(a[i])
    requires forall i | 0 <= i < |b| :: WellFormed(b[i])
    ensures WellFormed(Container(a + b))
    ensures Render(Container(a + b), raw) == Render(Container(a), raw) + Render(Container(b), raw)
  {
    RenderEachAppend(a, b);
  }

  /** `ns` without its import nodes, the others kept in their order. */
  function DropImports(ns: seq<Node>): (r: seq<Node>)
    ensures forall i | 0 <= i < |r| :: !r[i].Import?
    ensures |r| <= |ns|
    ensures |r| == |ns| <==> forall i | 0 <= i < |ns| :: !ns[i].Import?
  {
    if |ns| == 0 then []
    else if ns[0].Import? then DropImports(ns[1..])
    else [ns[0]] + DropImports(ns[1..])
  }

  /** Dropping imports removes the imports and nothing else. */
  lemma {:induction false} DropImportsMembers(ns: seq<Node>)
    ensures forall x :: x in DropImports(ns) <==> x in ns && !x.Import?
  {
    if |ns| > 0 {
      DropImportsMembers(ns[1..]);
      assert ns == [ns[0]] + ns[1..];
    }
  }

  /** A single node survives the dropping exactly when it is no import. */
  lemma DropImportsSingle(x: Node)
    ensures DropImports([x]) == if x.Import? then [] else [x]
  {
    assert [x][1..] == [];
  }

  /** Dropping imports distributes over list append. */
  lemma {:induction false} DropImportsConcat(a: seq<Node>, b: seq<Node>)
    ensures DropImports(a + b) == DropImports(a) + DropImports(b)
  {
    if |a| == 0 {
      assert a + b == b;
    } else {
      assert (a + b)[0] == a[0];
      assert (a + b)[1..] == a[1..] + b;
      DropImportsConcat(a[1..], b);
      if !a[0].Import? {
        assert DropImports(a + b) == [a[0]] + DropImports(a[1..] + b);
      }
    }
  }

  /** Dropping imports keeps the order of what remains: it distributes over
      list append, and a single node is kept exactly when it is no import. */
  lemma DropImportsAppend(a: seq<Node>, b: seq<Node>)
    ensures DropImports(a + b) == DropImports(a) + DropImports(b)
    ensures forall x: Node :: DropImports([x]) == if x.Import? then [] else [x]
  {
    DropImportsConcat(a, b);
    forall x: Node ensures DropImports([x]) == if x.Import? then [] else [x] {
      DropImportsSingle(x);
    }
  }

  /** Imports render nothing: removing them from a list leaves the generic
      fallback's output unchanged. */
  lemma {:induction false} EachDropsImports(ns: seq<Node>)
    requires AllWellFormed(ns)
    ensures AllWellFormed(DropImports(ns))
    ensures RenderEach(DropImports(ns)) == RenderEach(ns)
  {
    if |ns| > 0 {
      var tail := ns[1..];
      assert forall i | 0 <= i < |tail| :: tail[i] == ns[i + 1];
      EachDropsImports(tail);
      var rest := DropImports(tail);
      if !ns[0].Import? {
        var kept := [ns[0]] + rest;
        assert DropImports(ns) == kept;
        assert kept[0] == ns[0] && kept[1..] == rest;
        assert forall i | 1 <= i < |kept| :: kept[i] == rest[i - 1];
      }
    }
  }

  /** Imports render nothing: removing them from a container leaves its output unchanged. */
  lemma ImportsInvisible(ns: seq<Node>, raw: bool)
    requires forall i | 0 <= i < |ns| :: WellFormed(ns[i])
    ensures WellFormed(Container(DropImports(ns)))
    ensures Render(Container(DropImports(ns)), raw) == Render(Container(ns), raw)
  {
    EachDropsImports(ns);
  }
}
