# twig-to-phtml transpiler, modelled in Dafny

This project models the `Transpiler` class of twig-to-phtml
(`src/lib/Transpiler.ts`). The class turns the syntax tree that the Twing
engine parses from a Twig template into a PHP template ("phtml"). It renders
every node kind it knows into PHP text and falls back to rendering the
children of any other node. It also keeps a set of registered function names,
because Twing refuses to parse a call to a function it does not know.

The Dafny model has these parts:

- `Ast` is a closed syntax tree with one constructor per node class the
  renderer distinguishes. `WellFormed` describes the trees on which the
  renderer never reaches a missing node.
- `Transpiler.Render` is the dispatcher of `transpileNode`. Each
  `transpile...Node` method is its own function. It is defined on
  well-formed trees only.
- `Execution.Exec` is the same renderer on any tree. It fails where the
  source's `getNode` would throw: a module without a `macros` slot, a hoisted
  child that is not a macro, a positional value beyond the children of a
  plain numbered node or of an array.
  `Execution.ExecAgrees` proves that it fails on exactly the trees
  `WellFormed` rejects, and otherwise gives the text of `Render`.
- `Transpiler.AssembleComment` is the comment renderer's push loop, written
  as a method.
- `Registry` holds the function registry and the entry point `transpile`,
  which works on an already parsed tree.
- `ExpressionLaws` and `StatementLaws` state what each renderer promises:
  - operator shapes, and that no two operators give the same output;
  - which parts of an output determine the parts of the node (names, print,
    unary operand, loop body, ternary parts);
  - the three attribute-access forms, which never render alike;
  - a macro call reaches the variable its hoisted closure is bound to;
  - raw mode changes only string constants;
  - the if chain has one clause per test/body pair and a single `endif`;
  - an assignment has one line per name;
  - macros are hoisted ahead of the module body;
  - imports are invisible.
- `Scenarios` reproduces the templates of `test/lib/Transpiler/test.ts`.
  Each template is given as the tree the model assumes Twing builds for it
  (see "## Left out"). The scenarios prove the exact PHP text.

For the `if` templates, the expected output written in the test file
(`<?php if ($foo==5): ?>`, lines 38-57) does not match what the code
produces. The binary renderer parenthesises both operands, giving
`<?php if (($foo)==(5)): ?>`. The second expectation also writes `<php else`
for `<?php else`. The model follows the code.
`Scenarios.IfOnlyDiffersFromWrittenExpectation` proves that the first
expectation differs from the rendered text.

## Model

| member | source | states |
|---|---|---|
| `Ast.MacrosIndex` | src/lib/Transpiler.ts:62 | the position found is a slot called `macros`, no earlier slot has that name, and none is found only when no slot has it |
| `Execution.ExecAgrees` | src/lib/Transpiler.ts:414-490 | the renderer run on any tree fails exactly on the trees that are not well formed, and on the others its text is the model's render |
| `Execution.ModuleAgrees` | src/lib/Transpiler.ts:58-75 | a module is refused exactly when `getNode('macros')` finds no slot, a child of that slot is not a macro, or a visited slot is refused; otherwise it renders as the model says |
| `Execution.MacroAgrees` | src/lib/Transpiler.ts:377-395 | a hoisted macro is refused exactly when its body or a default value is; otherwise it renders as the model's closure |
| `Execution.SetAgrees` | src/lib/Transpiler.ts:337-361 | an assignment is refused exactly when one of its names has no positional value among the numbered children of its values node (`values.getNode(k)` throws) or a value that is read is refused; with no name nothing is read and the output is empty |
| `Execution.TranspileTree` | src/lib/Transpiler.ts:414-490 | rendering a whole tree fails exactly when the tree is not well formed, and otherwise gives the render |
| `Transpiler.AssembleComment` | src/lib/Transpiler.ts:77-99 | the loop that pushes each line and a line feed between lines outputs the comment data unchanged between `<?php /*` and `*/ ?>`, and agrees with the renderer's definition |
| `Strings.SplitLines` | src/lib/Transpiler.ts:80 | `split('\n')` gives at least one piece and no piece holds a line feed |
| `Strings.JoinSplitLines` | src/lib/Transpiler.ts:80-98 | re-inserting line feeds between the pieces of a split gives back the original data |
| `Strings.SplitJoinLines` | src/lib/Transpiler.ts:80 | splitting a line-feed join of line-free pieces gives the pieces back, so the split is the unique such decomposition |
| `Strings.NatToString` | src/lib/Transpiler.ts:216 | `String` of a natural number is a non-empty run of decimal digits with no leading zero |
| `Strings.IntToStringRoundTrip` | src/lib/Transpiler.ts:216 | `String` of an integer of magnitude at most 2^53 is an optionally signed numeral that reads back as the integer, so distinct such integers render differently |
| `Operators.BinaryTokensDistinct` | src/lib/Transpiler.ts:101-184 | each binary operator has a non-empty PHP spelling (`undefined` for the classes with no entry), and two operators share a spelling only when they are division and floor division |
| `Operators.UnaryTokensDistinct` | src/lib/Transpiler.ts:187-200 | the three unary operators have distinct one-character spellings |
| `ExpressionLaws.RawOnlyUnquotesStrings` | src/lib/Transpiler.ts:209-217 | raw and non-raw renders of a node differ exactly when it is a string constant, and then only by the surrounding double quotes |
| `ExpressionLaws.NamesAreVariables` | src/lib/Transpiler.ts:205-207 | names and assignment targets render as PHP variables, raw or not |
| `ExpressionLaws.NamesDistinct` | src/lib/Transpiler.ts:205-207 | two names render alike exactly when they are the same name |
| `ExpressionLaws.ConstantForms` | src/lib/Transpiler.ts:209-217 | a string constant is quoted unless raw, with no escaping; an integer of magnitude at most 2^53 reads back from its text; booleans and null use their JavaScript spelling |
| `ExpressionLaws.BinaryShape` | src/lib/Transpiler.ts:101-185 | a binary operator other than floor division renders as both operands in parentheses around the operator's spelling |
| `ExpressionLaws.FloorDivWrapsDiv` | src/lib/Transpiler.ts:138-142 | floor division renders as the division of the same operands inside PHP's `floor(...)` |
| `ExpressionLaws.OperatorCancels` | src/lib/Transpiler.ts:184 | with the same operand texts, the operator text can be read back from the whole |
| `ExpressionLaws.BinaryTextFirstChar` | src/lib/Transpiler.ts:184 | floor division's output starts with `f`, every other binary operator's with `(` |
| `ExpressionLaws.BinaryTextsDistinct` | src/lib/Transpiler.ts:101-184 | around the same operand texts, two operators give the same text exactly when they are the same operator |
| `ExpressionLaws.BinaryOperatorsDistinguishable` | src/lib/Transpiler.ts:101-185 | two binary expressions over the same operands render the same exactly when they use the same operator; floor division and division included |
| `ExpressionLaws.UnaryShape` | src/lib/Transpiler.ts:187-203 | a unary operator renders as its spelling before the parenthesised operand |
| `ExpressionLaws.UnaryOperatorsDistinguishable` | src/lib/Transpiler.ts:187-203 | two unary expressions over the same operand render alike exactly when they use the same operator |
| `ExpressionLaws.UnaryOperandInjective` | src/lib/Transpiler.ts:202 | under a fixed unary operator, two expressions render alike exactly when their operands do |
| `ExpressionLaws.PrintInjective` | src/lib/Transpiler.ts:323-325 | two prints render alike exactly when their expressions do |
| `ExpressionLaws.ForBodyInjective` | src/lib/Transpiler.ts:275-289 | with the sequence and targets fixed, two loops render alike exactly when their bodies do |
| `ExpressionLaws.ArgumentsKeepOnlyValues` | src/lib/Transpiler.ts:397-412 | keyed arguments render like the plain list of their values: keys are dropped and order is kept |
| `ExpressionLaws.PropertyForm` | src/lib/Transpiler.ts:219-230 | an any-call attribute access is the object, `->`, and the attribute rendered raw |
| `ExpressionLaws.SubscriptForm` | src/lib/Transpiler.ts:232-236 | an array access is the object followed by the non-raw key in square brackets |
| `ExpressionLaws.MethodForm` | src/lib/Transpiler.ts:227-252 | a method-call access is the property form followed by the comma-joined argument values in parentheses |
| `ExpressionLaws.GetAttrForms` | src/lib/Transpiler.ts:219-255 | all three access forms start with the rendered object, and the method form extends the any form by the argument list |
| `ExpressionLaws.MethodCallInvokesClosure` | src/lib/Transpiler.ts:371-375 | a `_self` macro call renders as the PHP function call of the same name and arguments behind a `$`, so it invokes the hoisted closure |
| `ExpressionLaws.AccessFormsDistinguishable` | src/lib/Transpiler.ts:219-255 | for the same object and attribute, two access forms render alike exactly when they are the same form |
| `ExpressionLaws.CallTargets` | src/lib/Transpiler.ts:331-335 | the text before the first `(` of a function call is the function's name, and that of a `_self` call is the variable `$name` |
| `ExpressionLaws.ConditionalShape` | src/lib/Transpiler.ts:363-369 | a conditional expression renders as the PHP ternary of its three non-raw parts |
| `ExpressionLaws.ConditionalPartsRecoverable` | src/lib/Transpiler.ts:363-369 | with both branches fixed, two conditionals render alike exactly when their conditions do; with the condition and then branch fixed, exactly when their else branches do |
| `ExpressionLaws.ArrayShape` | src/lib/Transpiler.ts:257-273 | an array or hash literal is its `key=>value` entries comma-joined in order inside square brackets |
| `ExpressionLaws.ArrayAppend` | src/lib/Transpiler.ts:257-273 | the literal of two non-empty pair lists appended is the entries of the first, a comma, then the entries of the second |
| `StatementLaws.TextVerbatim` | src/lib/Transpiler.ts:327-329 | text passes through unchanged, line feeds included |
| `StatementLaws.CommentWrapsData` | src/lib/Transpiler.ts:77-99 | a comment renders as its data, unchanged, between `<?php /*` and `*/ ?>` |
| `StatementLaws.PrintShape` | src/lib/Transpiler.ts:323-325 | a print renders its expression inside PHP's short echo tag |
| `StatementLaws.ForShape` | src/lib/Transpiler.ts:275-289 | a for loop renders as `foreach` over the sequence with the key and value targets, the body, and `endforeach` |
| `StatementLaws.Clauses` | src/lib/Transpiler.ts:296-311 | the reference reading of the tests has one clause per test/body pair, the first opening with `if` and the others with `elseif` |
| `StatementLaws.ClausesPairPieces` | src/lib/Transpiler.ts:296-311 | from any even position, the per-position pieces of the loop glued in pairs are exactly the reference clauses |
| `StatementLaws.IfRendersClauses` | src/lib/Transpiler.ts:291-321 | the if renderer's output is the clauses, then the else clause when present, then `endif`, concatenated |
| `StatementLaws.IfClauseStructure` | src/lib/Transpiler.ts:291-321 | the clause list has one `if`/`elseif` clause per pair, an `else` clause exactly when the else slot exists, and exactly one `endif`, which comes last |
| `StatementLaws.SetSegments` | src/lib/Transpiler.ts:337-361 | an assignment renders one segment per name, joined by line feeds, in the capture, shared-constant or per-value form |
| `StatementLaws.SetOneLinePerName` | src/lib/Transpiler.ts:337-361 | when no segment spans lines, splitting the output at line feeds gives back exactly one line per assigned name, in order |
| `StatementLaws.RenderEachAppend` | src/lib/Transpiler.ts:483-489 | the generic fallback distributes over concatenation of the child list |
| `StatementLaws.RenderSlotsAppend` | src/lib/Transpiler.ts:68-72 | the module's slot loop distributes over concatenation of the slot list |
| `StatementLaws.PlainSlots` | src/lib/Transpiler.ts:68-72 | slots none of which is called `macros` all render, in order |
| `StatementLaws.HoistedMacros` | src/lib/Transpiler.ts:62-66 | the hoisted nodes are the children of the `macros` slot, and all of them are macros |
| `StatementLaws.SkipMacrosSlot` | src/lib/Transpiler.ts:68-72 | a `macros` slot between two slot lists adds nothing to the slot loop's output |
| `StatementLaws.SlotsAroundMacros` | src/lib/Transpiler.ts:68-72 | the slots before and after the single `macros` slot render in their order, with nothing in between |
| `StatementLaws.ModuleHoistsMacros` | src/lib/Transpiler.ts:58-75 | a module renders its macro closures first, in declaration order, then the children before and after the `macros` slot |
| `StatementLaws.HoistedClosuresComeFirst` | src/lib/Transpiler.ts:58-75 | a module's output begins with the closures of all its hoisted macros |
| `StatementLaws.ClosureBindsName` | src/lib/Transpiler.ts:377-395 | a hoisted macro's closure opens `<?php $name = function(` and so assigns the variable `$name` |
| `StatementLaws.ClosureText` | src/lib/Transpiler.ts:377-395 | a hoisted macro's closure assigns `$name` a function with one `$param=default` per parameter, comma-joined in order, that captures `$name` by reference and wraps the macro's body before `<?php } ?>` |
| `StatementLaws.MacroBodyRecoverable` | src/lib/Transpiler.ts:377-395 | for the same name and parameters, two closures are equal exactly when the macro bodies render alike |
| `StatementLaws.ModuleOpensWithClosure` | src/lib/Transpiler.ts:58-66 | a module that hoists macros outputs the whole closure of its first macro before anything else |
| `StatementLaws.MacroCallReachesClosure` | src/lib/Transpiler.ts:371-395 | the variable a `_self.name(...)` call invokes is exactly the variable the closure of the macro `name` is assigned to |
| `StatementLaws.ContainerAppend` | src/lib/Transpiler.ts:483-489 | a node without a renderer of its own is transparent: the render of `a + b` is the render of `a` followed by that of `b` |
| `StatementLaws.DropImportsMembers` | src/lib/Transpiler.ts:479-481 | a node is kept by the import filter exactly when it is in the list and is not an import |
| `StatementLaws.DropImportsAppend` | src/lib/Transpiler.ts:479-481 | the import filter distributes over list append and keeps each non-import node, so the remaining nodes keep their order |
| `StatementLaws.ImportsInvisible` | src/lib/Transpiler.ts:479-481 | removing the import nodes from a container leaves its output unchanged |
| `Registry.NewRegistry` | src/lib/Transpiler.ts:52-56 | a new transpiler knows no function |
| `Registry.RegisterFunction` | src/lib/Transpiler.ts:511-513 | registering adds the name and keeps every other name as it was |
| `Registry.Transpile` | src/lib/Transpiler.ts:492-504 | output is produced exactly when every called function is registered or built in and the tree is well formed. The output is then the render. Otherwise the failure names exactly the unknown functions, or is a render failure on a tree whose calls are all known |
| `Registry.RegistrationIsASet` | src/lib/Transpiler.ts:511-513 | registering a name twice is registering it once, and registration order does not matter |
| `Registry.RegistrationIsMonotone` | src/lib/Transpiler.ts:492-513 | registering another function never changes the output of a template that already transpiled |
| `Registry.RegistrationEnablesCall` | test/lib/Transpiler/test.ts:91-109 | a printed call of an unknown function is refused, naming only that function; after registering it, it renders as the plain PHP call |
| `Scenarios.PrintVariable` | test/lib/Transpiler/test.ts:8-12 | `{{ foo }}` gives `<?=$foo?>` |
| `Scenarios.PropertyAccess` | test/lib/Transpiler/test.ts:15 | `{{ foo.bar }}` gives `<?=$foo->bar?>` |
| `Scenarios.SubscriptAccess` | test/lib/Transpiler/test.ts:16 | `{{ foo["bar"] }}` gives `<?=$foo["bar"]?>` |
| `Scenarios.MethodWithoutArguments` | test/lib/Transpiler/test.ts:17 | `{{ foo.bar() }}` gives `<?=$foo->bar()?>` |
| `Scenarios.MethodWithArguments` | test/lib/Transpiler/test.ts:18 | `{{ foo.bar(1, 2) }}` gives `<?=$foo->bar(1,2)?>` |
| `Scenarios.OneLineComment` | test/lib/Transpiler/test.ts:24 | `{#foo#}` gives `<?php /*foo*/ ?>` |
| `Scenarios.TwoLineComment` | test/lib/Transpiler/test.ts:28-32 | a two-line comment keeps its line feed |
| `Scenarios.LoopOverValues` | test/lib/Transpiler/test.ts:63-66 | `{% for value in values %}` over a printed value gives the `foreach` with the parser's `$_key` target |
| `Scenarios.ListLiteral` | test/lib/Transpiler/test.ts:77 | `[1, 2, 3]` renders with its positions as keys: `[0=>1,1=>2,2=>3]` |
| `Scenarios.HashLiteral` | test/lib/Transpiler/test.ts:83 | `{a: 1, b:2, c:3}` renders with quoted keys: `["a"=>1,"b"=>2,"c"=>3]` |
| `Scenarios.FloorDivision` | src/lib/Transpiler.ts:138-142 | `{{ 1 // 2 }}` gives `<?=floor((1)/(2))?>` |
| `Scenarios.RegisteredCall` | test/lib/Transpiler/test.ts:91-109 | `{{foo("bar")}}` is refused by a fresh transpiler, naming `foo`, and gives `<?=foo("bar")?>` once `foo` is registered |
| `Scenarios.SingleBranch` | src/lib/Transpiler.ts:291-321 | an if with one test, one body and no else has exactly two clauses: the `if` clause and `endif` |
| `Scenarios.IfOnly` | test/lib/Transpiler/test.ts:38-41 | `{% if (foo == 5) %}` over `    TRUE` gives `<?php if (($foo)==(5)): ?>    TRUE` and `endif` |
| `Scenarios.IfOnlyDiffersFromWrittenExpectation` | test/lib/Transpiler/test.ts:38-41 | the output written as expected next to that template is not what the renderer produces |
| `Scenarios.SingleName` | src/lib/Transpiler.ts:337-361 | an assignment to one name is that name's single segment, with no line feed added |
| `Scenarios.CaptureAssignment` | src/lib/Transpiler.ts:343-346 | `{% set foo %}Foo {{ bar }}{% endset %}` captures the body with output buffering |
| `Scenarios.PositionalAssignment` | src/lib/Transpiler.ts:353-357 | `{% set a, b = 1, 2 %}` gives one assignment per name, one per line |
| `Scenarios.TemplateWellFormed` | src/lib/Transpiler.ts:58-75 | a module of a body, an empty block list and a `macros` slot is well formed when its body is and the slot holds macros, and that slot is the third |
| `Scenarios.TemplateRender` | src/lib/Transpiler.ts:58-75 | such a module renders its macros, then its body; the empty block list adds nothing |
| `Scenarios.MacroHoisting` | src/lib/Transpiler.ts:58-75 | a call of `_self.foo()` written before `{% macro foo(arg1=1) %}` comes out after the closure it calls |
| `Scenarios.EdgeTrees` | src/lib/Transpiler.ts:58-75 | a capture assigned to no name, a `macros` slot of a kind with no children, and a positional value taken from a hash are all rendered, not refused |
| `Scenarios.MalformedTrees` | src/lib/Transpiler.ts:355 | a positional assignment with fewer values than names is refused, and so is a module without a `macros` slot |

## Left out

- Parsing. Twing's lexer and parser, and the `TwingEnvironment` that
  `transpile` builds, are not modelled (src/lib/Transpiler.ts:493-501). The
  model starts from the tree the parser returns. `Registry.Transpile` keeps only
  what the parser does with the registry: it refuses calls to functions that
  are neither registered nor built into the environment. The built-in
  functions are a parameter, because the list belongs to Twing.
- `Registry.Transpile` reports the set of all unknown names. Twing's parser
  throws at the first one, with a message that is not modelled. Only the
  refusal itself is observable through the class.
- Exceptions. Every way the renderer can throw, such as a missing slot or a
  missing value for a positional name, is a `Failure` of `Execution.Exec`.
  The text of the exception is not modelled.
- Floating-point constants and large integers. `CInt` holds integers of
  magnitude at most 2^53, where `String` prints every digit. Beyond that,
  JavaScript prints the shortest digits that read back as the same double
  (2^60 prints as `1152921504606847000`), and from 10^21 on it uses an
  exponent. Neither is modelled, and non-integer numbers are not modelled.
- Strings.IntToStringRoundTrip: the readback is promised only for integers
  of magnitude at most 2^53, because larger ones are not exactly
  representable in the source's numbers.
- ExpressionLaws.ConstantForms: the integer readback carries the same 2^53
  bound.
- Binary classes without a mapping. `in`, `not in`, `..`, `matches`,
  `starts with` and `ends with` reach the binary renderer, which has no
  entry for them and leaves the operator undefined. They are one
  constructor, `Unmapped`, which renders `(L)undefined(R)` as the source
  does. The model therefore does not tell these six classes apart, and
  neither does the output.
- A `macros` slot of a kind that has children but is not a plain node (a
  print inside the slot, say) is refused. The source would hand each child
  to the macro renderer, which throws on anything that is not a macro, so
  only such slots whose children are all macros are lost.
- Ast.HasPositional: a `Container` stands for every node class without a
  renderer of its own, and its children are numbered 0 to n-1. A node class
  whose children have names (a filter's `node` and `arguments`, say) would
  make `values.getNode(k)` throw where the model reads the k-th child. The
  parser's multi-target assignment always builds a numbered node, so
  `Execution.SetAgrees` promises the refusal only for missing numbered
  children.
- A second slot called `macros`. `getNode` finds one slot per name, so the
  model reads the first and skips every slot of that name in the loop.
- The macro call name. The model takes `_self.foo()` as a method call named
  `foo`. Twig's own parser stores `macro_foo` instead; which name Twing
  stores cannot be read from this repository. With `macro_foo`, the call
  would render as `$macro_foo()` and miss the closure `$foo`.
- The module's other slots. `Scenarios.Template` builds a module with only
  its body, block list and `macros` slot. The remaining slots Twing fills
  (display start and end, traits, and the like) are empty nodes that render
  nothing, and are left out.
- Escaping. The source adds none inside quoted string constants, so the model
  adds none.
- Macro child order. A macro reached outside a module's `macros` slot has no
  renderer of its own. It goes through the generic fallback, which the model
  takes as the body followed by the default values, the order Twing stores
  them in.
- Comment trimming. The leading and trailing line feeds of a multi-line
  comment are dropped by Twing's lexer, not by the transpiler. The comment
  scenarios therefore start from the trimmed data (test/lib/Transpiler/test.ts:25-32).
- Key/value loops. The for loop with an explicit key
  (test/lib/Transpiler/test.ts:68-71) is covered only by the general
  `StatementLaws.ForShape`. It has no scenario of its own.
- The if/else and if/elseif templates (test/lib/Transpiler/test.ts:43-57) are
  covered by `StatementLaws.IfRendersClauses` and
  `StatementLaws.IfClauseStructure`. They have no scenario of their own,
  because the written expectations do not match the code.
