# macro_sequence_for in Dafny

This project models `SF_FOR_EACH` from the macro_sequence_for library. The
macro is a C/C++ preprocessor loop over a sequence of the form `(x1)(x2)…(xk)`.
It expands to `m(n,d0,x1) m(n,d1,x2) … m(n,d(k-1),xk) f(n,dk)`. The first state
`d0` is the `d` argument, each next state is `s(n, d(i-1), xi)`, and `n` is the
loop's nesting level. Elements may be empty or contain commas.

The model works on preprocessing tokens: `(`, `)`, `,` and every other token as
a word (`Tokens`). An argument is "balanced" when its parentheses match, and a
"single argument" when it is also free of commas outside parentheses. The
expansion is modelled stage by stage, as the header performs it (`SequenceFor`):

1. `ParseSeq`/`RenderSeq`: the input sequence and its elements.
2. `Annotate`: `(a)(b)(c)` becomes `()(a)()(b)()(c)(0)`.
3. `ToGuide`: the annotated sequence becomes the guide `)a))b))c)0)` followed by
   a leftover guide macro name.
4. `Dispatch`: reads the guide one marker at a time. An empty marker runs one
   iteration, the marker `0` expands `f(n, d)` and discards everything up to
   the closing parenthesis, and the model refuses any other marker.

`ForEach` chains the stages. `States`, `Calls` and `Expand` are the reference
fold: the sequence of `m`/`f` calls the documentation promises.
`ForEachCorrect` proves that the staged expansion yields the fold exactly when
every state is a single argument and, in v0.3, every step result is balanced
(`Completes`). Otherwise the model refuses the
invocation with an `Err`. The preprocessor reports no such error: it leaves
undefined names or misplaced arguments in the output.

Two versions are modelled by one definition with a `Version` parameter:

- **v0.1.2** is the generated header. It takes the whole step result as the
  next state.
- **v0.3** is the code-generation template. It cuts the step result at its
  first top-level comma and pastes the rest after `m(…)` on the same
  iteration.

One level parameter stands for the nine copied blocks of the generated
header. The template itself defines only the level-0 macros (with
`SF_MAX_DEPTH` 0); its nesting levels are taken to be generated with the same
depth as the header's. The copies are distinguished by name: `SF_FOR_EACH` is level 0 and `SF_FOR_EACHi`
is level `i+1`, up to `SF_MAX_DEPTH` = 8 (`Levels`). `Codegen` models the
template's naming rule: every `xx` is replaced by the level's suffix and every
`yy` by the level. It proves that the rule produces exactly the names and final
calls of the generated header.

`Tests` models the compile-time test file:

- its whitespace-insensitive comparator `same`, as an imperative method proved
  against a specification;
- its expected expansions, stated with the test's `BODY`/`STEP`/`FINAL` macros
  as functions;
- the nested-loop test, over a tree of labelled elements.

## Model

| member | source | states |
|---|---|---|
| Tokens.IsBalanced | macro_sequence_for.codegen_input.h:41 | decides exactly whether a token run, started at a given depth, never closes more parentheses than are open and ends with none open |
| Tokens.ReadArg | macro_sequence_for.h:80-83 | when it finds the closing parenthesis, the input is the argument, that `)` and the rest, in order |
| Tokens.ReadArgBalanced | macro_sequence_for.h:80-83 | the text of a macro argument read up to its closing parenthesis is always balanced |
| Tokens.ReadArgExact | macro_sequence_for.h:80-83 | a balanced run followed by `)` is read back as exactly that argument, and reading resumes right after the `)` |
| Tokens.SplitTopCommaNone | macro_sequence_for.codegen_input.h:37-38 | on a balanced run, no comma is found exactly when the run has no comma outside parentheses |
| Tokens.SplitTopCommaParts | macro_sequence_for.codegen_input.h:37-41 | the part before the first top-level comma is balanced and comma-free at the top level; the part after it is balanced |
| Tokens.IsSingleArg | macro_sequence_for.h:26 | a state passes as one macro argument exactly when it is balanced and has no top-level comma |
| Levels.Decimal | macro_sequence_for.h:44 | a level is spelled with one or more decimal digits, a single digit exactly below 10, and that digit's value is the level |
| Levels.LevelOf | macro_sequence_for.h:41-44 | a name of the `SF_FOR_EACH` family never reports a level above `SF_MAX_DEPTH` |
| Levels.InnerLoopLevel | macro_sequence_for.h:28-30 | `SF_CAT(SF_FOR_EACH, n)` is defined exactly when `n < SF_MAX_DEPTH`, and it then reports level `n + 1` |
| Levels.LevelOfNames | macro_sequence_for.h:28-30 | every defined family name is `SF_FOR_EACH` at level 0 or `SF_CAT(SF_FOR_EACH, k-1)` at level `k` |
| SequenceFor.ParseRenderSeq | macro_sequence_for.h:23 | every sequence of balanced elements (empty ones and ones with commas included) is read back element for element |
| SequenceFor.RenderParseSeq | macro_sequence_for.h:65-66 | whatever is accepted as a sequence consists of balanced elements and is exactly their parenthesised concatenation |
| SequenceFor.Annotate | macro_sequence_for.h:65-71 | an empty group before every element, each element unchanged and in order, and `(0)` at the end |
| SequenceFor.GuideReadBack | macro_sequence_for.h:73-76 | the guide keeps every group verbatim and in order; after them only the leftover `_A`/`_B` macro name remains, `_A` after an even count |
| SequenceFor.SplitStep | macro_sequence_for.codegen_input.h:100-102 | v0.1.2 keeps the whole step result as the state; v0.3 cuts it at a comma into state and pasted text, or keeps it whole |
| SequenceFor.SplitStepParts | macro_sequence_for.codegen_input.h:37-41 | for a balanced step result, v0.3's next state is always one argument, the pasted text is balanced, and the result is kept whole, with nothing pasted, exactly when it has no top-level comma |
| SequenceFor.DispatchFinish | macro_sequence_for.h:80-82 | marker `0` expands `f(n, d)`, discards the junk up to the closing parenthesis, and keeps what follows |
| SequenceFor.DispatchContinue | macro_sequence_for.h:80-83 | an empty marker reads one element, expands `m(n, d, x)` (and the pasted text in v0.3), and goes on with the new state; the model refuses a v0.3 step result with mismatched parentheses, which the header cannot re-split as arguments |
| SequenceFor.DispatchUnknownMarker | macro_sequence_for.h:80 | the model refuses any marker other than empty or `0` |
| SequenceFor.InvokeLevel | macro_sequence_for.h:28-31 | `SF_FOR_EACH` is the loop at level 0, `SF_FOR_EACHi` the loop at level `i+1` for `i < SF_MAX_DEPTH`; any other suffix is undefined |
| SequenceFor.States | macro_sequence_for.h:24-26 | the states start with `d` and each next one is the step's result for the previous state and element (v0.3: the part before the first top-level comma) |
| SequenceFor.CallsShape | macro_sequence_for.h:23-27 | the promised calls are `m(n, d(i), x(i))` with the pasted text after it for each element in order, then `f(n, d(k))` once |
| SequenceFor.CompletesIff | macro_sequence_for.h:26 | the loop completes exactly when every state is a single argument and (v0.3) every step result is balanced |
| SequenceFor.DispatchGuide | macro_sequence_for.h:78-83 | the dispatch loop over an annotated guide succeeds exactly when the loop completes, and then yields the promised calls' output |
| SequenceFor.ForEachCorrect | macro_sequence_for.h:23-31 | `SF_FOR_EACH(m, s, f, d, seq)` on any balanced sequence succeeds exactly when every state fits, and then expands to `m(n,d0,x1) … m(n,d(k-1),xk) f(n,dk)` |
| SequenceFor.ForEachMalformed | macro_sequence_for.h:65-71 | the model refuses input that does not start with a parenthesised element |
| SequenceFor.CompletesV03 | macro_sequence_for.codegen_input.h:41 | in v0.3 the loop completes exactly when every step result has matched parentheses |
| SequenceFor.StepWithCommaFails | macro_sequence_for.h:26 | in v0.1.2 a step result with an unparenthesised comma, at any iteration, makes the model refuse the expansion: the header would pass it on as several arguments |
| SequenceFor.VersionsAgreeOnCalls | macro_sequence_for.codegen_input.h:37-38 | when no step result has a top-level comma, v0.3 pastes nothing and makes the same calls as v0.1.2 |
| SequenceFor.VersionsAgree | macro_sequence_for.codegen_input.h:31-41 | when every step result is a single argument, both versions expand every balanced sequence, and identically |
| SequenceFor.KeepStateThreads | macro_sequence_for.h:63 | with `SF_STATE` as the step, every iteration sees the initial state and the loop completes |
| SequenceFor.NullExpand | macro_sequence_for.h:34-35 | with `SF_NULL` as body and `SF_STATE` as step and final, the calls expand to the initial state alone |
| SequenceFor.NullLoopDumpsState | macro_sequence_for.h:34-35 | `SF_FOR_EACH(SF_NULL, SF_STATE, SF_STATE, d, seq)` expands to `d` for any balanced sequence |
| SequenceFor.NullStepCompletes | macro_sequence_for.h:34 | with `SF_NULL` as the step and an empty state, the loop completes over any sequence |
| SequenceFor.NullStepExpand | macro_sequence_for.h:34 | with `SF_NULL` as step and final and an empty state, the calls yield the bodies alone, each with the empty state |
| SequenceFor.NullStepLoop | macro_sequence_for.h:34 | `SF_FOR_EACH(m, SF_NULL, SF_NULL, , seq)` expands to `m(n, , x)` for every element in order |
| Codegen.ReplaceAfterFree | macro_sequence_for.codegen_input.h:4-5 | text that cannot start a placeholder passes through unchanged |
| Codegen.ReplaceFront | macro_sequence_for.codegen_input.h:4-5 | a placeholder at the front is replaced and the scan resumes after it |
| Codegen.InstantiateFills | macro_sequence_for.codegen_input.h:4-5 | instantiating a template line replaces exactly its `xx` and `yy` placeholders by the suffix and the level, and nothing else |
| Codegen.Suffix | macro_sequence_for.codegen_input.h:4 | the name suffixes are digits, and only level 0's suffix is empty |
| Codegen.GeneratedFamily | macro_sequence_for.codegen_input.h:48 | the copy of `SF_FOR_EACHxx` for level `j` is `SF_FOR_EACH` (j = 0) or `SF_FOR_EACH` followed by `j-1`, and reports level `j` |
| Codegen.FamilyIsGenerated | macro_sequence_for.h:86-150 | every loop name the generated header defines is the template's copy for the level it reports |
| Codegen.GeneratedFinalCall | macro_sequence_for.codegen_input.h:99 | the final call `f(yy, d)` of level `j`'s copy becomes `f(j, d)` |
| Tests.SqueezeKeeps | tests.cpp:16-17 | the comparison ignores exactly spaces and newlines and keeps every other character |
| Tests.SqueezeConcat | tests.cpp:16-17 | dropping blanks from two strings side by side is dropping them from each |
| Tests.SqueezeIdempotent | tests.cpp:16-17 | dropping blanks twice is dropping them once |
| Tests.TabsCount | tests.cpp:16 | a tab is not skipped: a string with a tab never compares equal to the same string without it |
| Tests.SkipBlanks | tests.cpp:16-17 | the cursor stops at the first character that is not a space or newline (the end reading as NUL), and the squeezed rest is unchanged |
| Tests.Same | tests.cpp:12-25 | `same(a, b)` returns true exactly when the strings are equal once spaces and newlines are dropped |
| Tests.StepIsSingleArg | tests.cpp:28 | a `STEP` result built from a balanced state and element is one parenthesised argument |
| Tests.OracleStates | tests.cpp:28 | with `STEP` as the step, every state the loop reaches is balanced |
| Tests.OracleLoop | tests.cpp:27-29 | with `BODY`, `STEP` and `FINAL`, both versions expand every balanced sequence to the promised calls |
| Tests.OracleUnroll | tests.cpp:27-28 | one turn of the loop: `BODY` for the first element, then the rest of the loop from the `STEP` result |
| Tests.OracleEnd | tests.cpp:29 | the loop over no elements is `FINAL` with the state |
| Tests.ZeroIterations | tests.cpp:33 | zero iterations expand to `(final:n=0;d=s0)` |
| Tests.OneIteration | tests.cpp:35 | one element `x1` expands to `BODY(n, s0, x1) FINAL(n, STEP(n, s0, x1))` at any level and for any balanced element |
| Tests.ThreeExpand | tests.cpp:37-42 | the promised calls for three elements are three bodies, each given the state built so far, then the final with the third state |
| Tests.ThreeIterations | tests.cpp:37-42 | three elements expand to three bodies, each with the state the previous steps built, then the final with the last state |
| Tests.CountingInput | tests.cpp:37 | the input `(1)(2)(3)` is the elements `1`, `2` and `3` |
| Tests.UnusualInput | tests.cpp:45 | the input `()(0)(1,2)` is an empty element, the element `0` and the element `1,2` |
| Tests.UnusualElements | tests.cpp:45-50 | the empty element and the element with a comma reach `BODY` and `STEP` intact, in order |
| Tests.NonZeroLevel | tests.cpp:53-58 | `SF_FOR_EACH2` runs the loop at level 3, so every call receives `n = 3` |
| Tests.RenderSeqBalanced | tests.cpp:65 | a sequence of balanced elements is itself balanced, so it can be passed on as an element's tail |
| Tests.ElemsBalanced | tests.cpp:65 | every element of a nested test sequence is balanced |
| Tests.ElemBalanced | tests.cpp:65 | an element `label,(…)(…)` of the nested test is balanced |
| Tests.SplitAfterLabel | tests.cpp:61 | `x_` of `NESTED_BODY` is the element's label and `...` is its inner sequence |
| Tests.NestedElem | tests.cpp:61-63 | one element at level `j` prints its label with `n=j` and then its inner elements at level `j+1` |
| Tests.NestedBodies | tests.cpp:61-63 | the bodies of a level's elements print each element's text, in order |
| Tests.NestedSeq | tests.cpp:61-65 | an inner loop over any nested sequence that fits the defined levels and body copies prints each element's text in order |
| Tests.NestedLoops | tests.cpp:65-77 | the test's nested input prints labels `0`, `1`, `2` with `n=0`, `10`, `20`, `21` with `n=1` and `210`, `211` with `n=2`, in order |
| Tests.Leaf | tests.cpp:66 | an element without inner elements prints `(n=<level>,d=,x=<label>,)` |
| Tests.Branch | tests.cpp:67-69 | an element with inner elements prints `(n=<level>,d=,x=<label>,`, then its inner elements one level deeper, then `)` |
| Tests.NestedInputText | tests.cpp:65 | the tree of the nested test is written out as exactly the input `(0,)(1,(10,))(2,(20,)(21,(210,)(211,)))` |
| Tests.NestedExpected | tests.cpp:66-77 | the text printed for the tree is exactly the test's expected output, token by token |

## Left out

- Preprocessor mechanics are not modelled: rescanning, blue paint of macro
  names under expansion, the deferred `IMPL_SEQFOR_LPAREN` and `IDENTITY`
  rescans, and `##` pasting that forms an invalid token. The model states what
  each macro produces once it has been expanded.
- The alternation of `IMPL_SEQFOR_ANNOTATE_SEQ_A`/`_B` is not modelled. Its
  leftover name is pasted with `_END` and expands to nothing, so `Annotate`
  produces only the annotated groups.
- The MSVC `#error` guard and the include guard are compile-environment checks
  with no behaviour to model.
- `STR` stringification and the whitespace of the output are not modelled:
  outputs are token sequences. The expected strings of the tests are stated
  as token sequences, through the `BODY`/`STEP`/`FINAL` functions and, for the
  nested test, as the literal token sequence, not as character strings
  compared with `Same`.
- Tests.OneIteration, Tests.ThreeIterations: stated for any balanced elements
  and any level, not only for the test's literal elements `1`, `2`, `3`.
- Tests.NestedElem: an inner loop that fails (a level without a defined
  `SF_FOR_EACH` copy) is rendered as the bare loop name. The preprocessor
  would leave the whole unexpanded invocation, which the test never reaches.
- The tests of `SF_PRESERVE_STATE` and `SF_DUMP_STATE` (tests.cpp:79-83) are
  not modelled by name: neither header version defines those macros. Their
  behaviour is that of `SF_STATE` as step and final, which
  SequenceFor.NullLoopDumpsState and SequenceFor.KeepStateThreads cover.
- Tests.Same: requires strings without NUL characters, because a C string's
  contents end at the first NUL.
- `generate.sh` is not part of this model; only the `xx`/`yy` rule stated in
  the template is.
- Levels.LevelOf: the names are checked only up to `SF_MAX_DEPTH` = 8, whose
  suffixes are single digits. A larger maximum depth is not modelled.
- SequenceFor.DispatchUnknownMarker: the model refuses a guide marker other
  than empty or `0` with an `Err`. The header instead pastes the marker into
  `IMPL_SEQFOR_FOR_GUIDE_A_<marker>`, an undefined name that stays in the
  output. Only the documented usage (macro_sequence_for.h:78) is modelled
  exactly.
- SequenceFor.ForEachMalformed: the model refuses input that is not a
  sequence of parenthesised elements with an `Err`. The header instead pastes
  the stray token with `_END` and leaves undefined guide names in the output.
  Only the documented usage (macro_sequence_for.h:23) is modelled exactly.
- SequenceFor.ForEachCorrect: when a v0.1.2 state is not one argument (an
  unparenthesised comma or an unmatched parenthesis), the model returns an
  `Err`. The header instead passes the wrong arguments on and produces
  output out of step with the guide, or fails to compile.
- SequenceFor.Invoke: for v0.3 the levels above 0 assume a header generated
  from the template with `SF_MAX_DEPTH` 8, like the v0.1.2 header. The
  template as written (macro_sequence_for.codegen_input.h:61) defines only
  level 0, and the depth of a generated v0.3 header is set by `generate.sh`,
  which is not part of this model. Tests.NestedLoops and Tests.NonZeroLevel
  for v0.3 rest on the same assumption.
