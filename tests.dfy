// The compile-time test file: its whitespace-insensitive string comparator and
// the expected expansions of the loop that its assertions pin down.

module Tests {

  import opened Tokens
  import opened Levels
  import opened SequenceFor

  // ---------------------------------------------------------------------------
  // The comparator `same`

  predicate Blank(c: char) {
    c == ' ' || c == '\n'
  }

  /** The string with every space and newline deleted (tabs stay). */
  function Squeeze(s: string): string
  {
    if s == [] then []
    else (if Blank(s[0]) then [] else [s[0]]) + Squeeze(s[1..])
  }

  /** What `Squeeze` keeps: exactly the characters that are neither a space nor
      a newline (SqueezeConcat says that their order is kept). */
  lemma {:induction false} SqueezeKeeps(s: string, c: char)
    ensures c in Squeeze(s) <==> c in s && !Blank(c)
  {
    if s != [] {
      SqueezeKeeps(s[1..], c);
      assert s == [s[0]] + s[1..];
    }
  }

  lemma {:induction false} SqueezeConcat(a: string, b: string)
    ensures Squeeze(a + b) == Squeeze(a) + Squeeze(b)
  {
    if a == [] {
      assert a + b == b;
    } else {
      assert (a + b)[1..] == a[1..] + b;
      SqueezeConcat(a[1..], b);
    }
  }

  /** Squeezing twice is squeezing once. */
  lemma {:induction false} SqueezeIdempotent(s: string)
    ensures Squeeze(Squeeze(s)) == Squeeze(s)
  {
    if s != [] {
      SqueezeIdempotent(s[1..]);
      var h := if Blank(s[0]) then [] else [s[0]];
      SqueezeConcat(h, Squeeze(s[1..]));
    }
  }

  /** A tab is not skipped: a string with a tab never matches the same
      string without it. */
  lemma TabsCount(a: string, b: string)
    ensures !Same'(a + "\t" + b, a + b)
  {
    SqueezeConcat(a + "\t", b);
    SqueezeConcat(a, "\t");
    SqueezeConcat(a, b);
  }

  /** Whether `same(a, b)` holds, stated on the squeezed strings. */
  predicate Same'(a: string, b: string) {
    Squeeze(a) == Squeeze(b)
  }

  /** The character `*p` reads at offset `i` of a C string: past the contents
      comes the terminating NUL. */
  function At(s: string, i: nat): char {
    if i < |s| then s[i] else '\0'
  }

  /** The squeezed rest of a string after one skipped blank. */
  lemma SqueezeSkip(s: string, i: nat)
    requires i < |s| && Blank(s[i])
    ensures Squeeze(s[i..]) == Squeeze(s[i + 1..])
  {
    assert s[i..][1..] == s[i + 1..];
  }

  /** The squeezed rest of a string that starts with a kept character. */
  lemma SqueezeKept(s: string, i: nat)
    requires i < |s| && !Blank(s[i])
    ensures Squeeze(s[i..]) == [s[i]] + Squeeze(s[i + 1..])
  {
    assert s[i..][1..] == s[i + 1..];
  }

  /** Two rests whose first kept characters differ (the end reading as NUL)
      squeeze differently. */
  lemma SqueezeDiffer(a: string, i: nat, b: string, j: nat)
    requires '\0' !in a && '\0' !in b && i <= |a| && j <= |b|
    requires !Blank(At(a, i)) && !Blank(At(b, j)) && At(a, i) != At(b, j)
    ensures Squeeze(a[i..]) != Squeeze(b[j..])
  {
    if i < |a| {
      SqueezeKept(a, i);
    } else {
      assert a[i..] == [];
    }
    if j < |b| {
      SqueezeKept(b, j);
    } else {
      assert b[j..] == [];
    }
    if i < |a| && j < |b| {
      assert Squeeze(a[i..])[0] != Squeeze(b[j..])[0];
    }
  }

  /** Two rests that start with the same kept character squeeze equally
      exactly when what follows does. */
  lemma SqueezeSameHead(a: string, i: nat, b: string, j: nat)
    requires i < |a| && j < |b| && !Blank(a[i]) && a[i] == b[j]
    ensures Squeeze(a[i..]) == Squeeze(b[j..]) <==> Squeeze(a[i + 1..]) == Squeeze(b[j + 1..])
  {
    SqueezeKept(a, i);
    SqueezeKept(b, j);
    if Squeeze(a[i..]) == Squeeze(b[j..]) {
      assert Squeeze(a[i + 1..]) == Squeeze(a[i..])[1..];
    }
  }

  /** Moves a cursor past spaces and newlines; what the rest squeezes to
      does not change. */
  method SkipBlanks(s: string, i: nat) returns (k: nat)
    requires i <= |s|
    ensures i <= k <= |s| && !Blank(At(s, k))
    ensures Squeeze(s[k..]) == Squeeze(s[i..])
  {
    k := i;
    while Blank(At(s, k))
      invariant i <= k <= |s|
      invariant Squeeze(s[k..]) == Squeeze(s[i..])
      decreases |s| - k
    {
      SqueezeSkip(s, k);
      k := k + 1;
    }
  }

  /** `same(a, b)`: walks both strings with one cursor each, skipping spaces
      and newlines, and stops at the first difference or at the common end. */
  method Same(a: string, b: string) returns (r: bool)
    requires '\0' !in a && '\0' !in b
    ensures r <==> Same'(a, b)
  {
    var i, j := 0, 0;
    while true
      invariant 0 <= i <= |a| && 0 <= j <= |b|
      invariant Same'(a, b) <==> Squeeze(a[i..]) == Squeeze(b[j..])
      decreases |a| - i
    {
      i := SkipBlanks(a, i);
      j := SkipBlanks(b, j);
      if At(a, i) != At(b, j) {
        SqueezeDiffer(a, i, b, j);
        return false;
      }
      if At(a, i) == '\0' {
        assert a[i..] == [] && b[j..] == [];
        return true;
      }
      SqueezeSameHead(a, i, b, j);
      i, j := i + 1, j + 1;
    }
  }

  // ---------------------------------------------------------------------------
  // The oracle macros `BODY`, `STEP` and `FINAL`

  /** `BODY(n_, d_, ...)`: `(body:n=n_;x=...;d=d_)`. */
  function BodyOracle(n: nat, d: State, x: Group): seq<Token> {
    [LParen, Word("body:n="), Word(Decimal(n)), Word(";x=")] + x + [Word(";d=")] + d + [RParen]
  }

  /** `STEP(n_, d_, ...)`: `(step:n=n_;x=...;d=d_)`. */
  function StepOracle(n: nat, d: State, x: Group): seq<Token> {
    [LParen, Word("step:n="), Word(Decimal(n)), Word(";x=")] + x + [Word(";d=")] + d + [RParen]
  }

  /** `FINAL(n_, d_)`: `(final:n=n_;d=d_)`. */
  function FinalOracle(n: nat, d: State): seq<Token> {
    [LParen, Word("final:n="), Word(Decimal(n)), Word(";d=")] + d + [RParen]
  }

  /** A run without parentheses is balanced. */
  lemma BalancedWords(ws: seq<Token>)
    requires forall i :: 0 <= i < |ws| ==> Delta(ws[i]) == 0
    ensures Balanced(ws)
  {
    forall i | 0 <= i <= |ws| ensures Depth(ws[..i]) >= 0 {
      WordsDepth(ws[..i]);
    }
    WordsDepth(ws);
  }

  lemma {:induction false} WordsDepth(ws: seq<Token>)
    requires forall i :: 0 <= i < |ws| ==> Delta(ws[i]) == 0
    ensures Depth(ws) == 0
  {
    if ws != [] {
      WordsDepth(ws[1..]);
    }
  }

  /** A `STEP` result built from a balanced state and element is one
      parenthesised argument. */
  lemma StepIsSingleArg(n: nat, d: State, x: Group)
    requires Balanced(d) && Balanced(x)
    ensures IsSingleArg(StepOracle(n, d, x))
  {
    var head := [Word("step:n="), Word(Decimal(n)), Word(";x=")];
    var mid := [Word(";d=")];
    BalancedWords(head);
    BalancedWords(mid);
    BalancedConcat(head, x);
    BalancedConcat(head + x, mid);
    BalancedConcat(head + x + mid, d);
    Parenthesized(head + x + mid + d);
    assert StepOracle(n, d, x) == [LParen] + (head + x + mid + d) + [RParen];
  }

  /** With `STEP` as the step, every state the loop reaches is balanced. */
  lemma {:induction false} OracleStates(v: Version, n: nat, d: State, xs: seq<Group>)
    requires Balanced(d) && AllBalanced(xs)
    ensures forall i :: 0 <= i <= |xs| ==> IsBalanced(States(v, n, StepOracle, d, xs)[i], 0)
    decreases |xs|
  {
    var ds := States(v, n, StepOracle, d, xs);
    if xs != [] {
      AllBalancedTail(xs);
      StepIsSingleArg(n, d, xs[0]);
      var d' := SplitStep(v, StepOracle(n, d, xs[0])).0;
      assert d' == StepOracle(n, d, xs[0]) by {
        if v == V0_3 {
          SplitStepParts(StepOracle(n, d, xs[0]));
        }
      }
      OracleStates(v, n, d', xs[1..]);
      assert ds[1..] == States(v, n, StepOracle, d', xs[1..]);
      forall i | 0 <= i <= |xs| ensures IsBalanced(ds[i], 0) {
        if i > 0 {
          assert ds[i] == ds[1..][i - 1];
        }
      }
    }
  }

  /** The oracle loop: with `BODY`, `STEP` and `FINAL`, every balanced
      sequence expands in both versions to the reference fold. */
  lemma OracleLoop(v: Version, n: nat, d: State, xs: seq<Group>)
    requires IsSingleArg(d) && AllBalanced(xs)
    ensures ForEach(v, n, BodyOracle, StepOracle, FinalOracle, d, RenderSeq(xs)) ==
              Ok(Expand(Calls(V0_1_2, n, StepOracle, d, xs), BodyOracle, FinalOracle))
  {
    var ds := States(V0_1_2, n, StepOracle, d, xs);
    OracleStates(V0_1_2, n, d, xs);
    forall i | 0 <= i < |xs| ensures IsSingleArg(StepOracle(n, ds[i], xs[i])) {
      StepIsSingleArg(n, ds[i], xs[i]);
    }
    VersionsAgree(n, BodyOracle, StepOracle, FinalOracle, d, xs);
    ForEachCorrect(V0_1_2, n, BodyOracle, StepOracle, FinalOracle, d, xs);
  }

  /** One turn of the oracle loop: `BODY` for the first element, then the
      rest of the loop from the `STEP` result. */
  lemma OracleUnroll(n: nat, d: State, xs: seq<Group>)
    requires xs != []
    ensures Expand(Calls(V0_1_2, n, StepOracle, d, xs), BodyOracle, FinalOracle) ==
              BodyOracle(n, d, xs[0]) +
              Expand(Calls(V0_1_2, n, StepOracle, StepOracle(n, d, xs[0]), xs[1..]), BodyOracle, FinalOracle)
  {
    var rest := Calls(V0_1_2, n, StepOracle, StepOracle(n, d, xs[0]), xs[1..]);
    ExpandIteration(n, d, xs[0], [], rest, BodyOracle, FinalOracle);
  }

  /** The end of the oracle loop: `FINAL` with the last state. */
  lemma OracleEnd(n: nat, d: State)
    ensures Expand(Calls(V0_1_2, n, StepOracle, d, []), BodyOracle, FinalOracle) == FinalOracle(n, d)
  {
    assert Calls(V0_1_2, n, StepOracle, d, []) == [FinalCall(n, d)];
    assert Expand([FinalCall(n, d)], BodyOracle, FinalOracle) == FinalOracle(n, d);
  }

  const S0: State := [Word("s0")]

  /** `SF_FOR_EACH(BODY, STEP, FINAL, s0,)`: zero iterations give only
      `(final:n=0;d=s0)`. */
  lemma ZeroIterations(v: Version)
    ensures ForEach(v, 0, BodyOracle, StepOracle, FinalOracle, S0, []) ==
              Ok([LParen, Word("final:n="), Word("0"), Word(";d="), Word("s0"), RParen])
  {
    NoIterations(v, 0);
    FinalOracleOfWord(0, "s0");
    SmallDecimals();
  }

  lemma FinalOracleOfWord(n: nat, w: string)
    ensures FinalOracle(n, [Word(w)]) == [LParen, Word("final:n="), Word(Decimal(n)), Word(";d="), Word(w), RParen]
  {
  }

  lemma NoIterations(v: Version, n: nat)
    ensures ForEach(v, n, BodyOracle, StepOracle, FinalOracle, S0, []) == Ok(FinalOracle(n, S0))
  {
    BalancedWord("s0");
    var none: seq<Group> := [];
    OracleLoop(v, n, S0, none);
    assert RenderSeq(none) == [];
    OracleEnd(n, S0);
  }

  /** `SF_FOR_EACH(BODY, STEP, FINAL, s0, (x1))`: one iteration gives
      `m(n,s0,x1) f(n, s(n,s0,x1))` (the test uses level 0 and `x1 = 1`). */
  lemma OneIteration(v: Version, n: nat, x1: Group)
    requires Balanced(x1)
    ensures ForEach(v, n, BodyOracle, StepOracle, FinalOracle, S0, RenderSeq([x1])) ==
              Ok(BodyOracle(n, S0, x1) + FinalOracle(n, StepOracle(n, S0, x1)))
  {
    BalancedWord("s0");
    assert AllBalanced([x1]);
    OracleLoop(v, n, S0, [x1]);
    OracleUnroll(n, S0, [x1]);
    assert [x1][1..] == [];
    OracleEnd(n, StepOracle(n, S0, x1));
  }

  lemma ThreeExpand(n: nat, x1: Group, x2: Group, x3: Group)
    ensures var d1 := StepOracle(n, S0, x1);
      var d2 := StepOracle(n, d1, x2);
      var d3 := StepOracle(n, d2, x3);
      Expand(Calls(V0_1_2, n, StepOracle, S0, [x1, x2, x3]), BodyOracle, FinalOracle) ==
        BodyOracle(n, S0, x1) + BodyOracle(n, d1, x2) + BodyOracle(n, d2, x3) + FinalOracle(n, d3)
  {
    var d1 := StepOracle(n, S0, x1);
    var d2 := StepOracle(n, d1, x2);
    var d3 := StepOracle(n, d2, x3);
    var b1, b2, b3, f := BodyOracle(n, S0, x1), BodyOracle(n, d1, x2), BodyOracle(n, d2, x3), FinalOracle(n, d3);
    var xs := [x1, x2, x3];
    var ys, zs := xs[1..], xs[1..][1..];
    assert xs[0] == x1 && ys[0] == x2 && zs[0] == x3 && zs[1..] == [];
    var e3 := Expand(Calls(V0_1_2, n, StepOracle, d2, zs), BodyOracle, FinalOracle);
    var e2 := Expand(Calls(V0_1_2, n, StepOracle, d1, ys), BodyOracle, FinalOracle);
    OracleUnroll(n, d2, zs);
    OracleEnd(n, d3);
    assert e3 == b3 + f;
    OracleUnroll(n, d1, ys);
    assert e2 == b2 + e3;
    OracleUnroll(n, S0, xs);
    Reassociate(b1, b2, b3, f);
  }

  lemma Reassociate(a: seq<Token>, b: seq<Token>, c: seq<Token>, d: seq<Token>)
    ensures a + (b + (c + d)) == a + b + c + d
  {
  }

  /** `SF_FOR_EACH(BODY, STEP, FINAL, s0, (x1)(x2)(x3))`: three bodies, each
      given the state the previous steps built, then the final with
      `s(n, s(n, s(n,s0,x1),x2),x3)`. */
  lemma ThreeIterations(v: Version, n: nat, x1: Group, x2: Group, x3: Group)
    requires Balanced(x1) && Balanced(x2) && Balanced(x3)
    ensures var d1 := StepOracle(n, S0, x1);
      var d2 := StepOracle(n, d1, x2);
      var d3 := StepOracle(n, d2, x3);
      ForEach(v, n, BodyOracle, StepOracle, FinalOracle, S0, RenderSeq([x1, x2, x3])) ==
        Ok(BodyOracle(n, S0, x1) + BodyOracle(n, d1, x2) + BodyOracle(n, d2, x3) + FinalOracle(n, d3))
  {
    BalancedWord("s0");
    var xs := [x1, x2, x3];
    assert AllBalanced(xs);
    OracleLoop(v, n, S0, xs);
    ThreeExpand(n, x1, x2, x3);
  }

  lemma RenderThree(x1: Group, x2: Group, x3: Group)
    ensures RenderSeq([x1, x2, x3]) == [LParen] + x1 + [RParen, LParen] + x2 + [RParen, LParen] + x3 + [RParen]
  {
    assert [x1, x2, x3] == [x1] + [x2, x3];
    RenderSeqCons(x1, [x2, x3]);
    assert [x2, x3] == [x2] + [x3];
    RenderSeqCons(x2, [x3]);
    assert [x3] == [x3] + [];
    RenderSeqCons(x3, []);
    assert RenderSeq([]) == [];
  }

  /** The input `(1)(2)(3)` is the elements `1`, `2`, `3`. */
  lemma CountingInput()
    ensures RenderSeq([[Word("1")], [Word("2")], [Word("3")]]) ==
              [LParen, Word("1"), RParen, LParen, Word("2"), RParen, LParen, Word("3"), RParen]
  {
    RenderThree([Word("1")], [Word("2")], [Word("3")]);
  }

  /** The input `()(0)(1,2)` is an empty element, the element `0` and the
      element `1,2`. */
  lemma UnusualInput()
    ensures RenderSeq([[], [Word("0")], [Word("1"), Comma, Word("2")]]) ==
              [LParen, RParen, LParen, Word("0"), RParen, LParen, Word("1"), Comma, Word("2"), RParen]
  {
    RenderThree([], [Word("0")], [Word("1"), Comma, Word("2")]);
  }

  /** `SF_FOR_EACH(BODY, STEP, FINAL, s0, ()(0)(1,2))`: the empty element and
      the element with a comma reach `m` and `s` intact. */
  lemma UnusualElements(v: Version)
    ensures var x1: Group, x2: Group, x3: Group := [], [Word("0")], [Word("1"), Comma, Word("2")];
      var d1 := StepOracle(0, S0, x1);
      var d2 := StepOracle(0, d1, x2);
      var d3 := StepOracle(0, d2, x3);
      ForEach(v, 0, BodyOracle, StepOracle, FinalOracle, S0, RenderSeq([x1, x2, x3])) ==
        Ok(BodyOracle(0, S0, x1) + BodyOracle(0, d1, x2) + BodyOracle(0, d2, x3) + FinalOracle(0, d3))
  {
    UnusualBalanced();
    ThreeIterations(v, 0, [], [Word("0")], [Word("1"), Comma, Word("2")]);
  }

  /** The elements of the unusual-elements test are balanced. */
  lemma UnusualBalanced()
    ensures Balanced([]) && Balanced([Word("0")]) && Balanced([Word("1"), Comma, Word("2")])
  {
    BalancedEmpty();
    BalancedWord("0");
    var x3 := [Word("1"), Comma, Word("2")];
    assert Delta(x3[0]) == 0 && Delta(x3[1]) == 0 && Delta(x3[2]) == 0;
    BalancedWords(x3);
  }

  /** `SF_FOR_EACH2(BODY, STEP, FINAL, s0, …)` is the loop at level 3: every
      `m`, `s` and `f` call receives `n = 3`. */
  lemma NonZeroLevel(v: Version, input: seq<Token>)
    ensures Invoke(v, "SF_FOR_EACH2", BodyOracle, StepOracle, FinalOracle, S0, input) ==
              ForEach(v, 3, BodyOracle, StepOracle, FinalOracle, S0, input)
  {
    InvokeLevel(v, 2, BodyOracle, StepOracle, FinalOracle, S0, input);
    assert Cat(ForEachBase, Decimal(2)) == "SF_FOR_EACH2";
  }

  // ---------------------------------------------------------------------------
  // The nested-loop test: `NESTED_BODY`, `NESTED_BODY0`, `NESTED_BODY1`

  /** An element of the nested-loop test, `x_,(…)(…)`: a label, then a
      sequence of inner elements. */
  datatype Tree = Node(tag: string, kids: seq<Tree>)

  function ElemOf(t: Tree): Group
    decreases t, 1
  {
    [Word(t.tag), Comma] + RenderSeq(ElemsOf(t.kids))
  }

  function ElemsOf(ts: seq<Tree>): seq<Group>
    decreases ts, 0
  {
    if ts == [] then [] else [ElemOf(ts[0])] + ElemsOf(ts[1..])
  }

  /** `(n=n_,d=d_,x=x_,` followed by the inner loop's text and `)`. */
  function Printed(n: nat, d: State, x: Group, inner: seq<Token>): seq<Token> {
    [LParen, Word("n="), Word(Decimal(n)), Comma, Word("d=")] + d + [Comma, Word("x=")] + x + [Comma] + inner + [RParen]
  }

  /** The text the test expects for an element at level `n`: its label, then
      the text of its inner elements at level `n + 1`. */
  function Out(n: nat, t: Tree): seq<Token>
    decreases t, 1
  {
    Printed(n, [], [Word(t.tag)], OutSeq(n + 1, t.kids))
  }

  function OutSeq(n: nat, ts: seq<Tree>): seq<Token>
    decreases ts, 0
  {
    if ts == [] then [] else Out(n, ts[0]) + OutSeq(n, ts[1..])
  }

  /** The number of `NESTED_BODY` copies the test defines (suffixes ``, `0`
      and `1`). */
  const NestedCopies: nat := 3

  /** `x_` and `...` of `NESTED_BODY(n_, d_, x_, ...)`: the element up to its
      first top-level comma, and what follows that comma. */
  function FirstArg(x: Group): (Group, seq<Token>) {
    match SplitTopComma(x, 0)
    case None => (x, [])
    case Some(p) => p
  }

  /** A body name with no definition is left in the output as it is, with its
      arguments. */
  function UndefinedBody(name: string): BodyMacro {
    (n: nat, d: State, x: Group) => [Word(name), LParen, Word(Decimal(n)), Comma] + d + [Comma] + x + [RParen]
  }

  /** The copy of `NESTED_BODY` used by the loop at level `j`: it prints its
      arguments and runs `SF_CAT(SF_FOR_EACH, n_)` over the rest of its
      element, with the next copy `SF_CAT(NESTED_BODY, n_)` as the body and
      `SF_NULL` as step and final. */
  function NestedBody(v: Version, j: nat): BodyMacro
    decreases NestedCopies - j, 1
  {
    (n: nat, d: State, x: Group) => Printed(n, d, FirstArg(x).0, InnerLoop(v, n, NestedInner(v, j), d, FirstArg(x).1))
  }

  /** `SF_CAT(NESTED_BODY, n_)` as used by the copy at level `j`: the next
      copy, or an undefined name after the last one. */
  function NestedInner(v: Version, j: nat): BodyMacro
    decreases NestedCopies - j, 0
  {
    if j + 1 < NestedCopies then NestedBody(v, j + 1) else UndefinedBody("NESTED_BODY" + Decimal(j))
  }

  /** `SF_CAT(SF_FOR_EACH, n_)(inner, SF_NULL, SF_NULL, d_, rest)`, or the bare
      loop name when that loop cannot expand. */
  function InnerLoop(v: Version, n: nat, inner: BodyMacro, d: State, rest: seq<Token>): seq<Token> {
    var name := Cat(ForEachBase, Decimal(n));
    match Invoke(v, name, inner, Null, NullFinal, d, rest)
    case Ok(t) => t
    case Err(_) => [Word(name)]
  }

  /** Every element at level `j` can open its inner loop (`SF_FOR_EACHj` is
      defined), and every element with inner elements has a next body copy. */
  predicate FitsTree(t: Tree, j: nat)
    decreases t, 1
  {
    j < MaxDepth && (t.kids != [] ==> j + 1 < NestedCopies) && FitsSeq(t.kids, j + 1)
  }

  predicate FitsSeq(ts: seq<Tree>, j: nat)
    decreases ts, 0
  {
    ts == [] || (FitsTree(ts[0], j) && FitsSeq(ts[1..], j))
  }

  lemma {:induction false} RenderSeqBalanced(xs: seq<Group>)
    requires AllBalanced(xs)
    ensures Balanced(RenderSeq(xs))
    decreases |xs|
  {
    if xs == [] {
      BalancedEmpty();
    } else {
      AllBalancedTail(xs);
      Parenthesized(xs[0]);
      RenderSeqBalanced(xs[1..]);
      BalancedConcat([LParen] + xs[0] + [RParen], RenderSeq(xs[1..]));
    }
  }

  lemma {:induction false} ElemsBalanced(ts: seq<Tree>)
    ensures AllBalanced(ElemsOf(ts))
    decreases ts, 0
  {
    if ts != [] {
      ElemBalanced(ts[0]);
      ElemsBalanced(ts[1..]);
      var es := ElemsOf(ts);
      forall i | 0 <= i < |es| ensures Balanced(es[i]) {
        if i > 0 {
          assert es[i] == ElemsOf(ts[1..])[i - 1];
        }
      }
    }
  }

  lemma {:induction false} ElemBalanced(t: Tree)
    ensures Balanced(ElemOf(t))
    decreases t, 1
  {
    ElemsBalanced(t.kids);
    RenderSeqBalanced(ElemsOf(t.kids));
    BalancedWords([Word(t.tag), Comma]);
    BalancedConcat([Word(t.tag), Comma], RenderSeq(ElemsOf(t.kids)));
  }

  lemma SplitAfterLabel(w: string, rest: seq<Token>)
    ensures FirstArg([Word(w), Comma] + rest) == ([Word(w)], rest)
  {
    var ts := [Word(w), Comma] + rest;
    assert ts[1..] == [Comma] + rest;
    assert ts[1..][1..] == rest;
    assert Step(0, ts[0]) == 0;
    assert SplitTopComma(ts[1..], 0) == Some(([], rest));
    assert SplitTopComma(ts, 0) == Some(([Word(w)] + [], rest));
    assert [Word(w)] + [] == [Word(w)];
  }

  /** One element of the nested test at level `j` prints its label and then
      its inner elements at level `j + 1`. */
  lemma {:induction false} NestedElem(v: Version, j: nat, t: Tree)
    requires FitsTree(t, j)
    ensures NestedBody(v, j)(j, [], ElemOf(t)) == Out(j, t)
    decreases t, 2
  {
    var rest := RenderSeq(ElemsOf(t.kids));
    var x := ElemOf(t);
    assert x == [Word(t.tag), Comma] + rest;
    SplitAfterLabel(t.tag, rest);
    var inner := NestedInner(v, j);
    assert NestedBody(v, j)(j, [], x) == Printed(j, [], [Word(t.tag)], InnerLoop(v, j, inner, [], rest));
    InvokeLevel(v, j, inner, Null, NullFinal, [], rest);
    if t.kids == [] {
      NullStepLoop(v, j + 1, inner, []);
      assert ElemsOf(t.kids) == [];
    } else {
      NestedSeq(v, j + 1, t.kids);
    }
    assert InnerLoop(v, j, inner, [], rest) == OutSeq(j + 1, t.kids);
  }

  lemma {:induction false} NestedBodies(v: Version, j: nat, ts: seq<Tree>)
    requires FitsSeq(ts, j)
    ensures BodiesWithEmptyState(NestedBody(v, j), j, ElemsOf(ts)) == OutSeq(j, ts)
    decreases ts, 0
  {
    if ts != [] {
      NestedElem(v, j, ts[0]);
      NestedBodies(v, j, ts[1..]);
      assert ElemsOf(ts)[0] == ElemOf(ts[0]);
      assert ElemsOf(ts)[1..] == ElemsOf(ts[1..]);
    }
  }

  /** `SF_FOR_EACHj-1(NESTED_BODY…, SF_NULL, SF_NULL, , seq)` at level `j`:
      each element prints its label and runs the next level's loop over its
      inner elements, so the output is the elements' text in order, each
      inner loop reporting the next level. */
  lemma {:induction false} NestedSeq(v: Version, j: nat, ts: seq<Tree>)
    requires FitsSeq(ts, j)
    ensures ForEach(v, j, NestedBody(v, j), Null, NullFinal, [], RenderSeq(ElemsOf(ts))) == Ok(OutSeq(j, ts))
    decreases ts, 1
  {
    ElemsBalanced(ts);
    NullStepLoop(v, j, NestedBody(v, j), ElemsOf(ts));
    NestedBodies(v, j, ts);
  }

  /** The test's sequence `(0,)(1,(10,))(2,(20,)(21,(210,)(211,)))`. */
  const NestedInput: seq<Tree> := [
    Node("0", []),
    Node("1", [Node("10", [])]),
    Node("2", [Node("20", []), Node("21", [Node("210", []), Node("211", [])])])
  ]

  /** The text of an element at level `n` without inner elements. */
  lemma Leaf(n: nat, tag: string)
    ensures Out(n, Node(tag, [])) ==
              [LParen, Word("n="), Word(Decimal(n)), Comma, Word("d="), Comma, Word("x="), Word(tag), Comma, RParen]
  {
    assert OutSeq(n + 1, []) == [];
  }

  /** The text of an element at level `n` with inner elements. */
  lemma Branch(n: nat, tag: string, kids: seq<Tree>)
    ensures Out(n, Node(tag, kids)) ==
              [LParen, Word("n="), Word(Decimal(n)), Comma, Word("d="), Comma, Word("x="), Word(tag), Comma]
              + OutSeq(n + 1, kids) + [RParen]
  {
  }

  lemma OutSeqTwo(n: nat, a: Tree, b: Tree)
    ensures OutSeq(n, [a, b]) == Out(n, a) + Out(n, b)
  {
    assert [a, b][1..] == [b];
    assert OutSeq(n, [b]) == Out(n, b) + OutSeq(n, []);
  }

  lemma OutSeqThree(n: nat, a: Tree, b: Tree, c: Tree)
    ensures OutSeq(n, [a, b, c]) == Out(n, a) + Out(n, b) + Out(n, c)
  {
    assert [a, b, c][1..] == [b, c];
    OutSeqTwo(n, b, c);
  }

  lemma SmallDecimals()
    ensures Decimal(0) == "0" && Decimal(1) == "1" && Decimal(2) == "2"
  {
  }

  /** `(n=1,d=,x=21,(n=2,d=,x=210,)(n=2,d=,x=211,))` */
  lemma Expected21()
    ensures Out(1, Node("21", [Node("210", []), Node("211", [])])) ==
      [LParen, Word("n="), Word("1"), Comma, Word("d="), Comma, Word("x="), Word("21"), Comma] +
      [LParen, Word("n="), Word("2"), Comma, Word("d="), Comma, Word("x="), Word("210"), Comma, RParen] +
      [LParen, Word("n="), Word("2"), Comma, Word("d="), Comma, Word("x="), Word("211"), Comma, RParen] +
      [RParen]
  {
    SmallDecimals();
    Leaf(2, "210");
    Leaf(2, "211");
    OutSeqTwo(2, Node("210", []), Node("211", []));
    Branch(1, "21", [Node("210", []), Node("211", [])]);
  }

  /** `(n=0,d=,x=1,(n=1,d=,x=10,))` */
  lemma Expected1()
    ensures Out(0, Node("1", [Node("10", [])])) ==
      [LParen, Word("n="), Word("0"), Comma, Word("d="), Comma, Word("x="), Word("1"), Comma] +
      [LParen, Word("n="), Word("1"), Comma, Word("d="), Comma, Word("x="), Word("10"), Comma, RParen] +
      [RParen]
  {
    SmallDecimals();
    Leaf(1, "10");
    assert OutSeq(1, [Node("10", [])]) == Out(1, Node("10", [])) + OutSeq(1, []);
    Branch(0, "1", [Node("10", [])]);
  }

  /** `(n=0,d=,x=2,(n=1,d=,x=20,)(n=1,d=,x=21,…))` */
  lemma Expected2()
    ensures var n21 := Node("21", [Node("210", []), Node("211", [])]);
      Out(0, Node("2", [Node("20", []), n21])) ==
      [LParen, Word("n="), Word("0"), Comma, Word("d="), Comma, Word("x="), Word("2"), Comma] +
      [LParen, Word("n="), Word("1"), Comma, Word("d="), Comma, Word("x="), Word("20"), Comma, RParen] +
      Out(1, n21) +
      [RParen]
  {
    var n21 := Node("21", [Node("210", []), Node("211", [])]);
    SmallDecimals();
    Leaf(1, "20");
    OutSeqTwo(1, Node("20", []), n21);
    Branch(0, "2", [Node("20", []), n21]);
  }

  /** The expected text of the nested-loop test, token by token. */
  lemma NestedExpected()
    ensures OutSeq(0, NestedInput) ==
      [LParen, Word("n="), Word("0"), Comma, Word("d="), Comma, Word("x="), Word("0"), Comma, RParen] +
      ([LParen, Word("n="), Word("0"), Comma, Word("d="), Comma, Word("x="), Word("1"), Comma] +
        [LParen, Word("n="), Word("1"), Comma, Word("d="), Comma, Word("x="), Word("10"), Comma, RParen] +
      [RParen]) +
      ([LParen, Word("n="), Word("0"), Comma, Word("d="), Comma, Word("x="), Word("2"), Comma] +
        [LParen, Word("n="), Word("1"), Comma, Word("d="), Comma, Word("x="), Word("20"), Comma, RParen] +
        ([LParen, Word("n="), Word("1"), Comma, Word("d="), Comma, Word("x="), Word("21"), Comma] +
          [LParen, Word("n="), Word("2"), Comma, Word("d="), Comma, Word("x="), Word("210"), Comma, RParen] +
          [LParen, Word("n="), Word("2"), Comma, Word("d="), Comma, Word("x="), Word("211"), Comma, RParen] +
        [RParen]) +
      [RParen])
  {
    SmallDecimals();
    Leaf(0, "0");
    Expected1();
    Expected2();
    Expected21();
    assert NestedInput == [NestedInput[0], NestedInput[1], NestedInput[2]];
    OutSeqThree(0, NestedInput[0], NestedInput[1], NestedInput[2]);
  }

  lemma ElemLeaf(tag: string)
    ensures ElemOf(Node(tag, [])) == [Word(tag), Comma]
  {
    assert ElemsOf([]) == [];
  }

  lemma ElemsTwo(a: Tree, b: Tree)
    ensures RenderSeq(ElemsOf([a, b])) == [LParen] + ElemOf(a) + [RParen, LParen] + ElemOf(b) + [RParen]
  {
    assert [a, b][1..] == [b] && [b][1..] == [];
    assert ElemsOf([b]) == [ElemOf(b)] + ElemsOf([]);
    assert ElemsOf([a, b]) == [ElemOf(a)] + ElemsOf([b]);
    RenderSeqCons(ElemOf(a), [ElemOf(b)]);
    RenderSeqCons(ElemOf(b), []);
  }

  lemma ElemsOne(a: Tree)
    ensures RenderSeq(ElemsOf([a])) == [LParen] + ElemOf(a) + [RParen]
  {
    assert ElemsOf([a]) == [ElemOf(a)];
    RenderSeqCons(ElemOf(a), []);
  }

  /** `21,(210,)(211,)` */
  lemma Input21()
    ensures ElemOf(Node("21", [Node("210", []), Node("211", [])])) ==
      [Word("21"), Comma, LParen, Word("210"), Comma, RParen, LParen, Word("211"), Comma, RParen]
  {
    ElemLeaf("210");
    ElemLeaf("211");
    ElemsTwo(Node("210", []), Node("211", []));
  }

  /** `2,(20,)(21,(210,)(211,))` */
  lemma Input2()
    ensures ElemOf(NestedInput[2]) ==
      [Word("2"), Comma, LParen, Word("20"), Comma, RParen, LParen] +
      [Word("21"), Comma, LParen, Word("210"), Comma, RParen, LParen, Word("211"), Comma, RParen] +
      [RParen]
  {
    var n21 := Node("21", [Node("210", []), Node("211", [])]);
    assert NestedInput[2] == Node("2", [Node("20", []), n21]);
    ElemLeaf("20");
    Input21();
    ElemsTwo(Node("20", []), n21);
  }

  /** The test's input `(0,)(1,(10,))(2,(20,)(21,(210,)(211,)))`, token by
      token, is the rendering of `NestedInput`. */
  lemma NestedInputText()
    ensures RenderSeq(ElemsOf(NestedInput)) ==
      [LParen] + [Word("0"), Comma] + [RParen, LParen] +
      ([Word("1"), Comma] + ([LParen] + [Word("10"), Comma] + [RParen])) + [RParen, LParen] +
      ([Word("2"), Comma, LParen, Word("20"), Comma, RParen, LParen] +
       [Word("21"), Comma, LParen, Word("210"), Comma, RParen, LParen, Word("211"), Comma, RParen] +
       [RParen]) + [RParen]
  {
    ElemLeaf("0");
    ElemLeaf("10");
    ElemsOne(Node("10", []));
    Input2();
    assert NestedInput == [NestedInput[0], NestedInput[1], NestedInput[2]];
    assert NestedInput[1] == Node("1", [Node("10", [])]);
    assert ElemOf(NestedInput[1]) == [Word("1"), Comma] + RenderSeq(ElemsOf([Node("10", [])]));
    assert ElemsOf(NestedInput) == [ElemOf(NestedInput[0]), ElemOf(NestedInput[1]), ElemOf(NestedInput[2])];
    RenderThree(ElemOf(NestedInput[0]), ElemOf(NestedInput[1]), ElemOf(NestedInput[2]));
  }

  /** `SF_FOR_EACH(NESTED_BODY, SF_NULL, SF_NULL, , (0,)(1,(10,))(2,(20,)(21,(210,)(211,))))`:
      the labels come out in order, those of the first level with `n=0`, the
      inner ones with `n=1` and the innermost with `n=2`. */
  lemma NestedLoops(v: Version)
    ensures ForEach(v, 0, NestedBody(v, 0), Null, NullFinal, [], RenderSeq(ElemsOf(NestedInput))) ==
              Ok(OutSeq(0, NestedInput))
  {
    NestedSeq(v, 0, NestedInput);
  }
}
