// `SF_FOR_EACH(m, s, f, d, seq)`: a loop over a sequence `(x1)(x2)…(xk)` that
// expands to `m(n,d0,x1) … m(n,d(k-1),xk) f(n,dk)` with `d0 = d` and each next
// state computed by the step macro `s`. The expansion runs in three stages:
// annotating the sequence, turning it into a "guide", and a dispatch loop that
// reads the guide one marker at a time. One definition, parameterised by the
// nesting level and by the header version, stands for every generated block.

module SequenceFor {

  import opened Tokens
  import Levels

  /** The contents of one `( … )` element of the input sequence. */
  type Group = seq<Token>

  /** The loop state `d`, as the tokens it expands to. */
  type State = seq<Token>

  /** The user's macros: body `m(n, d, x…)`, step `s(n, d, x…)`, final `f(n, d)`,
      each given as the tokens its invocation expands to. */
  type BodyMacro = (nat, State, Group) -> seq<Token>
  type StepMacro = (nat, State, Group) -> seq<Token>
  type FinalMacro = (nat, State) -> seq<Token>

  /** v0.1.2 is the generated header; v0.3 is the code-generation template,
      whose step may also paste tokens after the body. */
  datatype Version = V0_1_2 | V0_3

  /** Where the model refuses an invocation outside the documented usage. The
      preprocessor reports none of these: it leaves undefined names or
      mismatched arguments in the output, or fails to compile. */
  datatype Error =
    | Unterminated                        // the `)` closing an invocation never came
    | UnknownMarker(marker: seq<Token>)   // a guide marker other than empty or `0`
    | NotSingleArg(state: State)          // the state would not be passed as exactly one argument
    | UnbalancedStep(result: seq<Token>)  // v0.3: the step result cannot be re-split as arguments
    | MalformedSequence                   // the input is not of the form `(x1)(x2)…`
    | UndefinedMacro(name: string)        // not a member of the `SF_FOR_EACH` family

  datatype Result<T> = Ok(value: T) | Err(error: Error)

  /** Output that precedes a later stage of the expansion; a failure anywhere
      fails the whole expansion. */
  function Prepend(out: seq<Token>, r: Result<seq<Token>>): Result<seq<Token>>
  {
    match r
    case Ok(rest) => Ok(out + rest)
    case Err(e) => Err(e)
  }

  ghost predicate AllBalanced(xs: seq<Group>) {
    forall i :: 0 <= i < |xs| ==> Balanced(xs[i])
  }

  lemma AllBalancedTail(xs: seq<Group>)
    requires AllBalanced(xs) && xs != []
    ensures Balanced(xs[0]) && AllBalanced(xs[1..])
  {
    forall i | 0 <= i < |xs[1..]| ensures Balanced(xs[1..][i]) {
      assert xs[1..][i] == xs[i + 1];
    }
  }

  // ---------------------------------------------------------------------------
  // The input sequence `(x1)(x2)…(xk)`

  /** The tokens of a sequence of elements, each in its own parentheses. */
  function RenderSeq(xs: seq<Group>): seq<Token> {
    if xs == [] then [] else [LParen] + xs[0] + [RParen] + RenderSeq(xs[1..])
  }

  /** How the annotation macros consume the input: one parenthesised group per
      invocation; anything else after a group leaves the sequence malformed. */
  function ParseSeq(ts: seq<Token>): Option<seq<Group>>
    decreases |ts|
  {
    if ts == [] then Some([])
    else if ts[0] != LParen then None
    else
      match ReadArg(ts[1..], 0)
      case None => None
      case Some((x, rest)) =>
        match ParseSeq(rest)
        case None => None
        case Some(xs) => Some([x] + xs)
  }

  /** Elements with balanced contents, written out as `(x1)…(xk)`, parse back
      to the same elements: empty elements and elements with commas included. */
  lemma {:induction false} ParseRenderSeq(xs: seq<Group>)
    requires AllBalanced(xs)
    ensures ParseSeq(RenderSeq(xs)) == Some(xs)
    decreases |xs|
  {
    if xs != [] {
      var ts := RenderSeq(xs);
      assert ts == [LParen] + (xs[0] + [RParen] + RenderSeq(xs[1..]));
      assert ts[1..] == xs[0] + [RParen] + RenderSeq(xs[1..]);
      AllBalancedTail(xs);
      ReadArgExact(xs[0], RenderSeq(xs[1..]), 0);
      ParseRenderSeq(xs[1..]);
      assert [xs[0]] + xs[1..] == xs;
    }
  }

  /** One step of `ParseSeq`: a group, then the rest of the sequence. */
  lemma ParseSeqCons(ts: seq<Token>)
    requires ts != [] && ParseSeq(ts).Some?
    ensures ts[0] == LParen && ReadArg(ts[1..], 0).Some?
    ensures var (x, rest) := ReadArg(ts[1..], 0).value;
      |rest| < |ts| && ParseSeq(rest).Some? && ParseSeq(ts).value == [x] + ParseSeq(rest).value &&
      ts == [LParen] + x + [RParen] + rest
  {
    var (x, rest) := ReadArg(ts[1..], 0).value;
    Regroup(ts, x, rest);
  }

  lemma Regroup(ts: seq<Token>, x: seq<Token>, rest: seq<Token>)
    requires ts != [] && ts[0] == LParen && ts[1..] == x + [RParen] + rest
    ensures ts == [LParen] + x + [RParen] + rest
  {
    assert ts == [ts[0]] + ts[1..];
  }

  lemma AllBalancedCons(x: Group, ys: seq<Group>)
    requires Balanced(x) && AllBalanced(ys)
    ensures AllBalanced([x] + ys)
  {
    forall i | 0 <= i < |[x] + ys| ensures Balanced(([x] + ys)[i]) {
      if i > 0 {
        assert ([x] + ys)[i] == ys[i - 1];
      }
    }
  }

  lemma {:induction false} ParsedBalanced(ts: seq<Token>)
    requires ParseSeq(ts).Some?
    ensures AllBalanced(ParseSeq(ts).value)
    decreases |ts|
  {
    if ts != [] {
      ParseSeqCons(ts);
      var (x, rest) := ReadArg(ts[1..], 0).value;
      ReadArgBalanced(ts[1..], 0);
      ParsedBalanced(rest);
      AllBalancedCons(x, ParseSeq(rest).value);
    }
  }

  lemma RenderSeqCons(x: Group, xs: seq<Group>)
    ensures RenderSeq([x] + xs) == [LParen] + x + [RParen] + RenderSeq(xs)
  {
    assert ([x] + xs)[1..] == xs;
  }

  lemma {:induction false} ParsedRenders(ts: seq<Token>)
    requires ParseSeq(ts).Some?
    ensures RenderSeq(ParseSeq(ts).value) == ts
    decreases |ts|
  {
    if ts != [] {
      ParseSeqCons(ts);
      var (x, rest) := ReadArg(ts[1..], 0).value;
      ParsedRenders(rest);
      RenderSeqCons(x, ParseSeq(rest).value);
    }
  }

  /** Whatever parses is a sequence of balanced groups, and writing it out
      again gives back the input. */
  lemma RenderParseSeq(ts: seq<Token>)
    requires ParseSeq(ts).Some?
    ensures AllBalanced(ParseSeq(ts).value) && RenderSeq(ParseSeq(ts).value) == ts
  {
    ParsedBalanced(ts);
    ParsedRenders(ts);
  }

  // ---------------------------------------------------------------------------
  // Stage 1: annotation, `(a)(b)(c)` to `()(a)()(b)()(c)(0)`

  /** The marker that ends the guide. */
  const ZeroMarker: seq<Token> := [Word("0")]

  /** Puts an empty group before every element and a `(0)` group at the end. */
  function Annotate(xs: seq<Group>): (gs: seq<Group>)
    ensures |gs| == 2 * |xs| + 1
    ensures forall i :: 0 <= i < |xs| ==> gs[2 * i] == [] && gs[2 * i + 1] == xs[i]
    ensures gs[2 * |xs|] == ZeroMarker
    decreases |xs|
  {
    if xs == [] then [ZeroMarker]
    else
      var rest := Annotate(xs[1..]);
      AnnotateCons(xs, rest);
      [[], xs[0]] + rest
  }

  lemma AnnotateCons(xs: seq<Group>, rest: seq<Group>)
    requires xs != [] && |rest| == 2 * |xs| - 1
    requires forall i :: 0 <= i < |xs| - 1 ==> rest[2 * i] == [] && rest[2 * i + 1] == xs[i + 1]
    requires rest[2 * |xs| - 2] == ZeroMarker
    ensures var gs := [[], xs[0]] + rest;
      (forall i :: 0 <= i < |xs| ==> gs[2 * i] == [] && gs[2 * i + 1] == xs[i]) &&
      gs[2 * |xs|] == ZeroMarker
  {
    var gs := [[], xs[0]] + rest;
    forall i | 0 < i < |xs| ensures gs[2 * i] == [] && gs[2 * i + 1] == xs[i] {
      var k := i - 1;
      assert 2 * i == 2 * k + 2;
      assert gs[2 * k + 2] == rest[2 * k] && gs[2 * k + 3] == rest[2 * k + 1];
    }
    assert gs[2 * |xs|] == rest[2 * |xs| - 2];
  }

  // ---------------------------------------------------------------------------
  // Stage 2: the guide, `(a)(b)(c)` to `a)b)c)` followed by a leftover name

  /** The two guide macros call each other, one group each. */
  datatype Phase = A | B

  function Flip(p: Phase): Phase {
    if p == A then B else A
  }

  /** The macro name left behind after the last group. */
  function GuideMacro(p: Phase): string {
    if p == A then "IMPL_SEQFOR_TO_GUIDE_A" else "IMPL_SEQFOR_TO_GUIDE_B"
  }

  /** `IMPL_SEQFOR_TO_GUIDE_A seq`: strips each group's parentheses and puts a
      `)` after its contents; the macro that would take the next group is
      left behind as a plain name. */
  function ToGuide(gs: seq<Group>, p: Phase): seq<Token>
    decreases |gs|
  {
    if gs == [] then [Word(GuideMacro(p))]
    else gs[0] + [RParen] + ToGuide(gs[1..], Flip(p))
  }

  /** Reads `k` arguments in a row, each up to its closing `)`. */
  function ReadArgs(ts: seq<Token>, k: nat): Option<(seq<Group>, seq<Token>)>
    decreases k
  {
    if k == 0 then Some(([], ts))
    else
      match ReadArg(ts, 0)
      case None => None
      case Some((x, rest)) =>
        match ReadArgs(rest, k - 1)
        case None => None
        case Some((xs, rest')) => Some(([x] + xs, rest'))
  }

  lemma ReadArgsCons(ts: seq<Token>, k: nat, x: Group, rest: seq<Token>)
    requires k > 0 && ReadArg(ts, 0) == Some((x, rest)) && ReadArgs(rest, k - 1).Some?
    ensures ReadArgs(ts, k) == Some(([x] + ReadArgs(rest, k - 1).value.0, ReadArgs(rest, k - 1).value.1))
  {
  }

  /** The guide keeps every group verbatim and in order: reading the groups
      back from it returns them all, and only the leftover name remains
      (`_A` after an even number of groups, `_B` after an odd one). */
  lemma {:induction false} GuideReadBack(gs: seq<Group>, p: Phase)
    requires AllBalanced(gs)
    ensures ReadArgs(ToGuide(gs, p), |gs|) ==
              Some((gs, [Word(GuideMacro(if |gs| % 2 == 0 then p else Flip(p)))]))
    decreases |gs|
  {
    if gs != [] {
      var tail := ToGuide(gs[1..], Flip(p));
      assert ToGuide(gs, p) == gs[0] + [RParen] + tail;
      AllBalancedTail(gs);
      ReadArgExact(gs[0], tail, 0);
      GuideReadBack(gs[1..], Flip(p));
      ReadArgsCons(ToGuide(gs, p), |gs|, gs[0], tail);
      PhaseAfter(|gs[1..]|, p);
      assert [gs[0]] + gs[1..] == gs;
    }
  }

  /** The phase left after one more group. */
  lemma PhaseAfter(k: nat, p: Phase)
    ensures (if k % 2 == 0 then Flip(p) else Flip(Flip(p))) == (if (k + 1) % 2 == 0 then p else Flip(p))
  {
  }

  lemma GuideOfAnnotated(x: Group, xs: seq<Group>, p: Phase)
    ensures ToGuide(Annotate([x] + xs), p) == [RParen] + x + [RParen] + ToGuide(Annotate(xs), p)
  {
    var gs := Annotate([x] + xs);
    assert ([x] + xs)[1..] == xs;
    assert gs == [[], x] + Annotate(xs);
    assert gs[2..] == Annotate(xs);
    GuideTwo(gs, p);
    assert [] + [RParen] == [RParen];
  }

  /** Two groups of the guide at once: the phase comes back to where it was. */
  lemma GuideTwo(gs: seq<Group>, p: Phase)
    requires |gs| >= 2
    ensures ToGuide(gs, p) == gs[0] + [RParen] + gs[1] + [RParen] + ToGuide(gs[2..], p)
  {
    var t := ToGuide(gs[2..], p);
    assert gs[1..][0] == gs[1] && gs[1..][1..] == gs[2..];
    assert Flip(Flip(p)) == p;
    assert ToGuide(gs[1..], Flip(p)) == gs[1] + [RParen] + t;
    assert ToGuide(gs, p) == gs[0] + [RParen] + (gs[1] + [RParen] + t);
  }

  // ---------------------------------------------------------------------------
  // Stage 3: the dispatch loop over the guide

  /** Whether the step result can be taken further. v0.1.2 passes it on as it
      is (it is checked when the next dispatch passes it as one argument);
      v0.3 re-reads it as an argument list, which needs matched parentheses. */
  function StepAccepted(v: Version, r: seq<Token>): bool {
    v == V0_1_2 || IsBalanced(r, 0)
  }

  /** The next state and the tokens pasted after the body. v0.1.2 takes the
      whole step result as the state; v0.3 cuts it at its first top-level
      comma and pastes what follows the comma. */
  function SplitStep(v: Version, r: seq<Token>): (p: (State, seq<Token>))
    ensures v == V0_1_2 ==> p == (r, [])
    ensures v == V0_3 ==> r == p.0 + [Comma] + p.1 || p == (r, [])
  {
    if v == V0_1_2 then (r, [])
    else
      match SplitTopComma(r, 0)
      case None => (r, [])
      case Some((head, tail)) => (head, tail)
  }

  /** v0.3's split of a balanced step result: the state part is always one
      argument, the pasted part is balanced, and the result is kept whole,
      with nothing pasted, exactly when it has no top-level comma. */
  lemma SplitStepParts(r: seq<Token>)
    requires Balanced(r)
    ensures var (d, extra) := SplitStep(V0_3, r);
      IsSingleArg(d) && Balanced(extra) && (NoTopComma(r) <==> (d, extra) == (r, []))
  {
    SplitTopCommaNone(r, 0);
    if SplitTopComma(r, 0).Some? {
      SplitTopCommaParts(r, 0);
      var (head, tail) := SplitTopComma(r, 0).value;
      assert r == head + [Comma] + tail;
      assert |head| < |r|;
    } else {
      BalancedEmpty();
    }
  }

  /** `IMPL_SEQFOR_FOR_GUIDE_A(m, s, f, d,` followed by `input`, at level `n`.
      The marker up to the next `)` selects the next macro: an empty marker
      reads one element and runs one iteration; the marker `0` expands
      `f(n, d)` and lets `IMPL_SEQFOR_NULL(` swallow everything up to the next
      closing parenthesis. Both take `d` as one of exactly four arguments. */
  function Dispatch(v: Version, n: nat, m: BodyMacro, s: StepMacro, f: FinalMacro,
                    d: State, input: seq<Token>): Result<seq<Token>>
    decreases |input|
  {
    match ReadArg(input, 0)
    case None => Err(Unterminated)
    case Some((marker, rest)) =>
      if marker != [] && marker != ZeroMarker then Err(UnknownMarker(marker))
      else if !IsSingleArg(d) then Err(NotSingleArg(d))
      else if marker == ZeroMarker then
        match ReadArg(rest, 0)
        case None => Err(Unterminated)
        case Some((_, after)) => Ok(f(n, d) + after)
      else
        match ReadArg(rest, 0)
        case None => Err(Unterminated)
        case Some((x, rest')) =>
          var r := s(n, d, x);
          if !StepAccepted(v, r) then Err(UnbalancedStep(r))
          else
            var (d', extra) := SplitStep(v, r);
            Prepend(m(n, d, x) + extra, Dispatch(v, n, m, s, f, d', rest'))
  }

  /** Marker `0`: `f(n, d)`, then everything up to the closing parenthesis is
      discarded and whatever follows it is kept. */
  lemma DispatchFinish(v: Version, n: nat, m: BodyMacro, s: StepMacro, f: FinalMacro,
                       d: State, junk: seq<Token>, after: seq<Token>)
    requires IsSingleArg(d) && Balanced(junk)
    ensures Dispatch(v, n, m, s, f, d, ZeroMarker + [RParen] + junk + [RParen] + after)
              == Ok(f(n, d) + after)
  {
    var input := ZeroMarker + [RParen] + junk + [RParen] + after;
    BalancedWord("0");
    assert input == ZeroMarker + [RParen] + (junk + [RParen] + after);
    ReadArgExact(ZeroMarker, junk + [RParen] + after, 0);
    ReadArgExact(junk, after, 0);
  }

  /** Empty marker: one element is read, `m(n, d, x)` is expanded (then, in
      v0.3, what the step pasted) and the loop goes on with the new state. */
  lemma DispatchContinue(v: Version, n: nat, m: BodyMacro, s: StepMacro, f: FinalMacro,
                         d: State, x: Group, rest: seq<Token>)
    requires IsSingleArg(d) && Balanced(x)
    ensures var r := s(n, d, x);
      Dispatch(v, n, m, s, f, d, [RParen] + x + [RParen] + rest) ==
        if !StepAccepted(v, r) then Err(UnbalancedStep(r))
        else Prepend(m(n, d, x) + SplitStep(v, r).1, Dispatch(v, n, m, s, f, SplitStep(v, r).0, rest))
  {
    var input := [RParen] + x + [RParen] + rest;
    assert input == [] + [RParen] + (x + [RParen] + rest);
    BalancedEmpty();
    ReadArgExact([], x + [RParen] + rest, 0);
    ReadArgExact(x, rest, 0);
  }

  /** The model refuses any other marker. */
  lemma DispatchUnknownMarker(v: Version, n: nat, m: BodyMacro, s: StepMacro, f: FinalMacro,
                              d: State, marker: seq<Token>, rest: seq<Token>)
    requires Balanced(marker) && marker != [] && marker != ZeroMarker
    ensures Dispatch(v, n, m, s, f, d, marker + [RParen] + rest) == Err(UnknownMarker(marker))
  {
    ReadArgExact(marker, rest, 0);
  }

  /** `SF_FOR_EACH…(m, s, f, d, seq)` at nesting level `n`: annotate, build the
      guide, and run the dispatch loop; the final `)` closes the
      `IMPL_SEQFOR_NULL(` that swallows the leftover guide macro name. */
  function ForEach(v: Version, n: nat, m: BodyMacro, s: StepMacro, f: FinalMacro,
                   d: State, input: seq<Token>): Result<seq<Token>>
  {
    match ParseSeq(input)
    case None => Err(MalformedSequence)
    case Some(xs) => Dispatch(v, n, m, s, f, d, ToGuide(Annotate(xs), A) + [RParen])
  }

  /** Invoking a family member by name: `SF_FOR_EACH` at level 0,
      `SF_FOR_EACHi` at level i+1. */
  function Invoke(v: Version, name: string, m: BodyMacro, s: StepMacro, f: FinalMacro,
                  d: State, input: seq<Token>): Result<seq<Token>>
  {
    match Levels.LevelOf(name)
    case None => Err(UndefinedMacro(name))
    case Some(n) => ForEach(v, n, m, s, f, d, input)
  }

  /** `SF_FOR_EACHi` for i < MaxDepth is the loop at level i+1, and naming it
      through `SF_CAT(SF_FOR_EACH, i)` reaches the same loop. */
  lemma InvokeLevel(v: Version, i: nat, m: BodyMacro, s: StepMacro, f: FinalMacro,
                    d: State, input: seq<Token>)
    ensures Invoke(v, Levels.ForEachBase, m, s, f, d, input) == ForEach(v, 0, m, s, f, d, input)
    ensures Invoke(v, Levels.Cat(Levels.ForEachBase, Levels.Decimal(i)), m, s, f, d, input) ==
              if i < Levels.MaxDepth then ForEach(v, i + 1, m, s, f, d, input)
              else Err(UndefinedMacro(Levels.Cat(Levels.ForEachBase, Levels.Decimal(i))))
  {
    Levels.InnerLoopLevel(i);
  }

  // ---------------------------------------------------------------------------
  // The reference fold: what the loop expands to, element by element

  /** One macro invocation made by the loop. */
  datatype Call =
    | BodyCall(level: nat, state: State, element: Group)  // m(n, d, x…)
    | Pasted(tokens: seq<Token>)                           // v0.3: pasted after m(…)
    | FinalCall(level: nat, state: State)                  // f(n, d)

  /** The states the loop goes through: `d0 = d`, and each next one is the
      state part of the step result for the previous state and element. */
  function States(v: Version, n: nat, s: StepMacro, d: State, xs: seq<Group>): (ds: seq<State>)
    ensures |ds| == |xs| + 1 && ds[0] == d
    ensures forall i :: 0 <= i < |xs| ==> ds[i + 1] == SplitStep(v, s(n, ds[i], xs[i])).0
    decreases |xs|
  {
    if xs == [] then [d]
    else [d] + States(v, n, s, SplitStep(v, s(n, d, xs[0])).0, xs[1..])
  }

  /** The invocations, one body and one paste per element, then the final. */
  function Calls(v: Version, n: nat, s: StepMacro, d: State, xs: seq<Group>): seq<Call>
    decreases |xs|
  {
    if xs == [] then [FinalCall(n, d)]
    else
      var (d', extra) := SplitStep(v, s(n, d, xs[0]));
      [BodyCall(n, d, xs[0]), Pasted(extra)] + Calls(v, n, s, d', xs[1..])
  }

  /** The tokens a run of invocations expands to. */
  function Expand(cs: seq<Call>, m: BodyMacro, f: FinalMacro): seq<Token>
    decreases |cs|
  {
    if cs == [] then []
    else
      (match cs[0]
       case BodyCall(k, d, x) => m(k, d, x)
       case Pasted(t) => t
       case FinalCall(k, d) => f(k, d)) + Expand(cs[1..], m, f)
  }

  /** The loop expands without error: every state is passed as one argument
      and (in v0.3) every step result can be re-split. */
  function Completes(v: Version, n: nat, s: StepMacro, d: State, xs: seq<Group>): bool
    decreases |xs|
  {
    IsSingleArg(d) &&
    (xs == [] ||
     (StepAccepted(v, s(n, d, xs[0])) &&
      Completes(v, n, s, SplitStep(v, s(n, d, xs[0])).0, xs[1..])))
  }

  /** The shape of the expansion: for k elements exactly k body invocations,
      in element order, the i-th with state d(i-1) and element xi, each
      followed by what its step pasted (nothing in v0.1.2), then exactly one
      final invocation with the last state; all at level `n`. */
  lemma {:induction false} CallsLength(v: Version, n: nat, s: StepMacro, d: State, xs: seq<Group>)
    ensures |Calls(v, n, s, d, xs)| == 2 * |xs| + 1
    ensures Calls(v, n, s, d, xs)[2 * |xs|] == FinalCall(n, States(v, n, s, d, xs)[|xs|])
    decreases |xs|
  {
    if xs != [] {
      var d' := SplitStep(v, s(n, d, xs[0])).0;
      CallsLength(v, n, s, d', xs[1..]);
      var cs := Calls(v, n, s, d, xs);
      var tl := Calls(v, n, s, d', xs[1..]);
      var ds := States(v, n, s, d, xs);
      assert cs == [BodyCall(n, d, xs[0]), Pasted(SplitStep(v, s(n, d, xs[0])).1)] + tl;
      assert ds[1..] == States(v, n, s, d', xs[1..]);
      assert cs[2 * |xs|] == tl[2 * |xs[1..]|];
      assert ds[|xs|] == ds[1..][|xs[1..]|];
    }
  }

  lemma {:induction false} CallsAt(v: Version, n: nat, s: StepMacro, d: State, xs: seq<Group>, i: nat)
    requires i < |xs|
    ensures var cs := Calls(v, n, s, d, xs); var ds := States(v, n, s, d, xs);
      |cs| == 2 * |xs| + 1 &&
      cs[2 * i] == BodyCall(n, ds[i], xs[i]) &&
      cs[2 * i + 1] == Pasted(SplitStep(v, s(n, ds[i], xs[i])).1)
    decreases i
  {
    CallsLength(v, n, s, d, xs);
    var d' := SplitStep(v, s(n, d, xs[0])).0;
    var cs := Calls(v, n, s, d, xs);
    var tl := Calls(v, n, s, d', xs[1..]);
    assert cs == [BodyCall(n, d, xs[0]), Pasted(SplitStep(v, s(n, d, xs[0])).1)] + tl;
    if i > 0 {
      CallsAt(v, n, s, d', xs[1..], i - 1);
      var ds := States(v, n, s, d, xs);
      assert ds[1..] == States(v, n, s, d', xs[1..]);
      assert cs[2 * i] == tl[2 * (i - 1)];
      assert cs[2 * i + 1] == tl[2 * (i - 1) + 1];
      assert ds[i] == ds[1..][i - 1];
      assert xs[i] == xs[1..][i - 1];
    }
  }

  lemma CallsShape(v: Version, n: nat, s: StepMacro, d: State, xs: seq<Group>)
    ensures var cs := Calls(v, n, s, d, xs); var ds := States(v, n, s, d, xs);
      |cs| == 2 * |xs| + 1 &&
      (forall i :: 0 <= i < |xs| ==>
         cs[2 * i] == BodyCall(n, ds[i], xs[i]) &&
         cs[2 * i + 1] == Pasted(SplitStep(v, s(n, ds[i], xs[i])).1)) &&
      cs[2 * |xs|] == FinalCall(n, ds[|xs|])
  {
    CallsLength(v, n, s, d, xs);
    forall i | 0 <= i < |xs|
      ensures Calls(v, n, s, d, xs)[2 * i] == BodyCall(n, States(v, n, s, d, xs)[i], xs[i])
      ensures Calls(v, n, s, d, xs)[2 * i + 1] == Pasted(SplitStep(v, s(n, States(v, n, s, d, xs)[i], xs[i])).1)
    {
      CallsAt(v, n, s, d, xs, i);
    }
  }

  /** Every state along the way can be passed as one argument, and every
      step result was accepted. */
  ghost predicate EveryStepFits(v: Version, n: nat, s: StepMacro, d: State, xs: seq<Group>) {
    var ds := States(v, n, s, d, xs);
    (forall i :: 0 <= i <= |xs| ==> IsSingleArg(ds[i])) &&
    (forall i :: 0 <= i < |xs| ==> StepAccepted(v, s(n, ds[i], xs[i])))
  }

  lemma {:induction false} CompletesFits(v: Version, n: nat, s: StepMacro, d: State, xs: seq<Group>)
    requires Completes(v, n, s, d, xs)
    ensures EveryStepFits(v, n, s, d, xs)
    decreases |xs|
  {
    var ds := States(v, n, s, d, xs);
    if xs != [] {
      var d' := SplitStep(v, s(n, d, xs[0])).0;
      CompletesFits(v, n, s, d', xs[1..]);
      var ds' := States(v, n, s, d', xs[1..]);
      assert ds == [d] + ds';
      forall i | 0 < i <= |xs| ensures IsSingleArg(ds[i]) {
        assert ds[i] == ds'[i - 1];
      }
      forall i | 0 < i < |xs| ensures StepAccepted(v, s(n, ds[i], xs[i])) {
        assert ds[i] == ds'[i - 1] && xs[i] == xs[1..][i - 1];
      }
    }
  }

  lemma {:induction false} FitsCompletes(v: Version, n: nat, s: StepMacro, d: State, xs: seq<Group>)
    requires EveryStepFits(v, n, s, d, xs)
    ensures Completes(v, n, s, d, xs)
    decreases |xs|
  {
    var ds := States(v, n, s, d, xs);
    if xs != [] {
      var d' := SplitStep(v, s(n, d, xs[0])).0;
      var ds' := States(v, n, s, d', xs[1..]);
      assert ds == [d] + ds';
      forall i | 0 <= i <= |xs| - 1 ensures IsSingleArg(ds'[i]) {
        assert ds'[i] == ds[i + 1];
      }
      forall i | 0 <= i < |xs| - 1 ensures StepAccepted(v, s(n, ds'[i], xs[1..][i])) {
        assert ds'[i] == ds[i + 1] && xs[1..][i] == xs[i + 1];
      }
      FitsCompletes(v, n, s, d', xs[1..]);
      assert IsSingleArg(ds[0]) && StepAccepted(v, s(n, ds[0], xs[0]));
    } else {
      assert ds == [d];
    }
  }

  /** The loop completes exactly when every step fits. */
  lemma CompletesIff(v: Version, n: nat, s: StepMacro, d: State, xs: seq<Group>)
    ensures Completes(v, n, s, d, xs) <==> EveryStepFits(v, n, s, d, xs)
  {
    if Completes(v, n, s, d, xs) {
      CompletesFits(v, n, s, d, xs);
    }
    if EveryStepFits(v, n, s, d, xs) {
      FitsCompletes(v, n, s, d, xs);
    }
  }

  lemma {:induction false} ExpandConcat(a: seq<Call>, b: seq<Call>, m: BodyMacro, f: FinalMacro)
    ensures Expand(a + b, m, f) == Expand(a, m, f) + Expand(b, m, f)
    decreases |a|
  {
    if a == [] {
      assert a + b == b;
    } else {
      assert (a + b)[0] == a[0];
      assert (a + b)[1..] == a[1..] + b;
      ExpandConcat(a[1..], b, m, f);
    }
  }

  /** Expanding one iteration's invocations gives the body's tokens and then
      the pasted ones. */
  lemma ExpandIteration(n: nat, d: State, x: Group, extra: seq<Token>, rest: seq<Call>,
                        m: BodyMacro, f: FinalMacro)
    ensures Expand([BodyCall(n, d, x), Pasted(extra)] + rest, m, f) ==
              m(n, d, x) + extra + Expand(rest, m, f)
  {
    var cs := [BodyCall(n, d, x), Pasted(extra)] + rest;
    assert cs[1..] == [Pasted(extra)] + rest;
    assert cs[1..][1..] == rest;
  }

  /** The last dispatch of the guide, at the `0` marker. */
  lemma DispatchGuideEnd(v: Version, n: nat, m: BodyMacro, s: StepMacro,
                         f: FinalMacro, d: State, p: Phase)
    ensures var r := Dispatch(v, n, m, s, f, d, ToGuide(Annotate([]), p) + [RParen]);
      (r.Ok? <==> Completes(v, n, s, d, [])) &&
      (r.Ok? ==> r.value == Expand(Calls(v, n, s, d, []), m, f))
  {
    var trailer := [Word(GuideMacro(Flip(p)))];
    assert ToGuide(Annotate([]), p) + [RParen] == ZeroMarker + [RParen] + trailer + [RParen] + [];
    if IsSingleArg(d) {
      BalancedWord(GuideMacro(Flip(p)));
      DispatchFinish(v, n, m, s, f, d, trailer, []);
      assert Expand([FinalCall(n, d)], m, f) == f(n, d) + Expand([], m, f);
    } else {
      BalancedWord("0");
      ReadArgExact(ZeroMarker, trailer + [RParen], 0);
    }
  }

  /** The dispatch loop, run over the guide of the annotated elements, expands
      exactly the reference fold, and fails exactly when the fold does not
      complete. */
  lemma {:induction false} DispatchGuide(v: Version, n: nat, m: BodyMacro, s: StepMacro,
                                         f: FinalMacro, d: State, xs: seq<Group>, p: Phase)
    requires AllBalanced(xs)
    ensures var r := Dispatch(v, n, m, s, f, d, ToGuide(Annotate(xs), p) + [RParen]);
      (r.Ok? <==> Completes(v, n, s, d, xs)) &&
      (r.Ok? ==> r.value == Expand(Calls(v, n, s, d, xs), m, f))
    decreases |xs|
  {
    if xs == [] {
      DispatchGuideEnd(v, n, m, s, f, d, p);
    } else {
      var x := xs[0];
      var tail := ToGuide(Annotate(xs[1..]), p) + [RParen];
      AllBalancedTail(xs);
      assert [x] + xs[1..] == xs;
      GuideOfAnnotated(x, xs[1..], p);
      assert ToGuide(Annotate(xs), p) + [RParen] == [RParen] + x + [RParen] + tail;
      if IsSingleArg(d) {
        DispatchContinue(v, n, m, s, f, d, x, tail);
        var r := s(n, d, x);
        var (d', extra) := SplitStep(v, r);
        if StepAccepted(v, r) {
          DispatchGuide(v, n, m, s, f, d', xs[1..], p);
          ExpandIteration(n, d, x, extra, Calls(v, n, s, d', xs[1..]), m, f);
        }
      } else {
        var input := [RParen] + x + [RParen] + tail;
        assert input == [] + [RParen] + (x + [RParen] + tail);
        BalancedEmpty();
        ReadArgExact([], x + [RParen] + tail, 0);
      }
    }
  }

  /** `SF_FOR_EACH(m, s, f, d, (x1)…(xk))` at level `n` expands without error
      exactly when the fold completes, and then to the fold's invocations. */
  lemma ForEachCorrect(v: Version, n: nat, m: BodyMacro, s: StepMacro, f: FinalMacro,
                       d: State, xs: seq<Group>)
    requires AllBalanced(xs)
    ensures var r := ForEach(v, n, m, s, f, d, RenderSeq(xs));
      (r.Ok? <==> Completes(v, n, s, d, xs)) &&
      (r.Ok? ==> r.value == Expand(Calls(v, n, s, d, xs), m, f))
  {
    ParseRenderSeq(xs);
    DispatchGuide(v, n, m, s, f, d, xs, A);
  }

  /** Input that is not a sequence of parenthesised groups is refused. */
  lemma ForEachMalformed(v: Version, n: nat, m: BodyMacro, s: StepMacro, f: FinalMacro,
                         d: State, input: seq<Token>)
    requires input != [] && input[0] != LParen
    ensures ForEach(v, n, m, s, f, d, input) == Err(MalformedSequence)
  {
  }

  // ---------------------------------------------------------------------------
  // The two versions

  /** v0.3: once the initial state is one argument, every later state is one
      too, so the loop completes exactly when every step result has matched
      parentheses. */
  lemma CompletesV03(n: nat, s: StepMacro, d: State, xs: seq<Group>)
    requires IsSingleArg(d)
    ensures var ds := States(V0_3, n, s, d, xs);
      Completes(V0_3, n, s, d, xs) <==>
        forall i :: 0 <= i < |xs| ==> IsBalanced(s(n, ds[i], xs[i]), 0)
  {
    var ds := States(V0_3, n, s, d, xs);
    CompletesIff(V0_3, n, s, d, xs);
    if forall i :: 0 <= i < |xs| ==> IsBalanced(s(n, ds[i], xs[i]), 0) {
      forall i | 0 <= i <= |xs| ensures IsSingleArg(ds[i]) {
        if i > 0 {
          SplitStepParts(s(n, ds[i - 1], xs[i - 1]));
        }
      }
    }
  }

  /** v0.1.2 passes every step result on as the next state, so a step result
      with a top-level comma, at any iteration, is passed on as several
      arguments and the loop fails at the next dispatch. */
  lemma StepWithCommaFails(n: nat, m: BodyMacro, s: StepMacro, f: FinalMacro,
                           d: State, xs: seq<Group>, i: nat)
    requires AllBalanced(xs) && i < |xs|
    requires !NoTopComma(s(n, States(V0_1_2, n, s, d, xs)[i], xs[i]))
    ensures ForEach(V0_1_2, n, m, s, f, d, RenderSeq(xs)).Err?
  {
    var ds := States(V0_1_2, n, s, d, xs);
    ForEachCorrect(V0_1_2, n, m, s, f, d, xs);
    CompletesIff(V0_1_2, n, s, d, xs);
    assert ds[i + 1] == s(n, ds[i], xs[i]);
    assert !IsSingleArg(ds[i + 1]);
  }

  /** When no step result has a top-level comma (and each can be passed as one
      argument), v0.3 pastes nothing and makes the same invocations as v0.1.2. */
  lemma {:induction false} VersionsAgreeOnCalls(n: nat, s: StepMacro, d: State, xs: seq<Group>)
    requires forall i :: 0 <= i < |xs| ==> IsSingleArg(s(n, States(V0_1_2, n, s, d, xs)[i], xs[i]))
    ensures Calls(V0_3, n, s, d, xs) == Calls(V0_1_2, n, s, d, xs)
    ensures Completes(V0_3, n, s, d, xs) == Completes(V0_1_2, n, s, d, xs)
    decreases |xs|
  {
    if xs != [] {
      var ds := States(V0_1_2, n, s, d, xs);
      var r := s(n, d, xs[0]);
      assert ds[0] == d;
      SplitStepParts(r);
      assert SplitStep(V0_3, r) == SplitStep(V0_1_2, r) == (r, []);
      var ds' := States(V0_1_2, n, s, r, xs[1..]);
      assert ds == [d] + ds';
      forall i | 0 <= i < |xs[1..]| ensures IsSingleArg(s(n, ds'[i], xs[1..][i])) {
        assert ds'[i] == ds[i + 1] && xs[1..][i] == xs[i + 1];
      }
      VersionsAgreeOnCalls(n, s, r, xs[1..]);
    }
  }

  /** The template's loop coincides with the header's whenever the step never
      returns a top-level comma: both expand, to the same tokens. */
  lemma VersionsAgree(n: nat, m: BodyMacro, s: StepMacro, f: FinalMacro, d: State, xs: seq<Group>)
    requires AllBalanced(xs) && IsSingleArg(d)
    requires forall i :: 0 <= i < |xs| ==> IsSingleArg(s(n, States(V0_1_2, n, s, d, xs)[i], xs[i]))
    ensures ForEach(V0_1_2, n, m, s, f, d, RenderSeq(xs)).Ok?
    ensures ForEach(V0_3, n, m, s, f, d, RenderSeq(xs)) == ForEach(V0_1_2, n, m, s, f, d, RenderSeq(xs))
  {
    VersionsAgreeOnCalls(n, s, d, xs);
    var ds := States(V0_1_2, n, s, d, xs);
    forall i | 0 <= i <= |xs| ensures IsSingleArg(ds[i]) {
      if i > 0 {
        assert ds[i] == s(n, ds[i - 1], xs[i - 1]);
      }
    }
    CompletesIff(V0_1_2, n, s, d, xs);
    ForEachCorrect(V0_1_2, n, m, s, f, d, xs);
    ForEachCorrect(V0_3, n, m, s, f, d, xs);
  }

  // ---------------------------------------------------------------------------
  // Macros the header offers as arguments

  /** `SF_NULL(...)`: expands to nothing. */
  function Null(n: nat, d: State, x: Group): seq<Token> {
    []
  }

  /** `SF_NULL(...)` in the final position. */
  function NullFinal(n: nat, d: State): seq<Token> {
    []
  }

  /** `SF_STATE(n, d, ...)` as the step: returns the state it was given. */
  function KeepState(n: nat, d: State, x: Group): State {
    d
  }

  /** `SF_STATE(n, d)` as the final macro: expands to the final state. */
  function DumpState(n: nat, d: State): seq<Token> {
    d
  }

  /** With `SF_STATE` as the step, every iteration sees the initial state and
      the loop completes. */
  lemma {:induction false} KeepStateThreads(v: Version, n: nat, d: State, xs: seq<Group>)
    requires IsSingleArg(d)
    ensures forall i :: 0 <= i <= |xs| ==> States(v, n, KeepState, d, xs)[i] == d
    ensures Completes(v, n, KeepState, d, xs)
    decreases |xs|
  {
    if xs != [] {
      if v == V0_3 {
        SplitStepParts(d);
      }
      assert SplitStep(v, KeepState(n, d, xs[0])).0 == d;
      KeepStateThreads(v, n, d, xs[1..]);
      var ds := States(v, n, KeepState, d, xs);
      assert ds == [d] + States(v, n, KeepState, d, xs[1..]);
    }
  }

  /** `SF_FOR_EACH(SF_NULL, SF_STATE, SF_STATE, d, seq)` expands to `d`
      whatever the elements are. */
  lemma {:induction false} NullLoopDumpsState(v: Version, n: nat, d: State, xs: seq<Group>)
    requires IsSingleArg(d) && AllBalanced(xs)
    ensures ForEach(v, n, Null, KeepState, DumpState, d, RenderSeq(xs)) == Ok(d)
  {
    ForEachCorrect(v, n, Null, KeepState, DumpState, d, xs);
    KeepStateThreads(v, n, d, xs);
    NullExpand(v, n, d, xs);
  }

  lemma {:induction false} NullExpand(v: Version, n: nat, d: State, xs: seq<Group>)
    requires IsSingleArg(d)
    ensures Expand(Calls(v, n, KeepState, d, xs), Null, DumpState) == d
    decreases |xs|
  {
    if xs == [] {
      assert Expand([FinalCall(n, d)], Null, DumpState) == d + Expand([], Null, DumpState);
    } else {
      if v == V0_3 {
        SplitStepParts(d);
      }
      var (d', extra) := SplitStep(v, KeepState(n, d, xs[0]));
      assert d' == d && extra == [];
      NullExpand(v, n, d, xs[1..]);
      ExpandIteration(n, d, xs[0], extra, Calls(v, n, KeepState, d, xs[1..]), Null, DumpState);
    }
  }

  /** The bodies alone, one per element, each given the empty state. */
  function BodiesWithEmptyState(m: BodyMacro, n: nat, xs: seq<Group>): seq<Token>
    decreases |xs|
  {
    if xs == [] then [] else m(n, [], xs[0]) + BodiesWithEmptyState(m, n, xs[1..])
  }

  /** With `SF_NULL` as the step, the step result is empty and the state
      stays empty. */
  lemma NullStepKeepsEmpty(v: Version, n: nat, x: Group)
    ensures StepAccepted(v, Null(n, [], x)) && SplitStep(v, Null(n, [], x)) == ([], [])
  {
    BalancedEmpty();
    if v == V0_3 {
      SplitStepParts([]);
    }
  }

  lemma {:induction false} NullStepCompletes(v: Version, n: nat, xs: seq<Group>)
    ensures Completes(v, n, Null, [], xs)
    decreases |xs|
  {
    BalancedEmpty();
    assert IsSingleArg([]);
    if xs != [] {
      NullStepKeepsEmpty(v, n, xs[0]);
      NullStepCompletes(v, n, xs[1..]);
    }
  }

  lemma {:induction false} NullStepExpand(v: Version, n: nat, m: BodyMacro, xs: seq<Group>)
    ensures Expand(Calls(v, n, Null, [], xs), m, NullFinal) == BodiesWithEmptyState(m, n, xs)
    decreases |xs|
  {
    if xs == [] {
      assert Expand([FinalCall(n, [])], m, NullFinal) == NullFinal(n, []) + Expand([], m, NullFinal);
    } else {
      NullStepKeepsEmpty(v, n, xs[0]);
      var rest := Calls(v, n, Null, [], xs[1..]);
      assert Calls(v, n, Null, [], xs) == [BodyCall(n, [], xs[0]), Pasted([])] + rest;
      NullStepExpand(v, n, m, xs[1..]);
      ExpandIteration(n, [], xs[0], [], rest, m, NullFinal);
      assert BodiesWithEmptyState(m, n, xs) == m(n, [], xs[0]) + BodiesWithEmptyState(m, n, xs[1..]);
    }
  }

  /** `SF_FOR_EACH(m, SF_NULL, SF_NULL, , seq)`: the state is empty throughout
      and the loop expands to the bodies alone, in element order. */
  lemma NullStepLoop(v: Version, n: nat, m: BodyMacro, xs: seq<Group>)
    requires AllBalanced(xs)
    ensures ForEach(v, n, m, Null, NullFinal, [], RenderSeq(xs)) == Ok(BodiesWithEmptyState(m, n, xs))
  {
    ForEachCorrect(v, n, m, Null, NullFinal, [], xs);
    NullStepCompletes(v, n, xs);
    NullStepExpand(v, n, m, xs);
  }
}
