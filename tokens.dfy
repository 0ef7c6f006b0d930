// Preprocessing tokens, parenthesis depth, and the two ways the preprocessor
// cuts a token run into macro arguments: up to the closing parenthesis of an
// invocation, and at the first comma outside any parentheses.

module Tokens {

  datatype Option<T> = None | Some(value: T)

  /** A preprocessing token, as far as argument collection can tell them apart.
      Identifiers, numbers, string literals and punctuators other than `(`, `)`
      and `,` are all `Word`s; a parenthesis inside a string literal is part of
      the literal's `Word`. */
  datatype Token = LParen | RParen | Comma | Word(text: string)

  /** Change of parenthesis depth caused by one token. */
  function Delta(t: Token): int {
    match t
    case LParen => 1
    case RParen => -1
    case _ => 0
  }

  /** Net depth of a token run: opening minus closing parentheses. */
  function Depth(ts: seq<Token>): int {
    if ts == [] then 0 else Delta(ts[0]) + Depth(ts[1..])
  }

  /** Started at depth `d`, the run never closes a parenthesis it did not open
      and ends back at depth 0. */
  ghost predicate BalancedFrom(ts: seq<Token>, d: nat) {
    (forall i :: 0 <= i <= |ts| ==> d + Depth(ts[..i]) >= 0) && d + Depth(ts) == 0
  }

  /** A run that can stand as the contents of one `( … )` group. */
  ghost predicate Balanced(ts: seq<Token>) {
    BalancedFrom(ts, 0)
  }

  /** No comma of the run sits outside every parenthesis (counting from depth `d`). */
  ghost predicate NoTopCommaFrom(ts: seq<Token>, d: nat) {
    forall i :: 0 <= i < |ts| && ts[i] == Comma ==> d + Depth(ts[..i]) != 0
  }

  ghost predicate NoTopComma(ts: seq<Token>) {
    NoTopCommaFrom(ts, 0)
  }

  // ---------------------------------------------------------------------------
  // Depth bookkeeping

  lemma {:induction false} DepthConcat(a: seq<Token>, b: seq<Token>)
    ensures Depth(a + b) == Depth(a) + Depth(b)
  {
    if a == [] {
      assert a + b == b;
    } else {
      assert (a + b)[0] == a[0];
      assert (a + b)[1..] == a[1..] + b;
      DepthConcat(a[1..], b);
    }
  }

  lemma DepthPrefixCons(ts: seq<Token>, i: nat)
    requires 1 <= i <= |ts|
    ensures Depth(ts[..i]) == Delta(ts[0]) + Depth(ts[1..][..i - 1])
  {
    assert ts[..i][1..] == ts[1..][..i - 1];
  }

  /** Balance, read one token at a time: the form the scanners below follow. */
  lemma BalancedFromCons(ts: seq<Token>, d: nat)
    requires ts != []
    ensures BalancedFrom(ts, d) <==>
              d + Delta(ts[0]) >= 0 && BalancedFrom(ts[1..], d + Delta(ts[0]))
  {
    var d' := d + Delta(ts[0]);
    if BalancedFrom(ts, d) {
      DepthPrefixCons(ts, 1);
      assert d + Depth(ts[..1]) >= 0;
      assert d' >= 0;
      forall i | 0 <= i <= |ts[1..]| ensures d' + Depth(ts[1..][..i]) >= 0 {
        DepthPrefixCons(ts, i + 1);
        assert d + Depth(ts[..i + 1]) >= 0;
      }
    }
    if d' >= 0 && BalancedFrom(ts[1..], d') {
      forall i | 0 <= i <= |ts| ensures d + Depth(ts[..i]) >= 0 {
        if i > 0 {
          DepthPrefixCons(ts, i);
          assert d' + Depth(ts[1..][..i - 1]) >= 0;
        }
      }
    }
  }

  lemma NoTopCommaFromCons(ts: seq<Token>, d: nat)
    requires ts != [] && d + Delta(ts[0]) >= 0
    ensures NoTopCommaFrom(ts, d) <==>
              !(ts[0] == Comma && d == 0) && NoTopCommaFrom(ts[1..], d + Delta(ts[0]))
  {
    var d' := d + Delta(ts[0]);
    if NoTopCommaFrom(ts, d) {
      forall i | 0 <= i < |ts[1..]| && ts[1..][i] == Comma ensures d' + Depth(ts[1..][..i]) != 0 {
        DepthPrefixCons(ts, i + 1);
        assert ts[i + 1] == Comma;
      }
    }
    if !(ts[0] == Comma && d == 0) && NoTopCommaFrom(ts[1..], d') {
      forall i | 0 <= i < |ts| && ts[i] == Comma ensures d + Depth(ts[..i]) != 0 {
        if i > 0 {
          DepthPrefixCons(ts, i);
          assert ts[1..][i - 1] == Comma;
        }
      }
    }
  }

  lemma BalancedEmpty()
    ensures Balanced([])
  {
    var e: seq<Token> := [];
    assert e[..0] == e;
  }

  lemma BalancedWord(w: string)
    ensures Balanced([Word(w)])
  {
    var ts := [Word(w)];
    assert ts[..0] == [] && ts[..1] == ts;
  }

  // ---------------------------------------------------------------------------
  // Scanners

  /** The depth after one more token, never below zero (the scanners only rely
      on it for runs that do not go below zero). */
  function Step(d: nat, t: Token): nat {
    if t == LParen then d + 1 else if t == RParen && d > 0 then d - 1 else d
  }

  /** Whether `ts`, started at depth `d`, is balanced; a decision procedure for
      `BalancedFrom`. */
  function IsBalanced(ts: seq<Token>, d: nat): (b: bool)
    ensures b <==> BalancedFrom(ts, d)
    decreases |ts|
  {
    if ts == [] then
      d == 0
    else
      BalancedFromCons(ts, d);
      if ts[0] == RParen && d == 0 then false
      else IsBalanced(ts[1..], Step(d, ts[0]))
  }

  /** Reads the rest of a macro argument list: every token up to the
      parenthesis that closes the invocation (depth `d` counts the parentheses
      already open inside the argument text). `None` when the input ends first: an
      unterminated invocation. The closing parenthesis is consumed. */
  function ReadArg(ts: seq<Token>, d: nat): (r: Option<(seq<Token>, seq<Token>)>)
    ensures r.Some? ==> ts == r.value.0 + [RParen] + r.value.1
    decreases |ts|
  {
    if ts == [] then None
    else if ts[0] == RParen && d == 0 then Some(([], ts[1..]))
    else
      match ReadArg(ts[1..], Step(d, ts[0]))
      case None => None
      case Some((arg, rest)) => Some(([ts[0]] + arg, rest))
  }

  /** Whatever `ReadArg` returns as the argument text is balanced. */
  lemma {:induction false} ReadArgBalanced(ts: seq<Token>, d: nat)
    requires ReadArg(ts, d).Some?
    ensures BalancedFrom(ReadArg(ts, d).value.0, d)
    decreases |ts|
  {
    var arg := ReadArg(ts, d).value.0;
    if ts[0] == RParen && d == 0 {
      assert arg == [];
    } else {
      ReadArgBalanced(ts[1..], Step(d, ts[0]));
      assert arg == [ts[0]] + ReadArg(ts[1..], Step(d, ts[0])).value.0;
      assert arg[1..] == ReadArg(ts[1..], Step(d, ts[0])).value.0;
      BalancedFromCons(arg, d);
    }
  }

  /** A balanced run followed by `)` is read back exactly: the argument is the
      run and the rest is what follows the parenthesis. */
  lemma {:induction false} ReadArgExact(arg: seq<Token>, rest: seq<Token>, d: nat)
    requires BalancedFrom(arg, d)
    ensures ReadArg(arg + [RParen] + rest, d) == Some((arg, rest))
    decreases |arg|
  {
    var ts := arg + [RParen] + rest;
    if arg == [] {
      assert ts == [RParen] + rest;
      assert ts[1..] == rest;
    } else {
      BalancedFromCons(arg, d);
      assert ts[0] == arg[0];
      assert !(ts[0] == RParen && d == 0);
      assert ts[1..] == arg[1..] + [RParen] + rest;
      assert Step(d, ts[0]) == d + Delta(arg[0]);
      ReadArgExact(arg[1..], rest, Step(d, ts[0]));
      assert [arg[0]] + arg[1..] == arg;
    }
  }

  /** Cuts a run at its first comma outside every parenthesis: the part before
      and the part after it, or `None` when there is no such comma. */
  function SplitTopComma(ts: seq<Token>, d: nat): (r: Option<(seq<Token>, seq<Token>)>)
    ensures r.Some? ==> ts == r.value.0 + [Comma] + r.value.1
    decreases |ts|
  {
    if ts == [] then None
    else if ts[0] == Comma && d == 0 then Some(([], ts[1..]))
    else
      match SplitTopComma(ts[1..], Step(d, ts[0]))
      case None => None
      case Some((head, tail)) => Some(([ts[0]] + head, tail))
  }

  /** On a balanced run, `SplitTopComma` finds no comma exactly when there is no
      top-level comma. */
  lemma {:induction false} SplitTopCommaNone(ts: seq<Token>, d: nat)
    requires BalancedFrom(ts, d)
    ensures SplitTopComma(ts, d).None? <==> NoTopCommaFrom(ts, d)
    decreases |ts|
  {
    if ts != [] {
      BalancedFromCons(ts, d);
      NoTopCommaFromCons(ts, d);
      if !(ts[0] == Comma && d == 0) {
        SplitTopCommaNone(ts[1..], Step(d, ts[0]));
      }
    }
  }

  /** On a balanced run, the part before the first top-level comma is balanced
      and holds no top-level comma, and the part after it is balanced. */
  lemma {:induction false} SplitTopCommaParts(ts: seq<Token>, d: nat)
    requires BalancedFrom(ts, d) && SplitTopComma(ts, d).Some?
    ensures var (head, tail) := SplitTopComma(ts, d).value;
      BalancedFrom(head, d) && NoTopCommaFrom(head, d) && Balanced(tail)
    decreases |ts|
  {
    var (head, tail) := SplitTopComma(ts, d).value;
    BalancedFromCons(ts, d);
    if ts[0] == Comma && d == 0 {
      assert head == [] && tail == ts[1..];
      assert BalancedFrom(head, d);
    } else {
      var d' := Step(d, ts[0]);
      SplitTopCommaParts(ts[1..], d');
      assert head[1..] == SplitTopComma(ts[1..], d').value.0;
      BalancedFromCons(head, d);
      NoTopCommaFromCons(head, d);
    }
  }

  /** A run that can be passed on as exactly one macro argument: balanced and
      without a top-level comma. */
  function IsSingleArg(ts: seq<Token>): (b: bool)
    ensures b <==> Balanced(ts) && NoTopComma(ts)
  {
    if IsBalanced(ts, 0) then
      SplitTopCommaNone(ts, 0);
      SplitTopComma(ts, 0).None?
    else false
  }

  /** Two balanced runs side by side are balanced. */
  lemma BalancedConcat(a: seq<Token>, b: seq<Token>)
    requires Balanced(a) && Balanced(b)
    ensures Balanced(a + b)
  {
    forall i | 0 <= i <= |a + b| ensures Depth((a + b)[..i]) >= 0 {
      if i <= |a| {
        assert (a + b)[..i] == a[..i];
      } else {
        assert (a + b)[..i] == a + b[..i - |a|];
        DepthConcat(a, b[..i - |a|]);
      }
    }
    DepthConcat(a, b);
  }

  /** Wrapping a balanced run in parentheses makes it a single argument. */
  lemma Parenthesized(ts: seq<Token>)
    requires Balanced(ts)
    ensures IsSingleArg([LParen] + ts + [RParen])
  {
    var w := [LParen] + ts + [RParen];
    assert w[1..] == ts + [RParen];
    BalancedFromCons(w, 0);
    assert BalancedFrom(ts + [RParen], 1) by {
      forall i | 0 <= i <= |ts + [RParen]| ensures 1 + Depth((ts + [RParen])[..i]) >= 0 {
        if i <= |ts| {
          assert (ts + [RParen])[..i] == ts[..i];
        } else {
          assert (ts + [RParen])[..i] == ts + [RParen];
          DepthConcat(ts, [RParen]);
        }
      }
      DepthConcat(ts, [RParen]);
    }
    NoTopCommaFromCons(w, 0);
    assert NoTopCommaFrom(ts + [RParen], 1) by {
      forall i | 0 <= i < |ts + [RParen]| && (ts + [RParen])[i] == Comma
        ensures 1 + Depth((ts + [RParen])[..i]) != 0
      {
        assert i < |ts|;
        assert (ts + [RParen])[..i] == ts[..i];
        assert Depth(ts[..i]) >= 0;
      }
    }
  }
}
