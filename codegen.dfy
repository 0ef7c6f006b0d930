// The code generation rule of the `xx`/`yy` template: every macro whose name
// holds `xx` is copied once per nesting level, `xx` becoming the level's name
// suffix and `yy` the level the copy reports. The generator script itself is
// not part of this model; only the rule stated in the template is.

module Codegen {

  import opened Tokens
  import opened Levels

  /** Replaces every occurrence of `pat` in `s`, scanning left to right and
      resuming after each replaced occurrence. */
  function ReplaceAll(s: string, pat: string, rep: string): string
    requires pat != []
    decreases |s|
  {
    if |s| < |pat| then s
    else if s[..|pat|] == pat then rep + ReplaceAll(s[|pat|..], pat, rep)
    else [s[0]] + ReplaceAll(s[1..], pat, rep)
  }

  /** A text that does not contain the pattern's first character passes
      through unchanged, and so does whatever follows it up to the next
      occurrence. */
  lemma {:induction false} ReplaceAfterFree(a: string, pat: string, rep: string, b: string)
    requires pat != [] && pat[0] !in a
    ensures ReplaceAll(a + b, pat, rep) == a + ReplaceAll(b, pat, rep)
    decreases |a|
  {
    if a != [] {
      var s := a + b;
      assert s[0] == a[0];
      if |s| >= |pat| {
        assert s[..|pat|][0] == a[0];
      }
      assert s[1..] == a[1..] + b;
      ReplaceAfterFree(a[1..], pat, rep, b);
      assert a == [a[0]] + a[1..];
    } else {
      assert a + b == b;
    }
  }

  /** An occurrence at the front is replaced, and the scan resumes after it. */
  lemma ReplaceFront(pat: string, rep: string, b: string)
    requires pat != []
    ensures ReplaceAll(pat + b, pat, rep) == rep + ReplaceAll(b, pat, rep)
  {
    var s := pat + b;
    assert s[..|pat|] == pat;
    assert s[|pat|..] == b;
  }

  /** A template line, cut where the placeholders are. */
  datatype Piece = Text(text: string) | SuffixHole | LevelHole

  /** Fills the placeholders of a line with the given suffix and level. With
      `"xx"` and `"yy"` this spells the template line itself. */
  function Fill(ps: seq<Piece>, sfx: string, lvl: string): string
  {
    if ps == [] then []
    else
      (match ps[0]
         case Text(t) => t
         case SuffixHole => sfx
         case LevelHole => lvl)
      + Fill(ps[1..], sfx, lvl)
  }

  function Template(ps: seq<Piece>): string
  {
    Fill(ps, "xx", "yy")
  }

  /** The text between placeholders spells neither `x` nor `y`, so the only
      occurrences of `xx` and `yy` are the placeholders. */
  predicate Plain(ps: seq<Piece>)
  {
    forall i :: 0 <= i < |ps| && ps[i].Text? ==> 'x' !in ps[i].text && 'y' !in ps[i].text
  }

  /** The rule: every `xx` becomes the suffix, then every `yy` the level. */
  function Instantiate(line: string, sfx: string, lvl: string): string
  {
    ReplaceAll(ReplaceAll(line, "xx", sfx), "yy", lvl)
  }

  lemma {:induction false} SuffixPass(ps: seq<Piece>, sfx: string)
    requires Plain(ps) && 'x' !in sfx
    ensures ReplaceAll(Fill(ps, "xx", "yy"), "xx", sfx) == Fill(ps, sfx, "yy")
    decreases |ps|
  {
    if ps != [] {
      var rest := Fill(ps[1..], "xx", "yy");
      assert Plain(ps[1..]) by {
        forall i | 0 <= i < |ps[1..]| && ps[1..][i].Text?
          ensures 'x' !in ps[1..][i].text && 'y' !in ps[1..][i].text
        {
          assert ps[1..][i] == ps[i + 1];
        }
      }
      SuffixPass(ps[1..], sfx);
      match ps[0]
      case Text(t) =>
        assert 'x' !in t by { assert ps[0].Text?; }
        ReplaceAfterFree(t, "xx", sfx, rest);
      case SuffixHole =>
        ReplaceFront("xx", sfx, rest);
      case LevelHole =>
        ReplaceAfterFree("yy", "xx", sfx, rest);
    }
  }

  lemma {:induction false} LevelPass(ps: seq<Piece>, sfx: string, lvl: string)
    requires Plain(ps) && 'y' !in sfx
    ensures ReplaceAll(Fill(ps, sfx, "yy"), "yy", lvl) == Fill(ps, sfx, lvl)
    decreases |ps|
  {
    if ps != [] {
      var rest := Fill(ps[1..], sfx, "yy");
      assert Plain(ps[1..]) by {
        forall i | 0 <= i < |ps[1..]| && ps[1..][i].Text?
          ensures 'x' !in ps[1..][i].text && 'y' !in ps[1..][i].text
        {
          assert ps[1..][i] == ps[i + 1];
        }
      }
      LevelPass(ps[1..], sfx, lvl);
      match ps[0]
      case Text(t) =>
        assert 'y' !in t by { assert ps[0].Text?; }
        ReplaceAfterFree(t, "yy", lvl, rest);
      case SuffixHole =>
        ReplaceAfterFree(sfx, "yy", lvl, rest);
      case LevelHole =>
        ReplaceFront("yy", lvl, rest);
    }
  }

  /** Instantiating a template line replaces exactly its placeholders: each
      `xx` by the suffix and each `yy` by the level, and nothing else. */
  lemma InstantiateFills(ps: seq<Piece>, sfx: string, lvl: string)
    requires Plain(ps) && 'x' !in sfx && 'y' !in sfx
    ensures Instantiate(Template(ps), sfx, lvl) == Fill(ps, sfx, lvl)
  {
    SuffixPass(ps, sfx);
    LevelPass(ps, sfx, lvl);
  }

  /** The name suffix of level `j`'s copy: `` for level 0, then `0`, `1`, …. */
  function Suffix(j: nat): (r: string)
    ensures forall i :: 0 <= i < |r| ==> '0' <= r[i] <= '9'
    ensures j == 0 <==> r == []
  {
    if j == 0 then [] else Decimal(j - 1)
  }

  lemma DigitsPlain(s: string)
    requires forall i :: 0 <= i < |s| ==> '0' <= s[i] <= '9'
    ensures 'x' !in s && 'y' !in s
  {
  }

  /** `SF_FOR_EACHxx`, the name of the loop macro in the template. */
  function ForEachTemplate(): (ps: seq<Piece>)
    ensures Plain(ps)
  {
    assert 'x' !in ForEachBase && 'y' !in ForEachBase;
    [Text(ForEachBase), SuffixHole]
  }

  const FinalOpen: string := "f("
  const FinalClose: string := ", d)"

  /** `f(yy, d)`, the final call of the template's `_A_0` step. */
  function FinalCallTemplate(): (ps: seq<Piece>)
    ensures Plain(ps)
  {
    assert 'x' !in FinalOpen && 'y' !in FinalOpen;
    assert 'x' !in FinalClose && 'y' !in FinalClose;
    [Text(FinalOpen), LevelHole, Text(FinalClose)]
  }

  /** The copy for level `j` (one of `0 ..= MaxDepth`): `xx` is that level's
      suffix and `yy` is the level `j` itself. */
  function InstantiateLevel(line: string, j: nat): string
  {
    Instantiate(line, Suffix(j), Decimal(j))
  }

  /** Each copy of `SF_FOR_EACHxx` is a defined family name, and it reports
      the level its `yy` was replaced with: `SF_FOR_EACH` reports 0 and
      `SF_FOR_EACHi` reports i+1. */
  lemma GeneratedFamily(j: nat)
    requires j <= MaxDepth
    ensures InstantiateLevel(Template(ForEachTemplate()), j)
              == if j == 0 then ForEachBase else Cat(ForEachBase, Decimal(j - 1))
    ensures LevelOf(InstantiateLevel(Template(ForEachTemplate()), j)) == Some(j)
  {
    var sfx := Suffix(j);
    DigitsPlain(sfx);
    InstantiateFills(ForEachTemplate(), sfx, Decimal(j));
    FamilyFill(sfx, Decimal(j));
    var name := InstantiateLevel(Template(ForEachTemplate()), j);
    assert name == ForEachBase + sfx;
    if j > 0 {
      assert name == Cat(ForEachBase, Decimal(j - 1));
      InnerLoopLevel(j - 1);
    } else {
      assert sfx == [];
      assert name == ForEachBase;
    }
  }

  lemma FamilyFill(sfx: string, lvl: string)
    ensures Fill(ForEachTemplate(), sfx, lvl) == ForEachBase + sfx
  {
    var ps := ForEachTemplate();
    assert ps[1..] == [SuffixHole];
    assert ps[1..][1..] == [];
    assert Fill(ps[1..], sfx, lvl) == sfx + [];
  }

  /** Every defined family name is the copy of `SF_FOR_EACHxx` for the level
      it reports, so the copies for levels `0 ..= MaxDepth` are exactly the
      names the header defines. */
  lemma FamilyIsGenerated(name: string)
    requires LevelOf(name).Some?
    ensures name == InstantiateLevel(Template(ForEachTemplate()), LevelOf(name).value)
  {
    LevelOfNames(name);
    GeneratedFamily(LevelOf(name).value);
  }

  /** The final call of level `j`'s copy is written `f(j, d)`. */
  lemma GeneratedFinalCall(j: nat)
    ensures InstantiateLevel(Template(FinalCallTemplate()), j) == FinalOpen + Decimal(j) + FinalClose
  {
    var sfx, lvl := Suffix(j), Decimal(j);
    DigitsPlain(sfx);
    FinalFill(sfx, lvl);
    InstantiateFills(FinalCallTemplate(), sfx, lvl);
  }

  lemma FinalFill(sfx: string, lvl: string)
    ensures Fill(FinalCallTemplate(), sfx, lvl) == FinalOpen + lvl + FinalClose
  {
    var ps := FinalCallTemplate();
    assert Fill(ps[2..], sfx, lvl) == FinalClose by {
      assert ps[2..] == [Text(FinalClose)];
      assert ps[2..][1..] == [];
    }
    assert Fill(ps[1..], sfx, lvl) == lvl + FinalClose by {
      assert ps[1..][0] == LevelHole && ps[1..][1..] == ps[2..];
    }
  }
}
