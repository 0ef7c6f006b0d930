// Loop nesting levels: the `SF_FOR_EACH` family of macro names, the level each
// one reports to `m`, `s` and `f`, and `SF_CAT`, which builds a family name
// from the level an outer loop received.

module Levels {

  import opened Tokens

  /** `SF_MAX_DEPTH`: the most nested loop reports this level. */
  const MaxDepth: nat := 8

  const ForEachBase: string := "SF_FOR_EACH"

  /** The decimal spelling of a level, as the preprocessor writes a pp-number. */
  function Decimal(n: nat): (r: string)
    ensures |r| >= 1 && forall i :: 0 <= i < |r| ==> '0' <= r[i] <= '9'
    ensures n < 10 <==> |r| == 1
    ensures n < 10 ==> r[0] as int == '0' as int + n
  {
    if n < 10 then ['0' + n as char]
    else Decimal(n / 10) + ['0' + (n % 10) as char]
  }

  /** `SF_CAT(x, y)`: pastes two identifiers into one. */
  function Cat(x: string, y: string): string
  {
    x + y
  }

  /** Which member of the `SF_FOR_EACH` family a macro name is, as the level
      it reports: `SF_FOR_EACH` reports 0 and `SF_FOR_EACHi` reports i+1 for
      the generated suffixes i = 0 .. MaxDepth-1. Any other name is not
      defined by the header. */
  function LevelOf(name: string): (r: Option<nat>)
    ensures r.Some? ==> r.value <= MaxDepth
  {
    if name == ForEachBase then Some(0)
    else if |name| == |ForEachBase| + 1 && name[..|ForEachBase|] == ForEachBase
            && '0' <= name[|ForEachBase|] < '0' + MaxDepth as char
    then Some((name[|ForEachBase|] as int - '0' as int) + 1)
    else None
  }

  /** The name a loop at nesting level `n` uses for an inner loop,
      `SF_CAT(SF_FOR_EACH, n)`, is defined exactly when `n < MaxDepth`, and the
      inner loop then reports level `n + 1`. */
  lemma InnerLoopLevel(n: nat)
    ensures LevelOf(Cat(ForEachBase, Decimal(n))) ==
              (if n < MaxDepth then Some(n + 1) else None)
  {
    var name := Cat(ForEachBase, Decimal(n));
    assert name != ForEachBase by {
      assert |name| == |ForEachBase| + |Decimal(n)|;
    }
    if n < 10 {
      assert name[|ForEachBase|] == Decimal(n)[0];
    }
  }

  /** Every defined family name is either `SF_FOR_EACH` (level 0) or
      `SF_CAT(SF_FOR_EACH, i)` for the level i it reports minus one. */
  lemma LevelOfNames(name: string)
    requires LevelOf(name).Some?
    ensures var k := LevelOf(name).value;
      name == if k == 0 then ForEachBase else Cat(ForEachBase, Decimal(k - 1))
  {
    var k := LevelOf(name).value;
    if name != ForEachBase {
      var c := name[|ForEachBase|];
      assert k == c as int - '0' as int + 1;
      assert Decimal(k - 1) == [c];
      assert name == name[..|ForEachBase|] + [c];
    }
  }
}
