/**
 * The loose version numbers the resolver compares releases with
 * (`distutils.version.LooseVersion` as used under Python 3).
 *
 * Parsing splits a version string into maximal runs of decimal digits, of
 * lower-case letters and of any other characters except '.', which only
 * separates; digit runs become numbers and all other runs stay text.
 * Comparison is Python's list comparison of those components, which raises
 * `TypeError` when the first differing position holds a number on one side
 * and text on the other.
 */
module LooseVersion {
  import opened Wrappers
  import opened Strings

  /** One component of a parsed version: `int(run)` for a digit run, the run itself otherwise. */
  datatype Component = Num(n: nat) | Str(s: string)

  /** The sign of `LooseVersion._cmp`: -1, 0 or 1. */
  datatype Ordering = Less | Equal | Greater

  /** The exception Python raises when it orders an `int` against a `str`. */
  datatype CompareError = TypeError

  /** How the component pattern `(\d+ | [a-z]+ | \.)` sees a character. */
  datatype CharClass = Digit | Lower | Dot | Other

  function ClassOf(c: char): CharClass {
    if '0' <= c <= '9' then Digit
    else if 'a' <= c <= 'z' then Lower
    else if c == '.' then Dot
    else Other
  }

  predicate IsDecimal(s: string) {
    forall i :: 0 <= i < |s| ==> ClassOf(s[i]) == Digit
  }

  /** The value of a decimal digit (only ever applied to digits). */
  function DigitValue(c: char): nat {
    if '0' <= c <= '9' then c as int - '0' as int else 0
  }

  /** The value of the decimal digits `s[..j]`. */
  function DecimalPrefix(s: string, j: nat): nat
    requires j <= |s|
  {
    if j == 0 then 0 else DecimalPrefix(s, j - 1) * 10 + DigitValue(s[j - 1])
  }

  /** `int(s)` for a string of decimal digits (leading zeros allowed). */
  function DecimalValue(s: string): nat {
    DecimalPrefix(s, |s|)
  }

  /** A maximal stretch of characters of one class, as the component pattern cuts it. */
  datatype Run = Run(k: CharClass, text: string)

  /** The runs of `v[i..]`, built one character at a time from the back. */
  function RunsFrom(v: string, i: nat): (r: seq<Run>)
    requires i <= |v|
    ensures |r| <= |v| - i
    decreases |v| - i
  {
    if i == |v| then []
    else
      var rest := RunsFrom(v, i + 1);
      var k := ClassOf(v[i]);
      if rest != [] && rest[0].k == k then [Run(k, [v[i]] + rest[0].text)] + rest[1..]
      else [Run(k, [v[i]])] + rest
  }

  function Runs(v: string): (r: seq<Run>)
    ensures |r| <= |v|
  {
    RunsFrom(v, 0)
  }

  /** Two positions holding the same character, followed by the same runs, start the same runs. */
  lemma RunsSameStart(v: string, i: nat, w: string, i2: nat)
    requires i < |v| && i2 < |w| && v[i] == w[i2]
    requires RunsFrom(v, i + 1) == RunsFrom(w, i2 + 1)
    ensures RunsFrom(v, i) == RunsFrom(w, i2)
  {
  }

  /** The runs from index `j + d` only depend on the characters from `j + d` on. */
  lemma {:induction false} RunsFromShift(v: string, j: nat, d: nat)
    requires j + d <= |v|
    ensures RunsFrom(v, j + d) == RunsFrom(v[j..], d)
    decreases |v| - j - d
  {
    if j + d < |v| {
      RunsFromShift(v, j, d + 1);
      RunsSameStart(v, j + d, v[j..], d);
    }
  }

  /** The runs of a non-empty string: its first character joins the first run of the rest, or starts its own. */
  lemma RunsUnfold(v: string)
    requires v != []
    ensures Runs(v) ==
      var rest := Runs(v[1..]);
      var k := ClassOf(v[0]);
      if rest != [] && rest[0].k == k then [Run(k, [v[0]] + rest[0].text)] + rest[1..]
      else [Run(k, [v[0]])] + rest
    ensures Runs(v) != [] && Runs(v)[0].k == ClassOf(v[0])
  {
    RunsFromShift(v, 1, 0);
  }

  /** The texts of `runs`, end to end. */
  function Concat(runs: seq<Run>): string {
    if runs == [] then "" else runs[0].text + Concat(runs[1..])
  }

  /** Every run is non-empty and of one class, and neighbouring runs differ in class (so each is maximal). */
  predicate WellFormedRuns(runs: seq<Run>) {
    (forall r :: 0 <= r < |runs| ==>
       runs[r].text != [] && forall c :: 0 <= c < |runs[r].text| ==> ClassOf(runs[r].text[c]) == runs[r].k) &&
    (forall r :: 0 <= r < |runs| - 1 ==> runs[r].k != runs[r + 1].k)
  }

  /** Cutting a string into runs loses nothing and cuts it into maximal runs of one class each. */
  lemma {:induction false} RunsSpec(v: string)
    ensures Concat(Runs(v)) == v
    ensures WellFormedRuns(Runs(v))
  {
    if v != [] {
      RunsSpec(v[1..]);
      RunsUnfold(v);
      var rest := Runs(v[1..]);
      var k := ClassOf(v[0]);
      if rest != [] && rest[0].k == k {
        var head := Run(k, [v[0]] + rest[0].text);
        assert Runs(v) == [head] + rest[1..];
        assert Concat([head] + rest[1..]) == head.text + Concat(rest[1..]);
        assert Concat(rest) == rest[0].text + Concat(rest[1..]);
        assert v == [v[0]] + v[1..];
        forall c | 0 <= c < |head.text|
          ensures ClassOf(head.text[c]) == k
        {
          if c > 0 {
            assert head.text[c] == rest[0].text[c - 1];
          }
        }
      } else {
        assert Runs(v) == [Run(k, [v[0]])] + rest;
        assert Concat([Run(k, [v[0]])] + rest) == [v[0]] + Concat(rest);
        assert v == [v[0]] + v[1..];
      }
    }
  }

  /** A digit run contributes `int(run)`, a dot is dropped, any other run stays text. */
  function Components(runs: seq<Run>): (r: seq<Component>)
    ensures |r| <= |runs|
  {
    if runs == [] then []
    else
      var rest := Components(runs[1..]);
      match runs[0].k
      case Dot => rest
      case Digit => [Num(DecimalValue(runs[0].text))] + rest
      case _ => [Str(runs[0].text)] + rest
  }

  /** `LooseVersion.parse`: the components of a version string, in order. */
  function Parse(v: string): (r: seq<Component>)
    ensures |r| <= |v|
  {
    Components(Runs(v))
  }

  /** A non-empty prefix of one class followed by a different class forms a run of its own. */
  lemma {:induction false} RunsAfterPrefix(p: string, t: string, k: CharClass)
    requires p != []
    requires forall c :: 0 <= c < |p| ==> ClassOf(p[c]) == k
    requires t != [] ==> ClassOf(t[0]) != k
    ensures Runs(p + t) == [Run(k, p)] + Runs(t)
    decreases |p|
  {
    assert (p + t)[0] == p[0] && (p + t)[1..] == p[1..] + t;
    RunsUnfold(p + t);
    if |p| == 1 {
      assert p[1..] + t == t;
      if t != [] {
        RunsUnfold(t);
      }
      assert [p[0]] == p;
    } else {
      assert forall c :: 0 <= c < |p[1..]| ==> ClassOf(p[1..][c]) == k;
      RunsAfterPrefix(p[1..], t, k);
      assert [p[0]] + p[1..] == p;
      assert ([Run(k, p[1..])] + Runs(t))[1..] == Runs(t);
    }
  }

  /** A digit run followed by a non-digit (or nothing) parses to its value, then the rest. */
  lemma ParseNumberThen(f: string, rest: string)
    requires f != "" && IsDecimal(f)
    requires rest != [] ==> ClassOf(rest[0]) != Digit
    ensures Parse(f + rest) == [Num(DecimalValue(f))] + Parse(rest)
  {
    RunsAfterPrefix(f, rest, Digit);
    assert ([Run(Digit, f)] + Runs(rest))[1..] == Runs(rest);
  }

  /** A separating dot before a non-dot is skipped. */
  lemma ParseDotThen(tail: string)
    requires tail != [] ==> tail[0] != '.'
    ensures Parse("." + tail) == Parse(tail)
  {
    RunsAfterPrefix(".", tail, Dot);
    assert ([Run(Dot, ".")] + Runs(tail))[1..] == Runs(tail);
  }

  function DecimalValues(fields: seq<string>): seq<nat>
  {
    if fields == [] then [] else [DecimalValue(fields[0])] + DecimalValues(fields[1..])
  }

  /** A version made of numbers only. */
  function Nums(xs: seq<nat>): seq<Component> {
    if xs == [] then [] else [Num(xs[0])] + Nums(xs[1..])
  }

  /** Parsing dot-separated decimal fields gives their values as numbers, in order. */
  lemma {:induction false} ParseDecimalFields(fields: seq<string>)
    requires |fields| >= 1
    requires forall k :: 0 <= k < |fields| ==> fields[k] != "" && IsDecimal(fields[k])
    ensures Parse(Join(fields, '.')) == Nums(DecimalValues(fields))
  {
    var f := fields[0];
    if |fields| == 1 {
      ParseNumberThen(f, "");
      assert f + "" == f;
    } else {
      var tail := Join(fields[1..], '.');
      var values := DecimalValues(fields);
      assert Join(fields, '.') == f + ("." + tail);
      assert tail != [] && tail[0] != '.' by {
        JoinStartsWithFirst(fields[1..]);
      }
      ParseNumberThen(f, "." + tail);
      ParseDotThen(tail);
      ParseDecimalFields(fields[1..]);
      assert values[0] == DecimalValue(f) && values[1..] == DecimalValues(fields[1..]);
      assert Nums(values) == [Num(DecimalValue(f))] + Nums(DecimalValues(fields[1..]));
    }
  }

  lemma JoinStartsWithFirst(fields: seq<string>)
    requires |fields| >= 1 && fields[0] != ""
    ensures Join(fields, '.') != [] && Join(fields, '.')[0] == fields[0][0]
  {
    if |fields| > 1 {
      assert Join(fields, '.') == fields[0] + (['.'] + Join(fields[1..], '.'));
    }
  }

  /** Python's `a < b` on two components; numbers and text are not ordered against each other. */
  function ComponentLess(a: Component, b: Component): Result<bool, CompareError> {
    match (a, b)
    case (Num(i), Num(j)) => Ok(i < j)
    case (Str(s), Str(t)) => Ok(StrLess(s, t))
    case _ => Err(TypeError)
  }

  /** Python's `a < b` on two component lists. */
  function ListLess(a: seq<Component>, b: seq<Component>): Result<bool, CompareError> {
    if a == [] || b == [] then Ok(|a| < |b|)
    else if a[0] == b[0] then ListLess(a[1..], b[1..])
    else ComponentLess(a[0], b[0])
  }

  /**
   * `LooseVersion._cmp`: equal lists give Equal, otherwise `a < b` decides
   * (and may raise); `Converse` shows that Python's third test `a > b`
   * always holds when the first two fail.
   */
  function Compare(a: seq<Component>, b: seq<Component>): (r: Result<Ordering, CompareError>)
    ensures r == Ok(Equal) <==> a == b
  {
    if a == b then Ok(Equal)
    else
      match ListLess(a, b)
      case Err(e) => Err(e)
      case Ok(less) => if less then Ok(Less) else Ok(Greater)
  }

  /** Swapping two distinct lists swaps the answer of `<` and keeps a failure a failure. */
  lemma {:induction false} ListLessConverse(a: seq<Component>, b: seq<Component>)
    requires a != b
    ensures ListLess(a, b).Err? <==> ListLess(b, a).Err?
    ensures ListLess(a, b) == Ok(true) <==> ListLess(b, a) == Ok(false)
  {
    if a != [] && b != [] {
      if a[0] == b[0] {
        assert a == [a[0]] + a[1..] && b == [b[0]] + b[1..];
        ListLessConverse(a[1..], b[1..]);
      } else if a[0].Str? && b[0].Str? {
        StrLessTrichotomy(a[0].s, b[0].s);
      }
    }
  }

  /**
   * Comparison is antisymmetric: `a` is below `b` exactly when `b` is above
   * `a`, and a failing comparison fails in both directions.
   */
  lemma Converse(a: seq<Component>, b: seq<Component>)
    ensures Compare(a, b) == Ok(Less) <==> Compare(b, a) == Ok(Greater)
    ensures Compare(a, b).Err? <==> Compare(b, a).Err?
    ensures a != b && ListLess(a, b) == Ok(false) ==> ListLess(b, a) == Ok(true)
  {
    if a != b {
      ListLessConverse(a, b);
    }
  }

  /**
   * Lexicographic order on sequences of naturals, stated independently of
   * `ListLess`: `x` is a proper prefix of `y`, or they agree up to a position
   * where `x` holds the smaller number.
   */
  ghost predicate LexLess(x: seq<nat>, y: seq<nat>) {
    exists k :: 0 <= k <= |x| && k <= |y| && x[..k] == y[..k] &&
      (if k < |x| then k < |y| && x[k] < y[k] else k < |y|)
  }

  lemma {:induction false} NumsInjective(x: seq<nat>, y: seq<nat>)
    ensures Nums(x) == Nums(y) <==> x == y
  {
    if x != [] && y != [] {
      NumsInjective(x[1..], y[1..]);
      if Nums(x) == Nums(y) {
        assert Nums(x)[0] == Nums(y)[0];
        assert Nums(x)[1..] == Nums(y)[1..];
        assert x == [x[0]] + x[1..] && y == [y[0]] + y[1..];
      }
    }
  }

  /** Lexicographic order of two sequences with equal heads is that of their tails. */
  lemma LexLessTail(x: seq<nat>, y: seq<nat>)
    requires x != [] && y != [] && x[0] == y[0]
    ensures LexLess(x, y) <==> LexLess(x[1..], y[1..])
  {
    if LexLess(x[1..], y[1..]) {
      var k :| 0 <= k <= |x[1..]| && k <= |y[1..]| && x[1..][..k] == y[1..][..k] &&
        (if k < |x[1..]| then k < |y[1..]| && x[1..][k] < y[1..][k] else k < |y[1..]|);
      assert x[..k + 1] == [x[0]] + x[1..][..k];
      assert y[..k + 1] == [y[0]] + y[1..][..k];
    }
    if LexLess(x, y) {
      var k :| 0 <= k <= |x| && k <= |y| && x[..k] == y[..k] &&
        (if k < |x| then k < |y| && x[k] < y[k] else k < |y|);
      assert k > 0;
      assert x[1..][..k - 1] == x[..k][1..] == y[..k][1..] == y[1..][..k - 1];
    }
  }

  /** Lexicographic order of two sequences with different heads is that of their heads. */
  lemma LexLessHead(x: seq<nat>, y: seq<nat>)
    requires x != [] && y != [] && x[0] != y[0]
    ensures LexLess(x, y) <==> x[0] < y[0]
  {
    if x[0] < y[0] {
      assert x[..0] == y[..0];
    }
    if LexLess(x, y) {
      var k :| 0 <= k <= |x| && k <= |y| && x[..k] == y[..k] &&
        (if k < |x| then k < |y| && x[k] < y[k] else k < |y|);
    }
  }

  /** On numeric versions `<` never raises and is the lexicographic order. */
  lemma {:induction false} NumericLess(x: seq<nat>, y: seq<nat>)
    ensures ListLess(Nums(x), Nums(y)) == Ok(LexLess(x, y))
  {
    if x == [] || y == [] {
      if x == [] && y != [] {
        assert x[..0] == y[..0];
      }
    } else if x[0] == y[0] {
      NumericLess(x[1..], y[1..]);
      assert Nums(x)[1..] == Nums(x[1..]) && Nums(y)[1..] == Nums(y[1..]);
      LexLessTail(x, y);
    } else {
      LexLessHead(x, y);
    }
  }

  /** Numeric versions always compare, by the lexicographic order. */
  lemma NumericCompare(x: seq<nat>, y: seq<nat>)
    ensures Compare(Nums(x), Nums(y)) ==
      Ok(if x == y then Equal else if LexLess(x, y) then Less else Greater)
  {
    NumsInjective(x, y);
    NumericLess(x, y);
  }

  lemma {:induction false} NumsLessTransitive(x: seq<nat>, y: seq<nat>, z: seq<nat>)
    requires ListLess(Nums(x), Nums(y)) == Ok(true) && ListLess(Nums(y), Nums(z)) == Ok(true)
    ensures ListLess(Nums(x), Nums(z)) == Ok(true)
  {
    if x != [] && y != [] && z != [] && x[0] == y[0] && y[0] == z[0] {
      assert Nums(x)[1..] == Nums(x[1..]) && Nums(y)[1..] == Nums(y[1..]) && Nums(z)[1..] == Nums(z[1..]);
      NumsLessTransitive(x[1..], y[1..], z[1..]);
    }
  }

  /** The lexicographic order is a strict order: irreflexive and transitive. */
  lemma LexLessStrictOrder(x: seq<nat>, y: seq<nat>, z: seq<nat>)
    ensures !LexLess(x, x)
    ensures LexLess(x, y) && LexLess(y, z) ==> LexLess(x, z)
  {
    NumericLess(x, x);
    NumericLess(x, y);
    NumericLess(y, z);
    NumericLess(x, z);
    if LexLess(x, y) && LexLess(y, z) {
      NumsLessTransitive(x, y, z);
    }
  }
}
