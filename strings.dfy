/**
 * The Python string operations the versioning code relies on: prefix tests,
 * slicing, `split`/`join` on one separator character and the ordering `<`
 * of two strings (code point by code point).
 *
 * The recursive definitions walk an index rather than dropping the first
 * character, which keeps the verifier from unrolling them without bound on
 * the literal release names.
 */
module Strings {

  /** `s.startswith(prefix)` */
  predicate StartsWith(s: string, prefix: string) {
    |prefix| <= |s| && s[..|prefix|] == prefix
  }

  /** A string cannot start with two prefixes that begin with different characters. */
  lemma PrefixesExclude(s: string, p: string, q: string)
    requires StartsWith(s, p) && p != [] && q != [] && p[0] != q[0]
    ensures !StartsWith(s, q)
  {
    assert s[..|p|][0] == s[0];
  }

  /** A string that differs from `p` at an index of `p` does not start with `p`. */
  lemma DiffersAt(s: string, p: string, k: nat)
    requires k < |p| && (k < |s| ==> s[k] != p[k])
    ensures !StartsWith(s, p)
  {
    if |p| <= |s| {
      assert s[..|p|][k] == s[k];
    }
  }

  /** `p + t` starts with `p`. */
  lemma StartsWithConcat(p: string, t: string)
    ensures StartsWith(p + t, p)
  {
    assert (p + t)[..|p|] == p;
  }

  /** `s[i:j]` for non-negative bounds: bounds past the end are clipped and an empty range gives "". */
  function Slice(s: string, i: nat, j: nat): string {
    var lo := if i <= |s| then i else |s|;
    var hi := if j <= lo then lo else if j <= |s| then j else |s|;
    s[lo..hi]
  }

  /** The fields of `s[i..]` between occurrences of `sep`. */
  function SplitFrom(s: string, sep: char, i: nat): (parts: seq<string>)
    requires i <= |s|
    ensures |parts| >= 1
    ensures forall k :: 0 <= k < |parts| ==> sep !in parts[k]
    decreases |s| - i
  {
    if i == |s| then [""]
    else
      var rest := SplitFrom(s, sep, i + 1);
      if s[i] == sep then [""] + rest else [[s[i]] + rest[0]] + rest[1..]
  }

  /** `s.split(sep)`: the fields between occurrences of `sep`; never an empty list. */
  function Split(s: string, sep: char): (parts: seq<string>)
    ensures |parts| >= 1
    ensures forall k :: 0 <= k < |parts| ==> sep !in parts[k]
  {
    SplitFrom(s, sep, 0)
  }

  lemma {:induction false} SplitFromShift(s: string, sep: char, i: nat, j: nat)
    requires j <= i <= |s|
    ensures SplitFrom(s, sep, i) == SplitFrom(s[j..], sep, i - j)
    decreases |s| - i
  {
    if i < |s| {
      SplitFromShift(s, sep, i + 1, j);
      assert s[j..][i - j] == s[i];
    }
  }

  /** Splitting a non-empty string looks at its first character and splits the rest. */
  lemma SplitUnfold(s: string, sep: char)
    requires s != []
    ensures Split(s, sep) ==
      var rest := Split(s[1..], sep);
      if s[0] == sep then [""] + rest else [[s[0]] + rest[0]] + rest[1..]
  {
    SplitFromShift(s, sep, 1, 1);
  }

  /** `sep.join(parts)` */
  function Join(parts: seq<string>, sep: char): (r: string)
    ensures parts != [] ==> StartsWith(r, parts[0])
  {
    if parts == [] then ""
    else if |parts| == 1 then parts[0]
    else
      var joined := parts[0] + [sep] + Join(parts[1..], sep);
      assert joined[..|parts[0]|] == parts[0];
      joined
  }

  /** The length of a join does not depend on which separator character is used. */
  lemma {:induction false} JoinLength(parts: seq<string>, a: char, b: char)
    ensures |Join(parts, a)| == |Join(parts, b)|
  {
    if |parts| > 1 {
      JoinLength(parts[1..], a, b);
    }
  }

  /** Joining the fields of a split gives the original string back. */
  lemma {:induction false} JoinSplit(s: string, sep: char)
    ensures Join(Split(s, sep), sep) == s
  {
    if s == [] {
      assert Split(s, sep) == [""];
    } else {
      var rest := Split(s[1..], sep);
      JoinSplit(s[1..], sep);
      SplitUnfold(s, sep);
      if s[0] == sep {
        assert Split(s, sep) == [""] + rest;
        assert Join([""] + rest, sep) == "" + [sep] + Join(rest, sep);
        assert s == [s[0]] + s[1..];
      } else {
        var head := [s[0]] + rest[0];
        assert Split(s, sep) == [head] + rest[1..];
        if |rest| == 1 {
          assert Join([head] + rest[1..], sep) == head;
        } else {
          assert ([head] + rest[1..])[1..] == rest[1..];
          assert Join([head] + rest[1..], sep) == head + [sep] + Join(rest[1..], sep);
          assert Join(rest, sep) == rest[0] + [sep] + Join(rest[1..], sep);
        }
        assert s == [s[0]] + s[1..];
      }
    }
  }

  /** Splitting `p + t` where `p` holds no separator extends the first field of `t`'s split by `p`. */
  lemma {:induction false} SplitAfterPlainPrefix(p: string, t: string, sep: char)
    requires sep !in p
    ensures Split(p + t, sep) == [p + Split(t, sep)[0]] + Split(t, sep)[1..]
  {
    if p == [] {
      var parts := Split(t, sep);
      assert p + t == t && p + parts[0] == parts[0];
      assert [parts[0]] + parts[1..] == parts;
    } else {
      SplitAfterPlainPrefix(p[1..], t, sep);
      SplitUnfold(p + t, sep);
      assert (p + t)[0] == p[0];
      assert (p + t)[1..] == p[1..] + t;
      assert [p[0]] + (p[1..] + Split(t, sep)[0]) == p + Split(t, sep)[0];
    }
  }

  /** Splitting a join whose fields hold no separator gives the fields back. */
  lemma {:induction false} SplitJoin(parts: seq<string>, sep: char)
    requires |parts| >= 1
    requires forall k :: 0 <= k < |parts| ==> sep !in parts[k]
    ensures Split(Join(parts, sep), sep) == parts
  {
    assert Split("", sep) == [""];
    if |parts| == 1 {
      SplitAfterPlainPrefix(parts[0], "", sep);
      assert parts[0] + "" == parts[0];
    } else {
      var rest := Join(parts[1..], sep);
      SplitJoin(parts[1..], sep);
      SplitUnfold([sep] + rest, sep);
      assert ([sep] + rest)[1..] == rest;
      assert Split([sep] + rest, sep) == [""] + parts[1..];
      SplitAfterPlainPrefix(parts[0], [sep] + rest, sep);
      assert parts[0] + [sep] + rest == parts[0] + ([sep] + rest);
      assert parts[0] + "" == parts[0];
      assert [parts[0]] + parts[1..] == parts;
    }
  }

  /** Python's `a[i:] < b[i:]` on strings: the first differing character decides, otherwise the shorter is smaller. */
  predicate StrLessFrom(a: string, b: string, i: nat)
    requires i <= |a| && i <= |b|
    decreases |a| - i
  {
    if i == |a| then i < |b|
    else if i == |b| then false
    else if a[i] != b[i] then a[i] < b[i]
    else StrLessFrom(a, b, i + 1)
  }

  /** Python's `a < b` on strings. */
  predicate StrLess(a: string, b: string) {
    StrLessFrom(a, b, 0)
  }

  lemma {:induction false} StrLessFromAt(a: string, b: string, i: nat, k: nat)
    requires i <= k < |a| && k < |b| && a[i..k] == b[i..k] && a[k] < b[k]
    ensures StrLessFrom(a, b, i)
    decreases k - i
  {
    if i < k {
      assert a[i] == a[i..k][0] == b[i..k][0] == b[i];
      assert a[i + 1..k] == a[i..k][1..] == b[i..k][1..] == b[i + 1..k];
      StrLessFromAt(a, b, i + 1, k);
    }
  }

  /** Two strings that agree before index `k` and differ at `k` are ordered by that character. */
  lemma StrLessAt(a: string, b: string, k: nat)
    requires k < |a| && k < |b| && a[..k] == b[..k] && a[k] < b[k]
    ensures StrLess(a, b)
  {
    assert a[0..k] == a[..k] && b[0..k] == b[..k];
    StrLessFromAt(a, b, 0, k);
  }

  lemma {:induction false} StrLessFromTrichotomy(a: string, b: string, i: nat)
    requires i <= |a| && i <= |b| && a[..i] == b[..i]
    ensures !StrLessFrom(a, a, i)
    ensures StrLessFrom(a, b, i) ==> !StrLessFrom(b, a, i)
    ensures a != b ==> StrLessFrom(a, b, i) || StrLessFrom(b, a, i)
    decreases |a| - i
  {
    if i < |a| {
      if i < |b| && a[i] == b[i] {
        assert a[..i + 1] == a[..i] + [a[i]] && b[..i + 1] == b[..i] + [b[i]];
        StrLessFromTrichotomy(a, b, i + 1);
      } else {
        StrLessFromTrichotomy(a, a, i + 1);
      }
    } else if i < |b| {
      assert a == a[..i];
    } else {
      assert a == a[..i] && b == b[..i];
    }
  }

  /** String order is a strict total order: irreflexive, asymmetric and total on distinct strings. */
  lemma StrLessTrichotomy(a: string, b: string)
    ensures !StrLess(a, a)
    ensures StrLess(a, b) ==> !StrLess(b, a)
    ensures a != b ==> StrLess(a, b) || StrLess(b, a)
  {
    StrLessFromTrichotomy(a, b, 0);
  }

  lemma {:induction false} StrLessFromTransitive(a: string, b: string, c: string, i: nat)
    requires i <= |a| && i <= |b| && i <= |c|
    requires StrLessFrom(a, b, i) && StrLessFrom(b, c, i)
    ensures StrLessFrom(a, c, i)
    decreases |a| - i
  {
    if i < |a| && i < |b| && i < |c| && a[i] == b[i] && b[i] == c[i] {
      StrLessFromTransitive(a, b, c, i + 1);
    }
  }

  /** String order is transitive. */
  lemma StrLessTransitive(a: string, b: string, c: string)
    requires StrLess(a, b) && StrLess(b, c)
    ensures StrLess(a, c)
  {
    StrLessFromTransitive(a, b, c, 0);
  }
}
