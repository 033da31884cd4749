/**
 * The handful of Python string operations the scraper relies on: `str.strip()`,
 * `str.lower()`, `startswith`, `in`, `replace(p, "")`, `join`, `split(sep, 1)` and
 * decimal formatting of integers, stated over `seq<char>`.
 */
module Text {
  import opened Wrappers

  /** The characters for which Python's `str.isspace()` holds; `str.strip()` removes them. */
  predicate IsSpace(c: char) {
    || c == ' '
    || ('\t' <= c <= '\r')
    || ('\U{1c}' <= c <= '\U{1f}')
    || c == '\U{85}' || c == '\U{a0}' || c == '\U{1680}'
    || ('\U{2000}' <= c <= '\U{200a}')
    || c == '\U{2028}' || c == '\U{2029}' || c == '\U{202f}' || c == '\U{205f}' || c == '\U{3000}'
  }

  predicate IsDigit(c: char) {
    '0' <= c <= '9'
  }

  predicate IsLowerAscii(c: char) {
    'a' <= c <= 'z'
  }

  /** No whitespace at either end: what `get_text(strip=True)` and `strip()` produce. */
  predicate IsStripped(s: string) {
    s == [] || (!IsSpace(s[0]) && !IsSpace(s[|s| - 1]))
  }

  /** `s.lstrip()`: the longest suffix of `s` that does not start with whitespace. */
  function LStrip(s: string): (r: string)
    ensures |r| <= |s| && r == s[|s| - |r|..]
    ensures r == [] || !IsSpace(r[0])
  {
    if s != [] && IsSpace(s[0]) then LStrip(s[1..]) else s
  }

  /** Only whitespace is cut by `lstrip()`. */
  lemma {:induction false} LStripCutsSpace(s: string)
    ensures forall i :: 0 <= i < |s| - |LStrip(s)| ==> IsSpace(s[i])
    decreases |s|
  {
    if s != [] && IsSpace(s[0]) {
      LStripCutsSpace(s[1..]);
      forall i | 1 <= i < |s| - |LStrip(s)| ensures IsSpace(s[i]) {
        assert s[i] == s[1..][i - 1];
      }
    }
  }

  /** `s.rstrip()`: the longest prefix of `s` that does not end with whitespace. */
  function RStrip(s: string): (r: string)
    ensures |r| <= |s| && r == s[..|r|]
    ensures r == [] || !IsSpace(r[|r| - 1])
  {
    if s != [] && IsSpace(s[|s| - 1]) then RStrip(s[..|s| - 1]) else s
  }

  /** Only whitespace is cut by `rstrip()`. */
  lemma {:induction false} RStripCutsSpace(s: string)
    ensures forall i :: |RStrip(s)| <= i < |s| ==> IsSpace(s[i])
    decreases |s|
  {
    if s != [] && IsSpace(s[|s| - 1]) {
      RStripCutsSpace(s[..|s| - 1]);
      forall i | |RStrip(s)| <= i < |s| - 1 ensures IsSpace(s[i]) {
        assert s[i] == s[..|s| - 1][i];
      }
    }
  }

  /** Every character of `s` before index `a` and from index `b` on is whitespace. */
  predicate SpaceOutside(s: string, a: nat, b: nat) {
    && (forall i :: 0 <= i < a && i < |s| ==> IsSpace(s[i]))
    && (forall i :: b <= i < |s| ==> IsSpace(s[i]))
  }

  /** `s.strip()`: whitespace cut from both ends (StripIsSlice: only whitespace is cut). */
  function Strip(s: string): (r: string)
    ensures IsStripped(r)
    ensures |r| <= |s|
    ensures forall i :: 0 <= i < |r| ==> r[i] in s
  {
    var l := LStrip(s);
    var r := RStrip(l);
    assert r != [] ==> r[0] == l[0];
    r
  }

  /** `s.strip()` is the slice of `s` left after cutting whitespace, and only whitespace, from both ends. */
  lemma StripIsSlice(s: string)
    ensures exists a, b :: 0 <= a <= b <= |s| && Strip(s) == s[a..b] && SpaceOutside(s, a, b)
  {
    StripCutsSpace(s);
  }

  lemma StripCutsSpace(s: string)
    ensures var l := LStrip(s);
      var a := |s| - |l|;
      var r := RStrip(l);
      a + |r| <= |s| && r == s[a..a + |r|] && SpaceOutside(s, a, a + |r|)
  {
    LStripCutsSpace(s);
    StripSlice(s);
    StripTailSpace(s);
  }

  /** A prefix of a suffix of `s` is a slice of `s`. */
  lemma PrefixOfSuffix(s: string, l: string, r: string)
    requires |l| <= |s| && l == s[|s| - |l|..]
    requires |r| <= |l| && r == l[..|r|]
    ensures |s| - |l| + |r| <= |s| && r == s[|s| - |l|..|s| - |l| + |r|]
  {
    var a := |s| - |l|;
    forall k | 0 <= k < |r| ensures s[a..a + |r|][k] == r[k] {
      assert r[k] == l[k] == s[a + k];
    }
  }

  lemma StripSlice(s: string)
    ensures var l := LStrip(s); var a := |s| - |l|; var r := RStrip(l);
      a + |r| <= |s| && r == s[a..a + |r|]
  {
    PrefixOfSuffix(s, LStrip(s), RStrip(LStrip(s)));
  }

  lemma StripTailSpace(s: string)
    ensures var l := LStrip(s); var a := |s| - |l|; var r := RStrip(l);
      forall i :: a + |r| <= i < |s| ==> IsSpace(s[i])
  {
    var l := LStrip(s);
    var a := |s| - |l|;
    var r := RStrip(l);
    RStripCutsSpace(l);
    assert l == s[a..];
    forall i | a + |r| <= i < |s| ensures IsSpace(s[i]) {
      assert s[i] == l[i - a];
    }
  }

  /** Stripping a string that has no whitespace at its ends changes nothing. */
  lemma StripStripped(s: string)
    requires IsStripped(s)
    ensures Strip(s) == s
  {
  }

  /** A trailing separator space is removed by `strip()`. */
  lemma StripTrailingSpace(t: string)
    requires IsStripped(t)
    ensures Strip(t + " ") == t
  {
    var s := t + " ";
    if t == [] {
      assert LStrip(s) == [];
    } else {
      assert s[0] == t[0] && !IsSpace(s[0]);
      assert LStrip(s) == s;
      assert s[..|s| - 1] == t;
      assert RStrip(s) == RStrip(t);
      assert RStrip(t) == t;
    }
  }

  /** ASCII `str.lower()` on one character. */
  function LowerChar(c: char): (r: char)
    ensures 'A' <= c <= 'Z' ==> r == (c as int + 32) as char
    ensures !('A' <= c <= 'Z') ==> r == c
  {
    if 'A' <= c <= 'Z' then (c as int + 32) as char else c
  }

  /** `s.lower()`, folding ASCII letters only. */
  function Lower(s: string): (r: string)
    ensures |r| == |s|
    ensures forall i :: 0 <= i < |s| ==> r[i] == LowerChar(s[i])
  {
    seq(|s|, i requires 0 <= i < |s| => LowerChar(s[i]))
  }

  /** `s.startswith(p)`. */
  predicate StartsWith(s: string, p: string) {
    |p| <= |s| && s[..|p|] == p
  }

  /** `p` occurs in `s` at index `i`. */
  predicate OccursAt(s: string, p: string, i: int) {
    0 <= i && i + |p| <= |s| && s[i..i + |p|] == p
  }

  /** `s.find(p, start)`: the first index at or after `start` where `p` occurs. */
  function IndexOf(s: string, p: string, start: nat): (r: Option<nat>)
    requires start <= |s|
    ensures r.Some? ==> start <= r.value && OccursAt(s, p, r.value)
    ensures r.Some? ==> forall j :: start <= j < r.value ==> !OccursAt(s, p, j)
    ensures r.None? ==> forall j :: start <= j ==> !OccursAt(s, p, j)
    decreases |s| - start
  {
    if start + |p| > |s| then None
    else if s[start..start + |p|] == p then Some(start)
    else IndexOf(s, p, start + 1)
  }

  /** Python's `p in s`. */
  predicate Contains(s: string, p: string) {
    IndexOf(s, p, 0).Some?
  }

  lemma ContainsIff(s: string, p: string)
    ensures Contains(s, p) <==> exists i :: OccursAt(s, p, i)
  {
  }

  /** `s.replace(p, "")`: deletes the non-overlapping occurrences of `p`, scanning left to right. */
  function RemoveAll(s: string, p: string): (r: string)
    ensures |r| <= |s|
    decreases |s|
  {
    if p == [] || |s| < |p| then s
    else if s[..|p|] == p then RemoveAll(s[|p|..], p)
    else [s[0]] + RemoveAll(s[1..], p)
  }

  /** When `p` does not occur in `s`, `s.replace(p, "")` is `s`. */
  lemma {:induction false} RemoveAllAbsent(s: string, p: string)
    requires forall i :: !OccursAt(s, p, i)
    ensures RemoveAll(s, p) == s
    decreases |s|
  {
    if p == [] || |s| < |p| {
    } else {
      assert !OccursAt(s, p, 0);
      forall i ensures !OccursAt(s[1..], p, i) {
        if i >= 0 {
          OccursAtTail(s, p, i);
        }
      }
      RemoveAllAbsent(s[1..], p);
      assert [s[0]] + s[1..] == s;
    }
  }

  /** An occurrence in the tail of `s` is an occurrence in `s`, one index further on. */
  lemma OccursAtTail(s: string, p: string, i: nat)
    requires s != []
    ensures OccursAt(s[1..], p, i) <==> OccursAt(s, p, i + 1)
  {
    if i + |p| <= |s| - 1 {
      assert s[1..][i..i + |p|] == s[i + 1..i + 1 + |p|];
    }
  }

  /** An occurrence in `s[d..]` is an occurrence in `s`, `d` indices further on. */
  lemma OccursAtDrop(s: string, p: string, d: nat, i: nat)
    requires d <= |s|
    ensures OccursAt(s[d..], p, i) <==> OccursAt(s, p, i + d)
  {
    if i + |p| <= |s| - d {
      assert s[d..][i..i + |p|] == s[i + d..i + d + |p|];
    }
  }

  /**
   * When `p` occurs in `s` at index `k` and nowhere else, `s.replace(p, "")` cuts out
   * exactly that occurrence.
   */
  lemma {:induction false} RemoveAllOnlyAt(s: string, p: string, k: nat)
    requires p != [] && OccursAt(s, p, k)
    requires forall i :: OccursAt(s, p, i) ==> i == k
    ensures RemoveAll(s, p) == s[..k] + s[k + |p|..]
    decreases k
  {
    if k == 0 {
      RemoveAllOnlyAtStart(s, p);
    } else {
      OccursAtTail(s, p, k - 1);
      forall i | OccursAt(s[1..], p, i) ensures i == k - 1 {
        OccursAtTail(s, p, i);
      }
      RemoveAllOnlyAt(s[1..], p, k - 1);
      RemoveAllKeepsHead(s, p, k);
    }
  }

  lemma RemoveAllOnlyAtStart(s: string, p: string)
    requires p != [] && OccursAt(s, p, 0)
    requires forall i :: OccursAt(s, p, i) ==> i == 0
    ensures RemoveAll(s, p) == s[|p|..]
  {
    assert s[..|p|] == p;
    forall i ensures !OccursAt(s[|p|..], p, i) {
      if i >= 0 {
        OccursAtDrop(s, p, |p|, i);
      }
    }
    RemoveAllAbsent(s[|p|..], p);
  }

  /** Without `p` at the start, the first character is kept and the rest is cut as before. */
  lemma RemoveAllKeepsHead(s: string, p: string, k: nat)
    requires p != [] && 0 < k && OccursAt(s, p, k) && !OccursAt(s, p, 0)
    requires RemoveAll(s[1..], p) == s[1..][..k - 1] + s[1..][k - 1 + |p|..]
    ensures RemoveAll(s, p) == s[..k] + s[k + |p|..]
  {
    assert s[..|p|] != p by { assert s[..|p|] == s[0..0 + |p|]; }
    assert s[1..][..k - 1] == s[1..k] && s[1..][k - 1 + |p|..] == s[k + |p|..];
    assert [s[0]] + s[1..k] == s[..k];
  }

  /**
   * A status `p` that follows the title `t` after one space, and occurs nowhere else in
   * `t + " " + p`, is cut out of it: what is left is `t + " "`.
   */
  lemma RemoveAllSeparatedSuffix(t: string, p: string)
    requires p != []
    requires forall i :: OccursAt(t + " " + p, p, i) ==> i == |t| + 1
    ensures RemoveAll(t + " " + p, p) == t + " "
  {
    var s := t + " " + p;
    assert s[|t| + 1..|t| + 1 + |p|] == p;
    RemoveAllOnlyAt(s, p, |t| + 1);
    assert s[..|t| + 1] == t + " " && s[|t| + 1 + |p|..] == [];
  }

  /** `s.find(p)` is the first index where `p` occurs. */
  lemma IndexOfFirst(s: string, p: string, k: nat)
    requires OccursAt(s, p, k)
    requires forall j :: 0 <= j < k ==> !OccursAt(s, p, j)
    ensures IndexOf(s, p, 0) == Some(k)
  {
  }

  /** `sep.join(parts)`. */
  function Join(sep: string, parts: seq<string>): string
    decreases |parts|
  {
    if |parts| == 0 then ""
    else if |parts| == 1 then parts[0]
    else parts[0] + sep + Join(sep, parts[1..])
  }

  /**
   * `s.split(sep, 1)`: the text before the first `sep` and, when `sep` occurs, the text
   * after it.
   */
  function SplitOnce(s: string, sep: string): (r: (string, Option<string>))
    requires sep != []
    ensures r.1.None? ==> r.0 == s && forall j :: !OccursAt(s, sep, j)
    ensures r.1.Some? ==> s == r.0 + sep + r.1.value
    ensures forall j :: !OccursAt(r.0, sep, j)
  {
    match IndexOf(s, sep, 0)
    case None => (s, None)
    case Some(i) =>
      var head := s[..i];
      assert s == head + sep + s[i + |sep|..] by {
        assert s[i..i + |sep|] == sep;
        assert s == s[..i] + s[i..i + |sep|] + s[i + |sep|..];
      }
      assert forall j :: !OccursAt(head, sep, j) by {
        forall j ensures !OccursAt(head, sep, j) {
          if 0 <= j && j + |sep| <= |head| {
            assert j < i && !OccursAt(s, sep, j);
            assert head[j..j + |sep|] == s[j..j + |sep|];
          }
        }
      }
      (head, Some(s[i + |sep|..]))
  }

  /** The decimal digit `d` as a character. */
  function DigitChar(d: nat): (c: char)
    requires d < 10
    ensures IsDigit(c)
  {
    (48 + d) as char
  }

  /** `str(n)` for a natural number: its decimal representation. */
  function NatToString(n: nat): (r: string)
    ensures |r| >= 1
    ensures forall i :: 0 <= i < |r| ==> IsDigit(r[i])
  {
    if n < 10 then [DigitChar(n)] else NatToString(n / 10) + [DigitChar(n % 10)]
  }

  /** Distinct numbers print differently. */
  lemma {:induction false} NatToStringInjective(a: nat, b: nat)
    requires NatToString(a) == NatToString(b)
    ensures a == b
  {
    var sa, sb := NatToString(a), NatToString(b);
    if a < 10 && b < 10 {
      assert sa[0] == DigitChar(a) && sb[0] == DigitChar(b);
    } else if a < 10 || b < 10 {
      assert false;
    } else {
      assert sa[|sa| - 1] == DigitChar(a % 10) && sb[|sb| - 1] == DigitChar(b % 10);
      assert sa[..|sa| - 1] == NatToString(a / 10);
      assert sb[..|sb| - 1] == NatToString(b / 10);
      NatToStringInjective(a / 10, b / 10);
    }
  }

  /** The non-empty strings of `xs`, in their order. */
  function NonEmptyStrings(xs: seq<string>): (r: seq<string>)
    ensures |r| <= |xs|
    ensures forall i :: 0 <= i < |r| ==> r[i] != ""
    ensures forall i :: 0 <= i < |xs| && xs[i] != "" ==> xs[i] in r
    ensures |xs| == 1 ==> r == if xs[0] != "" then xs else []
    decreases |xs|
  {
    if xs == [] then []
    else
      var init := xs[..|xs| - 1];
      var prev := NonEmptyStrings(init);
      assert forall i :: 0 <= i < |init| ==> init[i] == xs[i];
      if xs[|xs| - 1] != "" then prev + [xs[|xs| - 1]] else prev
  }

  /** Filtering a concatenation filters each part: the kept strings keep their order. */
  lemma {:induction false} NonEmptyStringsAppend(a: seq<string>, b: seq<string>)
    ensures NonEmptyStrings(a + b) == NonEmptyStrings(a) + NonEmptyStrings(b)
    decreases |b|
  {
    if b == [] {
      assert a + b == a;
    } else {
      NonEmptyStringsAppend(a, b[..|b| - 1]);
      assert (a + b)[..|a + b| - 1] == a + b[..|b| - 1];
    }
  }
}
