/**
 * Team names turned into file names: `_slugify` (scraper.py) and `slugify`
 * (download_flags.py) are the same four steps, so one function models both.
 */
module Slug {
  import opened Text

  /** The characters `[a-z0-9]` that survive slugification unchanged. */
  predicate IsSlugChar(c: char) {
    IsLowerAscii(c) || IsDigit(c)
  }

  predicate SlugChars(t: string) {
    forall i :: 0 <= i < |t| ==> IsSlugChar(t[i]) || t[i] == '-'
  }

  predicate NoDoubleHyphen(t: string) {
    forall i :: 0 <= i < |t| - 1 ==> !(t[i] == '-' && t[i + 1] == '-')
  }

  /** A well-formed slug: non-empty, `[a-z0-9-]` only, no hyphen at an end, no `--`. */
  predicate IsSlug(t: string) {
    && t != []
    && SlugChars(t)
    && t[0] != '-' && t[|t| - 1] != '-'
    && NoDoubleHyphen(t)
  }

  /**
   * Every maximal run of characters other than `[a-z0-9]` becomes a single hyphen.
   * `inRun` says the previous character already belonged to such a run.
   */
  function HyphenateRuns(s: string, inRun: bool): (r: string)
    ensures SlugChars(r)
  {
    if s == [] then []
    else if IsSlugChar(s[0]) then [s[0]] + HyphenateRuns(s[1..], false)
    else (if inRun then [] else "-") + HyphenateRuns(s[1..], true)
  }

  /** A block of letters and digits is copied as it is. */
  lemma {:induction false} HyphenateCopiesSlugBlock(x: string, z: string)
    requires forall i :: 0 <= i < |x| ==> IsSlugChar(x[i])
    ensures HyphenateRuns(x + z, false) == x + HyphenateRuns(z, false)
    decreases |x|
  {
    if x != [] {
      assert (x + z)[0] == x[0] && (x + z)[1..] == x[1..] + z;
      HyphenateCopiesSlugBlock(x[1..], z);
      assert [x[0]] + (x[1..] + HyphenateRuns(z, false)) == x + HyphenateRuns(z, false);
    } else {
      assert x + z == z;
    }
  }

  /** A maximal block of other characters becomes one hyphen. */
  lemma HyphenateRunBecomesHyphen(y: string, z: string)
    requires y != [] && forall i :: 0 <= i < |y| ==> !IsSlugChar(y[i])
    requires z == [] || IsSlugChar(z[0])
    ensures HyphenateRuns(y + z, false) == "-" + HyphenateRuns(z, false)
  {
    assert (y + z)[0] == y[0] && (y + z)[1..] == y[1..] + z;
    HyphenateInRun(y[1..], z);
  }

  lemma {:induction false} HyphenateInRun(y: string, z: string)
    requires forall i :: 0 <= i < |y| ==> !IsSlugChar(y[i])
    requires z == [] || IsSlugChar(z[0])
    ensures HyphenateRuns(y + z, true) == HyphenateRuns(z, false)
    decreases |y|
  {
    if y != [] {
      assert (y + z)[0] == y[0] && (y + z)[1..] == y[1..] + z;
      HyphenateInRun(y[1..], z);
    } else {
      assert y + z == z;
    }
  }

  /** Every run of hyphens becomes a single hyphen. `afterHyphen` says the previous character was a hyphen. */
  function SquashHyphens(s: string, afterHyphen: bool): (r: string)
    ensures NoDoubleHyphen(r)
    ensures afterHyphen ==> r == [] || r[0] != '-'
    ensures SlugChars(s) ==> SlugChars(r)
  {
    if s == [] then []
    else if s[0] == '-' then (if afterHyphen then [] else "-") + SquashHyphens(s[1..], true)
    else [s[0]] + SquashHyphens(s[1..], false)
  }

  /** A block without hyphens is copied as it is. */
  lemma {:induction false} SquashCopiesBlock(x: string, z: string)
    requires forall i :: 0 <= i < |x| ==> x[i] != '-'
    ensures SquashHyphens(x + z, false) == x + SquashHyphens(z, false)
    decreases |x|
  {
    if x != [] {
      assert (x + z)[0] == x[0] && (x + z)[1..] == x[1..] + z;
      SquashCopiesBlock(x[1..], z);
      assert [x[0]] + (x[1..] + SquashHyphens(z, false)) == x + SquashHyphens(z, false);
    } else {
      assert x + z == z;
    }
  }

  /** A maximal run of hyphens becomes one hyphen. */
  lemma SquashRunBecomesHyphen(y: string, z: string)
    requires y != [] && forall i :: 0 <= i < |y| ==> y[i] == '-'
    requires z == [] || z[0] != '-'
    ensures SquashHyphens(y + z, false) == "-" + SquashHyphens(z, false)
  {
    assert (y + z)[0] == y[0] && (y + z)[1..] == y[1..] + z;
    SquashInRun(y[1..], z);
  }

  lemma {:induction false} SquashInRun(y: string, z: string)
    requires forall i :: 0 <= i < |y| ==> y[i] == '-'
    requires z == [] || z[0] != '-'
    ensures SquashHyphens(y + z, true) == SquashHyphens(z, false)
    decreases |y|
  {
    if y != [] {
      assert (y + z)[0] == y[0] && (y + z)[1..] == y[1..] + z;
      SquashInRun(y[1..], z);
    } else {
      assert y + z == z;
    }
  }

  function TrimLeadingHyphens(s: string): (r: string)
    ensures |r| <= |s| && r == s[|s| - |r|..]
    ensures r == [] || r[0] != '-'
  {
    if s != [] && s[0] == '-' then TrimLeadingHyphens(s[1..]) else s
  }

  function TrimTrailingHyphens(s: string): (r: string)
    ensures |r| <= |s| && r == s[..|r|]
    ensures r == [] || r[|r| - 1] != '-'
  {
    if s != [] && s[|s| - 1] == '-' then TrimTrailingHyphens(s[..|s| - 1]) else s
  }

  /** Every character of `s` before index `a` and from index `b` on is a hyphen. */
  predicate HyphensOutside(s: string, a: nat, b: nat) {
    && (forall i :: 0 <= i < a && i < |s| ==> s[i] == '-')
    && (forall i :: b <= i < |s| ==> s[i] == '-')
  }

  /** `s.strip("-")`: the slice of `s` left after cutting hyphens, and only hyphens, from both ends. */
  function TrimHyphens(s: string): (r: string)
    ensures r == [] || (r[0] != '-' && r[|r| - 1] != '-')
    ensures exists a, b :: 0 <= a <= b <= |s| && r == s[a..b] && HyphensOutside(s, a, b)
  {
    TrimCutsHyphens(s);
    TrimTrailingHyphens(TrimLeadingHyphens(s))
  }

  lemma TrimCutsHyphens(s: string)
    ensures var l := TrimLeadingHyphens(s);
      var a := |s| - |l|;
      var r := TrimTrailingHyphens(l);
      a + |r| <= |s| && r == s[a..a + |r|] && HyphensOutside(s, a, a + |r|)
  {
    LeadingCutsHyphens(s);
    TrimSlice(s);
    TrailingCutsHyphens(s);
  }

  lemma {:induction false} LeadingCutsHyphens(s: string)
    ensures forall i :: 0 <= i < |s| - |TrimLeadingHyphens(s)| ==> s[i] == '-'
    decreases |s|
  {
    if s != [] && s[0] == '-' {
      LeadingCutsHyphens(s[1..]);
      forall i | 1 <= i < |s| - |TrimLeadingHyphens(s)| ensures s[i] == '-' {
        assert s[i] == s[1..][i - 1];
      }
    }
  }

  lemma {:induction false} TrimTrailingCutsHyphens(s: string)
    ensures forall i :: |TrimTrailingHyphens(s)| <= i < |s| ==> s[i] == '-'
    decreases |s|
  {
    if s != [] && s[|s| - 1] == '-' {
      TrimTrailingCutsHyphens(s[..|s| - 1]);
      forall i | |TrimTrailingHyphens(s)| <= i < |s| - 1 ensures s[i] == '-' {
        assert s[i] == s[..|s| - 1][i];
      }
    }
  }

  lemma TrimSlice(s: string)
    ensures var l := TrimLeadingHyphens(s); var a := |s| - |l|; var r := TrimTrailingHyphens(l);
      a + |r| <= |s| && r == s[a..a + |r|]
  {
    var l := TrimLeadingHyphens(s);
    PrefixOfSuffix(s, l, TrimTrailingHyphens(l));
  }

  lemma TrailingCutsHyphens(s: string)
    ensures var l := TrimLeadingHyphens(s); var a := |s| - |l|; var r := TrimTrailingHyphens(l);
      forall i :: a + |r| <= i < |s| ==> s[i] == '-'
  {
    var l := TrimLeadingHyphens(s);
    var a := |s| - |l|;
    var r := TrimTrailingHyphens(l);
    TrimTrailingCutsHyphens(l);
    assert l == s[a..];
    forall i | a + |r| <= i < |s| ensures s[i] == '-' {
      assert s[i] == l[i - a];
    }
  }

  /** `s.strip("-")` is a slice of `s`, so it keeps the character set and the lack of `--`. */
  lemma TrimHyphensKeeps(s: string)
    ensures SlugChars(s) ==> SlugChars(TrimHyphens(s))
    ensures NoDoubleHyphen(s) ==> NoDoubleHyphen(TrimHyphens(s))
  {
    var l := TrimLeadingHyphens(s);
    var r := TrimTrailingHyphens(l);
    var k := |s| - |l|;
    SliceKeeps(s, k, |s|);
    SliceKeeps(l, 0, |r|);
  }

  lemma SliceKeeps(s: string, a: nat, b: nat)
    requires a <= b <= |s|
    ensures SlugChars(s) ==> SlugChars(s[a..b])
    ensures NoDoubleHyphen(s) ==> NoDoubleHyphen(s[a..b])
  {
    var t := s[a..b];
    if SlugChars(s) {
      forall i | 0 <= i < |t| ensures IsSlugChar(t[i]) || t[i] == '-' {
        assert t[i] == s[a + i];
      }
    }
    if NoDoubleHyphen(s) {
      forall i | 0 <= i < |t| - 1 ensures !(t[i] == '-' && t[i + 1] == '-') {
        assert t[i] == s[a + i] && t[i + 1] == s[a + i + 1];
      }
    }
  }

  /** `_slugify(name)` / `slugify(name)`: always a well-formed slug, "unknown" when nothing survives. */
  function Slugify(name: string): (r: string)
    ensures IsSlug(r)
  {
    var lowered := Lower(Strip(name));
    var squashed := SquashHyphens(HyphenateRuns(lowered, false), false);
    TrimHyphensKeeps(squashed);
    var trimmed := TrimHyphens(squashed);
    if trimmed == "" then UnknownIsSlug(); "unknown" else trimmed
  }

  lemma UnknownIsSlug()
    ensures IsSlug("unknown")
  {
    var u := "unknown";
    assert forall i :: 0 <= i < |u| ==> IsLowerAscii(u[i]);
  }

  /** A well-formed slug has no whitespace and no upper-case letter, so strip and lower keep it. */
  lemma LowerStripSlug(t: string)
    requires IsSlug(t)
    ensures Lower(Strip(t)) == t
  {
    StripStripped(t);
    assert Lower(t) == t;
  }

  /** Runs of non-slug characters in a slug are single hyphens, each replaced by itself. */
  lemma {:induction false} HyphenateRunsSlug(t: string, inRun: bool)
    requires SlugChars(t) && NoDoubleHyphen(t)
    requires inRun ==> t == [] || t[0] != '-'
    ensures HyphenateRuns(t, inRun) == t
    decreases |t|
  {
    if t != [] {
      HyphenateRunsSlug(t[1..], t[0] == '-');
      assert [t[0]] + t[1..] == t;
    }
  }

  /** A string without `--` is a fixed point of squashing hyphen runs. */
  lemma {:induction false} SquashHyphensSlug(t: string, afterHyphen: bool)
    requires NoDoubleHyphen(t)
    requires afterHyphen ==> t == [] || t[0] != '-'
    ensures SquashHyphens(t, afterHyphen) == t
    decreases |t|
  {
    if t != [] {
      SquashHyphensSlug(t[1..], t[0] == '-');
      assert [t[0]] + t[1..] == t;
    }
  }

  /** Every well-formed slug is its own slug. */
  lemma SlugFixedPoint(t: string)
    requires IsSlug(t)
    ensures Slugify(t) == t
  {
    LowerStripSlug(t);
    HyphenateRunsSlug(t, false);
    SquashHyphensSlug(t, false);
  }

  /** `_slugify` is idempotent. */
  lemma SlugifyIdempotent(name: string)
    ensures Slugify(Slugify(name)) == Slugify(name)
  {
    SlugFixedPoint(Slugify(name));
  }

  /** A name with no letter or digit, such as "" or "!!!", becomes "unknown". */
  lemma SlugifyNoAlnum(name: string)
    requires forall i :: 0 <= i < |name| ==> !IsSlugChar(LowerChar(name[i]))
    ensures Slugify(name) == "unknown"
  {
    var stripped := Strip(name);
    var lowered := Lower(stripped);
    forall i | 0 <= i < |lowered| ensures !IsSlugChar(lowered[i]) {
      assert stripped[i] in name;
      var j :| 0 <= j < |name| && name[j] == stripped[i];
      assert lowered[i] == LowerChar(name[j]);
    }
    NoSlugCharsTrimToEmpty(lowered);
  }

  lemma NoSlugCharsTrimToEmpty(s: string)
    requires forall i :: 0 <= i < |s| ==> !IsSlugChar(s[i])
    ensures TrimHyphens(SquashHyphens(HyphenateRuns(s, false), false)) == ""
  {
    var h := HyphenateRuns(s, false);
    AllHyphensAfterHyphenate(s, false);
    var q := SquashHyphens(h, false);
    AllHyphensAfterSquash(h, false);
    AllHyphensTrimToEmpty(q);
  }

  predicate AllHyphens(t: string) {
    forall i :: 0 <= i < |t| ==> t[i] == '-'
  }

  lemma AllHyphensAfterHyphenate(s: string, inRun: bool)
    requires forall i :: 0 <= i < |s| ==> !IsSlugChar(s[i])
    ensures AllHyphens(HyphenateRuns(s, inRun))
  {
    if s != [] {
      AllHyphensAfterHyphenate(s[1..], true);
    }
  }

  lemma AllHyphensAfterSquash(s: string, afterHyphen: bool)
    requires AllHyphens(s)
    ensures AllHyphens(SquashHyphens(s, afterHyphen))
  {
    if s != [] {
      AllHyphensAfterSquash(s[1..], true);
    }
  }

  lemma AllHyphensTrimToEmpty(t: string)
    requires AllHyphens(t)
    ensures TrimHyphens(t) == ""
  {
    var l := TrimLeadingHyphens(t);
    assert l == [];
  }
}
