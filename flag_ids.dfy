/**
 * The flag-id pattern `(?:cricflag|flags)/([0-9]+)\.(?:png|gif)` that scraper.py and
 * download_flags.py search image URLs with, written out as a left-to-right scan that
 * returns the first match's captured digits (what `re.search(...).group(1)` gives).
 */
module FlagIds {
  import opened Wrappers
  import opened Text

  /** The length of the run of digits at the start of `s`. */
  function DigitRun(s: string): (n: nat)
    ensures n <= |s|
    ensures forall i :: 0 <= i < n ==> IsDigit(s[i])
    ensures n < |s| ==> !IsDigit(s[n])
  {
    if s != [] && IsDigit(s[0]) then 1 + DigitRun(s[1..]) else 0
  }

  /**
   * After the directory part: `[0-9]+` followed by `.png` or `.gif`. The digit run must be
   * maximal, since a shorter run would leave a digit where the `.` is expected.
   */
  function IdAfterDir(rest: string): (r: Option<string>)
    ensures r.Some? ==> r.value != [] && forall i :: 0 <= i < |r.value| ==> IsDigit(r.value[i])
    ensures r.Some? ==> StartsWith(rest, r.value + ".png") || StartsWith(rest, r.value + ".gif")
  {
    var n := DigitRun(rest);
    if n >= 1 && (StartsWith(rest[n..], ".png") || StartsWith(rest[n..], ".gif")) then
      assert rest[..n + 4] == rest[..n] + rest[n..][..4];
      Some(rest[..n])
    else None
  }

  /** The captured id when the pattern matches at index `i` of `s`. */
  function MatchAt(s: string, i: nat): (r: Option<string>)
    requires i <= |s|
    ensures r.Some? ==> r.value != [] && forall k :: 0 <= k < |r.value| ==> IsDigit(r.value[k])
  {
    MatchHere(s[i..])
  }

  /** The captured id when the pattern matches at the start of `t`. */
  function MatchHere(t: string): (r: Option<string>)
    ensures r.Some? ==> r.value != [] && forall k :: 0 <= k < |r.value| ==> IsDigit(r.value[k])
  {
    if StartsWith(t, "cricflag/") then IdAfterDir(t[9..])
    else if StartsWith(t, "flags/") then IdAfterDir(t[6..])
    else None
  }

  /** `re.search`: the match at the start, or else the search in the rest. */
  function Scan(t: string): (r: Option<string>)
    ensures r.Some? ==> r.value != [] && forall k :: 0 <= k < |r.value| ==> IsDigit(r.value[k])
    decreases |t|
  {
    if MatchHere(t).Some? then MatchHere(t)
    else if t == [] then None
    else Scan(t[1..])
  }

  /** The flag id of an image URL, or `None` when the pattern does not occur. */
  function FindFlagId(src: string): (r: Option<string>)
    ensures r.Some? ==> r.value != [] && forall i :: 0 <= i < |r.value| ==> IsDigit(r.value[i])
  {
    Scan(src)
  }

  /** No id is found exactly when the pattern matches nowhere. */
  lemma FindFlagIdNone(src: string)
    ensures FindFlagId(src).None? <==> forall k :: 0 <= k <= |src| ==> MatchAt(src, k).None?
  {
    ScanNone(src);
    assert forall k :: 0 <= k <= |src| ==> MatchAt(src, k) == MatchHere(src[k..]);
  }

  lemma {:induction false} ScanNone(t: string)
    ensures Scan(t).None? <==> forall k :: 0 <= k <= |t| ==> MatchHere(t[k..]).None?
    decreases |t|
  {
    assert t[0..] == t;
    if t != [] {
      ScanNone(t[1..]);
      assert forall k :: 1 <= k <= |t| ==> t[1..][k - 1..] == t[k..];
    }
  }

  /** The id found is the one at the first index where the pattern matches. */
  lemma FindFlagIdIsFirstMatch(src: string, k: nat)
    requires k <= |src| && MatchAt(src, k).Some?
    requires forall j :: 0 <= j < k ==> MatchAt(src, j).None?
    ensures FindFlagId(src) == MatchAt(src, k)
  {
    assert forall j :: 0 <= j <= |src| ==> MatchAt(src, j) == MatchHere(src[j..]);
    ScanSkips(src, k);
  }

  lemma {:induction false} ScanSkips(t: string, k: nat)
    requires k <= |t| && MatchHere(t[k..]).Some?
    requires forall j :: 0 <= j < k ==> MatchHere(t[j..]).None?
    ensures Scan(t) == MatchHere(t[k..])
    decreases k
  {
    assert t[0..] == t;
    if k > 0 {
      assert t[1..][k - 1..] == t[k..];
      forall j | 0 <= j < k - 1 ensures MatchHere(t[1..][j..]).None? {
        assert t[1..][j..] == t[j + 1..];
      }
      ScanSkips(t[1..], k - 1);
    }
  }

  lemma {:induction false} DigitRunOfDigits(id: string, tail: string)
    requires forall i :: 0 <= i < |id| ==> IsDigit(id[i])
    requires tail == [] || !IsDigit(tail[0])
    ensures DigitRun(id + tail) == |id|
    decreases |id|
  {
    if id != [] {
      assert (id + tail)[1..] == id[1..] + tail;
      DigitRunOfDigits(id[1..], tail);
    }
  }

  /** Round trip: the id of a `flags/<id>.gif` reference is `<id>`. */
  lemma FindFlagIdOfFlagPath(id: string, ext: string)
    requires id != [] && forall i :: 0 <= i < |id| ==> IsDigit(id[i])
    requires ext == ".gif" || ext == ".png"
    ensures FindFlagId("flags/" + id + ext) == Some(id)
  {
    MatchHereOfFlagPath(id, ext);
  }

  lemma MatchHereOfFlagPath(id: string, ext: string)
    requires id != [] && forall i :: 0 <= i < |id| ==> IsDigit(id[i])
    requires ext == ".gif" || ext == ".png"
    ensures MatchHere("flags/" + id + ext) == Some(id)
  {
    var s := "flags/" + id + ext;
    var rest := id + ext;
    assert !StartsWith(s, "cricflag/") by {
      if |s| >= 9 {
        assert s[..9][0] == 'f';
      }
    }
    assert StartsWith(s, "flags/") by { assert s[..6] == "flags/"; }
    assert s[6..] == rest;
    IdAfterFlagPath(id, ext);
  }

  lemma IdAfterFlagPath(id: string, ext: string)
    requires id != [] && forall i :: 0 <= i < |id| ==> IsDigit(id[i])
    requires ext == ".gif" || ext == ".png"
    ensures IdAfterDir(id + ext) == Some(id)
  {
    var rest := id + ext;
    DigitRunOfDigits(id, ext);
    assert rest[|id|..] == ext;
    assert rest[..|id|] == id;
    assert StartsWith(ext, ".gif") || StartsWith(ext, ".png") by { assert ext[..4] == ext; }
  }

  /**
   * A prefix in which no match can start: no `f`, and every `c` is followed, inside the
   * prefix, by something other than `r`.
   */
  predicate NoMatchStart(p: string) {
    forall i {:trigger p[i]} :: 0 <= i < |p| ==> p[i] != 'f' && (p[i] == 'c' ==> i + 1 < |p| && p[i + 1] != 'r')
  }

  lemma NoMatchStartAt(p: string, i: nat)
    requires NoMatchStart(p) && i < |p|
    ensures p[i] != 'f' && (p[i] == 'c' ==> i + 1 < |p| && p[i + 1] != 'r')
  {
  }

  /** No match starts at the first character of a non-empty such prefix. */
  lemma NoMatchAtPrefixStart(p: string, s: string)
    requires NoMatchStart(p) && p != []
    ensures MatchHere(p + s).None?
  {
    var t := p + s;
    assert t[0] == p[0];
    NoMatchStartAt(p, 0);
    if |t| >= 6 {
      assert t[..6][0] == t[0];
    }
    if |t| >= 9 {
      assert t[..9][0] == t[0];
      if p[0] == 'c' {
        assert t[..9][1] == t[1] == p[1];
      }
    }
  }

  lemma {:induction false} ScanAfterPrefix(p: string, s: string)
    requires NoMatchStart(p)
    ensures Scan(p + s) == Scan(s)
    decreases |p|
  {
    if p == [] {
      assert p + s == s;
    } else {
      NoMatchAtPrefixStart(p, s);
      assert (p + s)[1..] == p[1..] + s;
      assert NoMatchStart(p[1..]) by {
        forall i | 0 <= i < |p[1..]|
          ensures p[1..][i] != 'f' && (p[1..][i] == 'c' ==> i + 1 < |p[1..]| && p[1..][i + 1] != 'r')
        {
          assert p[1..][i] == p[i + 1];
          NoMatchStartAt(p, i + 1);
          if i + 1 < |p[1..]| {
            assert p[1..][i + 1] == p[i + 2];
          }
        }
      }
      ScanAfterPrefix(p[1..], s);
    }
  }

  /** Prepending such a prefix (a scheme, an origin) does not change the flag id found. */
  lemma FindFlagIdAfterPrefix(p: string, s: string)
    requires NoMatchStart(p)
    ensures FindFlagId(p + s) == FindFlagId(s)
  {
    ScanAfterPrefix(p, s);
  }
}
