/**
 * `_ensure_flag_local` and `_norm_src` (scraper.py): the flag id of an image URL is turned
 * into a local, display-named GIF under /static/flags/by-name/, and the two maps
 * `id_to_path` and `id_to_name` remember which file and which team name each id got.
 *
 * `Resolve` is the whole operation as a function of the maps, the disk and the network's
 * answer; `FlagStore.EnsureFlagLocal` runs it imperatively, with the source's `suffix`
 * loop, and is proved to agree with it.
 */
module FlagResolver {
  import opened Wrappers
  import opened Text
  import opened Slug
  import opened FlagIds
  import opened FileSystem
  import opened FlagMapping

  /** The two dictionaries of the shared flags mapping. */
  datatype FlagMaps = FlagMaps(idToPath: map<string, string>, idToName: map<string, string>)

  /** The k-th file name tried for `base`: `base.gif`, then `base-2.gif`, `base-3.gif`, ... */
  function Candidate(base: string, k: nat): (p: string)
    requires k >= 1
    ensures |p| >= |ByNameDir| + 4 && p[..|ByNameDir|] == ByNameDir
  {
    if k == 1 then ByNamePath(base) else ByNamePath(base + "-" + NatToString(k))
  }

  /** The names under which a candidate file is written. */
  lemma CandidateIsByNamePath(base: string, k: nat)
    requires k >= 1
    ensures exists name :: Candidate(base, k) == ByNamePath(name)
  {
    if k == 1 {
      assert Candidate(base, k) == ByNamePath(base);
    } else {
      assert Candidate(base, k) == ByNamePath(base + "-" + NatToString(k));
    }
  }

  /** A candidate is a rooted workspace path and is never the raw download's path. */
  lemma CandidateFacts(base: string, k: nat, id: string)
    requires k >= 1
    ensures WorkspaceKey(Candidate(base, k)) == Candidate(base, k)
    ensures Candidate(base, k) != RawPath(id)
  {
    CandidateIsByNamePath(base, k);
    var name :| Candidate(base, k) == ByNamePath(name);
    RawPathNotByName(id, name);
    ByNamePathRooted(name);
  }

  lemma ByNamePathInjective(a: string, b: string)
    requires ByNamePath(a) == ByNamePath(b)
    ensures a == b
  {
    var pa, pb := ByNamePath(a), ByNamePath(b);
    var n := |ByNameDir|;
    assert pa[n..|pa| - 4] == a;
    assert pb[n..|pb| - 4] == b;
  }

  /** Different suffixes give different file names, so the loop never tries one twice. */
  lemma CandidateInjective(base: string, j: nat, k: nat)
    requires j >= 1 && k >= 1
    requires Candidate(base, j) == Candidate(base, k)
    ensures j == k
  {
    if j == 1 && k == 1 {
    } else if j == 1 || k == 1 {
      var nj := if j == 1 then base else base + "-" + NatToString(j);
      var nk := if k == 1 then base else base + "-" + NatToString(k);
      ByNamePathInjective(nj, nk);
      assert false;
    } else {
      var nj := base + "-" + NatToString(j);
      var nk := base + "-" + NatToString(k);
      ByNamePathInjective(nj, nk);
      assert nj[|base| + 1..] == NatToString(j);
      assert nk[|base| + 1..] == NatToString(k);
      NatToStringInjective(j, k);
    }
  }

  /** The candidates the loop has already passed when it is about to try the k-th one. */
  ghost function CandidatesBelow(base: string, k: nat): set<string>
  {
    set j | 1 <= j < k :: Candidate(base, j)
  }

  lemma CandidatesBelowStep(base: string, k: nat)
    requires k >= 1
    ensures CandidatesBelow(base, k + 1) == CandidatesBelow(base, k) + {Candidate(base, k)}
    ensures Candidate(base, k) !in CandidatesBelow(base, k)
  {
    if Candidate(base, k) in CandidatesBelow(base, k) {
      var j :| 1 <= j < k && Candidate(base, j) == Candidate(base, k);
      CandidateInjective(base, j, k);
    }
  }

  /**
   * The suffix loop of `_ensure_flag_local`, from the k-th candidate on: the first
   * candidate that is not on disk or that is already the id's mapped path (`mapped`).
   * It ends because each skipped candidate is a different file on the finite disk.
   */
  function FirstFree(files: Files, base: string, mapped: Option<string>, k: nat): (n: nat)
    requires k >= 1
    ensures n >= k
    ensures Candidate(base, n) !in files || mapped == Some(Candidate(base, n))
    ensures forall j :: k <= j < n ==> Candidate(base, j) in files && mapped != Some(Candidate(base, j))
    decreases files.Keys - CandidatesBelow(base, k)
  {
    var p := Candidate(base, k);
    if p !in files || mapped == Some(p) then k
    else
      CandidatesBelowStep(base, k);
      FirstFree(files, base, mapped, k + 1)
  }

  /** The id has a non-empty mapped path whose file is on disk, so it is reused. */
  predicate ExistingUsable(m: FlagMaps, files: Files, id: string) {
    id in m.idToPath && m.idToPath[id] != "" && Exists(files, m.idToPath[id])
  }

  /** The slug the by-name copy is named after: the team, or `flag-<id>` without one. */
  function FlagBase(id: string, team: string): string {
    Slugify(if team != "" then team else "flag-" + id)
  }

  /**
   * A candidate skipped as the id's own mapping would be an existing mapped file, and then
   * the early return would have been taken: the loop's reuse branch never fires, and the
   * chosen file is always one that was not on disk.
   */
  lemma ChosenIsFresh(m: FlagMaps, files: Files, id: string, fetch: FetchOutcome, base: string)
    requires !ExistingUsable(m, files, id)
    requires DownloadFlagGif(files, id, fetch).0.Some?
    ensures Candidate(base, FirstFree(DownloadFlagGif(files, id, fetch).1, base, Lookup(m.idToPath, id), 1)) !in files
  {
    var files1 := DownloadFlagGif(files, id, fetch).1;
    var n := FirstFree(files1, base, Lookup(m.idToPath, id), 1);
    var out := Candidate(base, n);
    CandidateFacts(base, n, id);
    if out in files {
      assert out in files1;
      assert Lookup(m.idToPath, id) == Some(out);
      assert ExistingUsable(m, files, id);
      assert false;
    }
  }

  /**
   * The download branch of `_ensure_flag_local`: the raw GIF is on disk, and a copy of it
   * under the first free by-name file is recorded for the id in both maps.
   */
  function ResolveDownload(m: FlagMaps, files: Files, id: string, team: string, fetch: FetchOutcome): (r: (Option<string>, FlagMaps, Files))
    requires !ExistingUsable(m, files, id)
    requires DownloadFlagGif(files, id, fetch).0.Some?
    ensures r.0.Some? && r.0.value != "" && Lookup(r.1.idToPath, id) == r.0 && Exists(r.2, r.0.value)
    ensures team != "" ==> Lookup(r.1.idToName, id) == Some(team)
    ensures forall k :: k != id ==> Lookup(r.1.idToPath, k) == Lookup(m.idToPath, k)
    ensures forall k :: k != id ==> Lookup(r.1.idToName, k) == Lookup(m.idToName, k)
    ensures forall p :: p in files && p != RawPath(id) ==> p in r.2 && r.2[p] == files[p]
  {
    var files1 := DownloadFlagGif(files, id, fetch).1;
    var base := FlagBase(id, team);
    var n := FirstFree(files1, base, Lookup(m.idToPath, id), 1);
    var out := Candidate(base, n);
    ChosenIsFresh(m, files, id, fetch, base);
    CandidateFacts(base, n, id);
    var names := if team != "" then m.idToName[id := team] else m.idToName;
    var files2 := files1[out := files1[RawPath(id)]];
    assert Exists(files2, out);
    assert forall p :: p in files && p != RawPath(id) ==> p in files2 && files2[p] == files[p];
    (Some(out), FlagMaps(m.idToPath[id := out], names), files2)
  }

  /**
   * `_ensure_flag_local(flag_id, team_name)` with the disk `files` and the network's answer
   * `fetch` for this id: the path returned, the new maps and the new disk.
   */
  function Resolve(m: FlagMaps, files: Files, id: string, team: string, fetch: FetchOutcome): (r: (Option<string>, FlagMaps, Files))
    ensures r.0.None? ==> r.1 == m && r.2 == files
    ensures r.0.Some? ==> r.0.value != "" && Lookup(r.1.idToPath, id) == r.0 && Exists(r.2, r.0.value)
    ensures r.0.Some? && team != "" ==> Lookup(r.1.idToName, id) == Some(team)
    ensures forall k :: k != id ==> Lookup(r.1.idToPath, k) == Lookup(m.idToPath, k)
    ensures forall k :: k != id ==> Lookup(r.1.idToName, k) == Lookup(m.idToName, k)
    ensures forall p :: p in files && p != RawPath(id) ==> p in r.2 && r.2[p] == files[p]
  {
    if ExistingUsable(m, files, id) then
      var names := if team != "" && Lookup(m.idToName, id) != Some(team) then m.idToName[id := team] else m.idToName;
      (Some(m.idToPath[id]), m.(idToName := names), files)
    else if DownloadFlagGif(files, id, fetch).0.None? then (None, m, files)
    else ResolveDownload(m, files, id, team, fetch)
  }

  /**
   * Already mapped to a file on disk: that path is returned without any download, the disk
   * and `id_to_path` stay as they were, and only the id's team name may be learned.
   */
  lemma ResolveExisting(m: FlagMaps, files: Files, id: string, team: string, f1: FetchOutcome, f2: FetchOutcome)
    requires ExistingUsable(m, files, id)
    ensures Resolve(m, files, id, team, f1) == Resolve(m, files, id, team, f2)
    ensures Resolve(m, files, id, team, f1).0 == Some(m.idToPath[id])
    ensures Resolve(m, files, id, team, f1).1.idToPath == m.idToPath
    ensures Resolve(m, files, id, team, f1).2 == files
    ensures team == "" ==> Resolve(m, files, id, team, f1).1.idToName == m.idToName
    ensures team != "" ==> Resolve(m, files, id, team, f1).1.idToName == m.idToName[id := team]
  {
    if team != "" && Lookup(m.idToName, id) == Some(team) {
      assert m.idToName[id := team] == m.idToName;
    }
  }

  /** Not usable from the mapping and nothing downloaded: `None`, and nothing changes. */
  lemma ResolveDownloadFails(m: FlagMaps, files: Files, id: string, team: string, fetch: FetchOutcome)
    requires !ExistingUsable(m, files, id)
    requires !(RawPath(id) in files && files[RawPath(id)] > 0)
    requires fetch.FetchFailed? || fetch.size < MinFlagBytes
    ensures Resolve(m, files, id, team, fetch) == (None, m, files)
  {
    DownloadRejectsBadFetch(files, id, fetch);
  }

  /**
   * A new by-name copy: the file chosen is the first of `base.gif`, `base-2.gif`, ... that
   * was not on disk, every earlier one was, it holds the raw image's bytes, and the maps
   * gain the id's path and, with a team name, its name.
   */
  lemma ResolveDownloaded(m: FlagMaps, files: Files, id: string, team: string, fetch: FetchOutcome)
    requires !ExistingUsable(m, files, id)
    requires DownloadFlagGif(files, id, fetch).0.Some?
    ensures var r := Resolve(m, files, id, team, fetch);
      && r.0.Some?
      && (exists n :: n >= 1 && r.0.value == Candidate(FlagBase(id, team), n) && r.0.value !in files
            && forall j :: 1 <= j < n ==> Candidate(FlagBase(id, team), j) in files)
      && RawPath(id) in r.2 && r.2[r.0.value] == r.2[RawPath(id)]
      && r.1.idToPath == m.idToPath[id := r.0.value]
      && r.1.idToName == (if team != "" then m.idToName[id := team] else m.idToName)
  {
    var base := FlagBase(id, team);
    var files1 := DownloadFlagGif(files, id, fetch).1;
    var n := FirstFree(files1, base, Lookup(m.idToPath, id), 1);
    var out := Candidate(base, n);
    var names := if team != "" then m.idToName[id := team] else m.idToName;
    var r := Resolve(m, files, id, team, fetch);
    ResolveDownloadedShape(m, files, id, team, fetch);
    ChosenIsFresh(m, files, id, fetch, base);
    CandidateFacts(base, n, id);
    assert r.2[out] == r.2[RawPath(id)];
    EarlierCandidatesTaken(files, id, fetch, base, Lookup(m.idToPath, id));
    assert n >= 1 && out !in files && forall j :: 1 <= j < n ==> Candidate(base, j) in files;
  }

  /** Every name tried before the chosen one was already on disk before the download. */
  lemma EarlierCandidatesTaken(files: Files, id: string, fetch: FetchOutcome, base: string, mapped: Option<string>)
    ensures var n := FirstFree(DownloadFlagGif(files, id, fetch).1, base, mapped, 1);
      forall j :: 1 <= j < n ==> Candidate(base, j) in files
  {
    var files1 := DownloadFlagGif(files, id, fetch).1;
    var n := FirstFree(files1, base, mapped, 1);
    forall j | 1 <= j < n ensures Candidate(base, j) in files {
      assert Candidate(base, j) in files1;
      CandidateFacts(base, j, id);
    }
  }

  /** The result of `Resolve` once the id is not reusable and the raw image is on disk. */
  lemma ResolveDownloadedShape(m: FlagMaps, files: Files, id: string, team: string, fetch: FetchOutcome)
    requires !ExistingUsable(m, files, id)
    requires DownloadFlagGif(files, id, fetch).0.Some?
    ensures var files1 := DownloadFlagGif(files, id, fetch).1;
      var out := Candidate(FlagBase(id, team), FirstFree(files1, FlagBase(id, team), Lookup(m.idToPath, id), 1));
      Resolve(m, files, id, team, fetch)
        == (Some(out), FlagMaps(m.idToPath[id := out], if team != "" then m.idToName[id := team] else m.idToName),
            files1[out := files1[RawPath(id)]])
  {
  }

  /** Calling again with the same id and team returns the same path and changes nothing. */
  lemma ResolveIdempotent(m: FlagMaps, files: Files, id: string, team: string, f1: FetchOutcome, f2: FetchOutcome)
    requires Resolve(m, files, id, team, f1).0.Some?
    ensures var r := Resolve(m, files, id, team, f1);
      Resolve(r.1, r.2, id, team, f2) == r
  {
    var r := Resolve(m, files, id, team, f1);
    assert ExistingUsable(r.1, r.2, id);
    assert r.1.idToPath[id] == r.0.value;
    if team != "" {
      assert Lookup(r.1.idToName, id) == Some(team);
    }
  }

  /** `_local_gif_for_src(src)`: the mapped local path of the flag id the URL names. */
  function LocalGifForSrc(idToPath: map<string, string>, src: Option<string>): (r: Option<string>)
    ensures r.Some? ==> Truthy(src) && FindFlagId(src.value).Some? && FindFlagId(src.value).value in idToPath && idToPath[FindFlagId(src.value).value] == r.value
    ensures Truthy(src) && FindFlagId(src.value).Some? && FindFlagId(src.value).value in idToPath ==> r.Some?
  {
    if !Truthy(src) then None
    else match FindFlagId(src.value)
      case None => None
      case Some(id) => Lookup(idToPath, id)
  }

  /**
   * `_norm_src(src)`: a mapped local flag wins over every other rule; otherwise `data:`
   * URLs are dropped, protocol-relative and root-relative URLs are made absolute on
   * hamariweb.com, and anything else is kept.
   */
  function NormSrc(idToPath: map<string, string>, src: Option<string>): (r: Option<string>)
    ensures !Truthy(src) ==> r.None?
    ensures r.Some? ==> r.value != ""
    ensures Truthy(LocalGifForSrc(idToPath, src)) ==> r == LocalGifForSrc(idToPath, src)
    ensures !Truthy(LocalGifForSrc(idToPath, src)) && r.Some? ==>
      !StartsWith(r.value, "/") && !StartsWith(r.value, "data:")
  {
    if !Truthy(src) then None
    else
      var local := LocalGifForSrc(idToPath, src);
      if Truthy(local) then local
      else
        var s := src.value;
        if StartsWith(s, "data:") then None
        else if StartsWith(s, "//") then
          var u := "https:" + s;
          assert u[0] == 'h';
          Some(u)
        else if StartsWith(s, "/") then
          var u := "https://hamariweb.com" + s;
          assert u[0] == 'h';
          Some(u)
        else src
  }

  /** The scheme and the origin that `_norm_src` prepends cannot start a flag-id match. */
  lemma PrefixesHaveNoMatch()
    ensures NoMatchStart("https:")
    ensures NoMatchStart("https://hamariweb.com")
  {
    var o := "https://hamariweb.com";
    assert o[18] == 'c' && o[19] == 'o';
    assert forall i :: 0 <= i < |o| && i != 18 ==> o[i] != 'c' && o[i] != 'f';
  }

  /** The rewrite rules for a URL whose flag id is not mapped, one per prefix. */
  lemma NormSrcRewrites(idToPath: map<string, string>, s: string)
    requires s != "" && !Truthy(LocalGifForSrc(idToPath, Some(s)))
    ensures StartsWith(s, "data:") ==> NormSrc(idToPath, Some(s)) == None
    ensures StartsWith(s, "//") ==> NormSrc(idToPath, Some(s)) == Some("https:" + s)
    ensures StartsWith(s, "/") && !StartsWith(s, "//") ==> NormSrc(idToPath, Some(s)) == Some("https://hamariweb.com" + s)
    ensures !StartsWith(s, "/") && !StartsWith(s, "data:") ==> NormSrc(idToPath, Some(s)) == Some(s)
  {
    if StartsWith(s, "data:") {
      assert s[0] == 'd';
      assert !StartsWith(s, "/");
    } else if StartsWith(s, "/") {
      assert s[0] == '/';
    }
  }

  /** Rewriting an unmapped URL does not change the flag id it names. */
  lemma NormSrcKeepsFlagId(idToPath: map<string, string>, src: Option<string>)
    requires !Truthy(LocalGifForSrc(idToPath, src))
    requires NormSrc(idToPath, src).Some?
    ensures FindFlagId(NormSrc(idToPath, src).value) == FindFlagId(src.value)
  {
    PrefixesHaveNoMatch();
    var s := src.value;
    if !StartsWith(s, "data:") && StartsWith(s, "//") {
      FindFlagIdAfterPrefix("https:", s);
    } else if !StartsWith(s, "data:") && StartsWith(s, "/") {
      FindFlagIdAfterPrefix("https://hamariweb.com", s);
    }
  }

  /** Normalising an unmapped URL twice is normalising it once. */
  lemma NormSrcIdempotentUnmapped(idToPath: map<string, string>, src: Option<string>)
    requires !Truthy(LocalGifForSrc(idToPath, src))
    ensures NormSrc(idToPath, NormSrc(idToPath, src)) == NormSrc(idToPath, src)
  {
    var r := NormSrc(idToPath, src);
    if r.Some? {
      NormSrcKeepsFlagId(idToPath, src);
      assert !Truthy(LocalGifForSrc(idToPath, r));
      NormSrcRewrites(idToPath, r.value);
    }
  }

  /**
   * The shared flags mapping as the scraper holds it in memory. Every update is also what
   * `_save_flags_mapping` would write back; the file write itself is not modelled.
   */
  class FlagStore {
    var idToPath: map<string, string>
    var idToName: map<string, string>

    function Maps(): (m: FlagMaps)
      reads this
      ensures m.idToPath == idToPath && m.idToName == idToName
    {
      FlagMaps(idToPath, idToName)
    }

    /** `_load_flags_mapping()`: the stored file, or empty maps when there is none. */
    constructor Load(file: Option<StoredMapping>)
      requires file.Some? ==> file.value.Valid()
      ensures idToPath.Keys == Keys(LoadMapping(file).idToPath)
      ensures idToName.Keys == Keys(LoadMapping(file).idToName)
      ensures forall k :: k in idToPath ==> Get(LoadMapping(file).idToPath, k) == Some(idToPath[k])
      ensures forall k :: k in idToName ==> Get(LoadMapping(file).idToName, k) == Some(idToName[k])
      ensures file.None? ==> idToPath == map[] && idToName == map[]
    {
      var stored := LoadMapping(file);
      idToPath := ToMap(stored.idToPath);
      idToName := ToMap(stored.idToName);
    }

    /**
     * The suffix loop: `base.gif`, then `base-2.gif`, `base-3.gif`, ... until a name is
     * free on disk or is already the id's mapping `mapped`.
     */
    static method ChooseByNamePath(files: Files, base: string, mapped: Option<string>) returns (outPath: string)
      ensures outPath == Candidate(base, FirstFree(files, base, mapped, 1))
    {
      outPath := Candidate(base, 1);
      var suffix := 2;
      while outPath in files
        invariant suffix >= 2
        invariant outPath == Candidate(base, suffix - 1)
        invariant FirstFree(files, base, mapped, suffix - 1) == FirstFree(files, base, mapped, 1)
        decreases files.Keys - CandidatesBelow(base, suffix - 1)
      {
        if mapped == Some(outPath) {
          break;
        }
        CandidatesBelowStep(base, suffix - 1);
        outPath := Candidate(base, suffix);
        suffix := suffix + 1;
      }
    }

    /** `_ensure_flag_local(flag_id, team_name)`. */
    method EnsureFlagLocal(files: Files, flagId: string, teamName: string, fetch: FetchOutcome)
      returns (r: Option<string>, files': Files)
      modifies this
      ensures (r, Maps(), files') == Resolve(old(Maps()), files, flagId, teamName, fetch)
    {
      ghost var m0 := Maps();
      var existing := Lookup(idToPath, flagId);
      if existing.Some? && existing.value != "" && Exists(files, existing.value) {
        ResolveExisting(m0, files, flagId, teamName, fetch, fetch);
        if teamName != "" && Lookup(idToName, flagId) != Some(teamName) {
          idToName := idToName[flagId := teamName];
        }
        return existing, files;
      }
      r, files' := FetchAndCopy(files, flagId, teamName, fetch);
    }

    /** The rest of `_ensure_flag_local`, once the mapping gave no file on disk. */
    method FetchAndCopy(files: Files, flagId: string, teamName: string, fetch: FetchOutcome)
      returns (r: Option<string>, files': Files)
      requires !ExistingUsable(Maps(), files, flagId)
      modifies this
      ensures (r, Maps(), files') == Resolve(old(Maps()), files, flagId, teamName, fetch)
    {
      var download := DownloadFlagGif(files, flagId, fetch);
      if download.0.None? {
        return None, files;
      }
      ResolveDownloadedShape(Maps(), files, flagId, teamName, fetch);
      var files1 := download.1;
      var base := FlagBase(flagId, teamName);
      var outPath := ChooseByNamePath(files1, base, Lookup(idToPath, flagId));
      files' := files1[outPath := files1[RawPath(flagId)]];
      idToPath := idToPath[flagId := outPath];
      if teamName != "" {
        idToName := idToName[flagId := teamName];
      }
      r := Some(outPath);
    }
  }
}
