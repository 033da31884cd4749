/**
 * The part of the disk the flag code touches, and the raw flag download that
 * `_download_flag_gif` (scraper.py) and `download_gif` (download_flags.py) share.
 *
 * The disk is a value: every existing path under /workspace, written with a leading
 * "/" and relative to /workspace, mapped to its size in bytes. Operations that write
 * files take the disk in and hand the new disk back.
 */
module FileSystem {
  import opened Wrappers
  import opened Text

  type Files = map<string, nat>

  const RawDir := "/static/flags/raw/"
  const ByNameDir := "/static/flags/by-name/"

  /** The site rejects unknown flag ids with tiny placeholder bodies. */
  const MinFlagBytes := 100

  /** The path with its leading slashes removed (LStripSlashesCutsSlashes: and nothing else). */
  function LStripSlashes(p: string): (r: string)
    ensures r == [] || r[0] != '/'
    ensures |r| <= |p| && r == p[|p| - |r|..]
  {
    if p != [] && p[0] == '/' then LStripSlashes(p[1..]) else p
  }

  /** Only slashes are cut: everything before the kept suffix is a slash. */
  lemma {:induction false} LStripSlashesCutsSlashes(p: string)
    ensures forall i :: 0 <= i < |p| - |LStripSlashes(p)| ==> p[i] == '/'
    decreases |p|
  {
    if p != [] && p[0] == '/' {
      LStripSlashesCutsSlashes(p[1..]);
    }
  }

  /** The disk key of a path: `/workspace` joined with the path after its leading slashes. */
  function WorkspaceKey(p: string): string {
    "/" + LStripSlashes(p)
  }

  /** The file a stored path names, taken relative to `/workspace`, is on disk. */
  predicate Exists(files: Files, p: string) {
    WorkspaceKey(p) in files
  }

  /** A path with exactly one leading slash is its own key. */
  lemma WorkspaceKeyOfRooted(p: string)
    requires |p| >= 2 && p[0] == '/' && p[1] != '/'
    ensures WorkspaceKey(p) == p
  {
    assert LStripSlashes(p) == p[1..];
    assert [p[0]] + p[1..] == p;
  }

  /** Where the raw image of flag `id` is kept. */
  function RawPath(id: string): string {
    RawDir + id + ".gif"
  }

  /** Where the display-named copy called `name` is kept. */
  function ByNamePath(name: string): string {
    ByNameDir + name + ".gif"
  }

  /** Raw images and named copies live in different directories. */
  lemma RawPathNotByName(id: string, name: string)
    ensures RawPath(id) != ByNamePath(name)
  {
    assert RawPath(id)[14] == 'r';
    assert ByNamePath(name)[14] == 'b';
  }

  lemma ByNamePathRooted(name: string)
    ensures WorkspaceKey(ByNamePath(name)) == ByNamePath(name)
  {
    var p := ByNamePath(name);
    assert p[0] == '/' && p[1] == 's';
    WorkspaceKeyOfRooted(p);
  }

  /** What the network answers for one flag image request. */
  datatype FetchOutcome =
    | FetchFailed        // transport error or a non-success status
    | Fetched(size: nat) // a body of `size` bytes

  /** The network's answer for each flag id. */
  type Oracle = string -> FetchOutcome

  /**
   * `_download_flag_gif(flag_id)`: a non-empty raw file already on disk is used as is;
   * otherwise the fetched body is written there unless the fetch failed or the body is
   * shorter than `MinFlagBytes`.
   */
  function DownloadFlagGif(files: Files, id: string, fetch: FetchOutcome): (r: (Option<string>, Files))
    ensures r.0.Some? ==> r.0.value == RawPath(id) && RawPath(id) in r.1 && r.1[RawPath(id)] > 0
    ensures r.0.None? ==> r.1 == files
    ensures r.1.Keys == files.Keys + (if r.0.Some? then {RawPath(id)} else {})
    ensures forall p :: p in files && p != RawPath(id) ==> r.1[p] == files[p]
  {
    var dst := RawPath(id);
    if dst in files && files[dst] > 0 then (Some(dst), files)
    else match fetch
      case FetchFailed => (None, files)
      case Fetched(n) => if n < MinFlagBytes then (None, files) else (Some(dst), files[dst := n])
  }

  /** A non-empty raw file on disk is returned without consulting the network. */
  lemma DownloadCachedSkipsFetch(files: Files, id: string, f1: FetchOutcome, f2: FetchOutcome)
    requires RawPath(id) in files && files[RawPath(id)] > 0
    ensures DownloadFlagGif(files, id, f1) == DownloadFlagGif(files, id, f2) == (Some(RawPath(id)), files)
  {
  }

  /** A failed fetch or a body under 100 bytes yields nothing and writes nothing. */
  lemma DownloadRejectsBadFetch(files: Files, id: string, fetch: FetchOutcome)
    requires !(RawPath(id) in files && files[RawPath(id)] > 0)
    requires fetch.FetchFailed? || fetch.size < MinFlagBytes
    ensures DownloadFlagGif(files, id, fetch) == (None, files)
  {
  }
}
