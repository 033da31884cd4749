/**
 * download_flags.py: the batch job that fetches every raw flag image, learns team names
 * from the schedules page, writes one display-named copy per named flag and merges the
 * result into `mapping.json`.
 *
 * Dictionaries whose iteration order matters are association lists (`Dict`), so the
 * order in which `write_by_name_gifs` hands out file names is part of the model.
 */
module BatchFlags {
  import opened Wrappers
  import opened Text
  import opened Slug
  import opened FlagIds
  import opened FileSystem
  import opened FlagMapping

  // ---------------------------------------------------------------------------------
  // build_id_to_name_map
  // ---------------------------------------------------------------------------------

  /** The attributes of a team `<img>` that the scan reads. */
  datatype ImgAttrs = ImgAttrs(dataSrc: Option<string>, src: Option<string>, alt: Option<string>)

  /** An `a.team_name` link: its image and its stripped visible text (the span's, or the link's). */
  datatype TeamLinkEntry = TeamLinkEntry(img: Option<ImgAttrs>, text: string)

  /**
   * A `.match_update .teamname` node: its image, its stripped text, and the part of that
   * text before the first score or double space.
   */
  datatype TeamNameEntry = TeamNameEntry(img: Option<ImgAttrs>, text: string, lead: string)

  /** One call of `record(img_src, name)`. */
  datatype Sighting = Sighting(src: Option<string>, name: Option<string>)

  /** An empty link name falls back to the image's non-empty alt text, when there is an image. */
  function AltFallback(name: Option<string>, img: Option<ImgAttrs>): (r: Option<string>)
    ensures Truthy(name) ==> r == name
    ensures !Truthy(name) && img.Some? && Truthy(img.value.alt) ==> r == img.value.alt
    ensures !Truthy(name) && !(img.Some? && Truthy(img.value.alt)) ==> r == name
  {
    if !Truthy(name) && img.Some? && Truthy(img.value.alt) then img.value.alt else name
  }

  /** A table link offers its image's `data-src` (or else `src`) and its text (or else the alt text). */
  function LinkSighting(e: TeamLinkEntry): (s: Sighting)
    ensures e.img.None? ==> s.src.None?
    ensures e.img.Some? && Truthy(e.img.value.dataSrc) ==> s.src == e.img.value.dataSrc
    ensures e.img.Some? && !Truthy(e.img.value.dataSrc) ==> s.src == e.img.value.src
    ensures e.text != "" ==> s.name == Some(e.text)
    ensures e.text == "" ==> s.name == if e.img.Some? && Truthy(e.img.value.alt) then e.img.value.alt else None
  {
    var src := if e.img.Some? then OrElse(e.img.value.dataSrc, e.img.value.src) else None;
    Sighting(src, AltFallback(NonEmpty(e.text), e.img))
  }

  /** A card node offers only its image's `src`, and the stripped lead of its text (or else the alt text). */
  function NodeSighting(e: TeamNameEntry): (s: Sighting)
    ensures e.img.None? ==> s.src.None?
    ensures e.img.Some? ==> s.src == e.img.value.src
    ensures e.text != "" && Strip(e.lead) != "" ==> s.name == Some(Strip(e.lead))
    ensures e.text == "" && e.img.None? ==> s.name.None?
    ensures e.text == "" || Strip(e.lead) == "" ==>
      s.name == if e.img.Some? && Truthy(e.img.value.alt) then e.img.value.alt
                else if e.text != "" then Some("") else None
  {
    var src := if e.img.Some? then e.img.value.src else None;
    var name := if e.text != "" then Some(Strip(e.lead)) else None;
    Sighting(src, AltFallback(name, e.img))
  }

  /** The calls of `record` in order: every table link, then every card node. */
  function LinkSightings(links: seq<TeamLinkEntry>): (r: seq<Sighting>)
    ensures |r| == |links|
    ensures forall i :: 0 <= i < |links| ==> r[i] == LinkSighting(links[i])
  {
    if links == [] then [] else LinkSightings(links[..|links| - 1]) + [LinkSighting(links[|links| - 1])]
  }

  function NodeSightings(nodes: seq<TeamNameEntry>): (r: seq<Sighting>)
    ensures |r| == |nodes|
    ensures forall i :: 0 <= i < |nodes| ==> r[i] == NodeSighting(nodes[i])
  {
    if nodes == [] then [] else NodeSightings(nodes[..|nodes| - 1]) + [NodeSighting(nodes[|nodes| - 1])]
  }

  /** The flag id a sighting is recorded under: both parts present and the URL carries an id. */
  function SightingId(s: Sighting): (r: Option<string>)
    ensures r.Some? ==> Truthy(s.src) && Truthy(s.name) && FindFlagId(s.src.value) == r
  {
    if !Truthy(s.src) || !Truthy(s.name) then None else FindFlagId(s.src.value)
  }

  /** An all-digit, non-empty string: what the id pattern captures. */
  predicate IsFlagId(k: string) {
    k != [] && forall i :: 0 <= i < |k| ==> IsDigit(k[i])
  }

  /**
   * `record(img_src, name)`: an id seen for the first time gets the stripped name; an id
   * already recorded keeps its name; a sighting without an id changes nothing.
   */
  function Record(mapping: Dict, s: Sighting): (r: Dict)
    ensures IsDict(mapping) ==> IsDict(r)
    ensures SightingId(s).None? ==> r == mapping
    ensures SightingId(s).Some? ==> Keys(r) == Keys(mapping) + {SightingId(s).value}
    ensures SightingId(s).Some? && SightingId(s).value in Keys(mapping) ==> r == mapping
    ensures SightingId(s).Some? && SightingId(s).value !in Keys(mapping) ==>
              Get(r, SightingId(s).value) == Some(Strip(s.name.value))
    ensures forall k :: Some(k) != SightingId(s) ==> Get(r, k) == Get(mapping, k)
  {
    match SightingId(s)
    case None => mapping
    case Some(key) => if key in Keys(mapping) then mapping else Put(mapping, key, Strip(s.name.value))
  }

  /** The dictionary after recording every sighting in order. */
  function RecordAll(ss: seq<Sighting>): (r: Dict)
    ensures IsDict(r)
    ensures forall k :: k in Keys(r) ==> IsFlagId(k)
  {
    if ss == [] then [] else Record(RecordAll(ss[..|ss| - 1]), ss[|ss| - 1])
  }

  lemma RecordAllSnoc(ss: seq<Sighting>, s: Sighting)
    ensures RecordAll(ss + [s]) == Record(RecordAll(ss), s)
  {
    assert (ss + [s])[..|ss|] == ss;
  }

  /** Reference reading of "first wins": the stripped name of the first sighting of `id`. */
  function FirstNameFor(ss: seq<Sighting>, id: string): Option<string>
  {
    if ss == [] then None
    else if SightingId(ss[0]) == Some(id) then Some(Strip(ss[0].name.value))
    else FirstNameFor(ss[1..], id)
  }

  lemma {:induction false} FirstNameForAppend(ss: seq<Sighting>, s: Sighting, id: string)
    ensures FirstNameFor(ss + [s], id) ==
              if FirstNameFor(ss, id).Some? then FirstNameFor(ss, id)
              else if SightingId(s) == Some(id) then Some(Strip(s.name.value))
              else None
    decreases |ss|
  {
    if ss != [] {
      assert (ss + [s])[1..] == ss[1..] + [s];
      FirstNameForAppend(ss[1..], s, id);
    }
  }

  /** `build_id_to_name_map` keeps, for every id, the stripped name of its first sighting. */
  lemma {:induction false} RecordAllFirstWins(ss: seq<Sighting>, id: string)
    ensures Get(RecordAll(ss), id) == FirstNameFor(ss, id)
    decreases |ss|
  {
    if ss != [] {
      var p, last := ss[..|ss| - 1], ss[|ss| - 1];
      RecordAllFirstWins(p, id);
      FirstNameForAppend(p, last, id);
      assert p + [last] == ss;
      RecordGet(RecordAll(p), last, id);
    }
  }

  /** Recording one sighting, seen through a single id. */
  lemma RecordGet(mapping: Dict, s: Sighting, id: string)
    ensures Get(Record(mapping, s), id) ==
              if Get(mapping, id).Some? then Get(mapping, id)
              else if SightingId(s) == Some(id) then Some(Strip(s.name.value))
              else None
  {
  }

  /** `build_id_to_name_map()` over the page's team links and card nodes. */
  method BuildIdToNameMap(links: seq<TeamLinkEntry>, nodes: seq<TeamNameEntry>) returns (mapping: Dict)
    ensures mapping == RecordAll(LinkSightings(links) + NodeSightings(nodes))
  {
    mapping := [];
    for i := 0 to |links|
      invariant mapping == RecordAll(LinkSightings(links[..i]))
    {
      assert links[..i + 1][..i] == links[..i];
      RecordAllSnoc(LinkSightings(links[..i]), LinkSighting(links[i]));
      mapping := Record(mapping, LinkSighting(links[i]));
    }
    assert links[..|links|] == links;
    mapping := RecordNodes(LinkSightings(links), mapping, nodes);
  }

  /** The second loop of `build_id_to_name_map`: the card nodes, recorded after `done`. */
  method RecordNodes(ghost done: seq<Sighting>, mapping0: Dict, nodes: seq<TeamNameEntry>) returns (mapping: Dict)
    requires mapping0 == RecordAll(done)
    ensures mapping == RecordAll(done + NodeSightings(nodes))
  {
    mapping := mapping0;
    assert done + NodeSightings(nodes[..0]) == done;
    for j := 0 to |nodes|
      invariant mapping == RecordAll(done + NodeSightings(nodes[..j]))
    {
      RecordNodesStep(done, nodes, j);
      mapping := Record(mapping, NodeSighting(nodes[j]));
    }
    assert nodes[..|nodes|] == nodes;
  }

  /** One more card node, as the loop takes it. */
  lemma RecordNodesStep(done: seq<Sighting>, nodes: seq<TeamNameEntry>, j: nat)
    requires j < |nodes|
    ensures RecordAll(done + NodeSightings(nodes[..j + 1])) ==
              Record(RecordAll(done + NodeSightings(nodes[..j])), NodeSighting(nodes[j]))
  {
    assert nodes[..j + 1][..j] == nodes[..j];
    var before := NodeSightings(nodes[..j]);
    var s := NodeSighting(nodes[j]);
    assert NodeSightings(nodes[..j + 1]) == before + [s];
    assert done + (before + [s]) == (done + before) + [s];
    RecordAllSnoc(done + before, s);
  }

  // ---------------------------------------------------------------------------------
  // write_by_name_gifs
  // ---------------------------------------------------------------------------------

  /** The file name for the copy of a flag whose slug `base` was already used `count` times. */
  function OutName(base: string, count: nat): string {
    if count == 0 then base else base + "-" + NatToString(count + 1)
  }

  /** The loop state of `write_by_name_gifs`: `id_to_path`, `used_names` and the disk. */
  datatype WriteState = WriteState(paths: Dict, used: map<string, nat>, files: Files)

  /** How many ids with slug `base` have been copied so far; 0 for an unseen slug. */
  function UsedCount(used: map<string, nat>, base: string): nat {
    if base in used then used[base] else 0
  }

  /**
   * One iteration, for an id whose name slugs to `base`: an id with a raw image is copied
   * to the name the slug's count gives, the count goes up by one, and nothing else changes.
   */
  function WriteStep(st: WriteState, sid: string, base: string): (r: WriteState)
    ensures RawPath(sid) !in st.files ==> r == st
    ensures RawPath(sid) in st.files ==>
              var out := ByNamePath(OutName(base, UsedCount(st.used, base)));
              && Keys(r.paths) == Keys(st.paths) + {sid}
              && Get(r.paths, sid) == Some(out)
              && out in r.files && r.files[out] == st.files[RawPath(sid)]
              && r.files == st.files[out := st.files[RawPath(sid)]]
              && r.used == st.used[base := UsedCount(st.used, base) + 1]
    ensures forall k :: k != sid ==> Get(r.paths, k) == Get(st.paths, k)
    ensures IsDict(st.paths) ==> IsDict(r.paths)
  {
    if RawPath(sid) !in st.files then st
    else
      var count := UsedCount(st.used, base);
      var out := OutName(base, count);
      WriteState(Put(st.paths, sid, ByNamePath(out)), st.used[base := count + 1],
                 st.files[ByNamePath(out) := st.files[RawPath(sid)]])
  }

  /** A step counts one more use of the slug of an id it copies, and of no other slug. */
  lemma WriteStepCounts(st: WriteState, sid: string, base: string, b: string)
    ensures UsedCount(WriteStep(st, sid, base).used, b) ==
              UsedCount(st.used, b) + (if RawPath(sid) in st.files && base == b then 1 else 0)
  {
  }

  /** A step only adds a by-name copy: the raw images on disk stay as they were. */
  lemma WriteStepKeepsRaw(st: WriteState, sid: string, base: string)
    ensures var r := WriteStep(st, sid, base);
      && (forall k :: RawPath(k) in r.files <==> RawPath(k) in st.files)
      && (forall k :: RawPath(k) in st.files ==> r.files[RawPath(k)] == st.files[RawPath(k)])
      && st.files.Keys <= r.files.Keys
  {
    if RawPath(sid) in st.files {
      var out := OutName(base, UsedCount(st.used, base));
      forall k ensures RawPath(k) != ByNamePath(out) {
        RawPathNotByName(k, out);
      }
    }
  }

  /** How many of the items have a raw image and the slug `base`. */
  function SlugCount(items: Dict, files: Files, base: string): nat
  {
    if items == [] then 0
    else
      var last := items[|items| - 1];
      SlugCount(items[..|items| - 1], files, base)
        + (if RawPath(last.0) in files && Slugify(last.1) == base then 1 else 0)
  }

  /** The state after the loop has visited `items`, starting from the disk `files`. */
  function WriteAll(items: Dict, files: Files): (r: WriteState)
    ensures IsDict(r.paths)
    ensures forall k :: RawPath(k) in r.files <==> RawPath(k) in files
    ensures forall k :: RawPath(k) in files ==> r.files[RawPath(k)] == files[RawPath(k)]
    ensures files.Keys <= r.files.Keys
  {
    if items == [] then WriteState([], map[], files)
    else
      var prev := WriteAll(items[..|items| - 1], files);
      var (sid, name) := items[|items| - 1];
      WriteStepKeepsRaw(prev, sid, Slugify(name));
      WriteStep(prev, sid, Slugify(name))
  }

  /** Exactly the ids that have a raw image get a path. */
  lemma {:induction false} WriteAllKeys(items: Dict, files: Files, k: string)
    ensures k in Keys(WriteAll(items, files).paths) <==> k in Keys(items) && RawPath(k) in files
    decreases |items|
  {
    if items != [] {
      WriteAllKeys(items[..|items| - 1], files, k);
    }
  }

  /** Every path handed out names a file that is on the disk afterwards. */
  lemma {:induction false} WriteAllPathsExist(items: Dict, files: Files, k: string)
    requires k in Keys(WriteAll(items, files).paths)
    ensures Exists(WriteAll(items, files).files, Get(WriteAll(items, files).paths, k).value)
    decreases |items|
  {
    var p := items[..|items| - 1];
    var (sid, name) := items[|items| - 1];
    var prev := WriteAll(p, files);
    if k == sid && RawPath(sid) in prev.files {
      ByNamePathRooted(OutName(Slugify(name), UsedCount(prev.used, Slugify(name))));
    } else {
      WriteAllPathsExist(p, files, k);
    }
  }

  /** `used_names[base]` is the number of ids so far with a raw image and slug `base`. */
  lemma {:induction false} WriteAllCounts(items: Dict, files: Files, base: string)
    ensures UsedCount(WriteAll(items, files).used, base) == SlugCount(items, files, base)
    decreases |items|
  {
    if items != [] {
      WriteAllCounts(items[..|items| - 1], files, base);
      WriteStepCounts(WriteAll(items[..|items| - 1], files), items[|items| - 1].0, Slugify(items[|items| - 1].1), base);
    }
  }

  /**
   * The naming rule: the id at position `j`, when it has a raw image, gets its slug `base`
   * if no earlier id with a raw image had that slug, and `base-n` when it is the n-th.
   */
  lemma {:induction false} WriteAllNames(items: Dict, files: Files, j: nat)
    requires IsDict(items) && j < |items| && RawPath(items[j].0) in files
    ensures Get(WriteAll(items, files).paths, items[j].0) ==
              Some(ByNamePath(OutName(Slugify(items[j].1), SlugCount(items[..j], files, Slugify(items[j].1)))))
    decreases |items|
  {
    var n := |items| - 1;
    var p := items[..n];
    if j == n {
      WriteAllCounts(p, files, Slugify(items[j].1));
    } else {
      IsDictPrefix(items, n);
      assert p[j] == items[j] && p[..j] == items[..j];
      WriteAllNames(p, files, j);
      KeysDistinctAt(items, j, n);
    }
  }

  /**
   * Two ids can be given the same file: with raw images for all three, names slugging to
   * `b`, `b-2` and `b` in that order give the second `b-2` (a new slug) and the third `b-2`
   * (the second `b`), so the third copy overwrites the second.
   */
  lemma ByNameCollision(i1: string, i2: string, i3: string, n1: string, n2: string, n3: string, files: Files)
    requires i1 != i2 && i1 != i3 && i2 != i3
    requires RawPath(i1) in files && RawPath(i2) in files && RawPath(i3) in files
    requires Slugify(n2) == Slugify(n1) + "-2" && Slugify(n3) == Slugify(n1)
    ensures var paths := WriteAll([(i1, n1), (i2, n2), (i3, n3)], files).paths;
            Get(paths, i2) == Get(paths, i3) == Some(ByNamePath(Slugify(n1) + "-2"))
  {
    var items := [(i1, n1), (i2, n2), (i3, n3)];
    var b := Slugify(n1);
    ThreeItemsDict(items);
    SlugCountOfTwo(items[..2], files, b);
    SlugCountOfTwo(items[..2], files, b + "-2");
    assert |b + "-2"| != |b|;
    assert SlugCount(items[..1], files, b + "-2") == 0;
    assert SlugCount(items[..2], files, b) == 1;
    WriteAllNames(items, files, 1);
    WriteAllNames(items, files, 2);
    OutNameOfSecond(b);
  }

  /** The second id with slug `b` is named `b-2`. */
  lemma OutNameOfSecond(b: string)
    ensures OutName(b, 1) == b + "-2"
  {
    assert NatToString(2) == "2";
    assert b + "-" + "2" == b + "-2";
  }

  lemma ThreeItemsDict(items: Dict)
    requires |items| == 3 && items[0].0 != items[1].0 && items[0].0 != items[2].0 && items[1].0 != items[2].0
    ensures IsDict(items)
  {
    var p2, p1 := items[..2], items[..1];
    assert items[..|items| - 1] == p2 && p2[..|p2| - 1] == p1 && p1[..|p1| - 1] == [];
    assert IsDict(p1) && Keys(p1) == {items[0].0};
    assert IsDict(p2) && Keys(p2) == {items[0].0, items[1].0};
  }

  lemma SlugCountOfTwo(items: Dict, files: Files, base: string)
    requires |items| == 2
    ensures SlugCount(items[..1], files, base) == SlugCount([items[0]], files, base)
    ensures SlugCount(items, files, base) ==
              (if RawPath(items[0].0) in files && Slugify(items[0].1) == base then 1 else 0)
              + (if RawPath(items[1].0) in files && Slugify(items[1].1) == base then 1 else 0)
  {
    assert items[..1] == [items[0]];
    assert [items[0]][..0] == [];
  }

  /** `write_by_name_gifs(id_to_name)`: returns `id_to_path` and leaves the copies on disk. */
  method WriteByNameGifs(idToName: Dict, files: Files) returns (idToPath: Dict, files': Files)
    ensures idToPath == WriteAll(idToName, files).paths
    ensures files' == WriteAll(idToName, files).files
  {
    var st := WriteState([], map[], files);
    for i := 0 to |idToName|
      invariant st == WriteAll(idToName[..i], files)
    {
      WriteAllSnoc(idToName, files, i);
      st := CopyByName(st, idToName[i].0, Slugify(idToName[i].1));
    }
    assert idToName[..|idToName|] == idToName;
    idToPath, files' := st.paths, st.files;
  }

  /**
   * One iteration of `write_by_name_gifs` on its loop state (`id_to_path`, `used_names`
   * and the disk), for an id whose name slugs to `base`: skip an id without a raw image,
   * else copy it.
   */
  method CopyByName(st: WriteState, sid: string, base: string) returns (st': WriteState)
    ensures st' == WriteStep(st, sid, base)
  {
    if RawPath(sid) !in st.files {
      return st;
    }
    var count := if base in st.used then st.used[base] else 0;
    var outName := if count == 0 then base else base + "-" + NatToString(count + 1);
    st' := WriteState(Put(st.paths, sid, ByNamePath(outName)), st.used[base := count + 1],
                      st.files[ByNamePath(outName) := st.files[RawPath(sid)]]);
  }

  lemma WriteAllSnoc(items: Dict, files: Files, i: nat)
    requires i < |items|
    ensures WriteAll(items[..i + 1], files) == WriteStep(WriteAll(items[..i], files), items[i].0, Slugify(items[i].1))
  {
    assert items[..i + 1][..i] == items[..i];
  }

  // ---------------------------------------------------------------------------------
  // main: downloads, name merge, path merge
  // ---------------------------------------------------------------------------------

  /** `main` tries the flag ids 1 to 300. */
  const FlagIdLimit := 300

  /** `p` is the raw image path of one of the flag ids 1 to `n`. */
  ghost predicate RawInRange(p: string, n: nat) {
    exists i :: 1 <= i <= n && p == RawPath(NatToString(i))
  }

  /** The disk after `download_gif(i)` for `i` = 1, ..., `n` (DownloadAllFrame: nothing else changes). */
  function DownloadAll(files: Files, oracle: Oracle, n: nat): (r: Files)
    ensures files.Keys <= r.Keys
  {
    if n == 0 then files
    else
      var id := NatToString(n);
      DownloadFlagGif(DownloadAll(files, oracle, n - 1), id, oracle(id)).1
  }

  /** Every path other than the raw images of ids 1 to `n` keeps its presence and its size. */
  lemma {:induction false} DownloadAllFrame(files: Files, oracle: Oracle, n: nat)
    ensures var r := DownloadAll(files, oracle, n);
      && (forall p :: p in files && !RawInRange(p, n) ==> r[p] == files[p])
      && (forall p :: p in r && !RawInRange(p, n) ==> p in files)
    decreases n
  {
    if n > 0 {
      DownloadAllFrame(files, oracle, n - 1);
      forall p | !RawInRange(p, n)
        ensures !RawInRange(p, n - 1) && p != RawPath(NatToString(n))
      {
        assert forall i :: 1 <= i <= n ==> p != RawPath(NatToString(i));
      }
    }
  }

  lemma RawPathInjective(a: string, b: string)
    requires RawPath(a) == RawPath(b)
    ensures a == b
  {
    var d := |RawDir|;
    assert RawPath(a)[d..d + |a|] == a;
    assert RawPath(b)[d..d + |b|] == b;
  }

  /** Downloading other ids never creates the raw image of flag `i`. */
  lemma {:induction false} DownloadAllLeavesOthers(files: Files, oracle: Oracle, n: nat, i: nat)
    requires n < i
    ensures RawPath(NatToString(i)) in DownloadAll(files, oracle, n) <==> RawPath(NatToString(i)) in files
    decreases n
  {
    if n > 0 {
      DownloadAllLeavesOthers(files, oracle, n - 1, i);
      RawPathsDistinct(n, i);
    }
  }

  lemma RawPathsDistinct(a: nat, b: nat)
    requires a != b
    ensures RawPath(NatToString(a)) != RawPath(NatToString(b))
  {
    if RawPath(NatToString(a)) == RawPath(NatToString(b)) {
      RawPathInjective(NatToString(a), NatToString(b));
      NatToStringInjective(a, b);
    }
  }

  /**
   * After the download loop, flag `i` in 1..n has a raw image exactly when it had one
   * before or the site served it with at least `MinFlagBytes` bytes.
   */
  lemma {:induction false} DownloadAllRaw(files: Files, oracle: Oracle, n: nat, i: nat)
    requires 1 <= i <= n
    ensures RawPath(NatToString(i)) in DownloadAll(files, oracle, n) <==>
              || RawPath(NatToString(i)) in files
              || (oracle(NatToString(i)).Fetched? && oracle(NatToString(i)).size >= MinFlagBytes)
    decreases n
  {
    if i == n {
      DownloadAllLeavesOthers(files, oracle, n - 1, i);
    } else {
      DownloadAllRaw(files, oracle, n - 1, i);
      RawPathsDistinct(n, i);
    }
  }

  /** The download loop of `main`; how many images are available is only printed. */
  method DownloadRange(files: Files, oracle: Oracle) returns (files': Files)
    ensures files' == DownloadAll(files, oracle, FlagIdLimit)
  {
    files' := files;
    for i := 1 to FlagIdLimit + 1
      invariant files' == DownloadAll(files, oracle, i - 1)
    {
      var id := NatToString(i);
      var (_, after) := DownloadFlagGif(files', id, oracle(id));
      files' := after;
    }
  }

  /** A copy of the stored names updated with the new ones: the new value wins for every id in `newer`. */
  function UpdateAll(d: Dict, newer: Dict): (r: Dict)
    ensures Keys(r) == Keys(d) + Keys(newer)
    ensures forall k :: Get(r, k) == if k in Keys(newer) then Get(newer, k) else Get(d, k)
    ensures IsDict(d) ==> IsDict(r)
  {
    if newer == [] then d
    else Put(UpdateAll(d, newer[..|newer| - 1]), newer[|newer| - 1].0, newer[|newer| - 1].1)
  }

  /** A stored path survives the merge when its file is on disk. */
  predicate KeptPath(existing: Dict, files: Files, k: string) {
    Get(existing, k).Some? && Exists(files, Get(existing, k).value)
  }

  /** The first loop of the path merge: the existing entries whose file exists, in order. */
  function KeepExisting(existing: Dict, files: Files): (r: Dict)
    requires IsDict(existing)
    ensures IsDict(r)
    ensures Keys(r) <= Keys(existing)
  {
    if existing == [] then []
    else
      var (sid, p) := existing[|existing| - 1];
      var prev := KeepExisting(existing[..|existing| - 1], files);
      if Exists(files, p) then Put(prev, sid, p) else prev
  }

  /** An existing path is kept exactly when its file is on disk. */
  lemma {:induction false} KeepExistingGet(existing: Dict, files: Files, k: string)
    requires IsDict(existing)
    ensures Get(KeepExisting(existing, files), k) == if KeptPath(existing, files, k) then Get(existing, k) else None
    decreases |existing|
  {
    if existing != [] {
      var init := existing[..|existing| - 1];
      var (sid, p) := existing[|existing| - 1];
      var prev := KeepExisting(init, files);
      KeepExistingGet(init, files, k);
      assert KeepExisting(existing, files) == if Exists(files, p) then Put(prev, sid, p) else prev;
      if sid == k {
        assert Get(existing, k) == Some(p);
        assert k !in Keys(init) && k !in Keys(prev);
      } else {
        assert Get(existing, k) == Get(init, k);
      }
    }
  }

  /** The second loop of the path merge: a new path only for an id not already present. */
  function AddMissing(kept: Dict, newer: Dict): (r: Dict)
    requires IsDict(newer)
    ensures Keys(r) == Keys(kept) + Keys(newer)
    ensures forall k :: Get(r, k) == if k in Keys(kept) then Get(kept, k) else Get(newer, k)
    ensures IsDict(kept) ==> IsDict(r)
  {
    if newer == [] then kept
    else
      var (sid, p) := newer[|newer| - 1];
      var prev := AddMissing(kept, newer[..|newer| - 1]);
      if sid in Keys(prev) then prev else Put(prev, sid, p)
  }

  /** The merged `id_to_path`: an existing path whose file exists, else the new one, if any. */
  function MergePaths(existing: Dict, newer: Dict, files: Files): (r: Dict)
    requires IsDict(existing) && IsDict(newer)
    ensures IsDict(r)
    ensures forall k :: Get(r, k) == if KeptPath(existing, files, k) then Get(existing, k) else Get(newer, k)
  {
    var kept := KeepExisting(existing, files);
    assert forall k :: Get(kept, k) == if KeptPath(existing, files, k) then Get(existing, k) else None by {
      forall k ensures Get(kept, k) == if KeptPath(existing, files, k) then Get(existing, k) else None {
        KeepExistingGet(existing, files, k);
      }
    }
    AddMissing(kept, newer)
  }

  /** The two merge loops of `main`, filling `merged_paths`. */
  method MergePathsLoops(existing: Dict, newer: Dict, files: Files) returns (merged: Dict)
    requires IsDict(existing) && IsDict(newer)
    ensures merged == MergePaths(existing, newer, files)
  {
    merged := [];
    for i := 0 to |existing|
      invariant IsDict(existing[..i]) && merged == KeepExisting(existing[..i], files)
    {
      IsDictPrefix(existing, i + 1);
      assert existing[..i + 1][..i] == existing[..i];
      var (sid, rel) := existing[i];
      if Exists(files, rel) {
        merged := Put(merged, sid, rel);
      }
    }
    assert existing[..|existing|] == existing;
    ghost var kept := merged;
    for j := 0 to |newer|
      invariant IsDict(newer[..j]) && merged == AddMissing(kept, newer[..j])
    {
      IsDictPrefix(newer, j + 1);
      assert newer[..j + 1][..j] == newer[..j];
      var (sid, rel) := newer[j];
      if sid !in Keys(merged) {
        merged := Put(merged, sid, rel);
      }
    }
    assert newer[..|newer|] == newer;
  }

  /** The names `main` writes: the stored ones, overridden by the freshly scraped ones. */
  function MergedNames(stored: Option<StoredMapping>, links: seq<TeamLinkEntry>, nodes: seq<TeamNameEntry>): Dict
    requires stored.Some? ==> stored.value.Valid()
  {
    UpdateAll(LoadMapping(stored).idToName, RecordAll(LinkSightings(links) + NodeSightings(nodes)))
  }

  /** `main()`: the mapping it writes to `mapping.json` and the disk it leaves behind. */
  function Rebuild(stored: Option<StoredMapping>, files: Files, oracle: Oracle,
                   links: seq<TeamLinkEntry>, nodes: seq<TeamNameEntry>): (r: (Mapping, Files))
    requires stored.Some? ==> stored.value.Valid()
    ensures IsDict(r.0.idToName) && IsDict(r.0.idToPath)
    ensures r.0.idToName == MergedNames(stored, links, nodes)
  {
    var existing := LoadMapping(stored);
    var names := MergedNames(stored, links, nodes);
    var written := WriteAll(names, DownloadAll(files, oracle, FlagIdLimit));
    (Mapping(names, MergePaths(existing.idToPath, written.paths, written.files)), written.files)
  }

  /** No stored name is lost, and a freshly scraped name replaces the stored one. */
  lemma RebuildNames(stored: Option<StoredMapping>, files: Files, oracle: Oracle,
                     links: seq<TeamLinkEntry>, nodes: seq<TeamNameEntry>, k: string)
    requires stored.Some? ==> stored.value.Valid()
    ensures var ss := LinkSightings(links) + NodeSightings(nodes);
            Get(Rebuild(stored, files, oracle, links, nodes).0.idToName, k) ==
              if FirstNameFor(ss, k).Some? then FirstNameFor(ss, k) else Get(LoadMapping(stored).idToName, k)
  {
    RecordAllFirstWins(LinkSightings(links) + NodeSightings(nodes), k);
  }

  /** Every path in the written mapping names a file on the disk `main` leaves behind. */
  lemma RebuildPathsExist(stored: Option<StoredMapping>, files: Files, oracle: Oracle,
                          links: seq<TeamLinkEntry>, nodes: seq<TeamNameEntry>, k: string)
    requires stored.Some? ==> stored.value.Valid()
    requires Get(Rebuild(stored, files, oracle, links, nodes).0.idToPath, k).Some?
    ensures var r := Rebuild(stored, files, oracle, links, nodes);
            Exists(r.1, Get(r.0.idToPath, k).value)
  {
    var existing := LoadMapping(stored);
    var names := MergedNames(stored, links, nodes);
    var written := WriteAll(names, DownloadAll(files, oracle, FlagIdLimit));
    if !KeptPath(existing.idToPath, written.files, k) {
      WriteAllPathsExist(names, DownloadAll(files, oracle, FlagIdLimit), k);
    }
  }

  /** Every named flag with a raw image after the downloads ends up with a path. */
  lemma RebuildNamedFlagsHavePaths(stored: Option<StoredMapping>, files: Files, oracle: Oracle,
                                   links: seq<TeamLinkEntry>, nodes: seq<TeamNameEntry>, k: string)
    requires stored.Some? ==> stored.value.Valid()
    requires k in Keys(MergedNames(stored, links, nodes))
    requires RawPath(k) in DownloadAll(files, oracle, FlagIdLimit)
    ensures Get(Rebuild(stored, files, oracle, links, nodes).0.idToPath, k).Some?
  {
    var names := MergedNames(stored, links, nodes);
    WriteAllKeys(names, DownloadAll(files, oracle, FlagIdLimit), k);
  }

  /** `main()` with the stored file, the disk, the network and the schedules page as inputs. */
  method RebuildMapping(stored: Option<StoredMapping>, files: Files, oracle: Oracle,
                        links: seq<TeamLinkEntry>, nodes: seq<TeamNameEntry>) returns (m: Mapping, files': Files)
    requires stored.Some? ==> stored.value.Valid()
    ensures (m, files') == Rebuild(stored, files, oracle, links, nodes)
  {
    var existing := LoadMapping(stored);
    files' := DownloadRange(files, oracle);
    var idToNameNew := BuildIdToNameMap(links, nodes);
    var idToName := UpdateAll(existing.idToName, idToNameNew);
    var idToPathNew;
    idToPathNew, files' := WriteByNameGifs(idToName, files');
    var mergedPaths := MergePathsLoops(existing.idToPath, idToPathNew, files');
    m := Mapping(idToName, mergedPaths);
  }
}
