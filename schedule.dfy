/**
 * The schedule page (scraper.py): match records from the card-style `.match_update`
 * blocks (`_parse_match_updates`), from the schedule table (`_parse_schedule_table`), and
 * their first-occurrence-wins merge (`parse_schedules_html`).
 *
 * The page itself is given as plain values: what BeautifulSoup would have found in each
 * card, row and cell, with texts already read by `get_text(strip=True)`. Flag images are
 * resolved through the shared flags mapping as they are met, so every parse threads the
 * mapping and the disk (`FlagWorld`) through its items in order.
 */
module Schedule {
  import opened Wrappers
  import opened Text
  import opened FlagIds
  import opened FileSystem
  import opened FlagResolver
  import opened Walk
  import opened TeamLinks

  /** The flags mapping and the disk, as they stand between two flag lookups. */
  datatype FlagWorld = FlagWorld(maps: FlagMaps, files: Files)

  /** A match record as the page's JSON carries it. */
  datatype MatchRecord = MatchRecord(
    title: string,
    teams: seq<string>,
    teamImages: seq<Option<string>>,
    status: Option<string>,
    timeOrVenue: Option<string>,
    link: Option<string>)

  /** A `.teamname` node: its name text and its `<img>`'s `src`, if any. */
  datatype TeamNode = TeamNode(name: string, imgSrc: Option<string>)

  /** The card's `<p>`: its whole text and the text of its `<small>`, if it has one. */
  datatype Para = Para(text: string, small: Option<string>)

  /** A `.match_update` card: `<p>`, team nodes, first `<a href>`, `.match_result` text. */
  datatype Card = Card(p: Option<Para>, teamNodes: seq<TeamNode>, href: Option<string>, matchResult: Option<string>)

  /** A `<td>`: its text, its team links, and the `href` of its first `<a href>`. */
  datatype Cell = Cell(text: string, teamLinks: seq<TeamLink>, firstHref: Option<string>)

  /** A `<tr>` as its `<td>` cells. */
  type Row = seq<Cell>

  /** The skip test: a record is kept when its title, its teams or its time has content. */
  predicate Kept(title: string, teams: seq<string>, time: Option<string>) {
    Strip(title) != "" || teams != [] || (time.Some? && Strip(time.value) != "")
  }

  /**
   * One flag image: when the raw `src` names a flag id and the team has a name, the id is
   * resolved to a local by-name GIF; otherwise, or when that yields nothing, the raw
   * `src` is normalised against the mapping as it then stands.
   */
  function NodeImage(w: FlagWorld, raw: Option<string>, name: string, oracle: Oracle): (r: (Option<string>, FlagWorld))
    ensures r.0.Some? ==> r.0.value != ""
    ensures !(Truthy(raw) && name != "" && FindFlagId(raw.value).Some?) ==>
      r == (NormSrc(w.maps.idToPath, raw), w)
    ensures !Truthy(raw) ==> r == (None, w)
    ensures Truthy(raw) && name != "" && FindFlagId(raw.value).Some? ==>
      var id := FindFlagId(raw.value).value;
      var res := Resolve(w.maps, w.files, id, name, oracle(id));
      && (res.0.Some? ==> r == (res.0, FlagWorld(res.1, res.2)))
      && (res.0.None? ==> r == (NormSrc(w.maps.idToPath, raw), w))
  {
    var enriched :=
      if Truthy(raw) && name != "" && FindFlagId(raw.value).Some? then
        var id := FindFlagId(raw.value).value;
        var res := Resolve(w.maps, w.files, id, name, oracle(id));
        (res.0, FlagWorld(res.1, res.2))
      else (None, w);
    (OrElse(enriched.0, NormSrc(enriched.1.maps.idToPath, raw)), enriched.1)
  }

  /** A flag image whose id resolves is that local file, whatever the raw `src` says. */
  lemma NodeImageResolved(w: FlagWorld, raw: Option<string>, name: string, oracle: Oracle)
    requires Truthy(raw) && name != "" && FindFlagId(raw.value).Some?
    requires Resolve(w.maps, w.files, FindFlagId(raw.value).value, name, oracle(FindFlagId(raw.value).value)).0.Some?
    ensures var id := FindFlagId(raw.value).value;
      var r := NodeImage(w, raw, name, oracle);
      && Lookup(r.1.maps.idToPath, id) == r.0
      && Exists(r.1.files, r.0.value)
      && Lookup(r.1.maps.idToName, id) == Some(name)
  {
  }

  // ---------------------------------------------------------------------------------
  // Cards

  /** The card title: the `<p>` text with the status text cut out and the rest stripped. */
  function CardTitle(p: Option<Para>): string {
    match p
    case None => ""
    case Some(para) => if para.small.Some? then Strip(RemoveAll(para.text, para.small.value)) else para.text
  }

  /** The card status: the `<small>` text. */
  function CardStatus(p: Option<Para>): Option<string> {
    if p.Some? then p.value.small else None
  }

  /**
   * A `<p>` reading "title status" gives back the title: the status text is removed
   * (when it occurs only where it follows the title) and the separating space is stripped.
   * The status may have several words, as "Match Ended" does.
   */
  lemma CardTitleDropsStatus(title: string, status: string)
    requires IsStripped(title)
    requires status != []
    requires forall i :: OccursAt(title + " " + status, status, i) ==> i == |title| + 1
    ensures CardTitle(Some(Para(title + " " + status, Some(status)))) == title
    ensures CardStatus(Some(Para(title + " " + status, Some(status)))) == Some(status)
  {
    RemoveAllSeparatedSuffix(title, status);
    StripTrailingSpace(title);
  }

  function NodeNames(nodes: seq<TeamNode>): seq<string> {
    seq(|nodes|, i requires 0 <= i < |nodes| => nodes[i].name)
  }

  /** The team names of a card: the non-empty names of its team nodes, in node order. */
  function CardNames(nodes: seq<TeamNode>): (names: seq<string>)
    ensures |names| <= |nodes|
    ensures forall i :: 0 <= i < |names| ==> names[i] != ""
    ensures forall i :: 0 <= i < |nodes| && nodes[i].name != "" ==> nodes[i].name in names
  {
    assert forall i :: 0 <= i < |nodes| ==> NodeNames(nodes)[i] == nodes[i].name;
    NonEmptyStrings(NodeNames(nodes))
  }

  /** The names of two runs of nodes are the names of the first run, then those of the second. */
  lemma CardNamesAppend(a: seq<TeamNode>, b: seq<TeamNode>)
    ensures CardNames(a + b) == CardNames(a) + CardNames(b)
    ensures CardNames([]) == []
    ensures forall n :: CardNames([n]) == if n.name != "" then [n.name] else []
  {
    assert NodeNames(a + b) == NodeNames(a) + NodeNames(b);
    NonEmptyStringsAppend(NodeNames(a), NodeNames(b));
    forall n ensures CardNames([n]) == if n.name != "" then [n.name] else [] {
      assert NodeNames([n]) == [n.name];
    }
  }

  /** One image per team node, named or not, resolved in order. */
  function CardImages(w: FlagWorld, nodes: seq<TeamNode>, oracle: Oracle): (r: (seq<Option<string>>, FlagWorld))
    ensures |r.0| == |nodes|
    decreases |nodes|
  {
    if nodes == [] then ([], w)
    else
      var prev := CardImages(w, nodes[..|nodes| - 1], oracle);
      var last := nodes[|nodes| - 1];
      var img := NodeImage(prev.1, last.imgSrc, last.name, oracle);
      (prev.0 + [img.0], img.1)
  }

  /** One more team node, as the loop over a card's team nodes takes it. */
  lemma CardImagesStep(w: FlagWorld, nodes: seq<TeamNode>, i: nat, oracle: Oracle)
    requires i < |nodes|
    ensures var prev := CardImages(w, nodes[..i], oracle);
      var img := NodeImage(prev.1, nodes[i].imgSrc, nodes[i].name, oracle);
      CardImages(w, nodes[..i + 1], oracle) == (prev.0 + [img.0], img.1)
  {
    assert nodes[..i + 1][..i] == nodes[..i];
  }

  /** The images of the first `k` nodes are the first `k` images. */
  lemma {:induction false} CardImagesPrefix(w: FlagWorld, nodes: seq<TeamNode>, oracle: Oracle, k: nat)
    requires k <= |nodes|
    ensures CardImages(w, nodes, oracle).0[..k] == CardImages(w, nodes[..k], oracle).0
    decreases |nodes|
  {
    if k < |nodes| {
      var init := nodes[..|nodes| - 1];
      CardImagesPrefix(w, init, oracle, k);
      assert init[..k] == nodes[..k];
      assert CardImages(w, nodes, oracle).0[..k] == CardImages(w, init, oracle).0[..k];
    } else {
      assert nodes[..k] == nodes;
    }
  }

  /** Image `i` is the lookup for node `i` against the mapping and disk the earlier nodes left. */
  lemma CardImagesAt(w: FlagWorld, nodes: seq<TeamNode>, oracle: Oracle, i: nat)
    requires i < |nodes|
    ensures CardImages(w, nodes, oracle).0[i] ==
      NodeImage(CardImages(w, nodes[..i], oracle).1, nodes[i].imgSrc, nodes[i].name, oracle).0
  {
    CardImagesPrefix(w, nodes, oracle, i + 1);
    assert nodes[..i + 1][..i] == nodes[..i];
    assert CardImages(w, nodes, oracle).0[i] == CardImages(w, nodes, oracle).0[..i + 1][i];
  }

  /** The teams of a card: its names, cut to the first two when there are more than two. */
  function CardTeams(nodes: seq<TeamNode>): (teams: seq<string>)
    ensures |teams| <= 2 && |teams| <= |CardNames(nodes)| && teams == CardNames(nodes)[..|teams|]
    ensures |CardNames(nodes)| <= 2 ==> teams == CardNames(nodes)
  {
    var names := CardNames(nodes);
    if |names| > 2 then names[..2] else names
  }

  /**
   * The record of one card, or `None` when it is skipped (the flag lookups it made stay
   * done). Teams and images are cut to two only when more than two names were found.
   */
  function CardRecord(w: FlagWorld, c: Card, oracle: Oracle): (r: (Option<MatchRecord>, FlagWorld))
    ensures r.1 == CardImages(w, c.teamNodes, oracle).1
    ensures r.0.None? <==> !Kept(CardTitle(c.p), CardTeams(c.teamNodes), c.matchResult)
    ensures r.0.Some? ==> r.0.value.title == CardTitle(c.p) && r.0.value.status == CardStatus(c.p)
    ensures r.0.Some? ==> r.0.value.timeOrVenue == c.matchResult && r.0.value.teams == CardTeams(c.teamNodes)
    ensures r.0.Some? ==> |r.0.value.teamImages| == if |CardNames(c.teamNodes)| > 2 then 2 else |c.teamNodes|
    ensures r.0.Some? ==>
      r.0.value.teamImages == (if |CardNames(c.teamNodes)| > 2 then CardImages(w, c.teamNodes, oracle).0[..2] else CardImages(w, c.teamNodes, oracle).0)
    ensures r.0.Some? ==> r.0.value.link == NormSrc(r.1.maps.idToPath, c.href)
  {
    var title := CardTitle(c.p);
    var names := CardNames(c.teamNodes);
    var images := CardImages(w, c.teamNodes, oracle);
    var teams := CardTeams(c.teamNodes);
    var imgs := if |names| > 2 then images.0[..2] else images.0;
    var link := NormSrc(images.1.maps.idToPath, c.href);
    if !Kept(title, teams, c.matchResult) then (None, images.1)
    else (Some(MatchRecord(title, teams, imgs, CardStatus(c.p), c.matchResult, link)), images.1)
  }

  /** What every record read from a card satisfies: it passed the skip test and has at most two teams. */
  predicate CardShape(r: MatchRecord) {
    Kept(r.title, r.teams, r.timeOrVenue) && |r.teams| <= 2
  }

  /** The step that reads one card. */
  function CardStep(oracle: Oracle): (FlagWorld, Card) -> (Option<MatchRecord>, FlagWorld) {
    (w: FlagWorld, c: Card) => CardRecord(w, c, oracle)
  }

  /** All cards in page order, threading the flags mapping and the disk. */
  function CardRecords(w: FlagWorld, cards: seq<Card>, oracle: Oracle): (r: (seq<MatchRecord>, FlagWorld))
    ensures |r.0| <= |cards|
  {
    Collect(w, cards, CardStep(oracle))
  }

  lemma CardRecordsStep(w: FlagWorld, cards: seq<Card>, i: nat, oracle: Oracle)
    requires i < |cards|
    ensures var prev := CardRecords(w, cards[..i], oracle);
      var rec := CardRecord(prev.1, cards[i], oracle);
      CardRecords(w, cards[..i + 1], oracle) == (if rec.0.Some? then prev.0 + [rec.0.value] else prev.0, rec.1)
  {
    CollectStep(w, cards, i, CardStep(oracle));
    var prev := CardRecords(w, cards[..i], oracle);
    var rec := CardRecord(prev.1, cards[i], oracle);
    assert CardStep(oracle)(prev.1, cards[i]) == rec;
    if rec.0.None? {
      assert prev.0 + OptionToSeq(rec.0) == prev.0;
    }
  }

  /** Every record kept from the cards passed the skip test and has at most two teams. */
  lemma CardRecordsKept(w: FlagWorld, cards: seq<Card>, oracle: Oracle)
    ensures var r := CardRecords(w, cards, oracle);
      forall i :: 0 <= i < |r.0| ==> Kept(r.0[i].title, r.0[i].teams, r.0[i].timeOrVenue) && |r.0[i].teams| <= 2
  {
    forall t: FlagWorld, c: Card | CardStep(oracle)(t, c).0.Some? ensures CardShape(CardStep(oracle)(t, c).0.value) {
      assert CardStep(oracle)(t, c) == CardRecord(t, c, oracle);
    }
    CollectAll(w, cards, CardStep(oracle), CardShape);
  }

  /**
   * Three team nodes, one without a name: two teams, no cut, and three images — the
   * image list of a card is not bounded by two.
   */
  lemma CardImagesCanExceedTwo(w: FlagWorld, oracle: Oracle)
    ensures var c := Card(None, [TeamNode("A", None), TeamNode("", None), TeamNode("B", None)], None, None);
      var r := CardRecord(w, c, oracle);
      r.0.Some? && r.0.value.teams == ["A", "B"] && |r.0.value.teamImages| == 3
  {
    var a, e, b := TeamNode("A", None), TeamNode("", None), TeamNode("B", None);
    CardNamesAppend([a], [e]);
    CardNamesAppend([a, e], [b]);
    assert [a] + [e] == [a, e] && [a, e] + [b] == [a, e, b];
    assert CardNames([a, e, b]) == ["A", "B"];
  }

  // ---------------------------------------------------------------------------------
  // Schedule table

  /** The first two team links of a row, or all of them when there are fewer. */
  function FirstTwo(links: seq<TeamLink>): (r: seq<TeamLink>)
    ensures |r| <= 2 && |r| <= |links| && r == links[..|r|]
    ensures |links| <= 2 ==> r == links
  {
    if |links| > 2 then links[..2] else links
  }

  /** The composed title: "A vs B, type", "A vs B", "type" or "". */
  function TableTitle(teams: seq<string>, matchType: Option<string>): (t: string)
    requires |teams| <= 2
    ensures |teams| == 2 && matchType.Some? ==> t == teams[0] + " vs " + teams[1] + ", " + matchType.value
    ensures |teams| == 1 && matchType.Some? ==> t == teams[0] + ", " + matchType.value
    ensures |teams| == 2 && matchType.None? ==> t == teams[0] + " vs " + teams[1]
    ensures |teams| == 1 && matchType.None? ==> t == teams[0]
    ensures teams == [] && matchType.Some? ==> t == matchType.value
    ensures teams == [] && matchType.None? ==> t == ""
  {
    var vs := Join(" vs ", teams);
    assert |teams| == 2 ==> vs == teams[0] + " vs " + teams[1] by {
      if |teams| == 2 {
        assert teams[1..] == [teams[1]];
        assert Join(" vs ", teams[1..]) == teams[1];
      }
    }
    var parts := (if teams != [] then [vs] else []) + (if matchType.Some? then [matchType.value] else []);
    assert |parts| == 2 ==> Join(", ", parts) == parts[0] + ", " + parts[1] by {
      if |parts| == 2 {
        assert parts[1..] == [parts[1]];
        assert Join(", ", parts[1..]) == parts[1];
      }
    }
    if parts != [] then Join(", ", parts) else if matchType.Some? then matchType.value else ""
  }

  /** Python's `\w` on ASCII. */
  predicate IsWordChar(c: char) {
    IsLowerAscii(c) || ('A' <= c <= 'Z') || IsDigit(c) || c == '_'
  }

  /** `\bPST\b`, ignoring case, at index `i`. */
  predicate PstWordAt(s: string, i: nat) {
    && i + 3 <= |s|
    && Lower(s[i..i + 3]) == "pst"
    && (i == 0 || !IsWordChar(s[i - 1]))
    && (i + 3 == |s| || !IsWordChar(s[i + 3]))
  }

  /** The upcoming test on the date text, ignoring case: "am" or "pm" anywhere, or "pst" as a whole word. */
  predicate HasTimeMarker(s: string) {
    Contains(Lower(s), "am") || Contains(Lower(s), "pm") || exists i: nat :: i < |s| && PstWordAt(s, i)
  }

  /** The status of a table row: "Upcoming" exactly when its date line has a time marker. */
  function RowStatus(dateTime: Option<string>): (r: Option<string>)
    ensures r.Some? <==> dateTime.Some? && dateTime.value != "" && HasTimeMarker(dateTime.value)
    ensures r.Some? ==> r.value == "Upcoming"
  {
    if Truthy(dateTime) && HasTimeMarker(dateTime.value) then Some("Upcoming") else None
  }

  /** The flag image of one team link: its raw source looked up as a card's team node's is. */
  function LinkImage(oracle: Oracle): (FlagWorld, TeamLink) -> (Option<string>, FlagWorld) {
    (w: FlagWorld, a: TeamLink) => NodeImage(w, ImgRaw(a.img), a.name, oracle)
  }

  /** An `href` normalised against the mapping as it stands. */
  function LinkNorm(): (FlagWorld, Option<string>) -> Option<string> {
    (w: FlagWorld, h: Option<string>) => NormSrc(w.maps.idToPath, h)
  }

  lemma LinkNormNeverEmpty()
    ensures NeverEmpty(LinkNorm())
  {
    forall t: FlagWorld, h: Option<string> ensures LinkNorm()(t, h) != Some("") {
      var r := NormSrc(t.maps.idToPath, h);
      assert r.Some? ==> r.value != "";
    }
  }

  /** The walk over a row's team links, threading the flags mapping and the disk. */
  function ScanLinks(w: FlagWorld, links: seq<TeamLink>, oracle: Oracle): (s: LinkScan<FlagWorld>)
    ensures |s.images| == |links| && |s.names| <= |links|
    ensures forall i :: 0 <= i < |s.names| ==> s.names[i] != ""
    ensures s.link.Some? ==> s.link.value != ""
  {
    LinkNormNeverEmpty();
    ScanWithLinkNotEmpty(w, links, LinkImage(oracle), LinkNorm());
    ScanWith(w, links, LinkImage(oracle), LinkNorm())
  }

  /** One more link, as the loop over a row's team links takes it. */
  lemma ScanLinksStep(w: FlagWorld, links: seq<TeamLink>, i: nat, oracle: Oracle)
    requires i < |links|
    ensures var prev := ScanLinks(w, links[..i], oracle);
      var a := links[i];
      var img := NodeImage(prev.world, ImgRaw(a.img), a.name, oracle);
      ScanLinks(w, links[..i + 1], oracle) ==
        LinkScan(if a.name != "" then prev.names + [a.name] else prev.names,
                 prev.images + [img.0],
                 if !Truthy(prev.link) && Truthy(a.href) then NormSrc(img.1.maps.idToPath, a.href) else prev.link,
                 img.1)
  {
    ScanWithStep(w, links, i, LinkImage(oracle), LinkNorm());
  }

  /** The record of one table row, or `None` when it has no cells or is skipped. */
  function RowRecord(w: FlagWorld, row: Row, oracle: Oracle): (r: (Option<MatchRecord>, FlagWorld))
    ensures row == [] ==> r == (None, w)
    ensures r.0.Some? ==> |r.0.value.teams| <= 2 && |r.0.value.teamImages| <= 2
    ensures r.0.Some? ==> r.0.value.status == RowStatus(r.0.value.timeOrVenue)
    ensures r.0.Some? ==> r.0.value.timeOrVenue == (if |row| >= 3 then NonEmpty(row[2].text) else None)
    ensures r.0.Some? ==> Kept(r.0.value.title, r.0.value.teams, r.0.value.timeOrVenue)
  {
    if row == [] then (None, w)
    else
      var scan := ScanLinks(w, FirstTwo(row[0].teamLinks), oracle);
      var link := if !Truthy(scan.link) && row[0].firstHref.Some? then NormSrc(scan.world.maps.idToPath, row[0].firstHref) else scan.link;
      var matchType := if |row| >= 2 then NonEmpty(row[1].text) else None;
      var dateTime := if |row| >= 3 then NonEmpty(row[2].text) else None;
      var title := TableTitle(scan.names, matchType);
      if !Kept(title, scan.names, dateTime) then (None, scan.world)
      else (Some(MatchRecord(title, scan.names, scan.images, RowStatus(dateTime), dateTime, link)), scan.world)
  }

  /**
   * A kept row: its teams are the non-empty names of its first two team links, in order;
   * its title is composed from them and the match type; its images are the walk's images;
   * its link is the walk's, or else the normalised first `href` of its first cell.
   */
  lemma RowRecordFields(w: FlagWorld, row: Row, oracle: Oracle)
    requires RowRecord(w, row, oracle).0.Some?
    ensures row != []
    ensures var links := FirstTwo(row[0].teamLinks);
      var scan := ScanLinks(w, links, oracle);
      var r := RowRecord(w, row, oracle).0.value;
      && r.teams == NonEmptyStrings(LinkNames(links))
      && r.title == TableTitle(r.teams, if |row| >= 2 then NonEmpty(row[1].text) else None)
      && r.teamImages == scan.images
      && r.link == (if scan.link.Some? then scan.link else NormSrc(scan.world.maps.idToPath, row[0].firstHref))
  {
    ScanWithNames(w, FirstTwo(row[0].teamLinks), LinkImage(oracle), LinkNorm());
  }

  /**
   * Team link `j` can give the row its link: its `href` is non-empty and normalises to a
   * path against the mapping as it stands after link `j`'s own image lookup.
   */
  predicate RowLinkFrom(w: FlagWorld, links: seq<TeamLink>, oracle: Oracle, j: nat)
    requires j < |links|
  {
    LinkFrom(w, links, LinkImage(oracle), LinkNorm(), j)
  }

  /** The walk's link is the normalised `href` of the first link that can give one. */
  lemma ScanLinksFirstLink(w: FlagWorld, links: seq<TeamLink>, oracle: Oracle, j: nat)
    requires j < |links| && RowLinkFrom(w, links, oracle, j)
    requires forall k :: 0 <= k < j ==> !RowLinkFrom(w, links, oracle, k)
    ensures ScanLinks(w, links, oracle).link == NormSrc(ScanLinks(w, links[..j + 1], oracle).world.maps.idToPath, links[j].href)
  {
    LinkNormNeverEmpty();
    forall k | 0 <= k < j ensures !LinkFrom(w, links, LinkImage(oracle), LinkNorm(), k) {
      assert !RowLinkFrom(w, links, oracle, k);
    }
    ScanWithFirstLink(w, links, LinkImage(oracle), LinkNorm(), j);
    var world := ScanLinks(w, links[..j + 1], oracle).world;
    assert LinkNorm()(world, links[j].href) == NormSrc(world.maps.idToPath, links[j].href);
  }

  /** No link can give one: the walk's link stays unset. */
  lemma ScanLinksNoLink(w: FlagWorld, links: seq<TeamLink>, oracle: Oracle)
    requires forall j :: 0 <= j < |links| ==> !RowLinkFrom(w, links, oracle, j)
    ensures ScanLinks(w, links, oracle).link.None?
  {
    LinkNormNeverEmpty();
    forall j | 0 <= j < |links| ensures !LinkFrom(w, links, LinkImage(oracle), LinkNorm(), j) {
      assert !RowLinkFrom(w, links, oracle, j);
    }
    ScanWithNoLink(w, links, LinkImage(oracle), LinkNorm());
  }

  /** A kept row's link comes from the first of its first two team links that can give one. */
  lemma RowRecordFirstLink(w: FlagWorld, row: Row, oracle: Oracle, j: nat)
    requires RowRecord(w, row, oracle).0.Some?
    requires j < |FirstTwo(row[0].teamLinks)| && RowLinkFrom(w, FirstTwo(row[0].teamLinks), oracle, j)
    requires forall k :: 0 <= k < j ==> !RowLinkFrom(w, FirstTwo(row[0].teamLinks), oracle, k)
    ensures var links := FirstTwo(row[0].teamLinks);
      RowRecord(w, row, oracle).0.value.link == NormSrc(ScanLinks(w, links[..j + 1], oracle).world.maps.idToPath, links[j].href)
  {
    RowRecordFields(w, row, oracle);
    ScanLinksFirstLink(w, FirstTwo(row[0].teamLinks), oracle, j);
  }

  /** When none of them can, a kept row's link is the normalised first `href` of its first cell. */
  lemma RowRecordNoLink(w: FlagWorld, row: Row, oracle: Oracle)
    requires RowRecord(w, row, oracle).0.Some?
    requires forall j :: 0 <= j < |FirstTwo(row[0].teamLinks)| ==> !RowLinkFrom(w, FirstTwo(row[0].teamLinks), oracle, j)
    ensures RowRecord(w, row, oracle).0.value.link ==
      NormSrc(ScanLinks(w, FirstTwo(row[0].teamLinks), oracle).world.maps.idToPath, row[0].firstHref)
  {
    RowRecordFields(w, row, oracle);
    ScanLinksNoLink(w, FirstTwo(row[0].teamLinks), oracle);
  }

  /** Image `i` of a kept row is the lookup for its team link `i`, in link order. */
  lemma RowRecordImageAt(w: FlagWorld, row: Row, oracle: Oracle, i: nat)
    requires RowRecord(w, row, oracle).0.Some?
    requires i < |RowRecord(w, row, oracle).0.value.teamImages|
    ensures var links := FirstTwo(row[0].teamLinks);
      i < |links| &&
      RowRecord(w, row, oracle).0.value.teamImages[i] ==
        NodeImage(ScanLinks(w, links[..i], oracle).world, ImgRaw(links[i].img), links[i].name, oracle).0
  {
    RowRecordFields(w, row, oracle);
    ScanWithImageAt(w, FirstTwo(row[0].teamLinks), LinkImage(oracle), LinkNorm(), i);
  }

  /** Only the first two team links of a row are read; any further ones change nothing. */
  lemma RowReadsTwoLinks(w: FlagWorld, row: Row, oracle: Oracle, extra: seq<TeamLink>)
    requires row != [] && |row[0].teamLinks| >= 2
    ensures RowRecord(w, row[0 := row[0].(teamLinks := row[0].teamLinks[..2] + extra)], oracle) == RowRecord(w, row, oracle)
  {
    var row' := row[0 := row[0].(teamLinks := row[0].teamLinks[..2] + extra)];
    assert (row[0].teamLinks[..2] + extra)[..2] == row[0].teamLinks[..2];
    assert FirstTwo(row'[0].teamLinks) == FirstTwo(row[0].teamLinks);
    assert |row'| == |row| && forall i :: 1 <= i < |row| ==> row'[i] == row[i];
    RowRecordReads(w, row', row, oracle);
  }

  /** A row's record depends only on its first two links, first `href` and the texts of cells 1 and 2. */
  lemma RowRecordReads(w: FlagWorld, row: Row, row': Row, oracle: Oracle)
    requires row != [] && |row'| == |row|
    requires FirstTwo(row[0].teamLinks) == FirstTwo(row'[0].teamLinks) && row[0].firstHref == row'[0].firstHref
    requires |row| >= 2 ==> row[1].text == row'[1].text
    requires |row| >= 3 ==> row[2].text == row'[2].text
    ensures RowRecord(w, row, oracle) == RowRecord(w, row', oracle)
  {
  }

  lemma StripNonEmpty(s: string)
    requires s != [] && !IsSpace(s[0])
    ensures Strip(s) != ""
  {
    assert LStrip(s) == s;
    RStripCutsSpace(s);
  }

  /**
   * With stripped cell texts and named links, a row with cells is dropped exactly when it
   * has no team name, no match type and no date line.
   */
  lemma RowDroppedIff(w: FlagWorld, row: Row, oracle: Oracle)
    requires row != []
    requires forall i :: 0 <= i < |row| ==> IsStripped(row[i].text)
    ensures var names := ScanLinks(w, FirstTwo(row[0].teamLinks), oracle).names;
      RowRecord(w, row, oracle).0.None? <==>
        names == [] && (|row| < 2 || row[1].text == "") && (|row| < 3 || row[2].text == "")
  {
    var scan := ScanLinks(w, FirstTwo(row[0].teamLinks), oracle);
    var matchType := if |row| >= 2 then NonEmpty(row[1].text) else None;
    var dateTime := if |row| >= 3 then NonEmpty(row[2].text) else None;
    var title := TableTitle(scan.names, matchType);
    assert RowRecord(w, row, oracle).0.None? <==> !Kept(title, scan.names, dateTime);
    if scan.names == [] {
      assert title == if matchType.Some? then matchType.value else "";
      if |row| >= 2 && row[1].text != "" {
        StripNonEmpty(row[1].text);
      }
      if |row| >= 3 && row[2].text != "" {
        StripNonEmpty(row[2].text);
      }
    }
  }

  /** "Amsterdam" contains "am", so a row dated there is marked Upcoming. */
  lemma AmsterdamIsUpcoming()
    ensures RowStatus(Some("Amsterdam")) == Some("Upcoming")
  {
    var l := Lower("Amsterdam");
    assert l[0] == 'a' && l[1] == 'm';
    assert l[0..2] == "am";
    assert OccursAt(l, "am", 0);
  }

  /** "8:00 PST" is marked by the PST word, "TBD" by nothing. */
  lemma PstAndTbd()
    ensures RowStatus(Some("8:00 PST")) == Some("Upcoming")
    ensures RowStatus(Some("TBD")) == None
  {
    var s := "8:00 PST";
    assert s[5..8] == "PST";
    assert Lower(s[5..8]) == "pst";
    assert PstWordAt(s, 5);
    var t := "TBD";
    var l := Lower(t);
    assert l == "tbd";
    forall i ensures !OccursAt(l, "am", i) && !OccursAt(l, "pm", i) {
      if 0 <= i && i + 2 <= |l| {
        assert l[i..i + 2][0] == l[i];
      }
    }
    assert !Contains(l, "am") && !Contains(l, "pm");
    assert forall i: nat :: i < |t| ==> !PstWordAt(t, i) by {
      forall i: nat | i < |t| ensures !PstWordAt(t, i) {
        if i == 0 {
          assert Lower(t[0..3]) == "tbd";
        }
      }
    }
  }

  /** What every record read from a row satisfies: it passed the skip test, with at most two teams and images. */
  predicate RowShape(r: MatchRecord) {
    Kept(r.title, r.teams, r.timeOrVenue) && |r.teams| <= 2 && |r.teamImages| <= 2
  }

  /** The step that reads one table row. */
  function RowStep(oracle: Oracle): (FlagWorld, Row) -> (Option<MatchRecord>, FlagWorld) {
    (w: FlagWorld, row: Row) => RowRecord(w, row, oracle)
  }

  /** All rows in table order, threading the flags mapping and the disk. */
  function RowRecords(w: FlagWorld, rows: seq<Row>, oracle: Oracle): (r: (seq<MatchRecord>, FlagWorld))
    ensures |r.0| <= |rows|
  {
    Collect(w, rows, RowStep(oracle))
  }

  lemma RowRecordsStep(w: FlagWorld, rows: seq<Row>, i: nat, oracle: Oracle)
    requires i < |rows|
    ensures var prev := RowRecords(w, rows[..i], oracle);
      var rec := RowRecord(prev.1, rows[i], oracle);
      RowRecords(w, rows[..i + 1], oracle) == (if rec.0.Some? then prev.0 + [rec.0.value] else prev.0, rec.1)
  {
    CollectStep(w, rows, i, RowStep(oracle));
    var prev := RowRecords(w, rows[..i], oracle);
    var rec := RowRecord(prev.1, rows[i], oracle);
    assert RowStep(oracle)(prev.1, rows[i]) == rec;
    if rec.0.None? {
      assert prev.0 + OptionToSeq(rec.0) == prev.0;
    }
  }

  /** Every record kept from the rows passed the skip test and has at most two teams and two images. */
  lemma RowRecordsKept(w: FlagWorld, rows: seq<Row>, oracle: Oracle)
    ensures var r := RowRecords(w, rows, oracle);
      forall i :: 0 <= i < |r.0| ==>
        Kept(r.0[i].title, r.0[i].teams, r.0[i].timeOrVenue) && |r.0[i].teams| <= 2 && |r.0[i].teamImages| <= 2
  {
    forall t: FlagWorld, row: Row | RowStep(oracle)(t, row).0.Some? ensures RowShape(RowStep(oracle)(t, row).0.value) {
      assert RowStep(oracle)(t, row) == RowRecord(t, row, oracle);
    }
    CollectAll(w, rows, RowStep(oracle), RowShape);
  }

  /** The records of the schedule table, when the page has one. */
  function TableRecords(w: FlagWorld, table: Option<seq<Row>>, oracle: Oracle): (r: (seq<MatchRecord>, FlagWorld))
    ensures table.None? ==> r == ([], w)
  {
    if table.None? then ([], w) else RowRecords(w, table.value, oracle)
  }

  // ---------------------------------------------------------------------------------
  // Merge

  /** The de-duplication key of an item: title, dash-joined teams and time, separated by `|`. */
  function Key(r: MatchRecord): string {
    r.title + "|" + Join("-", r.teams) + "|" + (if r.timeOrVenue.Some? then r.timeOrVenue.value else "")
  }

  function KeySet(xs: seq<MatchRecord>): (ks: set<string>)
    ensures forall i :: 0 <= i < |xs| ==> Key(xs[i]) in ks
    decreases |xs|
  {
    if xs == [] then {}
    else
      var init := xs[..|xs| - 1];
      assert forall i :: 0 <= i < |init| ==> init[i] == xs[i];
      KeySet(init) + {Key(xs[|xs| - 1])}
  }

  /** The key set holds the keys of the items and nothing else. */
  lemma {:induction false} KeySetIsKeys(xs: seq<MatchRecord>)
    ensures KeySet(xs) == set i | 0 <= i < |xs| :: Key(xs[i])
    decreases |xs|
  {
    if xs != [] {
      var init := xs[..|xs| - 1];
      KeySetIsKeys(init);
      assert forall i :: 0 <= i < |init| ==> init[i] == xs[i];
    }
  }

  predicate DistinctKeys(xs: seq<MatchRecord>) {
    forall i, j :: 0 <= i < j < |xs| ==> Key(xs[i]) != Key(xs[j])
  }

  /** The merge's `seen` set walk: an item is kept unless an earlier one had its key. */
  function Dedupe(xs: seq<MatchRecord>): (r: seq<MatchRecord>)
    ensures |r| <= |xs|
    decreases |xs|
  {
    if xs == [] then []
    else
      var init := xs[..|xs| - 1];
      var x := xs[|xs| - 1];
      var d := Dedupe(init);
      if Key(x) in KeySet(init) then d else d + [x]
  }

  /** The merge keeps every key of its input, and each key once. */
  lemma {:induction false} DedupeKeys(xs: seq<MatchRecord>)
    ensures KeySet(Dedupe(xs)) == KeySet(xs)
    ensures DistinctKeys(Dedupe(xs))
    decreases |xs|
  {
    if xs != [] {
      var init := xs[..|xs| - 1];
      var x := xs[|xs| - 1];
      var d := Dedupe(init);
      DedupeKeys(init);
      if Key(x) !in KeySet(init) {
        var r := d + [x];
        assert r[..|d|] == d;
        assert KeySet(r) == KeySet(d) + {Key(x)};
        forall i, j | 0 <= i < j < |r| ensures Key(r[i]) != Key(r[j]) {
          if j == |d| {
            assert r[i] == d[i];
          } else {
            assert r[i] == d[i] && r[j] == d[j];
          }
        }
      }
    }
  }

  /** One step of the merge loop. */
  lemma DedupeSnoc(xs: seq<MatchRecord>, x: MatchRecord)
    ensures Dedupe(xs + [x]) == if Key(x) in KeySet(xs) then Dedupe(xs) else Dedupe(xs) + [x]
    ensures KeySet(xs + [x]) == KeySet(xs) + {Key(x)}
  {
    assert (xs + [x])[..|xs|] == xs;
  }

  /** What `parse_schedules_html` returns, and the flags mapping and disk it leaves. */
  function Schedules(w: FlagWorld, cards: seq<Card>, table: Option<seq<Row>>, oracle: Oracle): (r: (seq<MatchRecord>, FlagWorld))
    ensures DistinctKeys(r.0)
    ensures KeySet(r.0) == KeySet(CardRecords(w, cards, oracle).0) + KeySet(TableRecords(CardRecords(w, cards, oracle).1, table, oracle).0)
  {
    var c := CardRecords(w, cards, oracle);
    var t := TableRecords(c.1, table, oracle);
    KeySetAppend(c.0, t.0);
    DedupeKeys(c.0 + t.0);
    (Dedupe(c.0 + t.0), t.1)
  }

  lemma {:induction false} KeySetAppend(a: seq<MatchRecord>, b: seq<MatchRecord>)
    ensures KeySet(a + b) == KeySet(a) + KeySet(b)
    decreases |b|
  {
    if b == [] {
      assert a + b == a;
    } else {
      KeySetAppend(a, b[..|b| - 1]);
      assert (a + b)[..|a + b| - 1] == a + b[..|b| - 1];
    }
  }

  /** `a` can be obtained from `b` by deleting items. */
  ghost predicate Subseq(a: seq<MatchRecord>, b: seq<MatchRecord>)
    decreases |b|
  {
    if a == [] then true
    else if b == [] then false
    else (a[|a| - 1] == b[|b| - 1] && Subseq(a[..|a| - 1], b[..|b| - 1])) || Subseq(a, b[..|b| - 1])
  }

  /** The merged list keeps the input order. */
  lemma {:induction false} DedupeSubseq(xs: seq<MatchRecord>)
    ensures Subseq(Dedupe(xs), xs)
    decreases |xs|
  {
    if xs != [] {
      var init := xs[..|xs| - 1];
      DedupeSubseq(init);
      var r := Dedupe(xs);
      if r != [] && r != Dedupe(init) {
        assert r[..|r| - 1] == Dedupe(init);
      }
    }
  }

  /** Each merged item is the earliest input item with its key. */
  lemma {:induction false} DedupeKeepsFirst(xs: seq<MatchRecord>, j: nat)
    requires j < |Dedupe(xs)|
    ensures exists i :: 0 <= i < |xs| && xs[i] == Dedupe(xs)[j] &&
                        (forall i' :: 0 <= i' < i ==> Key(xs[i']) != Key(xs[i]))
    decreases |xs|
  {
    var init := xs[..|xs| - 1];
    var d := Dedupe(init);
    if j < |d| {
      DedupeKeepsFirst(init, j);
      var i :| 0 <= i < |init| && init[i] == d[j] && forall i' :: 0 <= i' < i ==> Key(init[i']) != Key(init[i]);
      assert xs[i] == init[i];
      assert forall i' :: 0 <= i' < i ==> xs[i'] == init[i'];
    } else {
      assert Dedupe(xs)[j] == xs[|xs| - 1];
      LastIsFirstOfItsKey(xs);
    }
  }

  /** The last item, when kept, has a key no earlier item has. */
  lemma LastIsFirstOfItsKey(xs: seq<MatchRecord>)
    requires xs != [] && Key(xs[|xs| - 1]) !in KeySet(xs[..|xs| - 1])
    ensures forall i' :: 0 <= i' < |xs| - 1 ==> Key(xs[i']) != Key(xs[|xs| - 1])
  {
    var init := xs[..|xs| - 1];
    forall i' | 0 <= i' < |xs| - 1 ensures Key(xs[i']) != Key(xs[|xs| - 1]) {
      assert xs[i'] == init[i'];
    }
  }

  /** Card items come first: the merge of the cards alone is a prefix of the whole merge. */
  lemma {:induction false} DedupePrefix(a: seq<MatchRecord>, b: seq<MatchRecord>)
    ensures |Dedupe(a)| <= |Dedupe(a + b)| && Dedupe(a + b)[..|Dedupe(a)|] == Dedupe(a)
    ensures forall j :: |Dedupe(a)| <= j < |Dedupe(a + b)| ==> Dedupe(a + b)[j] in b
    decreases |b|
  {
    if b == [] {
      assert a + b == a;
    } else {
      var b' := b[..|b| - 1];
      var x := b[|b| - 1];
      DedupePrefix(a, b');
      var da, db', dab := Dedupe(a), Dedupe(a + b'), Dedupe(a + b);
      assert (a + b)[..|a + b| - 1] == a + b';
      assert (a + b)[|a + b| - 1] == x;
      assert dab == db' || dab == db' + [x];
      assert dab[..|db'|] == db';
      assert dab[..|da|] == db'[..|da|];
      forall j | |da| <= j < |dab| ensures dab[j] in b {
        if j < |db'| {
          assert dab[j] == db'[j];
          assert db'[j] in b';
        } else {
          assert dab[j] == x;
        }
      }
    }
  }

  /**
   * Keys can collide: a team called "a-b" and the teams "a" and "b" give the same key,
   * and the later record is dropped although it is a different match.
   */
  lemma KeysCollide()
    ensures var r1 := MatchRecord("t", ["a-b"], [], None, None, None);
      var r2 := MatchRecord("t", ["a", "b"], [], None, None, None);
      r1 != r2 && Key(r1) == Key(r2) && Dedupe([r1, r2]) == [r1]
  {
    var r1 := MatchRecord("t", ["a-b"], [], None, None, None);
    var r2 := MatchRecord("t", ["a", "b"], [], None, None, None);
    assert Join("-", ["a", "b"]) == "a" + "-" + Join("-", ["b"]);
    assert [r1, r2][..1] == [r1];
    assert Key(r1) == Key(r2);
  }

  // ---------------------------------------------------------------------------------
  // The imperative passes

  /** One flag image, resolving through the shared mapping. */
  method NodeImageStep(store: FlagStore, files: Files, raw: Option<string>, name: string, oracle: Oracle)
    returns (img: Option<string>, files': Files)
    modifies store
    ensures (img, FlagWorld(store.Maps(), files')) == NodeImage(FlagWorld(old(store.Maps()), files), raw, name, oracle)
  {
    var enriched: Option<string> := None;
    files' := files;
    if Truthy(raw) && name != "" {
      var m := FindFlagId(raw.value);
      if m.Some? {
        enriched, files' := store.EnsureFlagLocal(files, m.value, name, oracle(m.value));
      }
    }
    img := OrElse(enriched, NormSrc(store.idToPath, raw));
  }

  /** The loop over a card's team nodes: the names, and one image per node. */
  method ScanTeamNodes(store: FlagStore, files: Files, nodes: seq<TeamNode>, oracle: Oracle)
    returns (teams: seq<string>, images: seq<Option<string>>, files': Files)
    modifies store
    ensures teams == CardNames(nodes)
    ensures images == CardImages(FlagWorld(old(store.Maps()), files), nodes, oracle).0
    ensures FlagWorld(store.Maps(), files') == CardImages(FlagWorld(old(store.Maps()), files), nodes, oracle).1
  {
    ghost var w0 := FlagWorld(store.Maps(), files);
    teams := [];
    images := [];
    files' := files;
    var i := 0;
    while i < |nodes|
      invariant 0 <= i <= |nodes|
      invariant teams == CardNames(nodes[..i])
      invariant (images, FlagWorld(store.Maps(), files')) == CardImages(w0, nodes[..i], oracle)
    {
      var tn := nodes[i];
      CardImagesStep(w0, nodes, i, oracle);
      assert nodes[..i + 1] == nodes[..i] + [tn];
      CardNamesAppend(nodes[..i], [tn]);
      if tn.name != "" {
        teams := teams + [tn.name];
      }
      var img;
      img, files' := NodeImageStep(store, files', tn.imgSrc, tn.name, oracle);
      images := images + [img];
      i := i + 1;
    }
    assert nodes[..i] == nodes;
  }

  /** The body of `_parse_match_updates`' loop for one card. */
  method ParseCard(store: FlagStore, files: Files, c: Card, oracle: Oracle) returns (rec: Option<MatchRecord>, files': Files)
    modifies store
    ensures (rec, FlagWorld(store.Maps(), files')) == CardRecord(FlagWorld(old(store.Maps()), files), c, oracle)
  {
    var p := c.p;
    var title := CardTitle(p);
    var teams, images;
    teams, images, files' := ScanTeamNodes(store, files, c.teamNodes, oracle);
    if |teams| > 2 {
      teams := teams[..2];
      images := images[..2];
    }
    var link := NormSrc(store.idToPath, c.href);
    if !Kept(title, teams, c.matchResult) {
      return None, files';
    }
    rec := Some(MatchRecord(title, teams, images, CardStatus(p), c.matchResult, link));
  }

  /** `_parse_match_updates(root)`: the records of the cards, in page order. */
  method ParseMatchUpdates(store: FlagStore, files: Files, cards: seq<Card>, oracle: Oracle)
    returns (items: seq<MatchRecord>, files': Files)
    modifies store
    ensures (items, FlagWorld(store.Maps(), files')) == CardRecords(FlagWorld(old(store.Maps()), files), cards, oracle)
  {
    ghost var w0 := FlagWorld(store.Maps(), files);
    items := [];
    files' := files;
    var i := 0;
    while i < |cards|
      invariant 0 <= i <= |cards|
      invariant (items, FlagWorld(store.Maps(), files')) == CardRecords(w0, cards[..i], oracle)
    {
      CardRecordsStep(w0, cards, i, oracle);
      var rec;
      rec, files' := ParseCard(store, files', cards[i], oracle);
      if rec.Some? {
        items := items + [rec.value];
      }
      i := i + 1;
    }
    assert cards[..i] == cards;
  }

  /** The body of `_parse_schedule_table`'s loop for one row. */
  method ParseRow(store: FlagStore, files: Files, row: Row, oracle: Oracle) returns (rec: Option<MatchRecord>, files': Files)
    modifies store
    ensures (rec, FlagWorld(store.Maps(), files')) == RowRecord(FlagWorld(old(store.Maps()), files), row, oracle)
  {
    files' := files;
    if row == [] {
      return None, files';
    }
    ghost var w0 := FlagWorld(store.Maps(), files);
    var teamsNames: seq<string> := [];
    var teamImages: seq<Option<string>> := [];
    var link: Option<string> := None;
    var links := FirstTwo(row[0].teamLinks);
    var i := 0;
    while i < |links|
      invariant 0 <= i <= |links|
      invariant LinkScan(teamsNames, teamImages, link, FlagWorld(store.Maps(), files')) == ScanLinks(w0, links[..i], oracle)
    {
      var a := links[i];
      ScanLinksStep(w0, links, i, oracle);
      if a.name != "" {
        teamsNames := teamsNames + [a.name];
      }
      var img;
      img, files' := NodeImageStep(store, files', ImgRaw(a.img), a.name, oracle);
      teamImages := teamImages + [img];
      if !Truthy(link) && Truthy(a.href) {
        link := NormSrc(store.idToPath, a.href);
      }
      i := i + 1;
    }
    assert links[..i] == links;
    if !Truthy(link) && row[0].firstHref.Some? {
      link := NormSrc(store.idToPath, row[0].firstHref);
    }
    var matchType: Option<string> := None;
    if |row| >= 2 {
      matchType := NonEmpty(row[1].text);
    }
    var dateTime: Option<string> := None;
    if |row| >= 3 {
      dateTime := NonEmpty(row[2].text);
    }
    var title := TableTitle(teamsNames, matchType);
    var status := RowStatus(dateTime);
    if !Kept(title, teamsNames, dateTime) {
      return None, files';
    }
    rec := Some(MatchRecord(title, teamsNames, teamImages, status, dateTime, link));
  }

  /** `_parse_schedule_table(root)`: no table gives no records. */
  method ParseScheduleTable(store: FlagStore, files: Files, table: Option<seq<Row>>, oracle: Oracle)
    returns (items: seq<MatchRecord>, files': Files)
    modifies store
    ensures (items, FlagWorld(store.Maps(), files')) == TableRecords(FlagWorld(old(store.Maps()), files), table, oracle)
  {
    items := [];
    files' := files;
    if table.None? {
      return;
    }
    var rows := table.value;
    ghost var w0 := FlagWorld(store.Maps(), files);
    var i := 0;
    while i < |rows|
      invariant 0 <= i <= |rows|
      invariant (items, FlagWorld(store.Maps(), files')) == RowRecords(w0, rows[..i], oracle)
    {
      RowRecordsStep(w0, rows, i, oracle);
      var rec;
      rec, files' := ParseRow(store, files', rows[i], oracle);
      if rec.Some? {
        items := items + [rec.value];
      }
      i := i + 1;
    }
    assert rows[..i] == rows;
  }

  /** The merge loop of `parse_schedules_html`: card items, then table items, first key wins. */
  method MergeSchedules(cardItems: seq<MatchRecord>, tableItems: seq<MatchRecord>) returns (merged: seq<MatchRecord>)
    ensures merged == Dedupe(cardItems + tableItems)
  {
    var all := cardItems + tableItems;
    merged := [];
    var seen: set<string> := {};
    var i := 0;
    while i < |all|
      invariant 0 <= i <= |all|
      invariant merged == Dedupe(all[..i])
      invariant seen == KeySet(all[..i])
    {
      var k := Key(all[i]);
      assert all[..i + 1] == all[..i] + [all[i]];
      DedupeSnoc(all[..i], all[i]);
      if k !in seen {
        seen := seen + {k};
        merged := merged + [all[i]];
      }
      i := i + 1;
    }
    assert all[..i] == all;
  }

  /** `parse_schedules_html`: the cards, then the table, then the merge. */
  method ParseSchedules(store: FlagStore, files: Files, cards: seq<Card>, table: Option<seq<Row>>, oracle: Oracle)
    returns (items: seq<MatchRecord>, files': Files)
    modifies store
    ensures (items, FlagWorld(store.Maps(), files')) == Schedules(FlagWorld(old(store.Maps()), files), cards, table, oracle)
  {
    var cardItems, files1 := ParseMatchUpdates(store, files, cards, oracle);
    var tableItems;
    tableItems, files' := ParseScheduleTable(store, files1, table, oracle);
    items := MergeSchedules(cardItems, tableItems);
  }
}
