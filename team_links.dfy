/**
 * The team links of a schedule-table row (the `a.team_name` anchors of its first cell)
 * and the walk `_parse_schedule_table` (scraper.py) makes over them: the non-empty names,
 * one flag image per link, and the row's link from the first `href` that normalises.
 *
 * The walk is stated over any state `S` with the image lookup and the `href`
 * normalisation as parameters; the schedule parser instantiates them with the flags
 * mapping and the disk.
 */
module TeamLinks {
  import opened Wrappers
  import opened Text

  /** An `<img>`: its `data-src` (lazy loading) and `src` attributes. */
  datatype Img = Img(dataSrc: Option<string>, src: Option<string>)

  /** An `a.team_name` link of a table row: name text, image, `href`. */
  datatype TeamLink = TeamLink(name: string, img: Option<Img>, href: Option<string>)

  /** The raw image source: `data-src` when it is non-empty, `src` otherwise. */
  function ImgRaw(img: Option<Img>): (r: Option<string>)
    ensures img.None? ==> r.None?
    ensures img.Some? && Truthy(img.value.dataSrc) ==> r == img.value.dataSrc
    ensures img.Some? && !Truthy(img.value.dataSrc) ==> r == img.value.src
  {
    match img
    case None => None
    case Some(i) => OrElse(i.dataSrc, i.src)
  }

  /** The state of the walk over a row's team links. */
  datatype LinkScan<S> = LinkScan(names: seq<string>, images: seq<Option<string>>, link: Option<string>, world: S)

  function LinkNames(links: seq<TeamLink>): seq<string> {
    seq(|links|, i requires 0 <= i < |links| => links[i].name)
  }

  /**
   * The walk over the links from state `s`: non-empty names, one image per link (looked
   * up by `image`, which may change the state), and the link set from a non-empty `href`
   * (normalised by `norm` against the state after that link's image) while no non-empty
   * link is set yet.
   */
  function ScanWith<S>(s: S, links: seq<TeamLink>, image: (S, TeamLink) -> (Option<string>, S),
                       norm: (S, Option<string>) -> Option<string>): (r: LinkScan<S>)
    ensures |r.images| == |links| && |r.names| <= |links|
    ensures forall i :: 0 <= i < |r.names| ==> r.names[i] != ""
    decreases |links|
  {
    if links == [] then LinkScan([], [], None, s)
    else
      var prev := ScanWith(s, links[..|links| - 1], image, norm);
      var a := links[|links| - 1];
      var names := if a.name != "" then prev.names + [a.name] else prev.names;
      var img := image(prev.world, a);
      var link := if !Truthy(prev.link) && Truthy(a.href) then norm(img.1, a.href) else prev.link;
      LinkScan(names, prev.images + [img.0], link, img.1)
  }

  /** One more link, as the loop over the links takes it. */
  lemma ScanWithStep<S>(s: S, links: seq<TeamLink>, i: nat, image: (S, TeamLink) -> (Option<string>, S),
                        norm: (S, Option<string>) -> Option<string>)
    requires i < |links|
    ensures var prev := ScanWith(s, links[..i], image, norm);
      var a := links[i];
      var img := image(prev.world, a);
      ScanWith(s, links[..i + 1], image, norm) ==
        LinkScan(if a.name != "" then prev.names + [a.name] else prev.names,
                 prev.images + [img.0],
                 if !Truthy(prev.link) && Truthy(a.href) then norm(img.1, a.href) else prev.link,
                 img.1)
  {
    assert links[..i + 1][..i] == links[..i];
  }

  /** The walk keeps the non-empty link names, in link order. */
  lemma {:induction false} ScanWithNames<S>(s: S, links: seq<TeamLink>, image: (S, TeamLink) -> (Option<string>, S),
                                            norm: (S, Option<string>) -> Option<string>)
    ensures ScanWith(s, links, image, norm).names == NonEmptyStrings(LinkNames(links))
    decreases |links|
  {
    if links != [] {
      var init := links[..|links| - 1];
      ScanWithNames(s, init, image, norm);
      assert LinkNames(links) == LinkNames(init) + [links[|links| - 1].name];
      NonEmptyStringsAppend(LinkNames(init), [links[|links| - 1].name]);
    }
  }

  /** The images of the first `k` links are the first `k` images. */
  lemma {:induction false} ScanWithPrefix<S>(s: S, links: seq<TeamLink>, image: (S, TeamLink) -> (Option<string>, S),
                                             norm: (S, Option<string>) -> Option<string>, k: nat)
    requires k <= |links|
    ensures ScanWith(s, links, image, norm).images[..k] == ScanWith(s, links[..k], image, norm).images
    decreases |links|
  {
    if k < |links| {
      var init := links[..|links| - 1];
      ScanWithPrefix(s, init, image, norm, k);
      assert init[..k] == links[..k];
      assert ScanWith(s, links, image, norm).images[..k] == ScanWith(s, init, image, norm).images[..k];
    } else {
      assert links[..k] == links;
    }
  }

  /** Image `i` is the lookup for link `i` against the state the earlier links left. */
  lemma ScanWithImageAt<S>(s: S, links: seq<TeamLink>, image: (S, TeamLink) -> (Option<string>, S),
                           norm: (S, Option<string>) -> Option<string>, i: nat)
    requires i < |links|
    ensures ScanWith(s, links, image, norm).images[i] == image(ScanWith(s, links[..i], image, norm).world, links[i]).0
  {
    ScanWithPrefix(s, links, image, norm, i + 1);
    ScanWithStep(s, links, i, image, norm);
    assert ScanWith(s, links, image, norm).images[i] == ScanWith(s, links, image, norm).images[..i + 1][i];
  }

  /**
   * Link `j` can give the row its link: its `href` is non-empty and normalises to a
   * non-empty path against the state after link `j`'s own image.
   */
  predicate LinkFrom<S>(s: S, links: seq<TeamLink>, image: (S, TeamLink) -> (Option<string>, S),
                        norm: (S, Option<string>) -> Option<string>, j: nat)
    requires j < |links|
  {
    Truthy(links[j].href) && Truthy(norm(ScanWith(s, links[..j + 1], image, norm).world, links[j].href))
  }

  lemma LinkFromPrefix<S>(s: S, links: seq<TeamLink>, image: (S, TeamLink) -> (Option<string>, S),
                          norm: (S, Option<string>) -> Option<string>, j: nat)
    requires j < |links| - 1
    ensures LinkFrom(s, links[..|links| - 1], image, norm, j) == LinkFrom(s, links, image, norm, j)
  {
    assert links[..|links| - 1][..j + 1] == links[..j + 1];
  }

  /** A normalisation that never gives an empty path. */
  ghost predicate NeverEmpty<S(!new)>(norm: (S, Option<string>) -> Option<string>) {
    forall t, h :: norm(t, h) != Some("")
  }

  /** No link can give one: the row's link stays unset. */
  lemma {:induction false} ScanWithNoLink<S(!new)>(s: S, links: seq<TeamLink>, image: (S, TeamLink) -> (Option<string>, S),
                                             norm: (S, Option<string>) -> Option<string>)
    requires NeverEmpty(norm)
    requires forall j :: 0 <= j < |links| ==> !LinkFrom(s, links, image, norm, j)
    ensures ScanWith(s, links, image, norm).link.None?
    decreases |links|
  {
    if links != [] {
      var n := |links|;
      var init := links[..n - 1];
      forall k | 0 <= k < n - 1 ensures !LinkFrom(s, init, image, norm, k) {
        LinkFromPrefix(s, links, image, norm, k);
      }
      ScanWithNoLink(s, init, image, norm);
      assert links[..n - 1 + 1] == links;
      assert !LinkFrom(s, links, image, norm, n - 1);
    }
  }

  /** The first link that can give one sets the row's link, and later links keep it. */
  lemma {:induction false} ScanWithFirstLink<S(!new)>(s: S, links: seq<TeamLink>, image: (S, TeamLink) -> (Option<string>, S),
                                                norm: (S, Option<string>) -> Option<string>, j: nat)
    requires NeverEmpty(norm)
    requires j < |links| && LinkFrom(s, links, image, norm, j)
    requires forall k :: 0 <= k < j ==> !LinkFrom(s, links, image, norm, k)
    ensures ScanWith(s, links, image, norm).link == norm(ScanWith(s, links[..j + 1], image, norm).world, links[j].href)
    decreases |links|
  {
    var n := |links|;
    var init := links[..n - 1];
    forall k | 0 <= k < j && k < n - 1 ensures !LinkFrom(s, init, image, norm, k) {
      LinkFromPrefix(s, links, image, norm, k);
    }
    if j == n - 1 {
      ScanWithNoLink(s, init, image, norm);
      assert links[..j + 1] == links;
    } else {
      LinkFromPrefix(s, links, image, norm, j);
      ScanWithFirstLink(s, init, image, norm, j);
      assert init[..j + 1] == links[..j + 1];
    }
  }

  /** The row's link is never an empty string. */
  lemma {:induction false} ScanWithLinkNotEmpty<S(!new)>(s: S, links: seq<TeamLink>, image: (S, TeamLink) -> (Option<string>, S),
                                                   norm: (S, Option<string>) -> Option<string>)
    requires NeverEmpty(norm)
    ensures ScanWith(s, links, image, norm).link != Some("")
    decreases |links|
  {
    if links != [] {
      ScanWithLinkNotEmpty(s, links[..|links| - 1], image, norm);
    }
  }
}
