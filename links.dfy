/**
 * `parse_tag` (scrape.py:54-61): an anchor of the profile page gives the
 * page path of a video and its display name.
 *
 * The page path is `re.match(r'.*?\?', href).group()[:-1]`: the shortest
 * prefix of `href` that ends in '?', without that '?'. As `.` does not match
 * a line feed, a line feed before the first '?' makes the match fail just as
 * a missing '?' does; `.group()` on the failed match then raises, which the
 * model returns as `None`. The name is the anchor's inner HTML as
 * BeautifulSoup renders it; that rendering is not part of this model, so a
 * tag carries it ready-made.
 */
module Links {
  import opened Wrappers

  /** An anchor as the scraper sees it: its `href` and its rendered contents. */
  datatype Tag = Tag(href: string, contents: string)

  /** Some '?' of `href` has no line feed before it: `.*?\?` matches. */
  predicate QueryMatches(href: string) {
    exists k :: 0 <= k < |href| && href[k] == '?' && '\n' !in href[..k]
  }

  /** The index of the first '?' of `href`, if no line feed comes before it. */
  function QueryStart(href: string): (r: Option<nat>)
    ensures r.Some? ==> r.value < |href| && href[r.value] == '?'
    ensures r.Some? ==> forall k :: 0 <= k < r.value ==> href[k] != '?' && href[k] != '\n'
    ensures r.Some? <==> QueryMatches(href)
  {
    if href == [] then None
    else if href[0] == '?' then
      assert href[..0] == [];
      Some(0)
    else if href[0] == '\n' then
      assert forall k :: 0 < k <= |href| ==> href[0] in href[..k];
      None
    else
      var rest := QueryStart(href[1..]);
      assert forall k :: 0 < k <= |href| ==> href[..k] == [href[0]] + href[1..][..k - 1];
      if rest.None? then None else Some(rest.value + 1)
  }

  /** The page path `parse_tag` returns (scrape.py:58): the prefix of `href`
      before its first '?', or `None` where the regex does not match. */
  function PageOf(href: string): (r: Option<string>)
    ensures r.Some? <==> QueryMatches(href)
    ensures r.Some? ==> |r.value| < |href| && r.value == href[..|r.value|]
    ensures r.Some? ==> href[|r.value|] == '?' && '?' !in r.value && '\n' !in r.value
  {
    match QueryStart(href)
    case None => None
    case Some(k) => Some(href[..k])
  }

  /** `parse_tag(tag)` (scrape.py:54-61): the page path and the name, or
      `None` where the page path cannot be cut out. */
  function ParseTag(tag: Tag): (r: Option<(string, string)>)
    ensures r.Some? <==> QueryMatches(tag.href)
    ensures r.Some? ==> r.value.1 == tag.contents
    ensures r.Some? ==> |r.value.0| < |tag.href| && r.value.0 == tag.href[..|r.value.0|]
    ensures r.Some? ==> tag.href[|r.value.0|] == '?'
    ensures r.Some? ==> '?' !in r.value.0
  {
    match PageOf(tag.href)
    case None => None
    case Some(page) => Some((page, tag.contents))
  }

  /** The page of `page + query`, where `query` starts with the first '?'
      and no line feed comes before it, is `page`. */
  lemma PageOfSplit(page: string, query: string)
    requires query != [] && query[0] == '?'
    requires '?' !in page && '\n' !in page
    ensures PageOf(page + query) == Some(page)
  {
    var href := page + query;
    assert href[..|page|] == page;
    var r := PageOf(href);
    assert |r.value| == |page| by {
      if |r.value| < |page| {
        assert page[|r.value|] == '?';
      }
    }
  }

  /** The query string of a video link is cut off. */
  lemma PageOfExample()
    ensures PageOf("https://plays.tv/video/5a1/x?from=user") == Some("https://plays.tv/video/5a1/x")
  {
    var page, query := "https://plays.tv/video/5a1/x", "?from=user";
    assert "https://plays.tv/video/5a1/x?from=user" == page + query;
    PageOfSplit(page, query);
  }

  /** An href without a '?' makes `parse_tag` raise. */
  lemma NoQueryIsError(href: string)
    requires '?' !in href
    ensures PageOf(href) == None
  {
  }
}
