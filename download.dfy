/**
 * `process_tag` (scrape.py:64-82): fetch the archived page of one video,
 * pick its first 720p `<source>`, and save that stream under a file name made
 * of the slugified title and the video's ordinal.
 *
 * The network and the HTML parser are replaced by a `Web`: what fetching a
 * page yields (its `<source>` tags in document order, or nothing where
 * `urlopen` raises) and whether saving a stream to a path succeeds. Every
 * exception inside the `try` becomes a `false` result.
 */
module Download {
  import opened Wrappers
  import opened Chars
  import Slug
  import Decimal

  /** The Wayback Machine prefix every page is fetched through (scrape.py:16). */
  const BaseUrl: string := "https://web.archive.org/web/999999999999999999999/"

  // ---------------------------------------------------------------------
  // The output file name and path

  /** A character a saved file's name can hold. */
  predicate IsFileNameChar(c: char) {
    Slug.IsSlugChar(c) || c == '.'
  }

  /** Every character of `s` can be part of a saved file's name. */
  predicate AllFileNameChars(s: string) {
    forall i :: 0 <= i < |s| ==> IsFileNameChar(s[i])
  }

  /** `f'{slug}_{n}.mp4'`: the slug, a '_', the decimal digits of `n` and
      ".mp4". Over slug characters it stays within `[a-z0-9_.-]`. */
  function FileNameOf(slug: string, n: nat): (r: string)
    ensures (forall i :: 0 <= i < |slug| ==> Slug.IsSlugChar(slug[i])) ==> AllFileNameChars(r)
    ensures |r| >= |slug| + 6 && r[..|slug|] == slug && r[|r| - 4..] == ".mp4"
  {
    var digits := Decimal.NatToString(n);
    var r := slug + "_" + digits + ".mp4";
    assert forall i :: |slug| < i < |slug| + 1 + |digits| ==> r[i] == digits[i - |slug| - 1];
    assert forall i :: |slug| + 1 + |digits| <= i < |r| ==> r[i] in ".mp4";
    r
  }

  /** The name a video is saved under (scrape.py:78): a single path component
      over `[a-z0-9_.-]`, never containing '/'. */
  function FileName(nfkd: string -> string, videoName: string, n: nat): (r: string)
    ensures AllFileNameChars(r)
    ensures '/' !in r
    ensures |r| >= 6 && r[|r| - 4..] == ".mp4"
  {
    var slug := Slug.Slugify(nfkd, videoName);
    var r := FileNameOf(slug, n);
    assert !IsFileNameChar('/');
    r
  }

  /** The index of the last `c` in `s`. */
  function LastIndexOf(s: string, c: char): (r: Option<nat>)
    ensures r.Some? ==>
      && r.value < |s| && s[r.value] == c
      && forall j :: r.value < j < |s| ==> s[j] != c
    ensures r.None? ==> c !in s
  {
    if s == [] then None
    else if s[|s| - 1] == c then Some(|s| - 1)
    else LastIndexOf(s[..|s| - 1], c)
  }

  /** The last `c` of `head + tail` is the one that ends `head`, when `tail`
      has none. */
  lemma LastIndexOfSplit(head: string, tail: string, c: char)
    requires head != [] && head[|head| - 1] == c && c !in tail
    ensures LastIndexOf(head + tail, c) == Some(|head| - 1)
  {
    var s := head + tail;
    assert s[|head| - 1] == c;
    assert forall j :: |head| <= j < |s| ==> s[j] == tail[j - |head|];
  }

  /**
   * The ordinal a saved file's path names: the number between the last '_'
   * and the closing ".mp4". `None` where the path has no such number.
   */
  function OrdinalOf(path: string): Option<nat> {
    if |path| < 4 || path[|path| - 4..] != ".mp4" then None
    else
      var stem := path[..|path| - 4];
      match LastIndexOf(stem, '_')
      case None => None
      case Some(u) =>
        var digits := stem[u + 1..];
        if digits != [] && Decimal.AllDigits(digits) then Some(Decimal.ParseDecimal(digits)) else None
  }

  /** Whatever comes before it, a file name gives back its ordinal: the
      digits after the last '_' are exactly `str(n)`. */
  lemma OrdinalOfFileName(prefix: string, slug: string, n: nat)
    ensures OrdinalOf(prefix + FileNameOf(slug, n)) == Some(n)
  {
    var digits := Decimal.NatToString(n);
    var head := prefix + slug + "_";
    var stem := head + digits;
    var path := prefix + FileNameOf(slug, n);
    assert path == stem + ".mp4";
    assert path[..|path| - 4] == stem;
    assert forall c :: c in digits ==> IsDigit(c);
    LastIndexOfSplit(head, digits, '_');
    assert stem[|head|..] == digits;
    Decimal.ParseNatToString(n);
  }

  /** Videos with different ordinals get different file names, even when
      their titles slugify alike. */
  lemma FileNamesDistinct(nfkd: string -> string, name1: string, n1: nat, name2: string, n2: nat)
    requires n1 != n2
    ensures FileName(nfkd, name1, n1) != FileName(nfkd, name2, n2)
  {
    var f1 := FileName(nfkd, name1, n1);
    var f2 := FileName(nfkd, name2, n2);
    OrdinalOfFileName([], Slug.Slugify(nfkd, name1), n1);
    OrdinalOfFileName([], Slug.Slugify(nfkd, name2), n2);
    assert [] + f1 == f1;
    assert [] + f2 == f2;
  }

  /** `path` is exactly `os.path.join(folder, name)` for a relative `name`:
      the name itself when the folder is empty, else the folder, a '/' unless
      the folder already ends in one, and the name. */
  predicate JoinedIn(path: string, folder: string, name: string) {
    if folder == [] then path == name
    else if folder[|folder| - 1] == '/' then path == folder + name
    else path == folder + "/" + name
  }

  /**
   * `os.path.join(a, b)` for two components, as POSIX defines it: an absolute
   * `b` replaces `a`; otherwise `b` is appended, with a '/' between them
   * unless `a` is empty or already ends in one.
   */
  function JoinPath(a: string, b: string): (r: string)
    ensures |r| >= |b| && r[|r| - |b|..] == b
    ensures b != [] && b[0] == '/' ==> r == b
    ensures a != [] && (b == [] || b[0] != '/') ==>
      |r| > |b| && |r| >= |a| && r[..|a|] == a && r[|r| - |b| - 1] == '/'
    ensures b == [] || b[0] != '/' ==> JoinedIn(r, a, b)
  {
    if b != [] && b[0] == '/' then b
    else if a == [] || a[|a| - 1] == '/' then a + b
    else a + "/" + b
  }

  /** `os.path.join(output_folder, f'{slug}_{n}.mp4')`: the file name as
      the last component inside the output folder. */
  function OutputPathOf(outputFolder: string, slug: string, n: nat): (r: string)
    requires slug == [] || slug[0] != '/'
    ensures OrdinalOf(r) == Some(n)
    ensures outputFolder != [] ==> |r| > |outputFolder| && r[..|outputFolder|] == outputFolder
    ensures var f := FileNameOf(slug, n);
      && |r| >= |f| && r[|r| - |f|..] == f
      && (outputFolder != [] ==> |r| > |f| && r[|r| - |f| - 1] == '/')
    ensures JoinedIn(r, outputFolder, FileNameOf(slug, n))
  {
    var f := FileNameOf(slug, n);
    assert f[0] != '/' by {
      if slug == [] {
        assert f[0] == '_';
      }
    }
    var prefix :=
      if outputFolder == [] || outputFolder[|outputFolder| - 1] == '/' then outputFolder
      else outputFolder + "/";
    var r := JoinPath(outputFolder, f);
    assert r == prefix + f;
    OrdinalOfFileName(prefix, slug, n);
    r
  }

  /** The path a video is saved to (scrape.py:78): its file name, as the last
      component inside the output folder. */
  function OutputPath(outputFolder: string, nfkd: string -> string, videoName: string, n: nat): (r: string)
    ensures OrdinalOf(r) == Some(n)
    ensures outputFolder != [] ==> |r| > |outputFolder| && r[..|outputFolder|] == outputFolder
    ensures var f := FileName(nfkd, videoName, n);
      && |r| >= |f| && r[|r| - |f|..] == f
      && (outputFolder != [] ==> |r| > |f| && r[|r| - |f| - 1] == '/')
    ensures JoinedIn(r, outputFolder, FileName(nfkd, videoName, n))
  {
    var slug := Slug.Slugify(nfkd, videoName);
    assert slug == [] || slug[0] != '/' by {
      if slug != [] {
        assert Slug.IsSlugChar(slug[0]);
      }
    }
    assert FileName(nfkd, videoName, n) == FileNameOf(slug, n);
    OutputPathOf(outputFolder, slug, n)
  }

  /** Videos with different ordinals are saved to different paths of the same
      folder, so no download overwrites another. */
  lemma OutputPathsDistinct(outputFolder: string, nfkd: string -> string,
                            name1: string, n1: nat, name2: string, n2: nat)
    requires n1 != n2
    ensures OutputPath(outputFolder, nfkd, name1, n1) != OutputPath(outputFolder, nfkd, name2, n2)
  {
  }

  // ---------------------------------------------------------------------
  // Fetching one video

  /** A `<source>` element: its `res` and `src` attributes, where present. */
  datatype SourceTag = SourceTag(res: Option<string>, src: Option<string>)

  /**
   * The outside world of `process_tag`: `fetch(url)` is the list of
   * `<source>` tags of the page at `url` in document order, or `None` where
   * `urlopen` raises; `retrieve(url, path)` says whether `urlretrieve` saved
   * `url` to `path` without raising.
   */
  datatype Web = Web(fetch: string -> Option<seq<SourceTag>>, retrieve: (string, string) -> bool)

  /** The `<source>` tags of the archived copy of `pageUrl` (scrape.py:71-72),
      or `None` where `urlopen` raises. */
  function PageSources(web: Web, pageUrl: string): Option<seq<SourceTag>> {
    web.fetch(BaseUrl + pageUrl)
  }

  /** Whether `urlretrieve(url, path)` (scrape.py:76-78) completes. */
  predicate Saved(web: Web, url: string, path: string) {
    web.retrieve(url, path)
  }

  predicate Is720(t: SourceTag) {
    t.res == Some("720")
  }

  /** `soup.findAll('source', {'res': '720'})[0]` (scrape.py:74): the index of
      the first 720p source, or `None` where indexing raises. */
  function First720(sources: seq<SourceTag>): (r: Option<nat>)
    ensures r.Some? ==>
      && r.value < |sources| && Is720(sources[r.value])
      && forall j :: 0 <= j < r.value ==> !Is720(sources[j])
    ensures r.None? <==> forall j :: 0 <= j < |sources| ==> !Is720(sources[j])
  {
    if sources == [] then None
    else if Is720(sources[0]) then Some(0)
    else
      var rest := First720(sources[1..]);
      assert forall j :: 1 <= j < |sources| ==> sources[j] == sources[1..][j - 1];
      if rest.None? then None else Some(rest.value + 1)
  }

  /** `'http:' + source_tag['src']` for the first 720p source (scrape.py:74-77),
      or `None` where there is none or it has no `src`. */
  function StreamUrl(sources: seq<SourceTag>): (r: Option<string>)
    ensures r.Some? <==>
      exists i :: 0 <= i < |sources| && Is720(sources[i]) && sources[i].src.Some?
        && forall j :: 0 <= j < i ==> !Is720(sources[j])
    ensures r.Some? ==>
      && First720(sources).Some?
      && sources[First720(sources).value].src.Some?
      && r.value == "http:" + sources[First720(sources).value].src.value
  {
    match First720(sources)
    case None => None
    case Some(i) =>
      match sources[i].src
      case None => None
      case Some(src) => Some("http:" + src)
  }

  /**
   * The stream URL and target path `process_tag` hands to `urlretrieve`
   * (scrape.py:71-78), or `None` where getting them raises: the page cannot
   * be fetched, it has no 720p source, or that source has no `src`.
   */
  function MediaRequest(web: Web, nfkd: string -> string, pageUrl: string, videoName: string,
                        outputFolder: string, n: nat): (r: Option<(string, string)>)
    ensures r.Some? <==> PageSources(web, pageUrl).Some? && StreamUrl(PageSources(web, pageUrl).value).Some?
    ensures r.Some? ==> r.value == (StreamUrl(PageSources(web, pageUrl).value).value,
                                    OutputPath(outputFolder, nfkd, videoName, n))
  {
    match PageSources(web, pageUrl)
    case None => None
    case Some(sources) =>
      match StreamUrl(sources)
      case None => None
      case Some(url) => Some((url, OutputPath(outputFolder, nfkd, videoName, n)))
  }

  /** What `process_tag` returns: whether the download went through, and the
      title it was given. */
  datatype DownloadResult = DownloadResult(success: bool, videoName: string)

  /** `process_tag(page_url, video_name, output_folder, video_number)`
      (scrape.py:64-82). */
  function ProcessTag(web: Web, nfkd: string -> string, pageUrl: string, videoName: string,
                      outputFolder: string, n: nat): (r: DownloadResult)
    ensures r.videoName == videoName
    ensures r.success ==> MediaRequest(web, nfkd, pageUrl, videoName, outputFolder, n).Some?
    ensures MediaRequest(web, nfkd, pageUrl, videoName, outputFolder, n).Some? ==>
      var req := MediaRequest(web, nfkd, pageUrl, videoName, outputFolder, n).value;
      (r.success <==> Saved(web, req.0, req.1))
  {
    match MediaRequest(web, nfkd, pageUrl, videoName, outputFolder, n)
    case None => DownloadResult(false, videoName)
    case Some(req) => DownloadResult(Saved(web, req.0, req.1), videoName)
  }

  /** A successful download fetched the page, found that its first 720p
      source has a `src`, and saved that stream under the video's own
      ordinal. */
  lemma SuccessMeansSaved(web: Web, nfkd: string -> string, pageUrl: string, videoName: string,
                          outputFolder: string, n: nat)
    requires ProcessTag(web, nfkd, pageUrl, videoName, outputFolder, n).success
    ensures PageSources(web, pageUrl).Some?
    ensures var sources := PageSources(web, pageUrl).value;
      exists i :: 0 <= i < |sources| && Is720(sources[i]) && sources[i].src.Some?
        && (forall j :: 0 <= j < i ==> !Is720(sources[j]))
        && Saved(web, "http:" + sources[i].src.value, OutputPath(outputFolder, nfkd, videoName, n))
  {
    var m := MediaRequest(web, nfkd, pageUrl, videoName, outputFolder, n);
    assert m.Some?;
    var req := m.value;
    var page := PageSources(web, pageUrl);
    assert page.Some?;
    var sources := page.value;
    var url := StreamUrl(sources);
    assert url.Some? && req.0 == url.value;
    var i := First720(sources).value;
    assert req.0 == "http:" + sources[i].src.value;
    assert 0 <= i < |sources| && Is720(sources[i]) && sources[i].src.Some?
      && (forall j :: 0 <= j < i ==> !Is720(sources[j]))
      && Saved(web, "http:" + sources[i].src.value, OutputPath(outputFolder, nfkd, videoName, n));
  }

  /** A page without a 720p source is a failed download, whatever else the
      page holds, and the title still comes back. */
  lemma No720IsFailure(web: Web, nfkd: string -> string, pageUrl: string, videoName: string,
                       outputFolder: string, n: nat)
    requires PageSources(web, pageUrl).Some?
    requires forall j :: 0 <= j < |PageSources(web, pageUrl).value| ==>
      !Is720(PageSources(web, pageUrl).value[j])
    ensures ProcessTag(web, nfkd, pageUrl, videoName, outputFolder, n) == DownloadResult(false, videoName)
  {
  }
}
