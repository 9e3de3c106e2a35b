# plays-tv-recovery scraper, modelled in Dafny

The scraper `scrape.py` recovers the videos of a plays.tv user from the
Wayback Machine. It scrolls the archived profile page until no more videos
load, collects the video links, and for each link fetches the archived video
page, picks its 720p stream and saves it as
`<output folder>/<slug of the title>_<ordinal>.mp4`. At the end it logs the
titles that could not be downloaded and the number that could.

This project models the logic of that script and proves what it promises:

- `slug.dfy` (module `Slug`): `slugify`, as the ASCII fold followed by four
  rewrites (lowercase; drop what is not `\w`, `\s` or `-`; collapse runs of
  `-` and `\s` into one `-`; strip `-` and `_` at both ends). Proved: the
  output uses only `[a-z0-9_-]`, has no `--`, neither starts nor ends with `-`
  or `_`, keeps exactly the letters and digits of the lowered ASCII-folded
  title, is empty exactly when the ASCII-folded title has no letter or digit,
  and `slugify` is idempotent.
  The title "My Video!! (2020)" becomes "my-video-2020".
- `scroll.dfy` (module `Scroll`): the `scroll` loop over a finite sequence of
  (height, time) polls that stand in for the browser and the clock, both as a
  step function and as an imperative `while` loop proved equal to it. Proved:
  the loop returns exactly at the first poll whose height equals the previous
  one and whose time is more than `timeout` past the last change; it scrolls
  exactly on polls whose height changed; the first poll always scrolls.
- `links.dfy` (module `Links`): the page path `parse_tag` cuts out of a link:
  the prefix before the first `?`, or an error.
- `decimal.dfy` (module `Decimal`): `str(n)` for the ordinals and its inverse.
- `download.dfy` (module `Download`): `process_tag`: the file name, the
  `os.path.join` of the output path, the choice of the first 720p source and
  the success flag. Proved: the file name gives back its ordinal, so videos
  with different ordinals never share a path, and the returned title is the
  given one on both paths.
- `recovery.dfy` (module `Recovery`): the main block after the page is parsed:
  numbering the links, the order-preserving dispatch, the failure log loop and
  the success count.
- `chars.dfy`, `wrappers.dfy`: Python's ASCII character classes and `Option`.

The browser, the clock, the network, the HTML parser and the NFKD tables are
parameters of the model: `Scroll` takes the polls, `Download.Web` gives the
`<source>` tags of a fetched page and whether a download completes, and
`Slugify` takes the normalisation as a function `nfkd`.

Three details of the code that the model follows:

- `re.match(r'.*?\?', href)` fails not only when `href` has no `?`, but also
  when a line feed comes before the first `?`, because `.` does not match a
  line feed. `Links.PageOf` returns `None` in both cases.
- The title of a video is the anchor's inner HTML as `decode_contents`
  renders it, not its decoded text; the model takes it ready-made.
- `Pool.starmap` returns the results in the order of its arguments, so the
  dispatch is an order-preserving map.

## Model

| member | source | states |
|---|---|---|
| `Chars.IsSpace` | scrape.py:24-25 | Python's `\s` on ASCII: tab, line feed, vertical tab, form feed, carriage return, the separators 0x1C-0x1F and the space |
| `Chars.IsWordChar` | scrape.py:24 | Python's `\w` on ASCII: letters, digits and `_` |
| `Chars.LowerChar` | scrape.py:24 | `str.lower` on an ASCII character: never upper case, maps `A`-`Z` to `a`-`z` by +32, keeps every other character, keeps letters and digits letters and digits |
| `Slug.AsciiFold` | scrape.py:22-23 | the ASCII encode with `'ignore'` yields ASCII text holding exactly the input's ASCII characters |
| `Slug.AsciiFoldOfAscii` | scrape.py:22-23 | the fold leaves ASCII text unchanged |
| `Slug.Lower` | scrape.py:24 | `value.lower()`: same length, each character lowered |
| `Slug.DropPunctuation` | scrape.py:24 | `re.sub(r'[^\w\s-]', '', ...)` keeps exactly the characters that are word characters, whitespace or `-` |
| `Slug.DropSeps` | scrape.py:25 | the leading run of `[-\s]` is removed and nothing else: the result is a suffix that does not start with a separator |
| `Slug.CollapseSeps` | scrape.py:25 | `re.sub(r'[-\s]+', '-', ...)`: no `--` in the result, empty exactly when the input is, starts with `-` exactly when the input starts with a separator |
| `Slug.CollapseSepsChars` | scrape.py:25 | every character the collapse emits is `-` or a non-separator of its input |
| `Slug.DropSepsRun` | scrape.py:25 | a whole run of separators is consumed at once |
| `Slug.StripLeft` | scrape.py:25 | only leading `-`/`_` are removed, and all of them |
| `Slug.StripRight` | scrape.py:25 | only trailing `-`/`_` are removed, and all of them |
| `Slug.Strip` | scrape.py:25 | `.strip('-_')`: neither end of the result is `-` or `_` |
| `Slug.SlugifyAscii` | scrape.py:24-25 | the output is a slug (`[a-z0-9_-]` only, no `--`, no `-`/`_` at either end) and keeps exactly the letters and digits of the lowered input, in order |
| `Slug.Slugify` | scrape.py:18-25 | `slugify(value)` returns a slug holding exactly the letters and digits of the lowered ASCII fold of the title |
| `Slug.CollapsedIsSlugBeforeStrip` | scrape.py:24-25 | after lowercasing, filtering and collapsing, the text is over `[a-z0-9_-]` with no `--` |
| `Slug.StripKeepsSlug` | scrape.py:25 | stripping such text yields a slug |
| `Slug.AlnumsDropPunctuation` | scrape.py:24 | the filter keeps every letter and digit |
| `Slug.AlnumsCollapseSeps` | scrape.py:25 | the collapse keeps every letter and digit |
| `Slug.AlnumsStrip` | scrape.py:25 | the strip keeps every letter and digit |
| `Slug.SlugIsFixedPoint` | scrape.py:22-25 | a slug is ASCII and every rewrite leaves it unchanged |
| `Slug.CollapseSlug` | scrape.py:25 | the collapse leaves text without whitespace and without `--` unchanged |
| `Slug.SlugifyAsciiIdempotent` | scrape.py:24-25 | rewriting a slug again gives the same slug |
| `Slug.SlugifyIdempotent` | scrape.py:18-25 | `slugify(slugify(x)) == slugify(x)` whenever NFKD leaves ASCII text alone |
| `Slug.SlugEmptyIffNoAlnum` | scrape.py:24-25 | the slug of an ASCII-folded title is empty exactly when that folded title has no letter or digit |
| `Slug.SlugifyExample` | scrape.py:18-25 | `slugify("My Video!! (2020)")` is "my-video-2020", fold included, whenever NFKD leaves ASCII text alone |
| `Scroll.Step` | scrape.py:36-46 | one pass: a changed height is recorded with its time and scrolled to; an unchanged height leaves the state alone and returns exactly when more than `timeout` has passed since the last change |
| `Scroll.Run` | scrape.py:35-51 | the loop stops at a settled poll with no settled poll before it, or at none when no poll is settled |
| `Scroll.LastChange` | scrape.py:37-44 | the latest poll at or before `k` whose height differed from the previous one |
| `Scroll.StateBeforeTracksPolls` | scrape.py:32-46 | after any pass, `last_height` is the height just read and `last_scroll_time` the time of the last change |
| `Scroll.ActionAtSpec` | scrape.py:36-46 | a pass scrolls exactly when the height changed, returns exactly when it is unchanged and more than `timeout` has passed since the last change, and waits otherwise |
| `Scroll.FirstDoneFromSpec` | scrape.py:35-51 | from any pass on, the loop returns at the first settled poll and only there |
| `Scroll.RunSpec` | scrape.py:28-51 | `scroll` returns at poll `i` exactly when `i` is the first settled poll, and does not return within the polls exactly when none is settled |
| `Scroll.StopsOnlyWhenSettled` | scrape.py:37-41 | it never returns on the first poll or on a changed height, nor before `timeout` has strictly elapsed since the last change |
| `Scroll.FirstPollScrolls` | scrape.py:32-46 | with the `-1` sentinel the first poll scrolls and records its height and time |
| `Scroll.RunIgnoresStartTime` | scrape.py:33 | the time read before the loop never decides where it stops |
| `Scroll.ExampleRun` | scrape.py:28-51 | heights 10,10,20,20,20,20 one second apart with timeout 2 stop at the sixth poll |
| `Scroll.Scroll` | scrape.py:28-51 | the `while` loop returns where the step function says, at the first settled poll; one action per pass; scrolls exactly on changed heights; returns only at the last pass |
| `Scroll.TraceFacts` | scrape.py:36-46 | each recorded action scrolls exactly on a changed height and returns exactly on a settled poll |
| `Links.QueryStart` | scrape.py:58 | the index of the first `?`, found exactly when a `?` has no line feed before it |
| `Links.PageOf` | scrape.py:58 | the page is the prefix of the link strictly before its first `?`, holds no `?`, and exists exactly when `.*?\?` matches |
| `Links.ParseTag` | scrape.py:54-61 | `parse_tag` returns that page and the anchor contents unchanged, or fails exactly when the match fails |
| `Links.PageOfSplit` | scrape.py:58 | a page without `?` or line feed followed by a query string is cut back to the page |
| `Links.PageOfExample` | scrape.py:58 | `https://plays.tv/video/5a1/x?from=user` gives `https://plays.tv/video/5a1/x` |
| `Links.NoQueryIsError` | scrape.py:58 | a link without `?` makes `parse_tag` fail |
| `Decimal.NatToString` | scrape.py:78 | `str(n)`: non-empty, decimal digits only, no leading zero |
| `Decimal.ParseNatToString` | scrape.py:78 | reading the digits of `str(n)` back gives `n` |
| `Decimal.NatToStringInjective` | scrape.py:78 | different ordinals have different decimal forms |
| `Download.FileNameOf` | scrape.py:78 | the name starts with the slug and ends in `.mp4`, and over slug characters stays within `[a-z0-9_.-]` |
| `Download.FileName` | scrape.py:78 | `f'{slugify(video_name)}_{video_number}.mp4'` uses only `[a-z0-9_.-]`, so it holds no `/` |
| `Download.LastIndexOf` | scrape.py:78 | the last occurrence of a character, or none |
| `Download.OrdinalOfFileName` | scrape.py:78 | after any prefix, the file name gives back its ordinal |
| `Download.FileNamesDistinct` | scrape.py:78 | different ordinals give different file names even for titles that slugify alike |
| `Download.JoinPath` | scrape.py:78 | `os.path.join` (POSIX): an absolute file part replaces the folder; otherwise the result is exactly the file part after an empty folder, the folder and the file part when the folder ends in `/`, and the folder, `/` and the file part otherwise |
| `Download.OutputPathOf` | scrape.py:78 | the path is exactly the folder joined with the file name (a `/` between them unless the folder is empty or ends in one), and it gives back its ordinal |
| `Download.OutputPath` | scrape.py:78 | the save path is exactly `os.path.join(output_folder, f'{slug}_{n}.mp4')`, so it lies directly inside the output folder, and it names the video's ordinal |
| `Download.OutputPathsDistinct` | scrape.py:78 | different ordinals are saved to different paths |
| `Download.First720` | scrape.py:74 | the first `<source>` with `res="720"`, or none exactly when no source has it |
| `Download.StreamUrl` | scrape.py:74-77 | a URL exists exactly when the first 720p source has a `src`, and is `http:` followed by the `src` of that first 720p source |
| `Download.MediaRequest` | scrape.py:71-78 | `urlretrieve` is reached exactly when the page is fetched and its stream URL exists, with that URL and the video's output path |
| `Download.ProcessTag` | scrape.py:64-82 | the title comes back unchanged on both paths; success needs a request, and given one, equals whether the download completed |
| `Download.SuccessMeansSaved` | scrape.py:68-82 | a success means the page was fetched and the stream of its first 720p source was saved to the video's own path |
| `Download.No720IsFailure` | scrape.py:74-80 | a page without a 720p source gives `(False, video_name)` |
| `Recovery.JobsFrom` | scrape.py:131-132 | the argument list exists exactly when every link parses, has one entry per link, and numbers them in document order |
| `Recovery.Jobs` | scrape.py:131-132 | the argument list exists exactly when every link parses, and its i-th entry is the i-th link's page and title with the output folder and ordinal i |
| `Recovery.Dispatch` | scrape.py:134-135 | one result per job, in the jobs' order, each that job's own `process_tag` result with its own title |
| `Recovery.JobPathsDistinct` | scrape.py:131-135 | no two videos of a run are saved to the same path |
| `Recovery.SuccessCount` | scrape.py:141-142 | the count is at most the number of results, equals it exactly when all succeed and is 0 exactly when none does |
| `Recovery.Flags` | scrape.py:142 | the success flags of the results, in order |
| `Recovery.SuccessCountCountsTrue` | scrape.py:142 | the count is the number of `True` flags |
| `Recovery.SuccessCountSnoc` | scrape.py:142 | one more result adds one to the count exactly when it succeeded |
| `Recovery.SuccessCountIsSuccessSet` | scrape.py:142 | the count is the number of positions whose result succeeded |
| `Recovery.FailedNames` | scrape.py:137-139 | the failed titles plus the successes make up all results |
| `Recovery.FailedNamesSnoc` | scrape.py:137-139 | one more result adds its title exactly when it failed |
| `Recovery.FailedNamesAreFailures` | scrape.py:137-139 | a title is logged exactly when some result with that title failed |
| `Recovery.ReportFailures` | scrape.py:137-139 | the loop logs exactly the failed titles, in result order, as many as there are failures |
| `Recovery.RunResults` | scrape.py:131-135 | the i-th result of a run is `process_tag` of the i-th link with ordinal i and carries that link's title |
| `Recovery.SameSuccesses` | scrape.py:134-142 | results that agree with the links' own downloads succeed at the same positions |
| `Recovery.RunCount` | scrape.py:131-142 | the count of a run is the number of links whose download succeeded |
| `Recovery.RunFailures` | scrape.py:131-139 | a run logs a title as failed exactly when the download of a link with that title failed |
| `Recovery.Recover` | scrape.py:131-142 | a run completes exactly when every link parses; the total is the number of links; the count is the number of links whose download succeeded; a title is logged as failed exactly when a link with that title failed; successes and failures add up to the total |
| `Recovery.AllSucceededIffNoFailures` | scrape.py:137-142 | the count reaches the total exactly when no failure is logged, exactly when every link's download succeeded |

## Left out

- Selenium (`webdriver.Chrome`, `driver.get`, `execute_script`, `page_source`, `close`): the browser is the source of height polls only; the scroll command itself is the `ScrollToBottom` action.
- `time.time()` and `time.sleep(scroll_delay)`: the clock is the integer time of each poll; floats are not modelled, and the delay between polls has no effect on the decisions.
- `scroll`'s `log` flag and every `logging` call: output only; the failure log loop is modelled by the titles it logs.
- `unicodedata.normalize('NFKD', ...)`: the Unicode tables are a parameter `nfkd`; the ASCII encode that follows is modelled exactly.
- `urllib.request.urlopen`, `urlretrieve` and the BeautifulSoup parse of a video page: the `Download.Web` parameter; a partial file left behind by a failed download is not modelled.
- `tag.decode_contents()`: the rendered contents are part of `Links.Tag`.
- The BeautifulSoup search for the `content-1` container and the title anchors with their href pattern: the model starts from the list of anchors found.
- `multiprocessing.Pool`: modelled as a sequential map, which gives the same result list; parallel execution is not modelled.
- argparse, `os.makedirs`, the chromedriver directory check and its exit: command-line and filesystem plumbing.
- `os.path.join`: modelled with POSIX semantics; Windows drive and separator rules are not modelled.
- `Scroll.Scroll`: the source loop has no bound and stops only when the page settles; the model runs over a given finite list of polls and reports when none of them stops it.
