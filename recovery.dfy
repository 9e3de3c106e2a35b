/**
 * The main block of the scraper (scrape.py:122-142) once the profile page is
 * scrolled and parsed: number the video links, download each one, and
 * report which downloads failed and how many went through.
 *
 * `Pool.starmap` runs `process_tag` in worker processes but hands back the
 * results in the order of its arguments; each call depends only on its own
 * arguments and the outside world, so the dispatch is modelled as a
 * sequential map.
 */
module Recovery {
  import opened Wrappers
  import Links
  import Download

  /** The arguments of one `process_tag` call (scrape.py:131-132). */
  datatype Job = Job(pageUrl: string, videoName: string, outputFolder: string, videoNumber: nat)

  /**
   * `[(*parse_tag(tag), output_folder, i) for i, tag in enumerate(tags)]`
   * with the count starting at `start`, or `None` where a `parse_tag` raises,
   * which ends the program.
   */
  function JobsFrom(tags: seq<Links.Tag>, outputFolder: string, start: nat): (r: Option<seq<Job>>)
    ensures r.Some? <==> forall i :: 0 <= i < |tags| ==> Links.QueryMatches(tags[i].href)
    ensures r.Some? ==> |r.value| == |tags|
    ensures r.Some? ==> forall i :: 0 <= i < |tags| ==>
      r.value[i] == Job(Links.PageOf(tags[i].href).value, tags[i].contents, outputFolder, start + i)
    decreases |tags|
  {
    if tags == [] then Some([])
    else
      match Links.ParseTag(tags[0])
      case None => None
      case Some(parsed) =>
        var rest := JobsFrom(tags[1..], outputFolder, start + 1);
        assert forall i :: 1 <= i < |tags| ==> tags[i] == tags[1..][i - 1];
        if rest.None? then None
        else Some([Job(parsed.0, parsed.1, outputFolder, start)] + rest.value)
  }

  /** `parsed_link_tags` (scrape.py:131-132): the videos numbered from 0 in
      document order, or `None` where `parse_tag` raises on
      some link. */
  function Jobs(tags: seq<Links.Tag>, outputFolder: string): (r: Option<seq<Job>>)
    ensures r.Some? <==> forall i :: 0 <= i < |tags| ==> Links.QueryMatches(tags[i].href)
    ensures r.Some? ==> |r.value| == |tags|
    ensures r.Some? ==> forall i :: 0 <= i < |tags| ==>
      r.value[i] == Job(Links.PageOf(tags[i].href).value, tags[i].contents, outputFolder, i)
  {
    JobsFrom(tags, outputFolder, 0)
  }

  /** `process_tag(*job)`. */
  function RunJob(web: Download.Web, nfkd: string -> string, job: Job): Download.DownloadResult {
    Download.ProcessTag(web, nfkd, job.pageUrl, job.videoName, job.outputFolder, job.videoNumber)
  }

  /** The result list of `p.starmap(process_tag, parsed_link_tags)`
      (scrape.py:134-135): one result per job, in the jobs' order. */
  function Dispatch(web: Download.Web, nfkd: string -> string, jobs: seq<Job>): (res: seq<Download.DownloadResult>)
    ensures |res| == |jobs|
    ensures forall i :: 0 <= i < |jobs| ==> res[i] == RunJob(web, nfkd, jobs[i])
    ensures forall i :: 0 <= i < |jobs| ==> res[i].videoName == jobs[i].videoName
  {
    if jobs == [] then []
    else [RunJob(web, nfkd, jobs[0])] + Dispatch(web, nfkd, jobs[1..])
  }

  /** No two jobs of one run save to the same path, even when titles collide. */
  lemma JobPathsDistinct(tags: seq<Links.Tag>, outputFolder: string, nfkd: string -> string)
    requires Jobs(tags, outputFolder).Some?
    ensures var jobs := Jobs(tags, outputFolder).value;
      forall i, j :: 0 <= i < j < |jobs| ==>
        Download.OutputPath(outputFolder, nfkd, jobs[i].videoName, jobs[i].videoNumber)
        != Download.OutputPath(outputFolder, nfkd, jobs[j].videoName, jobs[j].videoNumber)
  {
    var jobs := Jobs(tags, outputFolder).value;
    forall i, j | 0 <= i < j < |jobs|
      ensures Download.OutputPath(outputFolder, nfkd, jobs[i].videoName, jobs[i].videoNumber)
           != Download.OutputPath(outputFolder, nfkd, jobs[j].videoName, jobs[j].videoNumber)
    {
      Download.OutputPathsDistinct(outputFolder, nfkd, jobs[i].videoName, i, jobs[j].videoName, j);
    }
  }

  // ---------------------------------------------------------------------
  // The tally (scrape.py:137-142)

  /** `sum(success for success, _ in res)`: a `True` adds one, a `False` none. */
  function SuccessCount(res: seq<Download.DownloadResult>): (k: nat)
    ensures k <= |res|
    ensures k == |res| <==> forall i :: 0 <= i < |res| ==> res[i].success
    ensures k == 0 <==> forall i :: 0 <= i < |res| ==> !res[i].success
  {
    if res == [] then 0
    else
      assert forall i :: 1 <= i < |res| ==> res[i] == res[1..][i - 1];
      (if res[0].success then 1 else 0) + SuccessCount(res[1..])
  }

  /** The success flags of the results. */
  function Flags(res: seq<Download.DownloadResult>): (flags: seq<bool>)
    ensures |flags| == |res|
    ensures forall i :: 0 <= i < |res| ==> flags[i] == res[i].success
  {
    seq(|res|, i requires 0 <= i < |res| => res[i].success)
  }

  /** The reported count is the number of `True` flags. */
  lemma {:induction false} SuccessCountCountsTrue(res: seq<Download.DownloadResult>)
    ensures SuccessCount(res) == multiset(Flags(res))[true]
  {
    if res != [] {
      SuccessCountCountsTrue(res[1..]);
      assert Flags(res) == [res[0].success] + Flags(res[1..]);
    }
  }

  /** Appending one result adds one to the count exactly when it succeeded. */
  lemma {:induction false} SuccessCountSnoc(res: seq<Download.DownloadResult>, x: Download.DownloadResult)
    ensures SuccessCount(res + [x]) == SuccessCount(res) + (if x.success then 1 else 0)
  {
    if res == [] {
      assert res + [x] == [x];
    } else {
      assert (res + [x])[1..] == res[1..] + [x];
      SuccessCountSnoc(res[1..], x);
    }
  }

  /** The count is the number of positions whose download succeeded. */
  lemma {:induction false} SuccessCountIsSuccessSet(res: seq<Download.DownloadResult>)
    ensures SuccessCount(res) == |set i | 0 <= i < |res| && res[i].success|
    decreases |res|
  {
    if res != [] {
      var init := res[..|res| - 1];
      var x := res[|res| - 1];
      assert res == init + [x];
      SuccessCountIsSuccessSet(init);
      SuccessCountSnoc(init, x);
      var before := set i | 0 <= i < |init| && init[i].success;
      var after := set i | 0 <= i < |res| && res[i].success;
      if x.success {
        assert after == before + {|init|};
      } else {
        assert after == before;
      }
    }
  }

  /** The titles logged as failed (scrape.py:137-139), in result order. */
  function FailedNames(res: seq<Download.DownloadResult>): (names: seq<string>)
    ensures |names| + SuccessCount(res) == |res|
  {
    if res == [] then []
    else if res[0].success then FailedNames(res[1..])
    else [res[0].videoName] + FailedNames(res[1..])
  }

  /** Appending one result extends the failed titles by its title exactly when
      it failed. */
  lemma {:induction false} FailedNamesSnoc(res: seq<Download.DownloadResult>, x: Download.DownloadResult)
    ensures FailedNames(res + [x]) == FailedNames(res) + (if x.success then [] else [x.videoName])
  {
    if res == [] {
      assert res + [x] == [x];
    } else {
      assert (res + [x])[1..] == res[1..] + [x];
      FailedNamesSnoc(res[1..], x);
    }
  }

  /** Every failed title belongs to a failed result and every failed result's
      title is logged. */
  lemma {:induction false} FailedNamesAreFailures(res: seq<Download.DownloadResult>)
    ensures forall n :: n in FailedNames(res) <==>
      exists i :: 0 <= i < |res| && !res[i].success && res[i].videoName == n
  {
    if res != [] {
      FailedNamesAreFailures(res[1..]);
      assert forall i :: 1 <= i < |res| ==> res[i] == res[1..][i - 1];
    }
  }

  /**
   * The `for success, video_name in res` loop (scrape.py:137-139): the titles
   * it logs as not downloaded, in the order it logs them.
   */
  method ReportFailures(res: seq<Download.DownloadResult>) returns (failed: seq<string>)
    ensures failed == FailedNames(res)
    ensures |failed| == |res| - SuccessCount(res)
  {
    failed := [];
    var i := 0;
    while i < |res|
      invariant i <= |res|
      invariant failed == FailedNames(res[..i])
    {
      FailedNamesSnoc(res[..i], res[i]);
      assert res[..i + 1] == res[..i] + [res[i]];
      if !res[i].success {
        failed := failed + [res[i].videoName];
      }
      i := i + 1;
    }
    assert res[..i] == res;
  }

  /** What a run logs at its end: the failed titles, then
      "Successfully downloaded <succeeded>/<total> videos". */
  datatype Summary = Summary(failed: seq<string>, succeeded: nat, total: nat)

  /** The result of the i-th link of a run: `process_tag` of its page, its
      title, the output folder and ordinal i. */
  function LinkResult(web: Download.Web, nfkd: string -> string, tags: seq<Links.Tag>,
                      outputFolder: string, i: nat): Download.DownloadResult
    requires i < |tags| && Links.QueryMatches(tags[i].href)
  {
    Download.ProcessTag(web, nfkd, Links.PageOf(tags[i].href).value, tags[i].contents, outputFolder, i)
  }

  /** The i-th result of a run is the download of the i-th link with ordinal
      i, and it returns that link's title, whatever the other links do. */
  lemma RunResults(web: Download.Web, nfkd: string -> string, tags: seq<Links.Tag>, outputFolder: string)
    requires Jobs(tags, outputFolder).Some?
    ensures var res := Dispatch(web, nfkd, Jobs(tags, outputFolder).value);
      && |res| == |tags|
      && forall i :: 0 <= i < |tags| ==>
           res[i] == LinkResult(web, nfkd, tags, outputFolder, i) && res[i].videoName == tags[i].contents
  {
    var jobs := Jobs(tags, outputFolder).value;
    var res := Dispatch(web, nfkd, jobs);
    forall i | 0 <= i < |tags|
      ensures res[i] == LinkResult(web, nfkd, tags, outputFolder, i)
    {
      assert res[i] == RunJob(web, nfkd, jobs[i]);
    }
  }

  /** The count of a run is the number of links whose download succeeded. */
  lemma RunCount(web: Download.Web, nfkd: string -> string, tags: seq<Links.Tag>, outputFolder: string)
    requires Jobs(tags, outputFolder).Some?
    ensures SuccessCount(Dispatch(web, nfkd, Jobs(tags, outputFolder).value))
         == |set i | 0 <= i < |tags| && LinkResult(web, nfkd, tags, outputFolder, i).success|
  {
    var res := Dispatch(web, nfkd, Jobs(tags, outputFolder).value);
    RunResults(web, nfkd, tags, outputFolder);
    SuccessCountIsSuccessSet(res);
    SameSuccesses(web, nfkd, tags, outputFolder, res);
  }

  /** Results that agree with the links' own downloads succeed at the same
      positions. */
  lemma SameSuccesses(web: Download.Web, nfkd: string -> string, tags: seq<Links.Tag>, outputFolder: string,
                      res: seq<Download.DownloadResult>)
    requires |res| == |tags|
    requires forall i :: 0 <= i < |tags| ==> Links.QueryMatches(tags[i].href)
    requires forall i :: 0 <= i < |tags| ==> res[i] == LinkResult(web, nfkd, tags, outputFolder, i)
    ensures (set i | 0 <= i < |res| && res[i].success)
         == (set i | 0 <= i < |tags| && LinkResult(web, nfkd, tags, outputFolder, i).success)
  {
  }

  /** A run logs a title as failed exactly when a link with that title failed. */
  lemma RunFailures(web: Download.Web, nfkd: string -> string, tags: seq<Links.Tag>, outputFolder: string)
    requires Jobs(tags, outputFolder).Some?
    ensures forall n :: n in FailedNames(Dispatch(web, nfkd, Jobs(tags, outputFolder).value)) <==>
      exists i :: 0 <= i < |tags| && !LinkResult(web, nfkd, tags, outputFolder, i).success
        && tags[i].contents == n
  {
    var res := Dispatch(web, nfkd, Jobs(tags, outputFolder).value);
    RunResults(web, nfkd, tags, outputFolder);
    FailedNamesAreFailures(res);
  }

  /**
   * A whole run after the profile page is parsed (scrape.py:131-142), or
   * `None` where `parse_tag` raises on a link and the program stops. The total
   * is the number of links found, the count is the number of links whose
   * download succeeded, and a title is logged as failed exactly when the
   * download of a link with that title failed.
   */
  function Recover(web: Download.Web, nfkd: string -> string, tags: seq<Links.Tag>, outputFolder: string)
    : (r: Option<Summary>)
    ensures r.Some? <==> forall i :: 0 <= i < |tags| ==> Links.QueryMatches(tags[i].href)
    ensures r.Some? ==> r.value.total == |tags|
    ensures r.Some? ==> r.value.succeeded <= r.value.total
    ensures r.Some? ==> |r.value.failed| + r.value.succeeded == r.value.total
    ensures r.Some? ==>
      r.value.succeeded ==
      |set i | 0 <= i < |tags| && LinkResult(web, nfkd, tags, outputFolder, i).success|
    ensures r.Some? ==> forall n :: n in r.value.failed <==>
      exists i :: 0 <= i < |tags| && !LinkResult(web, nfkd, tags, outputFolder, i).success
        && tags[i].contents == n
  {
    match Jobs(tags, outputFolder)
    case None => None
    case Some(jobs) =>
      var res := Dispatch(web, nfkd, jobs);
      RunCount(web, nfkd, tags, outputFolder);
      RunFailures(web, nfkd, tags, outputFolder);
      Some(Summary(FailedNames(res), SuccessCount(res), |tags|))
  }

  /** A run downloads every video exactly when it logs no failure, exactly
      when the download of every link succeeds. */
  lemma AllSucceededIffNoFailures(web: Download.Web, nfkd: string -> string, tags: seq<Links.Tag>,
                                  outputFolder: string)
    requires Recover(web, nfkd, tags, outputFolder).Some?
    ensures var s := Recover(web, nfkd, tags, outputFolder).value;
      && (s.succeeded == s.total <==> s.failed == [])
      && (s.failed == [] <==> forall i :: 0 <= i < |tags| ==> LinkResult(web, nfkd, tags, outputFolder, i).success)
  {
    var s := Recover(web, nfkd, tags, outputFolder).value;
    if s.failed != [] {
      var n := s.failed[0];
      assert n in s.failed;
      var i :| 0 <= i < |tags| && !LinkResult(web, nfkd, tags, outputFolder, i).success && tags[i].contents == n;
    } else {
      forall i | 0 <= i < |tags|
        ensures LinkResult(web, nfkd, tags, outputFolder, i).success
      {
        var n := tags[i].contents;
        assert n !in s.failed;
      }
    }
  }
}
