/**
  The two source adapters.  The pull-request adapter feeds every record of
  every page of the file listing, in order, to a fresh accumulator; the push
  adapter fetches the file list of each distinct commit and feeds those lists,
  commit by commit, to one accumulator.  The network provider is given as
  values: the sequence of page responses, and a function from commit id to
  the commit's response.
*/
module Adapters {
  import opened Wrappers
  import opened Classification

  /** The fields of a push payload's commit that the adapter reads. */
  datatype Commit = Commit(id: string, distinct: bool)

  /** One response of the paginated file listing: a page of records, or the error that ends the iteration. */
  type Page = Result<seq<FileChange>, string>

  /** The response to fetching one commit: its `files` field, which may be absent, or an error. */
  type CommitResponse = Result<Option<seq<FileChange>>, string>

  // ---- Pull requests ----

  /** The records of all pages in order, or the error of the first failing page. */
  function PageFiles(pages: seq<Page>): Result<seq<FileChange>, string>
    decreases |pages|
  {
    if pages == [] then Success([])
    else
      var before := PageFiles(pages[..|pages| - 1]);
      if before.Failure? then before
      else match pages[|pages| - 1]
        case Failure(e) => Failure(e)
        case Success(files) => Success(before.value + files)
  }

  /** Once a prefix of the pages has failed, later pages do not change the outcome. */
  lemma {:induction false} PageFailureSticks(pages: seq<Page>, i: nat)
    requires i <= |pages| && PageFiles(pages[..i]).Failure?
    ensures PageFiles(pages) == PageFiles(pages[..i])
    decreases |pages| - i
  {
    if i < |pages| {
      assert pages[..i + 1][..i] == pages[..i];
      PageFailureSticks(pages, i + 1);
    } else {
      assert pages[..i] == pages;
    }
  }

  /**
    Listing the files fails exactly when some page fails, and then with the
    error of the first failing page: there is no partial result.
  */
  lemma {:induction false} PageFilesFailure(pages: seq<Page>)
    ensures PageFiles(pages).Failure? <==> exists i :: 0 <= i < |pages| && pages[i].Failure?
    ensures forall i ::
              0 <= i < |pages| && pages[i].Failure? && (forall j :: 0 <= j < i ==> pages[j].Success?) ==>
                PageFiles(pages) == Failure(pages[i].error)
    decreases |pages|
  {
    if pages != [] {
      var n := |pages| - 1;
      var p := pages[..n];
      PageFilesFailure(p);
      assert forall i :: 0 <= i < n ==> p[i] == pages[i];
      forall i | 0 <= i < |pages| && pages[i].Failure? && (forall j :: 0 <= j < i ==> pages[j].Success?)
        ensures PageFiles(pages) == Failure(pages[i].error)
      {
        if i < n {
          assert p[i].Failure? && forall j :: 0 <= j < i ==> p[j].Success?;
        } else {
          assert forall j :: 0 <= j < n ==> p[j].Success?;
        }
      }
    }
  }

  /**
    `getChangedFilesPR`: every record of every page of the listing of pull
    request `prNumber` is applied, in order, to a fresh accumulator; a
    failing page fails the whole listing.
  */
  method GetChangedFilesPR(matches: string -> bool, listFiles: int -> seq<Page>, prNumber: int)
    returns (outcome: Result<ChangedFiles, string>)
    ensures PageFiles(listFiles(prNumber)).Failure? ==> outcome == Failure(PageFiles(listFiles(prNumber)).error)
    ensures PageFiles(listFiles(prNumber)).Success? ==>
      && outcome.Success? && fresh(outcome.value)
      && outcome.value.matches == matches && outcome.value.Valid()
      && outcome.value.Snapshot() == Fold(matches, Empty, PageFiles(listFiles(prNumber)).value)
  {
    var pages := listFiles(prNumber);
    var changedFiles := new ChangedFiles(matches);
    for i := 0 to |pages|
      invariant fresh(changedFiles) && changedFiles.matches == matches && changedFiles.Valid()
      invariant PageFiles(pages[..i]).Success?
      invariant changedFiles.Snapshot() == Fold(matches, Empty, PageFiles(pages[..i]).value)
    {
      assert pages[..i + 1][..i] == pages[..i];
      match pages[i] {
        case Failure(e) =>
          PageFailureSticks(pages, i + 1);
          return Failure(e);
        case Success(files) =>
          FoldAppend(matches, Empty, PageFiles(pages[..i]).value, files);
          changedFiles.ApplyAll(files);
      }
    }
    assert pages[..|pages|] == pages;
    return Success(changedFiles);
  }

  // ---- Pushes ----

  /** The records one commit contributes: those of a distinct commit whose fetch succeeded with a file list. */
  function CommitFiles(commit: Commit, getCommit: string -> CommitResponse): seq<FileChange>
  {
    if !commit.distinct then []
    else match getCommit(commit.id)
      case Success(Some(files)) => files
      case _ => []
  }

  /** The records of all commits, commit by commit, each commit's list as one batch. */
  function PushFiles(commits: seq<Commit>, getCommit: string -> CommitResponse): seq<FileChange>
    decreases |commits|
  {
    if commits == [] then []
    else PushFiles(commits[..|commits| - 1], getCommit) + CommitFiles(commits[|commits| - 1], getCommit)
  }

  /** The error of the first distinct commit, in commit order, whose fetch failed. */
  function PushFailure(commits: seq<Commit>, getCommit: string -> CommitResponse): Option<string>
    decreases |commits|
  {
    if commits == [] then None
    else
      var before := PushFailure(commits[..|commits| - 1], getCommit);
      var last := commits[|commits| - 1];
      if before.Some? then before
      else if last.distinct && getCommit(last.id).Failure? then Some(getCommit(last.id).error)
      else None
  }

  /** The commit ids handed to the provider, in commit order. */
  function DistinctIds(commits: seq<Commit>): seq<string>
    decreases |commits|
  {
    if commits == [] then []
    else
      var last := commits[|commits| - 1];
      DistinctIds(commits[..|commits| - 1]) + (if last.distinct then [last.id] else [])
  }

  /** The commits of the push that are distinct, in order. */
  function DistinctOnly(commits: seq<Commit>): (ds: seq<Commit>)
    ensures forall i :: 0 <= i < |ds| ==> ds[i].distinct
    decreases |commits|
  {
    if commits == [] then []
    else
      var last := commits[|commits| - 1];
      DistinctOnly(commits[..|commits| - 1]) + (if last.distinct then [last] else [])
  }

  /**
    Non-distinct commits contribute nothing, cause no fetch and no failure:
    the push is handled exactly as if it held only its distinct commits.
  */
  lemma {:induction false} NonDistinctCommitsIgnored(commits: seq<Commit>, getCommit: string -> CommitResponse)
    ensures PushFiles(commits, getCommit) == PushFiles(DistinctOnly(commits), getCommit)
    ensures PushFailure(commits, getCommit) == PushFailure(DistinctOnly(commits), getCommit)
    ensures DistinctIds(commits) == DistinctIds(DistinctOnly(commits))
    decreases |commits|
  {
    if commits != [] {
      var n := |commits| - 1;
      var last := commits[n];
      var ds := DistinctOnly(commits[..n]);
      NonDistinctCommitsIgnored(commits[..n], getCommit);
      if last.distinct {
        assert DistinctOnly(commits) == ds + [last];
        assert (ds + [last])[..|ds|] == ds;
      } else {
        assert DistinctOnly(commits) == ds;
        assert PushFiles(commits, getCommit) == PushFiles(commits[..n], getCommit) + [];
      }
    }
  }

  /**
    The push fails exactly when the fetch of some distinct commit fails: one
    failed fetch never silently truncates the result.
  */
  lemma {:induction false} PushFailureIff(commits: seq<Commit>, getCommit: string -> CommitResponse)
    ensures PushFailure(commits, getCommit).Some? <==>
      exists i :: 0 <= i < |commits| && commits[i].distinct && getCommit(commits[i].id).Failure?
    decreases |commits|
  {
    if commits != [] {
      var n := |commits| - 1;
      var p := commits[..n];
      PushFailureIff(p, getCommit);
      assert forall i :: 0 <= i < n ==> p[i] == commits[i];
    }
  }

  /**
    `getChangedFilesPush`: every distinct commit is fetched, in commit order,
    and its file list applied to one accumulator; non-distinct commits are
    skipped without a fetch.  Any failed fetch fails the whole push.
  */
  method GetChangedFilesPush(matches: string -> bool, commits: seq<Commit>, getCommit: string -> CommitResponse)
    returns (outcome: Result<ChangedFiles, string>, fetched: seq<string>)
    ensures fetched == DistinctIds(commits)
    ensures PushFailure(commits, getCommit).Some? ==> outcome == Failure(PushFailure(commits, getCommit).value)
    ensures PushFailure(commits, getCommit).None? ==>
      && outcome.Success? && fresh(outcome.value)
      && outcome.value.matches == matches && outcome.value.Valid()
      && outcome.value.Snapshot() == Fold(matches, Empty, PushFiles(commits, getCommit))
  {
    var changedFiles := new ChangedFiles(matches);
    var failure: Option<string> := None;
    fetched := [];
    for i := 0 to |commits|
      invariant fresh(changedFiles) && changedFiles.matches == matches && changedFiles.Valid()
      invariant fetched == DistinctIds(commits[..i])
      invariant failure == PushFailure(commits[..i], getCommit)
      invariant changedFiles.Snapshot() == Fold(matches, Empty, PushFiles(commits[..i], getCommit))
    {
      assert commits[..i + 1][..i] == commits[..i];
      var commit := commits[i];
      assert PushFiles(commits[..i + 1], getCommit) == PushFiles(commits[..i], getCommit) + CommitFiles(commit, getCommit);
      assert PushFiles(commits[..i], getCommit) + [] == PushFiles(commits[..i], getCommit);
      if commit.distinct {
        var response := getCommit(commit.id);
        fetched := fetched + [commit.id];
        if response.Failure? {
          if failure.None? {
            failure := Some(response.error);
          }
        } else if response.value.Some? {
          FoldAppend(matches, Empty, PushFiles(commits[..i], getCommit), response.value.value);
          changedFiles.ApplyAll(response.value.value);
        }
      }
    }
    assert commits[..|commits|] == commits;
    if failure.Some? {
      outcome := Failure(failure.value);
    } else {
      outcome := Success(changedFiles);
    }
  }
}
