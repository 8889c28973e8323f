/**
  The action's entry point: the event switch of `run`, the choice of the
  filter, the call of an adapter, and the encoding of the three lists into
  the outputs `files_created`, `files_updated` and `files_deleted`.
  `RunSpec` states the whole run as a value; the method `Run` performs it
  with the adapters and is proved equal to it.
*/
module Dispatch {
  import opened Wrappers
  import opened Classification
  import opened Adapters
  import opened PrNumber
  import opened Encoding

  /**
    The named inputs.  `repoToken` is the raw value of `repo-token`, before
    trimming, because the required check looks at that value: a token made
    only of white space passes it, and trims to the empty token.  The other inputs are the trimmed values the
    configuration layer returns; an absent input is "".
  */
  datatype Inputs = Inputs(repoToken: string, event: string, prNumber: string, pattern: string, resultEncoding: string)

  /**
    The ambient context: the event name, the push payload's `commits` when
    present, the number of the `pull_request` payload when one is present, and
    the `head_ref` of the `merge_group` payload when one is present.
  */
  datatype Context = Context(
    eventName: string,
    commits: Option<seq<Commit>>,
    pullRequestNumber: Option<int>,
    mergeGroupHeadRef: Option<string>)

  /** The network side: the page responses for a pull-request number, and the response for a commit id. */
  datatype Provider = Provider(listFiles: int -> seq<Page>, getCommit: string -> CommitResponse)

  /** What the event switch decided to do. */
  datatype Mode = PushMode(commits: seq<Commit>) | PullRequestMode(number: int) | OtherEvent

  /** How the run ends: `core.setFailed` with a message, or the three outputs set. */
  datatype RunOutcome = Failed(message: string) | Published(filesCreated: Output, filesUpdated: Output, filesDeleted: Output)

  const TokenMissing: string := "Input required and not supplied: repo-token"
  const NoPush: string := "Could not get push from context, exiting"
  const NoPullRequest: string := "Could not get pull request from context, exiting"
  /** What building the client throws for an empty token. */
  const NoAuth: string := "Parameter token or opts.auth is required"

  /** `s` trims to the empty string: it holds only JavaScript white space and line terminators. */
  predicate Blank(s: string)
  {
    forall k :: 0 <= k < |s| ==> IsJsWhiteSpace(s[k])
  }

  /** The message of the top-level `catch` for an error whose string form is `err`. */
  function Unhandled(err: string): string
  {
    "Unhandled error: " + err
  }

  /** The `event` input overrides the ambient event name when it is non-empty. */
  function SelectEvent(inputs: Inputs, ctx: Context): (event: string)
    ensures inputs.event != "" ==> event == inputs.event
    ensures inputs.event == "" ==> event == ctx.eventName
  {
    if inputs.event != "" then inputs.event else ctx.eventName
  }

  /**
    The event switch of `run`: a push needs the push payload's commits, a
    pull request needs a truthy pull-request number (not undefined, NaN or
    0); any other event leads to empty lists.
  */
  function SelectMode(inputs: Inputs, ctx: Context): (r: Result<Mode, string>)
    ensures r.Success? && r.value.PushMode? <==> SelectEvent(inputs, ctx) == "push" && ctx.commits.Some?
    ensures r.Success? && r.value.PushMode? ==> r.value.commits == ctx.commits.value
    ensures r == Failure(NoPush) <==> SelectEvent(inputs, ctx) == "push" && ctx.commits.None?
    ensures r == Failure(NoPullRequest) <==>
      && SelectEvent(inputs, ctx) == "pull_request"
      && var pr := ExtractPrNumber(inputs.prNumber, ctx.pullRequestNumber, ctx.mergeGroupHeadRef);
         pr.None? || !Truthy(pr.value)
    ensures SelectEvent(inputs, ctx) == "pull_request" &&
            (var pr := ExtractPrNumber(inputs.prNumber, ctx.pullRequestNumber, ctx.mergeGroupHeadRef);
             pr.Some? && Truthy(pr.value)) ==>
      r == Success(PullRequestMode(ExtractPrNumber(inputs.prNumber, ctx.pullRequestNumber, ctx.mergeGroupHeadRef).value.value))
    ensures r.Success? && r.value.PullRequestMode? ==>
      && SelectEvent(inputs, ctx) == "pull_request"
      && r.value.number != 0
      && ExtractPrNumber(inputs.prNumber, ctx.pullRequestNumber, ctx.mergeGroupHeadRef) == Some(Int(r.value.number))
    ensures r == Success(OtherEvent) <==> SelectEvent(inputs, ctx) != "push" && SelectEvent(inputs, ctx) != "pull_request"
  {
    var event := SelectEvent(inputs, ctx);
    if event == "push" then
      if ctx.commits.None? then Failure(NoPush) else Success(PushMode(ctx.commits.value))
    else if event == "pull_request" then
      var pr := ExtractPrNumber(inputs.prNumber, ctx.pullRequestNumber, ctx.mergeGroupHeadRef);
      if pr.None? || !Truthy(pr.value) then Failure(NoPullRequest) else Success(PullRequestMode(pr.value.value))
    else Success(OtherEvent)
  }

  /**
    The filter an adapter builds from the `pattern` input: an empty input
    stands for `.*`, which every path passes; otherwise the compiled
    regular expression, or the error its compilation throws.
  */
  function Matcher(pattern: string, compile: string -> Result<string -> bool, string>): (r: Result<string -> bool, string>)
    ensures pattern == "" ==> r.Success? && forall p :: r.value(p)
    ensures pattern != "" ==> r.Success? == compile(pattern).Success?
    ensures pattern != "" && r.Success? ==> forall p :: r.value(p) == compile(pattern).value(p)
    ensures pattern != "" && r.Failure? ==> r.error == compile(pattern).error
  {
    if pattern == "" then Success((p: string) => true) else compile(pattern)
  }

  /** The three lists the selected adapter produces, or the error that ends it. */
  function Classify(mode: Mode, pattern: string, compile: string -> Result<string -> bool, string>, provider: Provider)
    : Result<Buckets, string>
  {
    match mode
    case OtherEvent => Success(Empty)
    case PushMode(commits) =>
      var m := Matcher(pattern, compile);
      if m.Failure? then Failure(m.error)
      else if PushFailure(commits, provider.getCommit).Some? then Failure(PushFailure(commits, provider.getCommit).value)
      else Success(Fold(m.value, Empty, PushFiles(commits, provider.getCommit)))
    case PullRequestMode(number) =>
      var m := Matcher(pattern, compile);
      if m.Failure? then Failure(m.error)
      else
        var files := PageFiles(provider.listFiles(number));
        if files.Failure? then Failure(files.error)
        else Success(Fold(m.value, Empty, files.value))
  }

  /**
    The whole run as a value, in the order of `run`: the required check on the
    token, building the client from the trimmed token, the event switch, the
    adapter, then the encoder.
  */
  function RunSpec(inputs: Inputs, ctx: Context, compile: string -> Result<string -> bool, string>, provider: Provider)
    : RunOutcome
  {
    if inputs.repoToken == "" then Failed(Unhandled("Error: " + TokenMissing))
    else if Blank(inputs.repoToken) then Failed(Unhandled("Error: " + NoAuth))
    else
      var mode := SelectMode(inputs, ctx);
      if mode.Failure? then Failed(mode.error)
      else
        var classified := Classify(mode.value, inputs.pattern, compile, provider);
        if classified.Failure? then Failed(Unhandled(classified.error))
        else
          var encoder := GetEncoder(inputs.resultEncoding);
          if encoder.Failure? then Failed(Unhandled("Error: " + encoder.error))
          else
            var b := classified.value;
            Published(Encode(encoder.value, b.created), Encode(encoder.value, b.updated), Encode(encoder.value, b.deleted))
  }

  /** `run`: performs the selected adapter on a fresh accumulator and encodes its lists. */
  method Run(inputs: Inputs, ctx: Context, compile: string -> Result<string -> bool, string>, provider: Provider)
    returns (outcome: RunOutcome)
    ensures outcome == RunSpec(inputs, ctx, compile, provider)
  {
    if inputs.repoToken == "" {
      return Failed(Unhandled("Error: " + TokenMissing));
    }
    if Blank(inputs.repoToken) {
      return Failed(Unhandled("Error: " + NoAuth));
    }
    var mode := SelectMode(inputs, ctx);
    if mode.Failure? {
      return Failed(mode.error);
    }
    var lists: Buckets;
    match mode.value {
      case OtherEvent =>
        lists := Empty;
      case PushMode(commits) =>
        var m := Matcher(inputs.pattern, compile);
        if m.Failure? {
          return Failed(Unhandled(m.error));
        }
        var pushed, _ := GetChangedFilesPush(m.value, commits, provider.getCommit);
        if pushed.Failure? {
          return Failed(Unhandled(pushed.error));
        }
        lists := pushed.value.Snapshot();
      case PullRequestMode(number) =>
        var m := Matcher(inputs.pattern, compile);
        if m.Failure? {
          return Failed(Unhandled(m.error));
        }
        var listed := GetChangedFilesPR(m.value, provider.listFiles, number);
        if listed.Failure? {
          return Failed(Unhandled(listed.error));
        }
        lists := listed.value.Snapshot();
    }
    var encoder := GetEncoder(inputs.resultEncoding);
    if encoder.Failure? {
      return Failed(Unhandled("Error: " + encoder.error));
    }
    outcome := Published(Encode(encoder.value, lists.created), Encode(encoder.value, lists.updated), Encode(encoder.value, lists.deleted));
  }

  // ---- Properties of the run ----

  /** Any event other than push and pull_request publishes three encodings of the empty list. */
  lemma OtherEventsPublishEmptyLists(inputs: Inputs, ctx: Context, compile: string -> Result<string -> bool, string>, provider: Provider)
    requires !Blank(inputs.repoToken)
    requires SelectEvent(inputs, ctx) != "push" && SelectEvent(inputs, ctx) != "pull_request"
    requires GetEncoder(inputs.resultEncoding).Success?
    ensures var e := Encode(GetEncoder(inputs.resultEncoding).value, []);
            RunSpec(inputs, ctx, compile, provider) == Published(e, e, e)
  {
  }

  /**
    A missing push payload or pull-request number ends the run with its own
    message, which no encoding check or fetch precedes.
  */
  lemma MissingIdentityFails(inputs: Inputs, ctx: Context, compile: string -> Result<string -> bool, string>, provider: Provider)
    requires !Blank(inputs.repoToken)
    ensures SelectEvent(inputs, ctx) == "push" && ctx.commits.None? ==>
      RunSpec(inputs, ctx, compile, provider) == Failed(NoPush)
    ensures SelectEvent(inputs, ctx) == "pull_request" && ExtractPrNumber(inputs.prNumber, ctx.pullRequestNumber, ctx.mergeGroupHeadRef).None? ==>
      RunSpec(inputs, ctx, compile, provider) == Failed(NoPullRequest)
    ensures SelectEvent(inputs, ctx) == "pull_request" && ExtractPrNumber(inputs.prNumber, ctx.pullRequestNumber, ctx.mergeGroupHeadRef) == Some(Int(0)) ==>
      RunSpec(inputs, ctx, compile, provider) == Failed(NoPullRequest)
  {
  }

  /**
    A run needs a token that is not blank.  With no value at all the required
    check fails; a value of white space only passes that check but trims to
    the empty token, and building the client from it fails, whatever the
    event.
  */
  lemma RepoTokenRequired(inputs: Inputs, ctx: Context, compile: string -> Result<string -> bool, string>, provider: Provider)
    ensures inputs.repoToken == "" ==>
      RunSpec(inputs, ctx, compile, provider) == Failed(Unhandled("Error: " + TokenMissing))
    ensures inputs.repoToken != "" && Blank(inputs.repoToken) ==>
      RunSpec(inputs, ctx, compile, provider) == Failed(Unhandled("Error: " + NoAuth))
    ensures inputs.repoToken == " \t " ==>
      RunSpec(inputs, ctx, compile, provider) == Failed(Unhandled("Error: " + NoAuth))
  {
  }

  /** An unrecognised `result-encoding` never lets the run publish anything. */
  lemma BadEncodingNeverPublishes(inputs: Inputs, ctx: Context, compile: string -> Result<string -> bool, string>, provider: Provider)
    requires inputs.resultEncoding !in {"", "string", "json"}
    ensures RunSpec(inputs, ctx, compile, provider).Failed?
  {
  }

  /**
    A pull-request run that gets its pages publishes, for each list, the
    encoding of exactly the paths the records contribute to it, in order.
  */
  lemma PullRequestRunPublishes(inputs: Inputs, ctx: Context, compile: string -> Result<string -> bool, string>, provider: Provider, number: int)
    requires !Blank(inputs.repoToken)
    requires SelectMode(inputs, ctx) == Success(PullRequestMode(number))
    requires Matcher(inputs.pattern, compile).Success?
    requires PageFiles(provider.listFiles(number)).Success?
    requires GetEncoder(inputs.resultEncoding).Success?
    ensures var m := Matcher(inputs.pattern, compile).value;
            var fs := PageFiles(provider.listFiles(number)).value;
            var e := GetEncoder(inputs.resultEncoding).value;
            RunSpec(inputs, ctx, compile, provider) == Published(Encode(e, Created(m, fs)), Encode(e, Updated(m, fs)), Encode(e, Deleted(m, fs)))
  {
    var m := Matcher(inputs.pattern, compile).value;
    var fs := PageFiles(provider.listFiles(number)).value;
    FoldByBucket(m, Empty, fs);
    assert [] + Created(m, fs) == Created(m, fs);
    assert [] + Updated(m, fs) == Updated(m, fs);
    assert [] + Deleted(m, fs) == Deleted(m, fs);
  }

  /**
    A push run whose fetches all succeed publishes, for each list, the
    encoding of exactly the paths the distinct commits' records contribute to it.
  */
  lemma PushRunPublishes(inputs: Inputs, ctx: Context, compile: string -> Result<string -> bool, string>, provider: Provider)
    requires !Blank(inputs.repoToken)
    requires SelectEvent(inputs, ctx) == "push" && ctx.commits.Some?
    requires Matcher(inputs.pattern, compile).Success?
    requires PushFailure(ctx.commits.value, provider.getCommit).None?
    requires GetEncoder(inputs.resultEncoding).Success?
    ensures var m := Matcher(inputs.pattern, compile).value;
            var fs := PushFiles(DistinctOnly(ctx.commits.value), provider.getCommit);
            var e := GetEncoder(inputs.resultEncoding).value;
            RunSpec(inputs, ctx, compile, provider) == Published(Encode(e, Created(m, fs)), Encode(e, Updated(m, fs)), Encode(e, Deleted(m, fs)))
  {
    var m := Matcher(inputs.pattern, compile).value;
    var commits := ctx.commits.value;
    NonDistinctCommitsIgnored(commits, provider.getCommit);
    var fs := PushFiles(commits, provider.getCommit);
    FoldByBucket(m, Empty, fs);
    assert [] + Created(m, fs) == Created(m, fs);
    assert [] + Updated(m, fs) == Updated(m, fs);
    assert [] + Deleted(m, fs) == Deleted(m, fs);
  }
}
