/**
 * The standalone release script (`index.ts`): the same release-range selection,
 * executed the way the JavaScript engine runs `filter` and `findIndex`, one element
 * at a time, and the command-line entry point that drives the whole announcement.
 */
module ReleaseScript {
  import opened Results
  import opened Seqs
  import opened Patterns
  import GitLab
  import Teams

  // ---------------------------------------------------------------------------
  // fetchVersionCommits, element by element
  // ---------------------------------------------------------------------------

  /** The semantic-tag filter as a loop over the tag list. */
  method FilterSemanticTags(tags: seq<GitLab.Tag>) returns (semantic: seq<GitLab.Tag>)
    ensures semantic == GitLab.SemanticTags(tags)
  {
    semantic := [];
    var i := 0;
    while i < |tags|
      invariant 0 <= i <= |tags|
      invariant semantic == Filter(GitLab.IsSemanticTag, tags[..i])
    {
      assert tags[..i + 1] == tags[..i] + [tags[i]];
      FilterSnoc(GitLab.IsSemanticTag, tags[..i], tags[i]);
      if IsSemverTagName(tags[i].name) {
        semantic := semantic + [tags[i]];
      }
      i := i + 1;
    }
    assert tags[..|tags|] == tags;
  }

  /** `findIndex` as a loop: stops at the first tag with the name, -1 when there is none. */
  method FindTagIndex(tags: seq<GitLab.Tag>, version: string) returns (index: int)
    ensures index == GitLab.FindIndex(tags, version)
  {
    var i := 0;
    while i < |tags| && tags[i].name != version
      invariant 0 <= i <= |tags|
      invariant forall k :: 0 <= k < i ==> tags[k].name != version
    {
      i := i + 1;
    }
    index := if i == |tags| then -1 else i;
  }

  /** `semanticTags[tagIndex + 1]`, throwing when that slot is undefined. */
  method ResolvePreviousTag(tags: seq<GitLab.Tag>, version: string) returns (r: Result<GitLab.Tag, GitLab.Error>)
    ensures r == GitLab.PreviousTag(tags, version)
  {
    var semantic := FilterSemanticTags(tags);
    var index := FindTagIndex(semantic, version);
    if index + 1 < |semantic| {
      r := Ok(semantic[index + 1]);
    } else {
      r := Err(GitLab.PreviousTagNotFound);
    }
  }

  /** The version-bump filter as a loop over the compared commits. */
  method DropVersionBumps(commits: seq<GitLab.Commit>) returns (kept: seq<GitLab.Commit>)
    ensures kept == GitLab.DropVersionBumps(commits)
  {
    kept := [];
    var i := 0;
    while i < |commits|
      invariant 0 <= i <= |commits|
      invariant kept == Filter(GitLab.IsChangeCommit, commits[..i])
    {
      assert commits[..i + 1] == commits[..i] + [commits[i]];
      FilterSnoc(GitLab.IsChangeCommit, commits[..i], commits[i]);
      if !IsVersionBumpTitle(commits[i].title) {
        kept := kept + [commits[i]];
      }
      i := i + 1;
    }
    assert commits[..|commits|] == commits;
  }

  /** The script's `fetchVersionCommits`: the same commit list as the library's for the same input. */
  method FetchVersionCommits(tags: seq<GitLab.Tag>, compare: (string, string) -> seq<GitLab.Commit>, version: string)
    returns (r: Result<seq<GitLab.Commit>, GitLab.Error>)
    ensures r == GitLab.FetchVersionCommits(tags, compare, version)
  {
    var previous := ResolvePreviousTag(tags, version);
    if previous.Err? {
      return Err(previous.error);
    }
    var commits := DropVersionBumps(compare(previous.value.name, version));
    r := Ok(commits);
  }

  // ---------------------------------------------------------------------------
  // The command line and the announcement
  // ---------------------------------------------------------------------------

  datatype UsageError =
    | MissingArguments   // fewer than two positional arguments
    | EmptyArgument      // the project name or the tag is the empty string

  /** `process.argv.slice(2)` checked: two arguments, both non-empty (an empty string is falsy). */
  function ParseArgs(args: seq<string>): (r: Result<(string, string), UsageError>)
    ensures |args| < 2 <==> r == Err(MissingArguments)
    ensures r.Ok? <==> |args| >= 2 && args[0] != "" && args[1] != ""
    ensures r.Ok? ==> r.value == (args[0], args[1])
  {
    if |args| < 2 then Err(MissingArguments)
    else if args[0] == "" || args[1] == "" then Err(EmptyArgument)
    else Ok((args[0], args[1]))
  }

  /**
   * The answers of the outside world during one run: the GitLab tag list and compare
   * endpoint, the language model's changelog for a commit list, the GitLab user's
   * name, the clock reading, and whether the Teams webhook accepts a card.
   */
  datatype Services = Services(
    tags: seq<GitLab.Tag>,
    compare: (string, string) -> seq<GitLab.Commit>,
    summarize: seq<GitLab.Commit> -> string,
    releaseManager: string,
    clock: string,
    webhookAccepts: Teams.MessageCard -> bool)

  /** The process exit status and the card POSTed to the webhook, if any. */
  datatype Outcome = Outcome(exitCode: int, posted: Option<Teams.MessageCard>)

  /**
   * `announceRelease(projectName, tag)`: any throw is caught and ends in exit status 1.
   * A card is posted exactly when the release range resolves; it is a release card that
   * announces the
   * project and tag with the release manager, the clock reading and the changelog of
   * the commits that are not version bumps; the status is 0 exactly when it is accepted.
   */
  function AnnounceRelease(projectName: string, tag: string, svc: Services): (out: Outcome)
    ensures out.exitCode == 0 || out.exitCode == 1
    ensures out.posted.Some? <==> GitLab.PreviousTag(svc.tags, tag).Ok?
    ensures out.exitCode == 0 <==> out.posted.Some? && svc.webhookAccepts(out.posted.value)
    ensures out.posted.Some? ==> Teams.WellFormedCard(out.posted.value)
    ensures out.posted.Some? ==>
      var commits := GitLab.FetchVersionCommits(svc.tags, svc.compare, tag).value;
      && (forall k :: 0 <= k < |commits| ==> !IsVersionBumpTitle(commits[k].title))
      && Teams.ReadAnnouncement(out.posted.value) ==
           Some(Teams.Announcement(projectName, tag, svc.summarize(commits), svc.releaseManager, svc.clock))
  {
    match GitLab.FetchVersionCommits(svc.tags, svc.compare, tag)
    case Err(_) => Outcome(1, None)
    case Ok(commits) =>
      var changelog := svc.summarize(commits);
      Teams.ReadGeneratedCard(Teams.Announcement(projectName, tag, changelog, svc.releaseManager, svc.clock));
      var card := Teams.GenerateMessageCard(projectName, tag, changelog, svc.releaseManager, svc.clock);
      if svc.webhookAccepts(card) then Outcome(0, Some(card)) else Outcome(1, Some(card))
  }

  /**
   * The script from its command-line arguments (after `node` and the script path).
   * The status is 0 exactly when the arguments are valid, the previous tag resolves and
   * the webhook accepts the card; at most one card is posted, only after the range is
   * resolved, and it is the release card of the given project and tag.
   */
  function Run(args: seq<string>, svc: Services): (out: Outcome)
    ensures out.exitCode == 0 || out.exitCode == 1
    ensures out.posted.Some? <==> ParseArgs(args).Ok? && GitLab.PreviousTag(svc.tags, args[1]).Ok?
    ensures out.exitCode == 0 <==> out.posted.Some? && svc.webhookAccepts(out.posted.value)
    ensures out.posted.Some? ==> Teams.WellFormedCard(out.posted.value)
    ensures out.posted.Some? ==>
      var commits := GitLab.FetchVersionCommits(svc.tags, svc.compare, args[1]).value;
      && (forall k :: 0 <= k < |commits| ==> !IsVersionBumpTitle(commits[k].title))
      && Teams.ReadAnnouncement(out.posted.value) ==
           Some(Teams.Announcement(args[0], args[1], svc.summarize(commits), svc.releaseManager, svc.clock))
  {
    match ParseArgs(args)
    case Err(_) => Outcome(1, None)
    case Ok((projectName, tag)) => AnnounceRelease(projectName, tag, svc)
  }

  /**
   * The card a run posts is exactly `generateMessageCard` of the arguments, the release
   * manager, the changelog of the filtered commits and the clock reading.
   */
  lemma PostedCardIsGenerated(args: seq<string>, svc: Services)
    requires Run(args, svc).posted.Some?
    ensures var commits := GitLab.FetchVersionCommits(svc.tags, svc.compare, args[1]).value;
            Run(args, svc).posted.value ==
              Teams.GenerateMessageCard(args[0], args[1], svc.summarize(commits), svc.releaseManager, svc.clock)
  {
    var commits := GitLab.FetchVersionCommits(svc.tags, svc.compare, args[1]).value;
    Teams.WellFormedCardIsGenerated(Run(args, svc).posted.value,
      Teams.Announcement(args[0], args[1], svc.summarize(commits), svc.releaseManager, svc.clock));
  }

  /** Bad arguments end the run with status 1 before any request: nothing is fetched or posted. */
  lemma BadArgumentsStopBeforePipeline(args: seq<string>, svc: Services)
    requires |args| < 2 || args[0] == "" || args[1] == ""
    ensures Run(args, svc) == Outcome(1, None)
  {
  }

  /** A resolved range whose card the webhook accepts ends in status 0 with that card posted. */
  lemma AnnounceAcceptedRelease(projectName: string, tag: string, svc: Services, commits: seq<GitLab.Commit>)
    requires GitLab.FetchVersionCommits(svc.tags, svc.compare, tag) == Ok(commits)
    requires svc.webhookAccepts(Teams.GenerateMessageCard(projectName, tag, svc.summarize(commits),
                                                          svc.releaseManager, svc.clock))
    ensures AnnounceRelease(projectName, tag, svc) ==
              Outcome(0, Some(Teams.GenerateMessageCard(projectName, tag, svc.summarize(commits),
                                                        svc.releaseManager, svc.clock)))
  {
  }

  /**
   * A release from start to finish: `v2.0.0` follows `v1.9.0`; of a merge commit, a
   * version bump and a feature, the changelog is asked for the merge and the feature.
   */
  lemma ReleaseScenario(projectName: string, newer: GitLab.Tag, older: GitLab.Tag, merge: GitLab.Commit,
                        bump: GitLab.Commit, feature: GitLab.Commit, svc: Services)
    requires projectName != ""
    requires newer.name == "v2.0.0" && older.name == "v1.9.0"
    requires merge.title == "Merge branch 'login' into 'main'" && bump.title == "2.0.0" &&
             feature.title == "Add login flow"
    requires svc.tags == [newer, older]
    requires svc.compare(older.name, newer.name) == [merge, bump, feature]
    requires svc.webhookAccepts(Teams.GenerateMessageCard(projectName, newer.name, svc.summarize([merge, feature]),
                                                          svc.releaseManager, svc.clock))
    ensures Run([projectName, newer.name], svc) ==
              Outcome(0, Some(Teams.GenerateMessageCard(projectName, newer.name, svc.summarize([merge, feature]),
                                                        svc.releaseManager, svc.clock)))
  {
    GitLab.FetchVersionCommitsExample(newer, older, merge, bump, feature, svc.compare);
    AnnounceAcceptedRelease(projectName, newer.name, svc, [merge, feature]);
    assert ParseArgs([projectName, newer.name]) == Ok((projectName, newer.name));
  }
}
