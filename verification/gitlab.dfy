/**
 * The pure steps of `fetchVersionCommits`: choosing the release range from the
 * project's tag list and dropping version-bump commits from the comparison.
 * The two GitLab requests become inputs: the tag list is a parameter and the
 * compare endpoint is a function from (from, to) tag names to its commit list.
 */
module GitLab {
  import opened Results
  import opened Seqs
  import opened Patterns

  /** The fields of a GitLab commit the program reads. */
  datatype Commit = Commit(id: string, title: string, message: string)

  /** The fields of a GitLab tag the program reads. */
  datatype Tag = Tag(name: string, message: string, commit: Commit)

  /** What the release-range selection can throw. */
  datatype Error =
    | PreviousTagNotFound
    | VersionNotFound  // raised only by the corrected resolver `PreviousTagStrict`

  /** The message of the `Error` object thrown for each case. */
  function ErrorMessage(e: Error): string {
    match e
    case PreviousTagNotFound => "Previous tag not found"
    case VersionNotFound => "version not found"
  }

  predicate IsSemanticTag(t: Tag) {
    IsSemverTagName(t.name)
  }

  /** A commit that carries a change, as opposed to a release tool's version bump. */
  predicate IsChangeCommit(c: Commit) {
    !IsVersionBumpTitle(c.title)
  }

  // ---------------------------------------------------------------------------
  // Previous-tag resolution
  // ---------------------------------------------------------------------------

  /** `tags.filter(tag => tag.name.match(/^v\d+\.\d+\.\d+$/))` */
  function SemanticTags(tags: seq<Tag>): (r: seq<Tag>)
    ensures forall t :: t in r <==> t in tags && IsSemverTagName(t.name)
    ensures forall k :: 0 <= k < |r| ==> IsSemverTagName(r[k].name)
    ensures IsSubsequence(r, tags) && |r| <= |tags|
    ensures forall t :: multiset(r)[t] == if IsSemverTagName(t.name) then multiset(tags)[t] else 0
  {
    var r := Filter(IsSemanticTag, tags);
    FilterIsSubsequence(IsSemanticTag, tags);
    forall t ensures multiset(r)[t] == if IsSemverTagName(t.name) then multiset(tags)[t] else 0 {
      FilterMultiplicity(IsSemanticTag, tags, t);
    }
    r
  }

  /** `tags.findIndex(tag => tag.name === name)`: the first index with that name, or -1. */
  function FindIndex(tags: seq<Tag>, name: string): (r: int)
    ensures -1 <= r < |tags|
    ensures r == -1 <==> forall k :: 0 <= k < |tags| ==> tags[k].name != name
    ensures 0 <= r ==> tags[r].name == name && forall k :: 0 <= k < r ==> tags[k].name != name
  {
    if |tags| == 0 then -1
    else if tags[0].name == name then 0
    else
      var r := FindIndex(tags[1..], name);
      if r == -1 then -1 else r + 1
  }

  /**
   * The tag the release range starts from: the semantic tag right after the first one
   * named `version`.  As written, a missing `version` gives index -1, so the newest
   * semantic tag is returned; only an undefined slot raises the error.
   */
  function PreviousTag(tags: seq<Tag>, version: string): (r: Result<Tag, Error>)
    ensures r.Ok? ==> r.value in tags && IsSemverTagName(r.value.name)
    ensures r.Err? ==> r.error == PreviousTagNotFound && ErrorMessage(r.error) == "Previous tag not found"
  {
    var semantic := SemanticTags(tags);
    match At(semantic, FindIndex(semantic, version) + 1)
    case None => Err(PreviousTagNotFound)
    case Some(t) => Ok(t)
  }

  /** When `version` first occurs at `i` among the semantic tags, the successor slot decides. */
  lemma PreviousTagOfFirstMatch(tags: seq<Tag>, version: string, i: nat)
    requires i < |SemanticTags(tags)| && SemanticTags(tags)[i].name == version
    requires forall k :: 0 <= k < i ==> SemanticTags(tags)[k].name != version
    ensures i + 1 < |SemanticTags(tags)| ==> PreviousTag(tags, version) == Ok(SemanticTags(tags)[i + 1])
    ensures i + 1 == |SemanticTags(tags)| ==> PreviousTag(tags, version) == Err(PreviousTagNotFound)
  {
    assert FindIndex(SemanticTags(tags), version) == i;
  }

  /** With duplicate names the first match wins: a later duplicate's successor is not used. */
  lemma PreviousTagIgnoresLaterDuplicates(tags: seq<Tag>, version: string, i: nat, j: nat)
    requires i < j < |SemanticTags(tags)|
    requires SemanticTags(tags)[i].name == version && SemanticTags(tags)[j].name == version
    requires forall k :: 0 <= k < i ==> SemanticTags(tags)[k].name != version
    ensures PreviousTag(tags, version) == Ok(SemanticTags(tags)[i + 1])
  {
    PreviousTagOfFirstMatch(tags, version, i);
  }

  /**
   * The fall-through for a version that is not among the semantic tags: the newest
   * semantic tag is returned, and the error appears only when there is none at all.
   */
  lemma PreviousTagWhenAbsent(tags: seq<Tag>, version: string)
    requires forall t :: t in SemanticTags(tags) ==> t.name != version
    ensures |SemanticTags(tags)| > 0 ==> PreviousTag(tags, version) == Ok(SemanticTags(tags)[0])
    ensures |SemanticTags(tags)| == 0 ==> PreviousTag(tags, version) == Err(PreviousTagNotFound)
  {
    var semantic := SemanticTags(tags);
    assert forall k :: 0 <= k < |semantic| ==> semantic[k] in semantic;
    assert FindIndex(semantic, version) == -1;
  }

  /** With the newest tag first, a release's range starts at the tag after it. */
  lemma PreviousTagOfNewestPair(newer: Tag, older: Tag)
    requires IsSemverTagName(newer.name) && IsSemverTagName(older.name)
    ensures PreviousTag([newer, older], newer.name) == Ok(older)
  {
    FilterKeepsAll(IsSemanticTag, [newer, older]);
    PreviousTagOfFirstMatch([newer, older], newer.name, 0);
  }

  /** The example of `should get previous tag successfully`: `[v1.1.1, v1.1.0]` resolves `v1.1.1` to `v1.1.0`. */
  lemma PreviousTagNewestFirstExample(newer: Tag, older: Tag)
    requires newer.name == "v1.1.1" && older.name == "v1.1.0"
    ensures PreviousTag([newer, older], "v1.1.1") == Ok(older)
  {
    SemverTagExamples(newer.name);
    SemverTagExamples(older.name);
    PreviousTagOfNewestPair(newer, older);
  }

  /** The tag filter drops names such as `latest` or `staging-1` and keeps the order of the rest. */
  lemma SemanticTagsSkipExample(latest: Tag, newer: Tag, staging: Tag, older: Tag)
    requires latest.name == "latest" && staging.name == "staging-1"
    requires newer.name == "v1.1.1" && older.name == "v1.1.0"
    ensures SemanticTags([latest, newer, staging, older]) == [newer, older]
  {
    SemverTagExamples(newer.name);
    SemverTagExamples(older.name);
    NotSemverTagExamples(latest.name);
    NotSemverTagExamples(staging.name);
    var tags := [latest, newer, staging, older];
    assert tags[3..] == [older] && [older][1..] == [];
    assert Filter(IsSemanticTag, tags[3..]) == [older];
    assert tags[2..] == [staging, older] && tags[2..][1..] == tags[3..];
    assert Filter(IsSemanticTag, tags[2..]) == [older];
    assert tags[1..] == [newer, staging, older] && tags[1..][1..] == tags[2..];
    assert Filter(IsSemanticTag, tags[1..]) == [newer, older];
  }

  /** Tags such as `latest` or `staging-1` are skipped wherever they sit in the list. */
  lemma PreviousTagSkipsNonSemanticExample(latest: Tag, newer: Tag, staging: Tag, older: Tag)
    requires latest.name == "latest" && staging.name == "staging-1"
    requires newer.name == "v1.1.1" && older.name == "v1.1.0"
    ensures PreviousTag([latest, newer, staging, older], "v1.1.1") == Ok(older)
  {
    SemanticTagsSkipExample(latest, newer, staging, older);
    PreviousTagOfFirstMatch([latest, newer, staging, older], "v1.1.1", 0);
  }

  // ---------------------------------------------------------------------------
  // Version-bump commit filtering
  // ---------------------------------------------------------------------------

  /** `commits.filter(commit => !commit.title.match(/^\d+\.\d+\.\d+(-\S+)?$/))` */
  function DropVersionBumps(commits: seq<Commit>): (r: seq<Commit>)
    ensures forall c :: c in r <==> c in commits && !IsVersionBumpTitle(c.title)
    ensures forall k :: 0 <= k < |r| ==> !IsVersionBumpTitle(r[k].title)
    ensures IsSubsequence(r, commits) && |r| <= |commits|
    ensures forall c {:trigger multiset(r)[c]} ::
      multiset(r)[c] == if IsVersionBumpTitle(c.title) then 0 else multiset(commits)[c]
  {
    var r := Filter(IsChangeCommit, commits);
    FilterIsSubsequence(IsChangeCommit, commits);
    forall c ensures multiset(r)[c] == if IsVersionBumpTitle(c.title) then 0 else multiset(commits)[c] {
      FilterMultiplicity(IsChangeCommit, commits, c);
    }
    r
  }

  /** A merge commit and a feature are changes; a release tool's title is a version bump. */
  lemma ChangeCommitExamples(merge: Commit, bump: Commit, feature: Commit)
    requires merge.title == "Merge branch 'login' into 'main'" && feature.title == "Add login flow"
    requires bump.title == "2.0.0" || bump.title == "1.2.3-rc1"
    ensures IsChangeCommit(merge) && !IsChangeCommit(bump) && IsChangeCommit(feature)
  {
    ScanNumberTripleComplete(bump.title, 0, 1, 3, 5);
    assert !IsDigit(merge.title[0]) && !IsDigit(feature.title[0]);
  }

  /** Of a merge commit, a version bump and a feature, the bump alone is dropped. */
  lemma DropVersionBumpsExample(merge: Commit, bump: Commit, feature: Commit)
    requires merge.title == "Merge branch 'login' into 'main'" && feature.title == "Add login flow"
    requires bump.title == "2.0.0" || bump.title == "1.2.3-rc1"
    ensures DropVersionBumps([merge, bump, feature]) == [merge, feature]
  {
    ChangeCommitExamples(merge, bump, feature);
    DropVersionBumpsOfThree(merge, bump, feature);
  }

  /** A change, a bump and a change: the bump alone is dropped and the two changes keep their order. */
  lemma DropVersionBumpsOfThree(first: Commit, bump: Commit, last: Commit)
    requires IsChangeCommit(first) && !IsChangeCommit(bump) && IsChangeCommit(last)
    ensures DropVersionBumps([first, bump, last]) == [first, last]
  {
    var commits := [first, bump, last];
    assert commits[1..] == [bump, last] && commits[1..][1..] == [last] && [last][1..] == [];
    assert Filter(IsChangeCommit, [last]) == [last];
    assert Filter(IsChangeCommit, [bump, last]) == [last];
  }

  /** Dropping version bumps twice is the same as dropping them once. */
  lemma DropVersionBumpsIdempotent(commits: seq<Commit>)
    ensures DropVersionBumps(DropVersionBumps(commits)) == DropVersionBumps(commits)
  {
    FilterIdempotent(IsChangeCommit, commits);
  }

  /** No deduplication: each change commit keeps its multiplicity, each bump disappears. */
  lemma DropVersionBumpsMultiplicity(commits: seq<Commit>, c: Commit)
    ensures multiset(DropVersionBumps(commits))[c] ==
            if IsVersionBumpTitle(c.title) then 0 else multiset(commits)[c]
  {
    FilterMultiplicity(IsChangeCommit, commits, c);
  }

  /** The filter works commit by commit, so it splits over any cut of the input. */
  lemma DropVersionBumpsAppend(a: seq<Commit>, b: seq<Commit>)
    ensures DropVersionBumps(a + b) == DropVersionBumps(a) + DropVersionBumps(b)
  {
    FilterAppend(IsChangeCommit, a, b);
  }

  /** A comparison without version bumps passes through unchanged. */
  lemma DropVersionBumpsKeepsChanges(commits: seq<Commit>)
    ensures DropVersionBumps(commits) == commits <==>
            forall k :: 0 <= k < |commits| ==> !IsVersionBumpTitle(commits[k].title)
  {
    FilterKeepsAll(IsChangeCommit, commits);
  }

  // ---------------------------------------------------------------------------
  // fetchVersionCommits
  // ---------------------------------------------------------------------------

  /**
   * `fetchVersionCommits(version)` with its two requests as inputs: `tags` is the tag
   * list, `compare(from, to)` the commits of the comparison between two tag names.
   */
  function FetchVersionCommits(tags: seq<Tag>, compare: (string, string) -> seq<Commit>, version: string)
    : (r: Result<seq<Commit>, Error>)
    ensures r.Err? <==> PreviousTag(tags, version).Err?
    ensures r.Err? ==> r.error == PreviousTagNotFound
    ensures r.Ok? ==>
      var from := PreviousTag(tags, version).value.name;
      && IsSemverTagName(from)
      && (forall c :: c in r.value <==> c in compare(from, version) && !IsVersionBumpTitle(c.title))
      && IsSubsequence(r.value, compare(from, version))
      && (forall c {:trigger multiset(r.value)[c]} :: multiset(r.value)[c] ==
                      if IsVersionBumpTitle(c.title) then 0 else multiset(compare(from, version))[c])
  {
    match PreviousTag(tags, version)
    case Err(e) => Err(e)
    case Ok(previous) =>
      Ok(DropVersionBumps(compare(previous.name, version)))
  }

  /** With the newest tag first, a release's commits are its comparison with the tag after it, bumps dropped. */
  lemma FetchVersionCommitsOfNewestPair(newer: Tag, older: Tag, compare: (string, string) -> seq<Commit>)
    requires IsSemverTagName(newer.name) && IsSemverTagName(older.name)
    ensures FetchVersionCommits([newer, older], compare, newer.name) ==
            Ok(DropVersionBumps(compare(older.name, newer.name)))
  {
    PreviousTagOfNewestPair(newer, older);
  }

  /** Releasing `v2.0.0` after `v1.9.0`: of a merge, a version bump and a feature, the bump is dropped. */
  lemma FetchVersionCommitsExample(newer: Tag, older: Tag, merge: Commit, bump: Commit, feature: Commit,
                                   compare: (string, string) -> seq<Commit>)
    requires newer.name == "v2.0.0" && older.name == "v1.9.0"
    requires merge.title == "Merge branch 'login' into 'main'" && bump.title == "2.0.0" &&
             feature.title == "Add login flow"
    requires compare(older.name, newer.name) == [merge, bump, feature]
    ensures FetchVersionCommits([newer, older], compare, newer.name) == Ok([merge, feature])
  {
    ScanNumberTripleComplete(newer.name, 1, 2, 4, 6);
    ScanNumberTripleComplete(older.name, 1, 2, 4, 6);
    FetchVersionCommitsOfNewestPair(newer, older, compare);
    DropVersionBumpsExample(merge, bump, feature);
  }

  // ---------------------------------------------------------------------------
  // The resolver the tests and the documented contract expect
  // ---------------------------------------------------------------------------

  /**
   * Corrected resolver: a version that is not among the semantic tags is an error
   * of its own instead of falling through to the newest tag.
   */
  function PreviousTagStrict(tags: seq<Tag>, version: string): (r: Result<Tag, Error>)
    ensures r == Err(VersionNotFound) <==> forall t :: t in SemanticTags(tags) ==> t.name != version
    ensures r.Ok? ==> r.value in tags && IsSemverTagName(r.value.name)
  {
    var semantic := SemanticTags(tags);
    var i := FindIndex(semantic, version);
    if i == -1 then
      assert forall t :: t in semantic ==> t.name != version by {
        forall t | t in semantic ensures t.name != version {
          var k :| 0 <= k < |semantic| && semantic[k] == t;
        }
      }
      Err(VersionNotFound)
    else if i + 1 < |semantic| then Ok(semantic[i + 1])
    else Err(PreviousTagNotFound)
  }

  /** Wherever the version is present the corrected and the written resolver agree. */
  lemma StrictAgreesWhenPresent(tags: seq<Tag>, version: string)
    requires exists t :: t in SemanticTags(tags) && t.name == version
    ensures PreviousTagStrict(tags, version) == PreviousTag(tags, version)
  {
    var semantic := SemanticTags(tags);
    var t :| t in semantic && t.name == version;
    var k :| 0 <= k < |semantic| && semantic[k] == t;
    assert FindIndex(semantic, version) != -1;
  }

  /**
   * The tests `should throw an error if version tag is not found` and `... previous tag
   * is not found` resolve `v1.1.1` against `[v1.1.0]` and expect a throw; the code as
   * written returns `v1.1.0`, while the corrected resolver reports the missing version.
   */
  lemma AbsentVersionResolvesToNewest(only: Tag)
    requires only.name == "v1.1.0"
    ensures PreviousTag([only], "v1.1.1") == Ok(only)
    ensures PreviousTagStrict([only], "v1.1.1") == Err(VersionNotFound)
  {
    SemverTagExamples(only.name);
    assert SemanticTags([only]) == [only];
    PreviousTagWhenAbsent([only], "v1.1.1");
  }
}
