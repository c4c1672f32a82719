# Release-range selection and release card of herald-ai, in Dafny

herald-ai announces a release. It takes the version tag just released and finds the
previous semantic-version tag in the GitLab tag list. It fetches the commits between
the two tags and drops the commits a release tool writes for version bumps. A language
model summarises the remaining commits into a changelog. The program then posts a
Microsoft Teams "MessageCard" that announces the release.

This project models the pure logic behind that pipeline:

- **Previous-tag resolution** (`fetchVersionCommits`, `src/lib/gitlab.ts`). The tag
  list is filtered to names matching `/^v\d+\.\d+\.\d+$/`. `findIndex` locates the
  released version, and the tag in the slot after it is the previous tag. When that
  slot is `undefined`, the program throws `Previous tag not found`.
- **Version-bump filtering** (same function). Every commit whose title matches
  `/^\d+\.\d+\.\d+(-\S+)?$/` is dropped. Order is kept and nothing is deduplicated.
- **The release card** (`generateMessageCard`, `src/lib/teams.ts`). It has a fixed
  header, one markdown section and five facts in a fixed order.
- **The standalone script** (`index.ts`). It repeats the same selection and card
  builder. It adds a command-line check of its two arguments and an
  `announceRelease` that turns any failure into exit status 1.

Modules, one per file:

| file | module | contents |
|---|---|---|
| results.dfy | `Results` | `Option` (`None` is JavaScript's `undefined`) and `Result` (`Err` is a thrown error) |
| seqs.dfy | `Seqs` | `At` (array indexing, `undefined` out of range), `Filter` (`Array.prototype.filter`), subsequence, and the filter lemmas |
| patterns.dfy | `Patterns` | the two regular expressions, each as a greedy scanner and as a declarative language, proved equal |
| gitlab.dfy | `GitLab` | `Commit`, `Tag`, the semantic-tag filter, `findIndex`, the previous-tag resolver, the version-bump filter, and `fetchVersionCommits` with its requests as inputs |
| teams.dfy | `Teams` | `MessageCard`, `generateMessageCard`, and a reader that inverts it |
| release_script.dfy | `ReleaseScript` | the `index.ts` copy as element-by-element loops proved equal to `GitLab`, argument parsing, and the outcome of a whole run |

The regular expressions have neither the `m` nor the `u` flag. So `^` and `$` anchor at
the ends of the whole string, and `\d` is `'0'..'9'`. `\S` is any character outside
the ECMAScript WhiteSpace and LineTerminator sets (`Patterns.IsWhitespace`).

A version that is not among the semantic tags is the one case where the intent and the
code part ways. The repository's tests expect an error there. The code does not raise
one: `findIndex` returns `-1`, so the code reads `semanticTags[0]` and returns the
newest semantic tag. It throws only when there are no semantic tags at all.
`GitLab.PreviousTag` models the code. The tests are in
`src/test/gitlab.test.ts:344-381`, and the disagreement appears under Findings below.
Those tests import `getPreviousTag` (`src/test/gitlab.test.ts:14`), which
`src/lib/gitlab.ts:87` does not export, so they never ran this code: "the tests expect an
error" reads their intent, not an observed failure.

`generateMessageCard` in `index.ts:138-182` is the same text as in
`src/lib/teams.ts:3-47`. One definition, `Teams.GenerateMessageCard`, serves both.
`ReleaseScript.AnnounceRelease` uses it.

## Model

| member | source | states |
|---|---|---|
| Seqs.At | src/lib/gitlab.ts:27 | reading an array slot gives the element exactly when the index is in range, and `undefined` otherwise |
| Seqs.Filter | src/lib/gitlab.ts:20-22 | `filter` keeps exactly the elements that pass the predicate, every kept element passes it, and the result is never longer than the input |
| Seqs.FilterSnoc | index.ts:83-85 | filtering one more element at the end appends it exactly when it passes, which is the step of the element-by-element loops |
| Patterns.DigitRun | src/lib/gitlab.ts:21 | a greedy `\d+` from a position consumes only digits and stops at the end of input or at the first non-digit |
| Patterns.ScanNumberTriple | src/lib/gitlab.ts:52 | when the scan succeeds, the input from the start position is digits, `.`, digits, `.`, digits with the dots at the reported positions, and no digit follows |
| Patterns.ScanNumberTripleComplete | src/lib/gitlab.ts:52 | every `\d+\.\d+\.\d+` not followed by another digit is found by the scan, with exactly its dot and end positions (the greedy match is the only match) |
| Patterns.IsSemverTagName | src/lib/gitlab.ts:21 | the one-pass recogniser accepts a name if and only if it is `v`, one or more digits, `.`, one or more digits, `.`, one or more digits, and nothing else |
| Patterns.IsVersionBumpTitle | src/lib/gitlab.ts:52 | the one-pass recogniser accepts a title if and only if it is three dot-separated digit runs, optionally followed by `-` and one or more non-whitespace characters, and nothing else |
| Patterns.VersionBumpExamples | src/lib/gitlab.ts:52 | `1.2.3`, `1.2.3-rc1` and `1.2.3-rc-1` are version bumps |
| Patterns.NotVersionBumpExamples | src/lib/gitlab.ts:52 | `Add login flow`, `1.2.3-`, `v1.2.3` and `1.2.3-rc 1` are not version bumps |
| Patterns.SemverTagExamples | src/lib/gitlab.ts:21 | `v1.1.0`, `v1.1.1` and `v10.20.300` are semantic tag names |
| Patterns.NotSemverTagExamples | src/lib/gitlab.ts:21 | `latest`, `staging-1`, `1.1.0`, `v1.1`, `v1.1.0-rc1` and `v1.1.0` followed by a newline are not semantic tag names (`$` does not match before a final newline) |
| GitLab.SemanticTags | src/lib/gitlab.ts:20-22 | the kept tags are exactly the input tags with a semantic name, as an order-preserving subsequence of the input, never longer than it; nothing is deduplicated: each semantic tag occurs as often as in the input, every other tag not at all |
| GitLab.FindIndex | src/lib/gitlab.ts:24-26 | the result is the first index whose name equals the version, or -1 exactly when no tag has that name |
| GitLab.PreviousTag | src/lib/gitlab.ts:20-31 | a returned tag is an element of the input and has a semantic name (never `latest` and the like); the only error is the one whose message is `Previous tag not found` |
| GitLab.PreviousTagOfFirstMatch | src/lib/gitlab.ts:24-31 | if the version first occurs at semantic index i, the result is the semantic tag at i+1, or the error when i is the last index |
| GitLab.PreviousTagIgnoresLaterDuplicates | src/lib/gitlab.ts:24-27 | when the version's name occurs twice, the successor of the first occurrence is returned |
| GitLab.PreviousTagWhenAbsent | src/lib/gitlab.ts:24-31 | for a version absent from the semantic tags, the result is the newest semantic tag, and the error only when no semantic tag exists |
| GitLab.PreviousTagOfNewestPair | src/lib/gitlab.ts:24-27 | with two semantic tags newest first, the newer one's name resolves to the older tag (also when both have the same name, since `findIndex` takes the first) |
| GitLab.PreviousTagNewestFirstExample | src/test/gitlab.test.ts:314-342 | `[v1.1.1, v1.1.0]` resolves `v1.1.1` to the `v1.1.0` tag |
| GitLab.SemanticTagsSkipExample | src/lib/gitlab.ts:20-22 | the filter turns `[latest, v1.1.1, staging-1, v1.1.0]` into `[v1.1.1, v1.1.0]` |
| GitLab.PreviousTagSkipsNonSemanticExample | src/lib/gitlab.ts:20-27 | in `[latest, v1.1.1, staging-1, v1.1.0]`, `v1.1.1` resolves to `v1.1.0`, skipping the non-semantic tags |
| GitLab.DropVersionBumps | src/lib/gitlab.ts:51-55 | the kept commits are exactly the input commits whose title is not a version bump, as an order-preserving subsequence, never longer than the input; nothing is deduplicated: each change commit occurs as often as in the input, each bump not at all |
| GitLab.ChangeCommitExamples | src/lib/gitlab.ts:51-53 | the titles `Merge branch 'login' into 'main'` and `Add login flow` pass the filter; `2.0.0` and `1.2.3-rc1` do not |
| GitLab.DropVersionBumpsExample | src/lib/gitlab.ts:51-53 | of a merge commit, a version bump and a feature commit, only the bump is dropped and the order is kept |
| GitLab.DropVersionBumpsOfThree | src/lib/gitlab.ts:51-53 | for any change, bump, change in that order, only the bump is dropped and the two changes keep their order |
| GitLab.DropVersionBumpsIdempotent | src/lib/gitlab.ts:51-53 | dropping version bumps twice gives the same list as dropping them once |
| GitLab.DropVersionBumpsMultiplicity | src/lib/gitlab.ts:51-53 | no deduplication: a change commit occurs in the output as often as in the input, and a bump does not occur at all |
| GitLab.DropVersionBumpsAppend | src/lib/gitlab.ts:51-53 | the filter decides commit by commit, so filtering a concatenation concatenates the filtered parts |
| GitLab.DropVersionBumpsKeepsChanges | src/lib/gitlab.ts:51-55 | the output equals the input exactly when no input title is a version bump |
| GitLab.FetchVersionCommits | src/lib/gitlab.ts:20-55 | it fails exactly when the resolver fails, with `Previous tag not found`; otherwise the comparison starts from a semantic tag and the result is exactly its non-bump commits, in order, each non-bump commit as often as in the comparison |
| GitLab.FetchVersionCommitsOfNewestPair | src/lib/gitlab.ts:20-55 | with two semantic tags newest first, releasing the newer one gives the non-bump commits of the comparison from the older tag to it |
| GitLab.FetchVersionCommitsExample | src/lib/gitlab.ts:20-55 | with tags `[v2.0.0, v1.9.0]` and a comparison of a merge, the bump `2.0.0` and a feature, releasing `v2.0.0` gives the merge and the feature |
| GitLab.PreviousTagStrict | src/test/gitlab.test.ts:344-381 | corrected resolver: "version not found" exactly when no semantic tag has the version's name; any returned tag is a semantic element of the input |
| GitLab.StrictAgreesWhenPresent | src/lib/gitlab.ts:24-31 | whenever the version is among the semantic tags, the corrected resolver returns what the code returns |
| GitLab.AbsentVersionResolvesToNewest | src/test/gitlab.test.ts:344-381 | for the tests' input `[v1.1.0]` and version `v1.1.1`, the code returns `v1.1.0` where the tests expect a throw, and the corrected resolver reports the missing version |
| Teams.GenerateMessageCard | src/lib/teams.ts:3-47 | the card has type `MessageCard`, context `https://schema.org/extensions`, theme `0078D7`, one markdown section without subtitle or image, and facts Project, Version, Released, Release Manager, Changelog in that order, holding the inputs and the clock reading verbatim; the summary is `<project> <tag> Released` and the title `🚀 <project> version <tag> is now on production!` |
| Teams.FactNamesDistinct | src/lib/teams.ts:20-41 | the five fact names are pairwise different |
| Teams.ReadWellFormedCard | src/lib/teams.ts:16-43 | on a card of that shape, looking up each fact by name gives the value at its fixed position |
| Teams.ReadGeneratedCard | src/lib/teams.ts:3-47 | round trip: reading the facts of a generated card by name gives back exactly the five inputs, empty strings included |
| Teams.WellFormedCardIsGenerated | src/lib/teams.ts:3-47 | a card of the release-card shape whose facts read back as an announcement is exactly the card generated for that announcement: the shape fixes everything but the five values |
| Teams.GenerateMessageCardInjective | src/lib/teams.ts:15-41 | different inputs or clock readings never give the same card |
| Teams.TimestampOnlyChangesReleased | src/lib/teams.ts:9-31 | two cards that differ only in the clock reading are equal except for the Released fact's value, and they are equal exactly when the readings are equal |
| ReleaseScript.FilterSemanticTags | index.ts:83-85 | the script's element-by-element filter computes the same semantic tags as the library |
| ReleaseScript.FindTagIndex | index.ts:87-89 | the script's `findIndex` loop stops at the first matching name and gives -1 when none matches, as `GitLab.FindIndex` does |
| ReleaseScript.ResolvePreviousTag | index.ts:83-94 | the script resolves the previous tag exactly as the library does, including the error and the -1 fall-through |
| ReleaseScript.DropVersionBumps | index.ts:108-112 | the script's version-bump filter loop gives the same commit list as the library's filter |
| ReleaseScript.FetchVersionCommits | index.ts:73-113 | for the same tags, comparison and version, the script and the library return the same result |
| ReleaseScript.ParseArgs | index.ts:220-233 | fewer than two arguments is a usage error; otherwise the run proceeds exactly when the first two arguments are non-empty, and those two become the project name and the tag |
| ReleaseScript.BadArgumentsStopBeforePipeline | index.ts:222-233 | with missing or empty arguments the run exits with status 1 and posts nothing, whatever the services would answer |
| ReleaseScript.AnnounceRelease | index.ts:184-217 | the exit status is 0 or 1; a card is posted exactly when the previous tag resolves; the status is 0 exactly when the webhook accepts that card; the posted card has the release-card shape (type, context, theme, summary, title, markdown, the five facts in order) and reads back as the project, the tag, the release manager, the clock reading and the changelog of the commits that are not version bumps |
| ReleaseScript.AnnounceAcceptedRelease | index.ts:184-217 | when the range resolves and the webhook accepts the generated card (whatever it would say of other cards), that card is posted and the status is 0 |
| ReleaseScript.Run | index.ts:219-236 | the exit status is 0 or 1; a card is posted exactly when the arguments are valid and the previous tag resolves; the status is 0 exactly when the webhook accepts that card; the posted card has the release-card shape and announces the first two arguments as project and tag, with the release manager, the clock reading and the changelog of commits that contain no version bump |
| ReleaseScript.PostedCardIsGenerated | index.ts:192-204 | from the contract of a run alone: the card posted is exactly `generateMessageCard` of the two arguments, the changelog of the filtered commits, the release manager and the clock reading |
| ReleaseScript.ReleaseScenario | index.ts:184-217 | with tags `[v2.0.0, v1.9.0]`, the release of `v2.0.0` compares from `v1.9.0`; of a merge commit, a bump and a feature, the changelog is asked for the merge and the feature; one card is posted and, when the webhook accepts it, the run exits 0 |

## Left out

- Every HTTP request is an input: the tag list, the compare result, the GitLab user's name, the language model's answer, and whether the webhook accepts the card. This covers bearer headers, URL construction and `console.log`. `sendMessageToChannel` and the webhook POST become one boolean answer.
- Tag-list pagination. Neither tags request passes `per_page` (`src/lib/gitlab.ts:9-16`, `index.ts:74-81`), so the program sees only GitLab's first page of tags. The `tags` input stands for that page, not for every tag of the project. A released version that is not on the first page takes the `-1` path and resolves to the newest semantic tag on it. The compare request asks for up to 1000 commits (`src/lib/gitlab.ts:37`), and the `compare` input is that answer.
- Failures of the GitLab and language-model requests, and malformed JSON bodies, are not modelled. In `index.ts` each would be caught and end in exit status 1, the same as a resolver error.
- The error text of a rejected webhook (`Teams webhook returned status …`) is not modelled. Only the exit status is.
- `extractReleaseManager` and `getProjectDetails` are thin request wrappers. Only the names they return enter the model.
- `new Date().toLocaleString()` depends on locale and clock. It is the `timestamp`/`clock` string parameter.
- The changelog generation (`src/lib/changelog.ts`, `src/constants/ai.ts`, `generateChangelog` in `index.ts`) is a language-model call. Its prompt rules, including merge-commit exclusion, bind the model, not this code. The model treats it as a function from the filtered commits to text.
- `src/lib/config.ts` (a dynamic import and a memoised global) is not part of this model. Neither is `src/lib/package.ts` (file I/O; its `"v" + version` only produces the version string the resolver receives).
- The spinner-driven driver `src/index.ts`, `dotenv` and the `tsup` bundling are not part of this model.
- The zod schemas of `src/schema/gitlab.ts` serve only as the shapes of `Commit` and `Tag`. The extra fields of `index.ts`'s `Commit` and `GitlabTag` types are never read, so they are omitted.
- Characters are Unicode scalar values. For `\d`, `\S` and `.` this gives the same answers as JavaScript's UTF-16 code units, because no surrogate is a digit or whitespace.

## Findings

| source | as written | input that shows it | evidently intended | confidence | as-written member | corrected member |
|---|---|---|---|---|---|---|
| src/lib/gitlab.ts:24-31 | a version missing from the semantic tags gives `findIndex` = -1, so the code returns `semanticTags[0]`, the newest semantic tag | tags `[v1.1.0]`, version `v1.1.1`: the code returns the `v1.1.0` tag; the tests at src/test/gitlab.test.ts:344-381 expect a throw | a missing version is an error ("version not found"), and the range is never built from an unrelated tag | medium, not executed | GitLab.AbsentVersionResolvesToNewest | GitLab.PreviousTagStrict |

`GitLab.FetchVersionCommits` and `ReleaseScript.Run` keep the as-written resolver,
because they model what the program does. `GitLab.StrictAgreesWhenPresent` proves that
the corrected resolver differs from it only on the missing-version case.
