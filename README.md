# ol-author-similarity: a verified model of the duplicate-work finder

The model covers the logic of `index.js`, a Vue component for browsing Open Library authors. For each author it looks for works whose titles are nearly the same. It can also step through author ids on its own ("autopilot") until it finds an author with such works. Six modules model the component's logic:

- **Titles** (`getTitleFromWork`): how a comparison string is built. The subtitle is added when it is on. Then the first character outside `[A-Za-z0-9 ]` is stripped. Then each of `" the "`, `" and "`, `" at "` is replaced, left to right.
- **Similarity** (`getSimilarWorksByTitle`): the group of one anchor work. The string-similarity library is the parameter `rating`, and `bestMatch` is the highest rating. The library's scores lie in [0, 1], but the model assumes nothing about `rating`, so every property holds for any scores.
- **Clustering** (`groupsOfSimilarWorks`): the greedy loop that partitions the works into groups. It is written as a `while` loop, proved against the recursive function `Cluster`.
- **AuthorIds** and **Navigation** (`authorIdNumber`, `increaseAuthorId`, `setRandomAuthorId`, `findNextSimilarity`, `submitAuthorId`):
  - the ids `OL<n>A`;
  - the class `AuthorBrowser`, whose methods assign the component's fields as the handlers do;
  - the pure functions those methods are proved against.
- **Fetching** (`fetchWithRetry`): the bounded retry policy. The network is a parameter, `reply(k)`, giving the reply to the k-th attempt.

Two more modules support them:

- **WorkKeys** (`parseKey`, `getWorkIds`): splitting a work key on `/`.
- **Works**: the shared entities.

Works are identified by their position in the fetched list. The deep clone of `entries` makes every entry a distinct object, so the reference comparisons in the source compare positions.

The component's design notes, which are not part of this model, describe its intended behaviour. In four points they and the code disagree, and the model follows the code in each:

- The design notes say the title normaliser lower-cases its output. In the code, the callers lower-case it (`index.js:113`, `index.js:115`), after the stop words are matched. So a capitalised `" The "` is not stripped (`Titles.CapitalStopWordKept`).
- The design notes say normalising twice changes nothing. The code is not idempotent. `"a the the b"` gives `"a the b"` and then `"a b"`. `"a!b?"` gives `"ab?"` and then `"ab"` (`Titles.DoubledStopWordSurvives`, `Titles.SecondPunctuationSurvives`).
- The design notes say a visit whose fetch fails halts the autopilot. In the code, a failed works fetch leaves `authorWorksJson` as `{}` (`index.js:183-189`). That has no groups, so `findNextSimilarity` moves on in the stored direction (`index.js:213-214`; `Navigation.FailedFetchKeepsMoving`, `Navigation.FailedFetchAdvancesFromFive`).
- The design notes say the number in an id is always positive. `increaseAuthorId` has no guard: going back from `OL0A` gives `OL-1A`, whose number reads back as 1 (`index.js:193`; `Navigation.NoPositivityGuard`).

## Model

| member | source | states |
|---|---|---|
| Titles.StripFirstUnkept | index.js:136 | the non-global replace removes at most one character |
| Titles.FirstUnkept | index.js:136 | the position of the first character outside `[A-Za-z0-9 ]`: every earlier character is in the class, and the character at that position is not |
| Titles.StripRemovesFirstUnkeptOnly | index.js:136 | the non-global regular expression leaves a string of class characters unchanged; otherwise it removes exactly one character, the first one outside the class, and keeps the rest in place |
| Titles.ReplaceAll | index.js:139 | `replaceAll` with a literal pattern never lengthens the string when the replacement is no longer than the pattern, and changes nothing when the pattern does not occur |
| Titles.ReplaceAllShrinks | index.js:139 | with a replacement shorter than the pattern, the string gets shorter exactly when the pattern occurs in it |
| Titles.ReplaceAllLeftmostAt | index.js:139 | when the first occurrence of the pattern is at k, the result is the text before k, the replacement, then the replaced rest after that occurrence |
| Titles.ReplaceAllLeftmost | index.js:139 | for a title `p + pat + q` where `pat` does not start inside `p`, the result is `p`, the replacement, then `q` with its own occurrences replaced: the leftmost occurrence goes first and the scan resumes after it, so matches never overlap |
| Titles.Concatenated | index.js:131-134 | the string starts with the title, and is longer than the title exactly when subtitles are on and the work has a non-empty subtitle |
| Titles.StripStopWords | index.js:137-140 | replacing the stop words never makes the title longer |
| Titles.StripStopWordsInOrder | index.js:137-140 | the loop replaces `" the "`, then `" and "`, then `" at "` |
| Titles.NormalizedTitle | index.js:130-143 | the result is never longer than title plus subtitle; with aggressive normalisation off it is the title, plus `" "` and the subtitle exactly when subtitles are on and the subtitle is non-empty |
| Titles.TitleFromWork | index.js:130-143 | the method that reassigns `title` once per stop word returns the normalised title |
| Titles.ToLower | index.js:113 | lower-casing keeps the length and maps each character on its own |
| Titles.DoubledStopWordSurvives | index.js:137-140 | normalisation is not idempotent: `"a the the b"` becomes `"a the b"` on one pass and `"a b"` on a second |
| Titles.SecondPunctuationSurvives | index.js:136 | only one character outside the class goes per pass: `"a!b?"` becomes `"ab?"`, then `"ab"` |
| Titles.CapitalStopWordKept | index.js:139 | stop words are matched before lower-casing, so `"a The b"` keeps its stop word and compares as `"a the b"` |
| Similarity.ComparisonKeys | index.js:113 | one comparison string per work, each the lower-cased normalised title of that work |
| Similarity.Excluding | index.js:112 | the filter keeps exactly the works other than the anchor, in order |
| Similarity.Ratings | index.js:115-116 | `ratings` holds one score per candidate, in candidate order |
| Similarity.BestRating | index.js:126 | `bestMatch.rating` is one of the ratings and no rating exceeds it |
| Similarity.Matches | index.js:116-122 | the map-then-filter keeps exactly the candidates scored strictly above 0.9, in input order |
| Similarity.BestRatingIsBestScore | index.js:115-126 | the best rating is the score of some other work and bounds all of them; it exceeds 0.9 exactly when some work matched |
| Similarity.SimilarWorksByTitle | index.js:110-129 | the group ends with the anchor; its other works are exactly the other works scored above 0.9, in input order; `maxSimilarity` exceeds 0.9 exactly when the group has two or more works |
| Similarity.SimilarWorksBestScore | index.js:126 | `maxSimilarity` is the highest score of any other work against the anchor |
| Similarity.KeptGroupBestScore | index.js:115-128 | when `maxSimilarity` exceeds 0.9, the best-scoring work is among the matched works, so `maxSimilarity` is the highest score against a matched work |
| Clustering.Without | index.js:72 | filtering out a group's works keeps exactly the entries outside the group, in order, and never grows the list |
| Clustering.Positions | index.js:61 | the cloned entries are the positions 0 to n-1, in order |
| Clustering.Cluster | index.js:63-73 | the loop as a recursive function; the lemmas below prove that every group comes from the list, is well formed, shares no work with a later group, and has its anchor before every work of later groups; that each group holds every remaining work scored above 0.9 against its anchor; and that an ungrouped work scored at most 0.9 against every later work still remaining |
| Clustering.ClusterMembers | index.js:63-73 | every work of every group comes from the working list |
| Clustering.ClusterWellFormed | index.js:63-73 | every kept group has at least two works: works scored above 0.9, in input order and after the anchor, then the anchor; its `maxSimilarity` exceeds 0.9 and is the anchor's highest score against one of its matched works |
| Clustering.ClusterSeparated | index.js:72 | no work of a group appears in a later group |
| Clustering.ClusterAscending | index.js:63-71 | every work of a later group lies after the anchor of an earlier one |
| Clustering.ClusterComplete | index.js:63-73 | a kept group holds every work still in the list after its anchor that scores above 0.9 against the anchor |
| Clustering.ClusterUnmatched | index.js:63-73 | a work of the list that is in no group scores at most 0.9 against every later work of the list not taken by a group with an earlier anchor |
| Clustering.ClusterCompleteFromStart | index.js:61-73 | for all works: a group contains every work after its anchor, not taken by an earlier group, that scores above 0.9 against the anchor; a work in no group scores at most 0.9 against every later work not taken by a group with an earlier anchor |
| Clustering.SimilarGroups | index.js:54-59 | a response without `entries` gives no group, and so does one with at most one entry |
| Clustering.SimilarGroupsReportable | index.js:54-76 | a response without `entries`, or with at most one entry, gives no group; otherwise every group is well formed (its `maxSimilarity` included), no work is in two groups, anchors come in input order, each group is complete, and no ungrouped work matches a later available one |
| Clustering.GroupsOfSimilarWorks | index.js:54-76 | the `while` loop that shifts the anchor and pushes kept groups terminates and returns the groups `Cluster` defines, with all the properties above: well formed with the best score as `maxSimilarity`, disjoint, anchors in input order, complete |
| AuthorIds.DigitPrefix | index.js:78 | the longest run of digits at the start of a string |
| AuthorIds.FirstDigitRun | index.js:78 | the first match of `\d+`: no digit before it, a non-empty run of digits, not followed by a digit; none exactly when the id has no digit |
| AuthorIds.DecimalValue | index.js:78 | `parseInt` of a string of digits, the positional decimal value; `DecimalRoundTrip` states that it reads back the digits of every n |
| AuthorIds.IntToString | index.js:193 | `${i}` is non-empty, starts with '-' exactly when i < 0, and is otherwise digits |
| AuthorIds.FormatAuthorId | index.js:193 | the template literal `OL${n}A`; `IdRoundTrip`, `NegativeIdReadsMagnitude` and `FormatAuthorIdInjective` relate it to `authorIdNumber` and to other numbers |
| AuthorIds.FormatAuthorIdInjective | index.js:193 | two numbers that give the same id are equal: each number has its own id |
| AuthorIds.Decimal | index.js:193 | `${n}` for n >= 0 is non-empty, all digits, and has no leading zero |
| AuthorIds.AuthorIdNumber | index.js:77-79 | the id's number is defined exactly when the id holds a digit |
| AuthorIds.DecimalRoundTrip | index.js:78 | `parseInt` of the digits of n is n |
| AuthorIds.IdRoundTrip | index.js:193 | for every n >= 0, the number read from `OL${n}A` is n |
| AuthorIds.NegativeIdReadsMagnitude | index.js:193 | for n < 0, the number read from `OL${n}A` is -n: the minus sign is not part of the match |
| AuthorIds.RandomAuthorNumber | index.js:197-198 | for a draw in [0, 1), the random number lies in [1, 9500000] |
| Navigation.Increased | index.js:191-194 | the direction becomes next for a positive amount and previous otherwise; the id becomes `OL${n+amount}A` when the id has a number n; otherwise the handler throws after setting the direction; no other field changes |
| Navigation.Randomised | index.js:195-200 | the direction becomes random and the id is `OL${n}A` for some n in [1, 9500000]; no other field changes |
| Navigation.Submitted | index.js:144-152 | the direction is cleared and the id takes the text box; the works are fetched again without the cache exactly when the text box held the current id; no other field changes |
| Navigation.Moves | index.js:213 | the autopilot acts when it is on and there are no groups |
| Navigation.NextSimilarity | index.js:201-216 | with the autopilot idle nothing changes; with direction '' the handler lookup throws and nothing changes; next and previous move the id to `OL${n+1}A` and `OL${n-1}A` (or throw without changing it when the id has no digit); random moves to `OL${m}A` for some m in [1, 9500000]; no other field changes |
| Navigation.Visited | index.js:41-51 | after a visit the text box holds the id the visit started from and the works are the fetch result; the id changes only when the autopilot is on and the fetched works have no group |
| Navigation.IncreaseMovesByAmount | index.js:191-194 | from `OL${n}A`, a step of a gives `OL${n+a}A`, which reads back as n + a when that is not negative |
| Navigation.HundredNeighbours | index.js:191-194 | OL100A goes to OL101A forwards and OL99A backwards |
| Navigation.NoPositivityGuard | index.js:193 | there is no positivity guard: back from OL0A gives OL-1A, and back again gives OL0A |
| Navigation.StepChangesId | index.js:191-194 | a step of one up or down always changes an id that has a number |
| Navigation.AutopilotMovesOnlyWithoutGroups | index.js:201-216 | the autopilot changes the id only when it is on and there are no groups; then, moving next or previous from an id with a number, it always changes the id |
| Navigation.SubmitStopsAutopilot | index.js:146 | after a submit the direction is '', so an autopilot that moves throws instead of changing the id |
| Navigation.FailedFetchKeepsMoving | index.js:182-190 | a failed works fetch leaves `{}`, so there are no groups and an autopilot that is on keeps moving |
| Navigation.FailedFetchAdvancesFromFive | index.js:41-51 | going forwards from OL5A, a visit whose fetch fails moves on to OL6A |
| Navigation.AuthorBrowser.constructor | index.js:2-19 | the initial fields of `data()` |
| Navigation.AuthorBrowser.IncreaseAuthorId | index.js:191-194 | the fields after `increaseAuthorId` are those of `Increased` |
| Navigation.AuthorBrowser.SetRandomAuthorId | index.js:195-200 | the fields after `setRandomAuthorId` are those of `Randomised` |
| Navigation.AuthorBrowser.FindNextSimilarity | index.js:201-216 | the fields and the error after `findNextSimilarity` are those of `NextSimilarity`, computed with the groups of `groupsOfSimilarWorks` |
| Navigation.AuthorBrowser.SubmitAuthorId | index.js:144-152 | the fields and the refetch flag after `submitAuthorId` are those of `Submitted` |
| Navigation.AuthorBrowser.Visit | index.js:41-51 | one run of the `authorId` watcher: the text box follows the id, the works become the fetch result, then `findNextSimilarity` runs |
| Fetching.FetchFrom | index.js:159-173 | between 1 and retries + 1 attempts; only the first may ask for force-cache, and it does exactly when `cache` is set |
| Fetching.FetchWithRetry | index.js:159-173 | between 1 and retries + 1 attempts, only the first with force-cache and exactly when `cache` is set; every attempt before the last got a non-200 response; a body comes from a 200 on the last attempt, a rejection from a rejected last attempt, an error from a non-200 status on attempt `retries` |
| Fetching.FirstDecisiveFrom | index.js:165-172 | when attempt j is the first to get a 200 or a rejection, there are j + 1 attempts, and the call returns that body or rejects |
| Fetching.NoneDecisiveFrom | index.js:166-170 | when no attempt gets a 200 or a rejection, there are retries + 1 attempts and the error carries the last status |
| Fetching.FirstSuccessReturned | index.js:159-173 | the body of the first 200 response is returned after as many attempts as it took |
| Fetching.RejectionNotRetried | index.js:165 | a rejected `fetch` ends the call at once, without a retry |
| Fetching.AllFailuresReported | index.js:166-170 | when every status is non-200, the call gives up after retries + 1 attempts with the last status |
| Fetching.OutcomeFromReplies | index.js:159-173 | the outcome always comes from the last reply: a body from a 200, an error from a non-200 status once the retries are spent, a rejection from a rejection; all earlier replies were non-200 responses |
| Fetching.FourServerErrors | index.js:159-173 | four 500 replies with the default three retries: four attempts, force-cache only on the first, and an error with status 500 |
| WorkKeys.Split | index.js:154 | `split("/")` gives one piece more than there are slashes, none containing a slash |
| WorkKeys.JoinSplit | index.js:154 | joining the pieces with '/' gives back the string |
| WorkKeys.SplitJoin | index.js:154 | splitting pieces joined with '/' gives back the pieces |
| WorkKeys.ParseKey | index.js:153-155 | the third piece of the key has no slash, and there is none (`undefined`) exactly when the key has fewer than two slashes |
| WorkKeys.ParseKeyOfJoin | index.js:153-155 | a key made of slash-free pieces reads back as its third piece |
| WorkKeys.ParseWorkKey | index.js:153-155 | `/works/<id>` gives back the id |
| WorkKeys.GetWorkIds | index.js:156-158 | one id per work, in order, each the parsed key of that work |
| WorkKeys.WorkIdsOfWorkKeys | index.js:156-158 | works keyed `/works/<id>` give exactly their ids |

## Left out

- The similarity library's scoring (Dice coefficients on bigrams) is not modelled. It is the parameter `rating`, and every property holds whatever values it returns. Floating-point rounding of scores and of the threshold 0.9 is not modelled either: both are exact reals.
- Similarity.SimilarWorksByTitle: requires a non-empty candidate list. `findBestMatch` throws on an empty one, and the loop never calls it with one: the loop runs only while two or more entries remain.
- Titles.ToLower: lower-cases ASCII letters only. JavaScript's `toLowerCase` also maps non-ASCII letters.
- AuthorIds.AuthorIdNumber: reads the digits as an exact integer. `parseInt` loses precision past 2^53.
- AuthorIds.IntToString: writes every integer in full. JavaScript writes numbers from 1e21 up in exponent notation, so `AuthorIds.IdRoundTrip` holds for this exact-integer model only.
- Titles.StripFirstUnkept: strings are sequences of Unicode scalar values. The source's regular expression has no `u` flag, so it works on UTF-16 code units: for a character outside the Basic Multilingual Plane it removes half of the surrogate pair, and the length bounds there count code units.
- Fetching.FetchFrom: `retries` is a natural number. A negative `retries` in JavaScript would retry until a 200 arrives or `fetch` rejects.
- `response.json()` failing on a 200 response is not modelled: the body is taken as given.
- The real `fetch`, the author record (`getAuthor`, `authorJson`) and the `status` text are not modelled. A works fetch is modelled by its result: the entries, or None for `{}`.
- `authorFieldsToDisplay` and `updateClipboard` are left out: they build display rows and write to the clipboard.
- The DOM, the URL and history updates, `localStorage` persistence with its watchers, and `console.log` are left out.
- Vue reactivity and the asynchronous order of the `authorId` watcher are left out. A visit is one synchronous step (`Navigation.AuthorBrowser.Visit`). The rule that the watcher fires only when the id actually changes is not modelled.
- `Math.random()` is the parameter `draw`, taken from [0, 1).
