# BrainWave study matcher — a Dafny model

BrainWave is a campus study-partner matcher. This project models three parts of it:

- **The profile-form script** (`formFunctions.js`). It keeps saved profiles in browser storage, upserting them by e-mail address. It also keeps the current user and the list of match requests, which can be sent, accepted and declined. It holds the list of available times and parses the "other subjects" field. Finally, it scores every other profile against the current user with `computeScore` and ranks them best first.
- **The map page script** (`mapFunctions.js`). It decides where to centre the map and where, and under which title, to pin the recommended study spot.
- **The recommender service** (`app.py`). It builds the knowledge-base text that lists the study spots. It also merges each recommendation request into a per-e-mail profile store.

Modules:

- `Options`, `Seqs` and `Text` (`common.dfy`) model the JavaScript and Python primitives the code relies on:
  - `filter`, `find` and `findIndex`;
  - `trim` and `toLowerCase`;
  - `split` on one character;
  - `join`.
- `Scoring` (`scoring.dfy`) is `computeScore`. Totals are exact `real`s, so the 1.5 points per shared study space stay exact.
- `Matches` (`matches.dfy`) is the ranked match list of `showMatches`.
- `Profiles` (`store.dfy`) holds the stored state.
  - Class `Store` covers the three storage keys: users, requests and the current user id. Each handler that loads, changes and saves a list is one method with a `modifies` frame.
  - Class `TimesList` is the mutable `times` array of the form.
  - Pure functions such as `Upsert`, `AcceptFirst` and `Decline` specify the methods. Lemmas state what those functions preserve, for example unique e-mails and no duplicate request pairs.
- `MapView` (`mapview.dfy`) covers the map's default centre and the resolution of the recommended spot.
- `KnowledgeBase` (`knowledge.dfy`) covers `format_spots` and the profile merge of `recommend`.

Field names follow Dafny style. For example, `desired_group_size` is `groupSize`, `available_times` is `availableTimes` and `study_space_prefs` is `spacePrefs`. A field the stored object lacks is the empty string or list. That matches the source's `x || ''` and `x || []`.

Ids are integers. The source compares them through `String(...)`, which is injective on the numeric ids it creates, so the model compares the integers directly.

The code adds 3 when the two numeric group sizes differ by at most one. It has no distance term in the score, and it sorts by total alone. A stable sort keeps the input order among equal totals.

## Model

| member | source | states |
|---|---|---|
| `Seqs.FirstIndex` | formFunctions.js:121 | The index found holds the first element satisfying the predicate, and no earlier one does. `None` means no element does. This is the `find` / `findIndex` search. |
| `Seqs.FindIndex` | formFunctions.js:55 | The linear scan returns -1 or an index below the length. It agrees with `FirstIndex`, i.e. it returns the first hit. |
| `Seqs.FilterCount` | formFunctions.js:127 | `filter` keeps each element satisfying the predicate exactly as often as it occurs, and drops every other one. |
| `Seqs.FilterPairwise` | formFunctions.js:246 | A relation holding between every earlier and later element still holds after filtering. |
| `Text.Trim` | formFunctions.js:24 | `trim` yields a string with no whitespace at either end, whitespace being JavaScript's: tab, vertical tab, form feed, the byte order mark, every Unicode space separator and the four line terminators. It sits in the input with only whitespace around it, and is empty exactly when the input is blank. |
| `Text.TrimUnique` | formFunctions.js:24 | `Trim(s)` is the only trimmed string that sits in `s` with nothing but whitespace around it. |
| `Text.TrimPrefixSpace` | formFunctions.js:84 | Whitespace in front of a string does not change its trim. |
| `Text.TrimSuffixSpace` | formFunctions.js:84 | Whitespace after a string does not change its trim. |
| `Text.TrimIdeographicSpace` | formFunctions.js:83 | An ideographic space (U+3000), like every Unicode space separator, is trimmed away. |
| `Text.TrimThenSplit` | formFunctions.js:83-84 | Trimming the whole text before splitting it at a non-space separator leaves the trimmed pieces unchanged. |
| `Text.TrimAvoids` | formFunctions.js:84 | Trimming never introduces a character that was not in the input. |
| `Text.Split` | formFunctions.js:84 | `split(',')` yields at least one piece, and no piece contains the separator. |
| `Text.SplitPrefix` | formFunctions.js:84 | A separator-free prefix extends the first piece of the split and leaves the others alone. |
| `Text.SplitSuffix` | formFunctions.js:84 | A separator-free suffix extends the last piece of the split and leaves the others alone. |
| `Text.SplitJoin` | formFunctions.js:84 | Splitting a one-character join gives back the pieces, provided none contains the separator. |
| `Text.JoinAvoids` | app.py:17-19 | A character in neither the pieces nor the separator is not in the join. |
| `Scoring.MatchCountAppend` | formFunctions.js:257-261 | One more entry in `me`'s list adds one to the matched count exactly when that entry occurs, ignoring case, in `other`'s list. |
| `Scoring.ComputeScore` | formFunctions.js:255-299 | The matched counts are at most the lengths of `me`'s lists. The total is at least 5 per matched subject plus 4 per matched time. It is at most that plus 1.5 per space preference, 1 per trait and 10 for the fixed bonuses. |
| `Scoring.SubjectEntryBonus` | formFunctions.js:257-261 | Each subject of `me` found among `other`'s subjects, ignoring case, adds one match and 5 points, duplicates included. The time count does not change. |
| `Scoring.TimeEntryBonus` | formFunctions.js:264-268 | Each available time of `me` found among `other`'s times, ignoring case, adds one match and 4 points. The subject count does not change. |
| `Scoring.GroupSizeBonus` | formFunctions.js:271-273 | The 3-point bonus is earned exactly when the sizes, read with `Number`, a missing size counting as 1, differ by at most one. A size that is no number never earns it. |
| `Scoring.OneDigitSize` | formFunctions.js:271-272 | A one-digit group size reads as its digit. |
| `Scoring.GroupSizeExamples` | formFunctions.js:271-273 | A missing size counts as 1. It is within one of "2" but not of "3", and "4+" is not within one even of itself. |
| `Scoring.ComfortLevelBonus` | formFunctions.js:276-277 | The 2-point comfort bonus needs both levels non-empty and equal ignoring case. |
| `Scoring.SpacePrefEntryBonus` | formFunctions.js:280-283 | Each shared study-space preference adds exactly 1.5. |
| `Scoring.TraitEntryBonus` | formFunctions.js:286-289 | Each shared personality trait adds exactly 1. |
| `Scoring.MajorYearBonus` | formFunctions.js:292-293 | Major and year each add 2 when equal ignoring case, two empty values included. Each one that differs costs its 2. |
| `Scoring.BioBonus` | formFunctions.js:296 | Only the other profile's bio counts. More than 20 characters add 1, and `me`'s own bio never matters. |
| `Scoring.TotalIsHalfPoints` | formFunctions.js:255-299 | Every total is a whole number of half points. |
| `Scoring.ScoreIsNotSymmetric` | formFunctions.js:296 | Scoring is not symmetric: two profiles that differ only in the bio score 1 apart depending on who asks. |
| `Matches.OthersCount` | formFunctions.js:127 | The filter drops every profile with the current user's id and keeps every other one as often as it is stored. |
| `Matches.ScoreAll` | formFunctions.js:128-130 | Each profile is paired, in order, with its score against the current user. |
| `Matches.UsersOfScoreAll` | formFunctions.js:128-130 | Scoring keeps the profiles and their order. |
| `Matches.PrependKeepsOrder` | formFunctions.js:131 | Putting an entry no smaller than everything ahead of a non-increasing list keeps it non-increasing. |
| `Matches.Insert` | formFunctions.js:131 | Inserting into a list sorted best first keeps it sorted, and adds exactly the inserted entry. |
| `Matches.InsertUsers` | formFunctions.js:131 | Inserting adds exactly the inserted entry's profile to the profiles of the list. |
| `Matches.SortByTotal` | formFunctions.js:131 | The sort yields totals in non-increasing order and is a permutation of its input. |
| `Matches.SortByTotalUsers` | formFunctions.js:131 | Sorting neither adds nor loses a profile. |
| `Matches.ShowMatches` | formFunctions.js:127-131 | The match list is sorted best first. Every entry carries a profile other than the current user's, with that profile's score against the current user. Every other stored profile appears exactly as often as it is stored. |
| `Matches.ShowMatchesLength` | formFunctions.js:127-131 | The list has exactly one entry for each stored profile whose id differs from the current user's. |
| `Matches.ShowMatchesOfStoredUser` | formFunctions.js:120-131 | When the current user is one of the stored profiles, as `getCurrentUser` finds it, and ids are unique, the list has one entry fewer than there are stored profiles. |
| `Seqs.FilterDropsOne` | formFunctions.js:127 | A filter that rejects exactly one element returns one fewer than its input. |
| `Matches.UsersOfLength` | formFunctions.js:128-130 | A match list has one profile per entry. |
| `Profiles.UpsertReplaces` | formFunctions.js:55-58 | A profile with the same e-mail, ignoring case, is replaced at the first such index. The new profile keeps the old id, and every other entry and the length stay as they were. |
| `Profiles.UpsertAppends` | formFunctions.js:59-61 | With no stored profile of that e-mail, the new profile is appended with the fresh id. |
| `Profiles.LowerEmpty` | formFunctions.js:55 | Lower-casing gives the empty string exactly for the empty string, so a profile without an e-mail is never matched. |
| `Profiles.UpsertKeepsEmailsUnique` | formFunctions.js:53-62 | Saving through the upsert never creates two profiles with the same non-empty e-mail, ignoring case. |
| `Profiles.AcceptMarksFirst` | formFunctions.js:233-235 | Accepting marks the first request with that id as accepted and changes nothing else. |
| `Profiles.AcceptUnknownId` | formFunctions.js:233-234 | Accepting an id that no request carries changes nothing. |
| `Profiles.AcceptKeepsPairsUnique` | formFunctions.js:233-236 | Accepting keeps every sender-recipient pair unique. |
| `Profiles.DeclineRemovesOnlyThatId` | formFunctions.js:246 | Declining removes every request with that id and keeps every other one as often as it was stored. |
| `Profiles.DeclineKeepsPairsUnique` | formFunctions.js:246 | Declining keeps every sender-recipient pair unique. |
| `Profiles.IncomingIsAddressedToUser` | formFunctions.js:205 | The incoming view holds exactly the requests addressed to the user, each as often as stored. |
| `Profiles.Store.constructor` | formFunctions.js:37-47 | Empty storage has no users, no requests and no current user. |
| `Profiles.Store.CurrentUser` | formFunctions.js:117-122 | There is no current user when no id is stored or no profile carries it. Otherwise the current user is the first stored profile with that id. |
| `Profiles.Store.SaveProfile` | formFunctions.js:50-64 | The users become the upsert of the saved profile, which is then stored and is the current user. Unique e-mails are preserved. |
| `Profiles.Store.MatchList` | formFunctions.js:124-131 | There is no list without a current user. Otherwise the list is the ranked list of everyone else. |
| `Profiles.Store.SendMatchRequest` | formFunctions.js:186-196 | Nothing changes without a current user or when that user already asked this recipient. Otherwise exactly one pending request is appended. Afterwards the request exists, and no pair is duplicated. |
| `Profiles.Store.AcceptRequest` | formFunctions.js:229-236 | The requests become the accepted version, and the method reports whether any request had that id. |
| `Profiles.Store.DeclineRequest` | formFunctions.js:242-247 | The requests become the declined version. |
| `Profiles.Store.IncomingRequests` | formFunctions.js:202-205 | There is nothing without a current user. Otherwise the result is exactly the stored requests addressed to that user, in stored order, each as often as stored. |
| `Profiles.TimesList.constructor` | formFunctions.js:22 | The times list starts empty. |
| `Profiles.TimesList.AddTime` | formFunctions.js:23-29 | The trimmed input is appended exactly when it is not blank. Every stored time stays non-empty and trimmed. |
| `Profiles.TrimAll` | formFunctions.js:84 | Each piece is trimmed, in order. |
| `Profiles.ParseOtherSubjects` | formFunctions.js:83-84 | Blank input gives no subjects. Every subject is non-empty, trimmed and free of commas. |
| `Profiles.ParseOtherSubjectsPieces` | formFunctions.js:83-84 | For every input, the parse is the comma-separated pieces of the raw text, each trimmed, the empty ones dropped, in input order. |
| `Profiles.ParseOtherSubjectsOfJoin` | formFunctions.js:83-84 | Comma-free pieces joined by commas parse to those pieces trimmed, with the empty ones dropped, in order. |
| `Profiles.ParseOtherSubjectsJoin` | formFunctions.js:83-84 | Any list of non-empty, trimmed, comma-free subjects joined by commas parses back to that same list. |
| `Profiles.JoinOfTrimmed` | formFunctions.js:83 | Non-empty trimmed subjects joined by commas give non-empty trimmed text, which the initial trim leaves alone. |
| `MapView.DefaultCenter` | mapFunctions.js:10 | Without a current user the centre is the campus default. Neither coordinate is ever zero, and each is either its default or the user's own value. |
| `MapView.DefaultCenterPerCoordinate` | mapFunctions.js:10 | Each coordinate falls back to its default on its own when it is missing or zero. |
| `MapView.ResolveRecommended` | mapFunctions.js:40-55 | There is no pin only when there are no usable coordinates, no listed name and no spots at all. A pin has a non-zero latitude or sits on one of the spots. |
| `MapView.RecommendedCoordinatesWin` | mapFunctions.js:43-45 | Non-zero coordinates on the recommendation win, titled with its spot name. A zero latitude does not count as coordinates. |
| `MapView.RecommendedNameLookup` | mapFunctions.js:46-49 | Without coordinates, a listed spot name pins the first spot of that name, titled with that name. |
| `MapView.RecommendedFallback` | mapFunctions.js:51-55 | With neither coordinates nor a listed name, the pin is the first spot: its position and its name. |
| `KnowledgeBase.SpotLines` | app.py:16-18 | One line per spot, in order, each `name: tag, tag`. |
| `KnowledgeBase.FormatSpots` | app.py:14-19 | The loop builds the knowledge-base text: the spot lines joined by newlines, empty for no spots. |
| `KnowledgeBase.SpotLineNoTags` | app.py:17-18 | A spot without tags gives its name followed by a colon and a space. |
| `KnowledgeBase.SpotLineOneLine` | app.py:17-18 | A spot line has no newline when neither the name nor any tag has one. |
| `KnowledgeBase.KnowledgeTextLines` | app.py:14-19 | Splitting the text at newlines gives back exactly one line per spot, in order, provided no name or tag contains a newline. |
| `KnowledgeBase.Merge` | app.py:37 | The merged profile has the union of the fields. Fields of the request take their new value and every other field keeps its old one. |
| `KnowledgeBase.MergeIdempotent` | app.py:37 | Sending the same data twice gives the same profile as sending it once. |
| `KnowledgeBase.ProfileRegistry.constructor` | app.py:30 | The profile store starts empty. |
| `KnowledgeBase.ProfileRegistry.Recommend` | app.py:33-38 | The stored profile for the request's e-mail, or an empty one, is merged with the request and stored back under that e-mail (`None` when it is absent). The request's fields win, and every other e-mail's profile is unchanged. |

## Left out

- Rendering: the DOM, checkbox building, `renderMatches`, `renderTimes`, `showSection` and alerts are not modelled. `gatherForm` beyond the "other subjects" parse is left out too; it only reads DOM inputs.
- `localStorage` JSON serialisation is left out. The three keys are the fields of `Profiles.Store`, and their values are assumed to round-trip.
- `Date.now()` becomes the `newId` parameter of `SaveProfile` and `SendMatchRequest`. The `created_at` timestamps are not modelled.
- The `showMatches()` call after accepting a request is left out. It re-renders the list that `Store.MatchList` models.
- The dismiss button on a match card is left out; it only removes the card from view.
- `seedIfEmpty` (demo profiles) is left out. It is test data, not behaviour.
- The Google Maps calls, the current-user and selected-match markers, and `kmBetween` (the haversine distance shown in the info windows) are left out. They are floating-point display code with no effect on any modelled decision.
- `MapView.ResolveRecommended` returns `None` for an empty `SPOTS` list, where the source throws on `SPOTS[0]`. A `NaN` coordinate, which is falsy in JavaScript, is not representable.
- Flask routing, reading `study_spots.json`, the language-model prompt and the chat call in `app.py` are left out. These are I/O and a foreign service. `KnowledgeBase.ProfileRegistry.Recommend` returns the merged profile the prompt is built from.
- `KnowledgeBase.ProfileRegistry.Recommend` holds only string-valued request fields. Python's dict insertion order, which only shows in the prompt text, is not modelled.
- `Text.Lower` lower-cases ASCII letters only. JavaScript's full Unicode case mapping is not modelled.
- `Scoring.BioBonus` counts the bio's length in characters, not UTF-16 code units.
- `Scoring.GroupSizeBonus` reads group sizes as blank (0), plain decimal digits, or not a number. Signs, decimal points, exponents and hexadecimal, which `Number` also accepts, read as not a number here. The demo profiles use the sizes "2" and "3".
- `Matches.SortByTotal` is proved sorted and a permutation. That equal totals keep their input order (`Array.prototype.sort` is stable) is how it is built, but it is not stated as a contract.
