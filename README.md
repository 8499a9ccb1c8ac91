# Scorebini core in Dafny

Scorebini is a scoreboard helper for fighting-game tournaments. It pulls
bracket data from two tournament hosts: a REST host (Challonge) and a GraphQL
host (start.gg). It then shows the data to a stream operator through one
host-independent view.

This project models the layer of Scorebini that has real logic. It
covers:

- **`StringOrIntId`**: the identifier that is a string or a 64-bit
  integer. It covers comparison, equality, hashing, and the JSON
  converter, including promotion of decimal strings to integers
  (`string_or_int_id.dfy`).
- **The REST host's canonical view** (`tournament_views.dfy`):
  - the raw context;
  - the match-status words;
  - resolution of each match's two players through the participant
    dictionary;
  - the `TournamentView` constructor, which fills two id-keyed
    dictionaries and the participant list sorted by name.
- **The GraphQL host's match** (`set_states.dfy`, `smashgg_matches.dfy`):
  - the integer set state and its mapping onto `MatchStatus`;
  - slot resolution;
  - round name and round number.
- **The tournament queries** (`tournament_queries.dfy`):
  - the tournament id taken from a URL;
  - pending opponents;
  - pending matches;
  - Levenshtein-ranked autocompletion, a stable re-ranking of the
    alphabetical list;
  - case-insensitive participant lookup.
- **The player-select key `MatchOrParticipantId`**
  (`match_or_participant_ids.dfy`).
- **The operator's form state** (`scoreboard_input.dfy`): a class whose two
  player records are swapped or reset in place.
- **The Twitch prediction API's pure parts** (`predictions.dfy`):
  - status words;
  - conversion of the Twitch record to the response record;
  - normalisation of a create-prediction request. Titles are truncated,
    the outcome list is rewritten in place, and the window is clamped to
    30..1800 seconds.
- **The Twitch integration's state handling** (`twitch_integration.dfy`):
  - the per-login user cache, as a class whose `GetUser` appends a fresh
    user;
  - URL joining;
  - the authorisation state machine. Its HTTP outcome is a parameter.
  - the status code reported for an unreadable reply.
- **Options validation for the Twitch API** (`options_validation.dfy`).

Shared modules model the .NET library behaviour that the core relies on:

- `Base`: `Option`, `Result`, and 32- and 64-bit integers.
- `Text`: ordinal comparison, whitespace, lower-casing, trimming, and
  `long.ToString` / `long.TryParse`.
- `Sorting`: LINQ's stable `OrderBy`.
- `Dictionaries`: a `Dictionary<long, V>` that is only ever added to, kept
  as an insertion-ordered list of entries.
- `Levenshtein`: the edit distance.

C# `null` is `Option.None` throughout. A C# method that throws becomes a
`Result.Failure` or a case the model does not reach.

## Model

| member | source | states |
|---|---|---|
| Dictionaries.TryGetValue | Scorebini/Data/TournamentContext.cs:69 | finds a value exactly when the key is present, and the value is the one stored under that key |
| Dictionaries.Add | Scorebini/Data/TournamentContext.cs:98 | fails exactly when the key is already present; otherwise appends the entry and keeps keys distinct |
| Dictionaries.TryGetValueFinds | Scorebini/Data/TournamentContext.cs:69-76 | in a dictionary with distinct keys, looking up an entry's key yields that entry's value |
| Dictionaries.AddFailsOnDuplicate | Scorebini/Data/TournamentContext.cs:98 | appending an entry whose key is already present would repeat a key, which is why `Add` refuses it |
| Dictionaries.DuplicatePersists | Scorebini/Data/TournamentContext.cs:94-100 | once a key repeats, appending further entries never removes the repetition |
| Sorting.SortBy | Scorebini/Data/TournamentContext.cs:102 | `OrderBy` returns a permutation of its input with the same length |
| Sorting.SortBySorted | Scorebini/Data/TournamentContext.cs:102 | under a total preorder, `OrderBy`'s result is sorted |
| Sorting.SortByStable | Scorebini/Data/TournamentService.cs:120 | `OrderBy` is stable: elements with equal keys keep their relative input order |
| Text.DecimalTextRoundTrip | Scorebini/Data/StringOrIntId.cs:154 | `long.TryParse` reads back exactly the number `long.ToString` wrote |
| Text.CompareOrdinalAntisymmetric | Scorebini/Data/StringOrIntId.cs:51 | ordinal text comparison is antisymmetric |
| Text.TextLeTransitive | Scorebini/Data/TournamentContext.cs:102 | the text order used to sort names is transitive |
| Levenshtein.Distance | Scorebini/Data/TournamentService.cs:118 | the edit distance is 0 exactly for equal texts, is at least the length difference and at most the summed lengths |
| Levenshtein.DistanceSymmetric | Scorebini/Data/TournamentService.cs:118 | the edit distance does not depend on argument order |
| Levenshtein.DistanceAtMostLonger | Scorebini/Data/TournamentService.cs:118 | the edit distance never exceeds the longer text's length |
| StringOrIntIds.Type | Scorebini/Data/StringOrIntId.cs:16-41 | an id is of the String kind exactly when it was built from a string or by the parameterless constructor |
| StringOrIntIds.StringVal | Scorebini/Data/StringOrIntId.cs:17-41 | the string value is the constructor's text for a string id and null for an integer id |
| StringOrIntIds.IntVal | Scorebini/Data/StringOrIntId.cs:18-41 | the integer value is the constructor's number for an integer id and 0 for a string id |
| StringOrIntIds.ToString | Scorebini/Data/StringOrIntId.cs:100-110 | an integer id prints as its decimal text; a string id prints its text, or null |
| StringOrIntIds.HasValue | Scorebini/Data/StringOrIntId.cs:20 | an id has a value exactly when its text is not null, i.e. exactly when it is not the null id |
| StringOrIntIds.CompareNullableText | Scorebini/Data/StringOrIntId.cs:51 | a null receiver compares as 1 against anything |
| StringOrIntIds.CompareTo | Scorebini/Data/StringOrIntId.cs:43-69 | the result is -1, 0 or 1; two integers compare numerically; two texts, or a text and an integer, compare ordinally by text, an integer taking its decimal text; the null id gives 0 against the null id or any integer and 1 against a text, while an integer or a non-null text gives 1 against the null id |
| StringOrIntIds.EqualsCharacterization | Scorebini/Data/StringOrIntId.cs:43-74 | `CompareTo` gives 0 exactly when the printed forms agree, or when the receiver is the null id and the argument an integer |
| StringOrIntIds.Equals | Scorebini/Data/StringOrIntId.cs:71-74 | `Equals` and `==` hold exactly when the printed forms agree, plus the null-id-against-integer case |
| StringOrIntIds.NotEquals | Scorebini/Data/StringOrIntId.cs:117-120 | `!=` is the negation of `==`, and ids it separates are different values |
| StringOrIntIds.EqualsObject | Scorebini/Data/StringOrIntId.cs:76-83 | `Equals(object)` holds only for a boxed id that is `Equals` to the receiver |
| StringOrIntIds.Less | Scorebini/Data/StringOrIntId.cs:122-125 | `<` never holds between equal ids and is numeric order on two integers |
| StringOrIntIds.LessOrEqual | Scorebini/Data/StringOrIntId.cs:127-130 | `<=` is `<` or `==`, numeric on two integers |
| StringOrIntIds.Greater | Scorebini/Data/StringOrIntId.cs:132-135 | `>` is the negation of `<=`, numeric on two integers |
| StringOrIntIds.GreaterOrEqual | Scorebini/Data/StringOrIntId.cs:137-140 | `>=` is the negation of `<`, numeric on two integers |
| StringOrIntIds.ZeroTextEqualsZero | Scorebini/Data/StringOrIntId.cs:55-66 | the text "0" and the integer 0 are equal ids, in both directions |
| StringOrIntIds.NullIdEqualityAsymmetric | Scorebini/Data/StringOrIntId.cs:47-48 | the null id equals the integer 5, but 5 does not equal the null id |
| StringOrIntIds.NullTextCompareNotAntisymmetric | Scorebini/Data/StringOrIntId.cs:51 | the null id and "a" each compare as greater than the other |
| StringOrIntIds.CompareToNotTransitive | Scorebini/Data/StringOrIntId.cs:55-66 | 9 < 10 numerically and 10 < "9" by text, yet "9" equals 9, so `<` is not transitive |
| StringOrIntIds.HashFields | Scorebini/Data/StringOrIntId.cs:85-98 | the hash is fed the id kind first, then the text or the number |
| StringOrIntIds.HashFieldsInjective | Scorebini/Data/StringOrIntId.cs:85-98 | the hash inputs are equal exactly for identical ids |
| StringOrIntIds.EqualIdsHashDifferently | Scorebini/Data/StringOrIntId.cs:85-98 | "0" and 0 are equal ids whose hash inputs differ |
| StringOrIntIds.CompareNullableFixed | Scorebini/Data/StringOrIntId.cs:47-55 | the corrected text comparison gives -1, 0 or 1, and gives 0 exactly for equal, possibly null, texts |
| StringOrIntIds.FixedCompareTo | Scorebini/Data/StringOrIntId.cs:43-69 | the corrected comparison is 0 exactly when the printed forms agree, and numeric on two integers |
| StringOrIntIds.FixedCompareToAntisymmetric | Scorebini/Data/StringOrIntId.cs:43-69 | the corrected comparison is antisymmetric |
| StringOrIntIds.FixedEqualsAgrees | Scorebini/Data/StringOrIntId.cs:71-74 | corrected equality is symmetric and agrees with `Equals` everywhere except the null-id-against-integer case |
| StringOrIntIds.FixedHashFields | Scorebini/Data/StringOrIntId.cs:85-98 | the corrected hash is fed only the printed form |
| StringOrIntIds.FixedEqualsHashesEqual | Scorebini/Data/StringOrIntId.cs:85-98 | ids that are equal under the corrected equality have equal corrected hash inputs |
| StringOrIntIds.ReadJson | Scorebini/Data/StringOrIntId.cs:146-172 | a string token becomes an integer id when `long.TryParse` accepts it, else a string id; an in-range integer token becomes an integer id; anything else becomes the null id |
| StringOrIntIds.WriteJson | Scorebini/Data/StringOrIntId.cs:175-189 | an integer id is written as an integer; a string id as its text, or null |
| StringOrIntIds.IntIdRoundTrip | ScorebiniTest/StringOrIntIdTest.cs:58-66 | every 64-bit integer id survives writing and reading, and equals what is read from the integer |
| StringOrIntIds.RoundTrip | Scorebini/Data/StringOrIntId.cs:146-189 | writing then reading returns the id itself, except that parseable text comes back as its integer |
| StringOrIntIds.DecimalTextPromoted | ScorebiniTest/StringOrIntIdTest.cs:96-106 | the decimal text of any 64-bit integer is read as that integer and equals the string id |
| StringOrIntIds.StringReadEqualsText | ScorebiniTest/StringOrIntIdTest.cs:36-44 | a string id equals what is read from its text exactly when the text is canonical decimal or not a number |
| StringOrIntIds.NullRoundTrip | ScorebiniTest/StringOrIntIdTest.cs:35-44 | the null id is written as null and equals the id read back |
| StringOrIntIds.LeadingZerosNotEqual | Scorebini/Data/StringOrIntId.cs:154 | "007" is read as 7, which is not equal to the string id "007" |
| TournamentViews.IsValid | Scorebini/Data/TournamentContext.cs:16 | a context is valid exactly when both its participant and match lists are present |
| TournamentViews.StatusFromString | Scorebini/Data/TournamentContext.cs:48-57 | "pending", "open" and "complete" map to their statuses, case-sensitively; everything else, null included, is Unknown |
| TournamentViews.ResolvePlayer | Scorebini/Data/TournamentContext.cs:69-76 | a player resolves exactly when its id is set and keyed in the dictionary, to the stored participant |
| TournamentViews.CreateMatch | Scorebini/Data/TournamentContext.cs:62-78 | keeps the raw match, maps its status, and resolves each player exactly when its id is set and known |
| TournamentViews.NameLeIsTotalPreorder | Scorebini/Data/TournamentContext.cs:102 | ordering by name is a total preorder |
| TournamentViews.NewView | Scorebini/Data/TournamentContext.cs:89-113 | no participant list gives an empty view; otherwise construction succeeds exactly when the valued ids are distinct, fails on the first duplicate kind, and yields the entries built from the raw lists plus the alphabetical list |
| TournamentViews.ParticipantEntriesFromRaw | Scorebini/Data/TournamentContext.cs:94-100 | the participant dictionary holds one entry per raw participant with an id, and nothing else |
| TournamentViews.MatchEntriesFromRaw | Scorebini/Data/TournamentContext.cs:104-112 | the match dictionary holds one created match per raw match with an id, and nothing else |
| TournamentViews.ParticipantLookup | Scorebini/Data/TournamentContext.cs:94-100 | every raw participant with an id is found under that id |
| TournamentViews.AlphabeticalIsSortedPermutation | Scorebini/Data/TournamentContext.cs:102 | the alphabetical list is sorted by name, is a permutation of the dictionary's values, and keeps equal names in dictionary order |
| SetStates.Code | Scorebini/Data/SmashGraphQLQueries.cs:35-41 | the set states carry the codes 0 to 3 |
| SetStates.CodeInjective | Scorebini/Data/SmashGraphQLQueries.cs:35-41 | different set states have different codes |
| SetStates.ToMatchStatus | Scorebini/Data/SmashGraphQLQueries.cs:46-56 | codes 1, 2 and 3 map to Pending, Open and Complete; every other integer maps to Unknown |
| SetStates.ToMatchStatusOfNamed | Scorebini/Data/SmashGraphQLQueries.cs:50-53 | each named state maps to the status of the same name |
| SetStates.ToMatchStatusInjectiveOnKnown | Scorebini/Data/SmashGraphQLQueries.cs:48-55 | two codes with the same known status are the same code |
| SmashggMatches.SlotEntrant | Scorebini/Data/SmashggData.cs:49-53 | the entrant of a slot exists exactly when the slot list is present and long enough and the slot and its entrant are set |
| SmashggMatches.GetValidParticipant | Scorebini/Data/SmashggData.cs:47-60 | the slot's player is found exactly when the slot has an entrant whose id is a key, and it is the stored participant |
| SmashggMatches.CreateMatch | Scorebini/Data/SmashggData.cs:40-66 | keeps the set, and takes player 1 from slot 0 and player 2 from slot 1 |
| SmashggMatches.Status | Scorebini/Data/SmashggData.cs:29 | the match status follows the set's integer state code |
| SmashggMatches.RoundName | Scorebini/Data/SmashggData.cs:30 | the round name is the round text, or "INVALID" when it is null |
| SmashggMatches.RoundNumber | Scorebini/Data/SmashggData.cs:31 | the round number is the set's round |
| SmashggMatches.ExtraSlotsIgnored | Scorebini/Data/SmashggData.cs:62-63 | slots past the second never change either player |
| SmashggMatches.ShortSlotsLeaveSecondPlayerEmpty | Scorebini/Data/SmashggData.cs:49-51 | a set with no slot list or fewer than two slots has no second player |
| SmashggMatches.ResolvedPlayerIsStored | Scorebini/Data/SmashggData.cs:54-57 | with distinct keys, a slot whose entrant id is stored resolves to the participant stored under it |
| MatchOrParticipantIds.Default | Scorebini/Data/MiniData.cs:30-34 | the parameterless key is match 0 |
| MatchOrParticipantIds.FromParsed | Scorebini/Data/MiniData.cs:36-41 | the JSON constructor keeps the parsed key and falls back to match 0 when nothing parses |
| MatchOrParticipantIds.FromMatch | Scorebini/Data/MiniData.cs:49-52 | a match's key carries its id and the Match tag |
| MatchOrParticipantIds.FromParticipant | Scorebini/Data/MiniData.cs:54-57 | a participant's key carries its id and the Participant tag |
| MatchOrParticipantIds.Equals | Scorebini/Data/MiniData.cs:64-67 | keys are equal exactly when tag and id agree |
| MatchOrParticipantIds.NotEquals | Scorebini/Data/MiniData.cs:88-91 | `!=` is the negation of `==` |
| MatchOrParticipantIds.EqualsObject | Scorebini/Data/MiniData.cs:69-76 | `Equals(object)` holds only for the same key, boxed |
| MatchOrParticipantIds.HashInputs | Scorebini/Data/MiniData.cs:78-81 | the hash combines the tag and the id |
| MatchOrParticipantIds.HashAgreesWithEquals | Scorebini/Data/MiniData.cs:64-81 | keys are equal exactly when their hash inputs are equal |
| MatchOrParticipantIds.MatchNeverEqualsParticipant | Scorebini/Data/MiniData.cs:49-57 | a match key never equals a participant key, even for the same id |
| TournamentQueries.ExtractTournamentIdFromUrl | Scorebini/Data/TournamentService.cs:29-34 | the id is the suffix of the URL after its last '/', contains no '/', and is the whole URL when there is no '/' |
| TournamentQueries.OpponentIn | Scorebini/Data/TournamentService.cs:71-78 | an opponent is found exactly when the match is unplayed, the participant is player 1 or player 2, and the other side is set; it is that other side, player 1 being checked first |
| TournamentQueries.GetPendingOpponents | Scorebini/Data/TournamentService.cs:61-82 | empty for a null participant or view; otherwise the opponents found in the Pending or Open matches, in dictionary order |
| TournamentQueries.PendingOpponentsCharacterized | Scorebini/Data/TournamentService.cs:67-80 | an opponent is listed exactly when some unplayed match pairs it with the participant, once per such match |
| TournamentQueries.GetPendingMatches | Scorebini/Data/TournamentService.cs:84-100 | empty for a null view; otherwise the Open matches with both players resolved, in dictionary order |
| TournamentQueries.PlayableMatchesCharacterized | Scorebini/Data/TournamentService.cs:90-97 | a match is listed exactly when it is Open with both players, never when it is Pending, and as often as it occurs |
| TournamentQueries.DistanceLeIsTotalPreorder | Scorebini/Data/TournamentService.cs:120 | ordering by distance is a total preorder |
| TournamentQueries.Scores | Scorebini/Data/TournamentService.cs:114-119 | each participant is paired with the edit distance from the input to its name, in list order |
| TournamentQueries.ParticipantsOf | Scorebini/Data/TournamentService.cs:120 | projecting scored entries keeps their participants in order |
| TournamentQueries.ParticipantAutocompleteList | Scorebini/Data/TournamentService.cs:108-121 | a blank input returns the alphabetical list; otherwise every participant, re-ranked by edit distance |
| TournamentQueries.RankByDistanceSorted | Scorebini/Data/TournamentService.cs:114-120 | the ranked list is ordered by non-decreasing distance to the input |
| TournamentQueries.RankByDistanceStable | Scorebini/Data/TournamentService.cs:120 | participants at the same distance keep their alphabetical order |
| TournamentQueries.RankByDistancePermutation | Scorebini/Data/TournamentService.cs:114-120 | the ranked list is a permutation of the alphabetical list, with nothing filtered out |
| TournamentQueries.ExactNameRankedFirst | Scorebini/Data/TournamentService.cs:118-120 | when some participant's name is exactly the input, the first ranked participant has that name |
| TournamentQueries.FindParticipant | Scorebini/Data/TournamentService.cs:124-138 | null for a null name; otherwise the first participant, in dictionary order, whose lower-cased name equals the lower-cased input, and null only when none does |
| ScoreboardInput.PlayerState.constructor | Scorebini/Data/ScoreboardInputState.cs:8-12 | a new player record has no name and score 0 |
| ScoreboardInput.Swapped | Scorebini/Data/ScoreboardInputState.cs:23-28 | swapping exchanges the two players and keeps everything else |
| ScoreboardInput.ScoresReset | Scorebini/Data/ScoreboardInputState.cs:30-34 | resetting zeroes both scores and keeps names and everything else |
| ScoreboardInput.SwapTwiceRestores | Scorebini/Data/ScoreboardInputState.cs:23-28 | swapping twice restores the original form |
| ScoreboardInput.ResetIdempotent | Scorebini/Data/ScoreboardInputState.cs:30-34 | resetting twice is resetting once |
| ScoreboardInput.SwapAndResetCommute | Scorebini/Data/ScoreboardInputState.cs:23-34 | swapping and resetting commute |
| ScoreboardInput.ScoreboardInputState.constructor | Scorebini/Data/ScoreboardInputState.cs:16-21 | a new form has an empty URL and round name, no commentators, and two separate fresh, blank player records |
| ScoreboardInput.ScoreboardInputState.SwapPlayers | Scorebini/Data/ScoreboardInputState.cs:23-28 | exchanges the two player references; the form afterwards is the swapped form |
| ScoreboardInput.ScoreboardInputState.ResetScore | Scorebini/Data/ScoreboardInputState.cs:30-34 | zeroes both scores in place; the form afterwards is the reset form |
| Predictions.ResponseFromString | ScorebiniTwitchApi/Controllers/TwitchPredictionController.cs:21-31 | the four Twitch status words map to their statuses; any other word fails with the source's message |
| Predictions.StatusToString | ScorebiniTwitchApi/Controllers/TwitchPredictionController.cs:33-42 | each end status is written as one of the three Twitch words |
| Predictions.StatusWordRoundTrip | ScorebiniTwitchApi/Controllers/TwitchPredictionController.cs:21-42 | the word written for an end status reads back as the status of the same name, never Active |
| Predictions.StatusToStringInjective | ScorebiniTwitchApi/Controllers/TwitchPredictionController.cs:33-42 | different end statuses are written as different words |
| Predictions.ToResponseOutcome | ScorebiniTwitchApi/Controllers/TwitchPredictionController.cs:57-66 | the response outcome copies all five fields |
| Predictions.ResponseOutcomeLossless | ScorebiniTwitchApi/Controllers/TwitchPredictionController.cs:57-66 | converting an outcome loses nothing |
| Predictions.ToResponsePrediction | ScorebiniTwitchApi/Controllers/TwitchPredictionController.cs:96-112 | succeeds exactly when the status word is readable, copying every field and converting every outcome in order; otherwise fails with the status error |
| Predictions.ToResponsePredictionInjective | ScorebiniTwitchApi/Controllers/TwitchPredictionController.cs:96-112 | different Twitch records never convert to the same response |
| Predictions.Truncate | ScorebiniTwitchApi/Controllers/TwitchPredictionController.cs:255-258 | the result is the longest prefix of the text within the limit |
| Predictions.Clamp | ScorebiniTwitchApi/Controllers/TwitchPredictionController.cs:271 | the result lies within the bounds and is the input when the input already does |
| Predictions.NormalizedWindow | ScorebiniTwitchApi/Controllers/TwitchPredictionController.cs:269-272 | the window lies in 30..1800 and is unchanged when already there |
| Predictions.NormalizedOutcomes | ScorebiniTwitchApi/Controllers/TwitchPredictionController.cs:260-267 | each outcome title is truncated to 25 characters, position by position |
| Predictions.Titles | ScorebiniTwitchApi/Controllers/TwitchPredictionController.cs:277 | the forwarded outcomes carry the outcome titles in order |
| Predictions.NormalizeCreateRequest | ScorebiniTwitchApi/Controllers/TwitchPredictionController.cs:255-279 | truncates the title, rewrites the outcome list in place, clamps the window, and forwards exactly the normalised values with the broadcaster id |
| Predictions.NormalizedWithinLimits | ScorebiniTwitchApi/Controllers/TwitchPredictionController.cs:255-272 | after normalisation every title and the window are within Twitch's limits |
| Predictions.NormalizationIdempotent | ScorebiniTwitchApi/Controllers/TwitchPredictionController.cs:255-272 | normalising a normalised request changes nothing |
| TwitchIntegration.TwitchUserState.constructor | Scorebini/Data/TwitchIntegrationService.cs:45-46 | a new user has the given login, Unknown state and no redirect, error or metadata |
| TwitchIntegration.IndexOfLogin | Scorebini/Data/TwitchIntegrationService.cs:37-43 | the index of the first cached user with the login, or -1 exactly when there is none |
| TwitchIntegration.AddMissingLogin | Scorebini/Data/TwitchIntegrationService.cs:45-47 | appending a missing login keeps logins unique and puts it last |
| TwitchIntegration.TwitchIntegrationService.constructor | Scorebini/Data/TwitchIntegrationService.cs:20-31 | a new service starts with an empty user cache |
| TwitchIntegration.TwitchIntegrationService.GetUser | Scorebini/Data/TwitchIntegrationService.cs:33-50 | returns the first cached user with the login, or appends and returns a fresh one; the cache grows by at most that user and keeps logins unique |
| TwitchIntegration.MakeScorebiniUrl | Scorebini/Data/TwitchIntegrationService.cs:52-57 | the URL is the base without trailing '/', one '/', and the rest without leading '/' |
| TwitchIntegration.ExtraSlashesIgnored | Scorebini/Data/TwitchIntegrationService.cs:52-57 | extra slashes at the join never change the URL |
| TwitchIntegration.AuthTransition | Scorebini/Data/TwitchIntegrationService.cs:60-115 | 200 authorises; 303 awaits authorisation at the redirect, or errors when the redirect is unreadable; 404 and 429 error; other codes stay in progress, or error when the body is unreadable; the redirect changes only on a readable 303; the metadata is the reply's except on 303 |
| TwitchIntegration.ServerMessageOr | Scorebini/Data/TwitchIntegrationService.cs:106 | the server's message when the reply carries one, else the fallback |
| TwitchIntegration.ErrorRepliesExplainThemselves | Scorebini/Data/TwitchIntegrationService.cs:103-114 | after 404 or 429 the user's error is the server's message or the fixed fallback |
| TwitchIntegration.AuthLeavesNoStaleState | Scorebini/Data/TwitchIntegrationService.cs:60-115 | after a reply the user is never left in the Unknown state |
| TwitchIntegration.AuthUser | Scorebini/Data/TwitchIntegrationService.cs:60-115 | with a login, updates the user in place to the transition's result; with a null login, the query string throws and the user is left in progress with nothing else changed; the login is kept |
| TwitchIntegration.UnreadableReplyCode | Scorebini/Data/TwitchIntegrationService.cs:136-143 | an unreadable reply never reports 200: a 200 becomes -1 and other codes pass through |
| TwitchIntegration.UnreadableReplyMeta | Scorebini/Data/TwitchIntegrationService.cs:156-162 | the synthesised metadata never reports 200 and says the response could not be deserialised |
| TwitchIntegration.UnreadableReplyCodeKeepsErrors | Scorebini/Data/TwitchIntegrationService.cs:177-183 | different error codes stay different |
| OptionsValidation.Validate | ScorebiniTwitchApi/TwitchOptionsValidation.cs:7-26 | succeeds exactly for usable options; otherwise fails with the first failing check's message, in source order |
| OptionsValidation.ValidateIgnoresName | ScorebiniTwitchApi/TwitchOptionsValidation.cs:7 | the options name plays no part |
| OptionsValidation.DefaultsRejected | ScorebiniTwitchApi/TwitchOptions.cs:9-11 | the default, empty options are rejected for the empty client id |

## Left out

- Network I/O, HTTP clients, the GraphQL and REST fetches, logging, the
  database context, dependency injection and settings persistence are not
  modelled. The HTTP status code and the parsed reply bodies of
  `AuthUser` are parameters of `TwitchIntegration.AuthUser`.
- The lock around the user cache in `GetUser` is not modelled; the model
  is single-threaded.
- `ScoreboardSettings` is not part of this model. `MakeScorebiniUrl` takes
  the base URL as a parameter.
- `Levenshtein.Compute` is not part of this model. `Levenshtein.Distance`
  uses the textbook edit distance (insert, delete, substitute, each at
  cost 1).
- Text comparison: `string.CompareTo` is culture-aware in .NET. The model
  uses ordinal comparison, and `ToLower` lower-cases ASCII letters only.
  Lengths and truncation count characters, not UTF-16 code units.
  `long.ToString` and `long.TryParse` use the current culture's negative
  sign; `Text.DecimalText` and `Text.ParseInt64` fix it to '-'.
- `HashCode` mixing is not modelled. `StringOrIntIds.HashFields` and
  `MatchOrParticipantIds.HashInputs` give the values fed to the mixer.
  Hash equality is stated on those values.
- Newtonsoft's reader and writer are abstracted to a token. Dates, floats
  and the `ValueType` checks are not modelled. JSON text for
  `MatchOrParticipantId.ToJson` is not modelled; its JSON constructor
  takes what the deserialiser produced.
- Ids: the REST host's records declare their ids (`Id`, `Player1Id`,
  `Player2Id`) as `StringOrIntId` read through `StringOrIntIdConverter`,
  but the view-building code in `TournamentContext.cs` reads them as
  nullable longs (`.HasValue`, `.Value`). The model takes `Option<int64>`
  for the REST ids and `int64` for the GraphQL host's ids.
- `TournamentQueries.GetPendingOpponents`: C# `==` on participants is
  reference equality. The model compares values, which agrees when each
  id has one participant object, as the view builds them.
- `TournamentQueries.FindParticipant`: participant names are modelled as
  non-null text. In the source, a participant with a null name makes
  `Name.ToLower()` throw (TournamentService.cs:132).
- `TournamentViews.NameLe` and the alphabetical list: in the source,
  `OrderBy(p => p.Name)` uses the default string comparer, which sorts a
  null name before every other name without throwing. The model leaves
  this out because names are non-null text.
- `TournamentViews.NewView`: the source throws on a duplicate id. The
  model returns a `Failure` naming which dictionary rejected it. A null
  match list after a present participant list ends construction early,
  as in the source.
- `SmashggMatches.GetValidParticipant`: the `as TournamentParticipant`
  cast can give null for another participant class. The model's
  dictionary holds only this host's participants.
- `Predictions.StatusToString`: the throw for an enum value outside the
  three names cannot occur with a Dafny datatype and is not modelled.
- The current-prediction field of `TwitchUserState` and the HTTP
  forwarding of the normalised prediction request are not modelled.
- `TournamentQueries.GetPendingMatches`: the code keeps only Open matches
  with both players set (TournamentService.cs:92-94), so Pending matches
  are excluded, as `PlayableMatchesCharacterized` states.
- `TwitchIntegration.AuthUser`: `None` for a reply stands for a body that
  Newtonsoft deserialises to null (an empty body or the literal `null`).
  A malformed body makes `JsonConvert.DeserializeObject` throw before any
  status handling; the user is then left in `RequestInProgres` and the
  exception propagates. That path is not modelled.
- `TwitchIntegration.UnreadableReplyCode` and
  `TwitchIntegration.UnreadableReplyMeta`: they cover a body that
  deserialises to null. The exception a malformed body raises in the
  prediction calls is not modelled.
- `TournamentQueries.ParticipantAutocompleteList`: a null view throws in
  the source; the model's view parameter is never null, so that case is
  not modelled.
- `TournamentQueries.FindParticipant`: a null view with a non-null name
  throws in the source and is not modelled; a null name returns null
  before the view is read, as in the model.
- `Predictions.NormalizeCreateRequest`: the outcome list is an array
  shared between the request and its `with` copies. The model rewrites
  that array in place and returns the copy with the new title and window.

## Findings

| source | as written | input that shows it | evidently intended | confidence | as-written member | corrected member |
|---|---|---|---|---|---|---|
| Scorebini/Data/StringOrIntId.cs:47-55 | the both-null shortcut checks only the two string values, and a null receiver text falls back to `?? 1` | `new StringOrIntId()` against `new StringOrIntId(5)` gives 0, but 5 against the null id gives 1; the null id and "a" each compare as 1 against the other | `CompareTo` is antisymmetric, and null text equals only null text | not executed | StringOrIntIds.NullIdEqualityAsymmetric | StringOrIntIds.FixedCompareToAntisymmetric |
| Scorebini/Data/StringOrIntId.cs:85-98 | the hash is fed the id kind before the value | `new StringOrIntId("0") == new StringOrIntId(0)` holds, yet their hash inputs differ | equal ids hash alike, so hashing only the printed form | not executed | StringOrIntIds.EqualIdsHashDifferently | StringOrIntIds.FixedEqualsHashesEqual |
