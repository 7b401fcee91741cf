# lms-edge game engine and marking rules, modelled in Dafny

This project models the core of the lms-edge classroom server. At its centre is the
"knowledge duel" game of `backend/app_api.py`. Students queue for an opponent, and
the first waiting student of another user is paired with the newcomer. Both then
answer the same questions. A round is resolved once both have answered: a right
answer against a wrong one costs the wrong side 20 hp, two wrong answers cost 10 each,
and the match ends when one side reaches 0 hp or the questions run out. A poll ends an
open match when the opponent's heartbeat is more than 90 seconds old. The winner of a
match gains a win, a medal and 10 to 20 gold in the player table.

The project also models these smaller rules:
- the upload extension check (`allowed_file`);
- the automatic marking of choice assignments (`submit_assignment`);
- the 500-entry cap on whiteboard drawings (`save_whiteboard`);
- the command-line parser and the scoring rule of the standalone server `backend/full_server.py`;
- the route table and the navigation guard of the Vue front end (`frontend/src/router/index.js`).

Layout:
- `common.dfy`: `Option` and the decimal text of integers.
- `duel.dfy`: one match. Its record, the invariant it keeps, and the round, poll, quit and heartbeat rules, as functions on values.
- `profiles.dfy`: the player table. Lookup, the win award, the inventory, and the stable medal sort behind the leaderboard.
- `queue.dfy`: the matchmaking queue. Pruning expired entries, finding the first other user, removing an entry.
- `engine.dfy`: class `GameServer`. Its fields are the JSON files (`questions`, `pending`, `matches`, `players`) and the `users` table. It has one method per game endpoint, each with loops over those sequences, and each proved against the functions above.
- `coursework.dfy`: `allowed_file`, comma splitting, both marking rules, and the drawings cap.
- `args.dfy`: `parse_args` as a loop, proved against a scan of the argument list. Python's `int()` on decimal text is part of this file.
- `router.dfy`: the route table (paths, redirects, inherited meta) and the `beforeEach` guard.

The wall clock enters as a parameter `now` (whole seconds). The random gold bonus
`random.randint(10, 20)` enters as a parameter `bonus` constrained to 10..20. The SQL
`users` table is a map field of the server. The student listing query's rows are a
parameter of `StudentsGameStatus`.

Where the code does something other than the obvious reading of its intent, the model
follows the code:
- A cached round result (`last_round_result`) is returned on every poll until the next round replaces it, not only once per player. `processed_by` only records who has seen it.
- A timeout win on a poll credits no profile; only answer resolution and quit call `update_player_stats`.
- A caller who is not player 1 is treated as player 2 when answering and polling. When such a caller quits, player 1 is declared the winner.
- The matchmaking queue is not deduplicated. `check_game_match` and `get_students_game_status` do not prune expired entries.
- `backend/full_server.py` never credits a multiple-choice answer, while `backend/app_api.py` compares the answer and the key as sets.

## Model

| member | source | states |
|---|---|---|
| Duel.DisplayName | backend/app_api.py:989 | the shown name is `full_name` when it is set and non-empty, and the username otherwise |
| Duel.MatchId | backend/app_api.py:980 | the id is the decimal time stamp followed by the joiner id; Duel.MatchIdsCollide and Duel.MatchIdSameWidth state when ids coincide |
| Duel.NewMatch | backend/app_api.py:984-1004 | the match `game_match` appends; Duel.NewMatchInv states its starting values and that it satisfies Duel.Inv |
| Duel.Inv | backend/app_api.py:984-1004 | the match invariant (distinct players, hp in 0..100, finished iff a winner is set, question index in range, cached round consistent with hp); kept by Duel.NewMatchInv, Duel.SubmitInv, Duel.PollInv and Duel.QuitWinner |
| Duel.Record | backend/app_api.py:1234-1244 | fills the caller's slot (player 2's for anybody not player 1); Duel.SubmitResolvesIffOtherAnswered states its effect |
| Duel.Resolve | backend/app_api.py:1246-1314 | the round resolution; Duel.ResolveEffects states damage, floor, cache, cleared slots, advance and end decision |
| Duel.Submit | backend/app_api.py:1229-1314 | `submit_game_answer` on a found match; Duel.SubmitResolvesIffOtherAnswered, Duel.ResolveEffects, Duel.SubmitInv, Duel.FinishedIsFinal and Duel.FirstRoundScenario state its properties |
| Duel.Poll | backend/app_api.py:1099-1210 | `get_game_state` on a found match; Duel.PollFinished, Duel.PollTimeout, Duel.PollRecordsProcessedOnce, Duel.PollLive, Duel.PollIdempotent and Duel.PollInv state its properties |
| Duel.DefaultQuestions | backend/app_api.py:911-929 | the built-in bank has 17 questions of 4 options each; exactly the last two are multi-answer |
| Duel.NewMatchInv | backend/app_api.py:984-1004 | a new match between two different users starts at 100/100 hp, question 0, empty slots, no winner, no cached round, and satisfies the match invariant |
| Duel.Damage | backend/app_api.py:1250-1267 | a side takes damage iff it answered wrong; 20 iff it alone was wrong; 10 each when both were wrong |
| Duel.DamageSymmetric | backend/app_api.py:1254-1267 | swapping the players swaps the damages |
| Duel.FloorHp | backend/app_api.py:1269-1270 | hp after damage is floored at 0, never rises, and is exact when the damage fits |
| Duel.Decide | backend/app_api.py:1307-1314 | the winner is the side with strictly more hp; equal hp is a draw |
| Duel.SubmitResolvesIffOtherAnswered | backend/app_api.py:1232-1246 | an answer on an open match is recorded in the caller's slot, and the round resolves exactly when the other slot was already filled |
| Duel.ResolveEffects | backend/app_api.py:1246-1314 | resolution applies the damage table with the 0 floor, caches the round result with an empty `processed_by`, clears both slots, advances the question, and ends the match iff an hp is 0 or the questions ran out, with the winner by hp; no other field of the match changes |
| Duel.SubmitInv | backend/app_api.py:1229-1314 | answering keeps the match invariant (hp in 0..100, finished iff a winner is set, question index in range, cached round consistent with the hp) |
| Duel.FirstRoundScenario | backend/app_api.py:1234-1304 | from a fresh match, a right answer from player 1 and a wrong one from player 2 leave hp 100/80 on question 1 with the round cached |
| Duel.CurrentQuestion | backend/app_api.py:1140-1150 | a question is shown iff the index is within the question list, and it is the question at that index |
| Duel.PollFinished | backend/app_api.py:1099-1100 | polling a finished match reports the stored winner and changes nothing |
| Duel.PollTimeout | backend/app_api.py:1102-1137 | an open match ends with the poller as winner iff the opponent's heartbeat exists and is more than 90 seconds old; a missing heartbeat never ends it; a poll that does not time out leaves the match open with its winner unchanged |
| Duel.PollRecordsProcessedOnce | backend/app_api.py:1161-1197 | with a cached round, every poll returns it with the caller's and the opponent's cached hp by side and the current question, adding the caller to `processed_by` only when absent, so the caller is listed exactly once and the list has no duplicates; nothing else in the match changes |
| Duel.PollLive | backend/app_api.py:1139-1210 | with no cached round and no timeout, a poll leaves the match unchanged and reports the caller's and the opponent's hp by side, the current question (present whenever the bank is not empty), whether both slots are filled and whether the caller's own slot is filled |
| Duel.NoDupAppend | backend/app_api.py:1171-1173 | appending the caller only when absent keeps `processed_by` duplicate-free |
| Duel.PollIdempotent | backend/app_api.py:1164-1174 | a second poll at the same moment changes nothing more |
| Duel.PollInv | backend/app_api.py:1099-1210 | polling keeps the match invariant |
| Duel.Opponent | backend/app_api.py:1354 | the declared winner of a quit is a player of the match, and not the caller when the caller plays in it |
| Duel.Quit | backend/app_api.py:1352-1354 | quitting finishes the match with the opponent as winner and changes nothing else |
| Duel.QuitWinner | backend/app_api.py:1351-1355 | player 1 quitting makes player 2 win, player 2 or an outsider quitting makes player 1 win, and the invariant holds |
| Duel.Heartbeat | backend/app_api.py:1368-1373 | a heartbeat stamps the caller's own last-active time; an outsider's heartbeat changes nothing |
| Duel.HeartbeatPreventsTimeout | backend/app_api.py:1107-1124 | right after the opponent's heartbeat a poll cannot time the match out |
| Duel.FinishedIsFinal | backend/app_api.py:1229-1230 | a finished match refuses answers and is left unchanged by a poll |
| Duel.MatchIdsCollide | backend/app_api.py:980 | ids are not unique across time stamps of different digit counts: time 1 with user 23 and time 12 with user 3 give the same id |
| Duel.MatchIdSameWidth | backend/app_api.py:980 | among time stamps of equal digit count two ids are equal iff time and joiner are equal, so a collision needs one joiner paired twice in one second |
| Profiles.NewProfile | backend/app_api.py:945-954 | a first-visit profile carries the user's id, username and display name, 10 gold, no medals or wins, and exactly one item, the healing apple |
| Profiles.ProfileIndex | backend/app_api.py:943 | the lookup finds the first profile of the user, or reports that none exists |
| Profiles.Award | backend/app_api.py:1332-1342 | the win award on the profile table; Profiles.AwardEffects states that only the first profile changes, and only by one win, one medal and the bonus in gold |
| Profiles.AwardEffects | backend/app_api.py:1332-1342 | a win changes only the user's first profile, and in it only by one win, one medal and the bonus (10 to 20) in gold, keeping its id, names and inventory; without a profile nothing changes |
| Profiles.WithInventory | backend/app_api.py:1385-1390 | only the user's first profile takes the new inventory |
| Profiles.MedalsOf | backend/app_api.py:1068-1070 | the medal count shown is the first profile's, or 0 without one |
| Profiles.Insert | backend/app_api.py:1396 | insertion keeps the profiles as a multiset and keeps the medal order |
| Profiles.SortByMedals | backend/app_api.py:1396 | the sort is a permutation ordered by medals, most first |
| Profiles.Leaderboard | backend/app_api.py:1394-1397 | the first 20 profiles of the medal sort; Profiles.LeaderboardTop and Profiles.SortStable state its properties |
| Profiles.SortStable | backend/app_api.py:1396 | profiles with equal medals keep their table order |
| Profiles.LeaderboardTop | backend/app_api.py:1393-1397 | the leaderboard has min(20, n) profiles from the table, ordered by medals; no profile left out has more medals than one shown |
| MatchQueue.Prune | backend/app_api.py:974 | pruning keeps exactly the unexpired entries |
| MatchQueue.PruneAppend | backend/app_api.py:974 | pruning keeps the queue order |
| MatchQueue.PruneIdempotent | backend/app_api.py:974 | pruning twice at the same moment equals pruning once |
| MatchQueue.FirstOther | backend/app_api.py:978-979 | the opponent chosen is the first entry of another user; none exists only when every entry is the caller's |
| MatchQueue.RemoveAt | backend/app_api.py:1006 | removing the chosen entry keeps every other entry in order |
| MatchQueue.EnqueueAddsEntry | backend/app_api.py:1014-1018 | enqueueing a user who already waits adds a second entry |
| Engine.Bank | backend/app_api.py:907-931 | a stored bank is used as it is; without one the built-in 17-question bank is used |
| Engine.MatchIndex | backend/app_api.py:1087-1094 | the lookup finds the first match with the id, or reports that none exists |
| Engine.OpenMatchIndex | backend/app_api.py:1351-1352 | the lookup finds the first open match with the id, or reports that none exists |
| Engine.ResolveRound | backend/app_api.py:1246-1314 | the step-by-step round resolution computes the resolved match |
| Engine.AnswerMatch | backend/app_api.py:1232-1314 | filling the caller's slot and resolving a full round computes the submission result; a declared winner is one of the players |
| Engine.FindOther | backend/app_api.py:978-979 | the queue scan returns the first entry of another user |
| Engine.ReplaceMatch | backend/app_api.py:1324 | storing an updated match that keeps the invariant keeps it for the table and leaves finished matches in place |
| Engine.GameServer.LocateMatch | backend/app_api.py:1087-1094 | the search loop returns the first match with the id |
| Engine.GameServer.LocateOpenMatch | backend/app_api.py:1351-1352 | the search loop returns the first open match with the id |
| Engine.GameServer.FindProfile | backend/app_api.py:943 | the search loop returns the first profile of the user |
| Engine.GameServer.FindPending | backend/app_api.py:1038-1041 | the loop reports whether the user has a queue entry |
| Engine.GameServer.FindOpenMatchOf | backend/app_api.py:1033-1036 | the loop returns the first open match the user plays in, and none only when there is no such match |
| Engine.GameServer.GetQuestions | backend/app_api.py:907-931 | the stored bank is returned; without one the built-in bank is returned and stored |
| Engine.GameServer.GetPlayerGameData | backend/app_api.py:934-958 | an unknown user is refused; a known user gets the existing first profile, or a new default profile that is appended |
| Engine.GameServer.UpdatePlayerStats | backend/app_api.py:1332-1342 | a win is credited as `Award`; a loss changes nothing |
| Engine.GameServer.UpdateInventory | backend/app_api.py:1379-1391 | the first profile's inventory is replaced; the call always succeeds |
| Engine.GameServer.GetGameLeaderboard | backend/app_api.py:1393-1397 | the reply is the first 20 profiles of the stable medal sort |
| Engine.GameServer.GameMatch | backend/app_api.py:960-1022 | an unknown user changes nothing; otherwise expired entries are dropped, then the first other waiting user is paired with the caller (the entry leaves the queue, a match is appended) or the caller is queued for 60 seconds; finished matches stay unchanged |
| Engine.GameServer.CheckGameMatch | backend/app_api.py:1024-1044 | the reply is an open match of the user if any, else whether the user is queued |
| Engine.GameServer.StudentsGameStatus | backend/app_api.py:1046-1080 | each student is `matching` iff queued, else `playing` iff in an open match, else `offline`, with the profile's medals |
| Engine.GameServer.GetGameState | backend/app_api.py:1082-1210 | an unknown id is reported; otherwise the found match is replaced by the poll result and the poll view is returned |
| Engine.GameServer.SubmitGameAnswer | backend/app_api.py:1212-1330 | an unknown or finished match refuses; otherwise the match is replaced by the submission result, and the winner of a match this answer ended is credited |
| Engine.GameServer.CreditWinner | backend/app_api.py:1316-1322 | the winner of a finished match gains a win as `Award`; a draw changes nothing |
| Engine.GameServer.QuitGame | backend/app_api.py:1344-1359 | the first open match with the id is ended with the opponent as winner, who is credited; with no such match nothing changes |
| Engine.GameServer.GameHeartbeat | backend/app_api.py:1361-1377 | the first open match with the id gets the caller's heartbeat; with no such match the call fails |
| Coursework.Extension | backend/app_api.py:41 | the extension holds no dot, and is empty for a name without a dot |
| Coursework.ExtensionOfName | backend/app_api.py:41 | the extension of `base.ext` is the lower-cased `ext`, whatever dots `base` holds |
| Coursework.NoExtensionNotAllowed | backend/app_api.py:40-42 | a name without a dot, or ending in a dot, is never allowed |
| Coursework.AllowedFile | backend/app_api.py:40-42 | `allowed_file`: the extension is in the set; Coursework.ExtensionOfName and Coursework.NoExtensionNotAllowed state its behaviour |
| Coursework.SplitComma | backend/app_api.py:554-555 | splitting on commas gives at least one piece and no piece holds a comma |
| Coursework.JoinSplit | backend/app_api.py:554-555 | joining the pieces with commas gives back the text |
| Coursework.SplitJoin | backend/app_api.py:554-555 | splitting comma-free pieces joined with commas gives back the pieces |
| Coursework.ResubmissionRule | backend/app_api.py:538-547 | a second choice answer is refused with the stored answer and grade; other kinds take the new text and keep the stored grade |
| Coursework.FirstSubmissionRule | backend/app_api.py:548-570 | a first answer is stored with is_correct 1 and full points iff it is a choice answer graded correct, otherwise with 0 and 0 |
| Coursework.ChoiceCorrect | backend/app_api.py:552-562 | a choice answer is right when it equals the key, or, for multiple choice, has the same set of comma pieces; Coursework.MultipleChoiceOrderFree and Coursework.MultipleChoiceExamples state it |
| Coursework.SubmitAssignment | backend/app_api.py:538-570 | the submit decision; Coursework.ResubmissionRule and Coursework.FirstSubmissionRule state it for resubmissions and first answers |
| Coursework.MultipleChoiceOrderFree | backend/app_api.py:553-558 | multiple-choice marking ignores the order and repetition of options |
| Coursework.MultipleChoiceExamples | backend/app_api.py:553-558 | "B,A" and "A,A,B" match the key "A,B", and "A" does not |
| Coursework.ScoreSubmission | backend/full_server.py:572-576 | the standalone server credits full points iff a single-choice or true/false answer equals the key |
| Coursework.ServersAgreeOnSingleChoice | backend/full_server.py:572-576 | both servers mark a first single-choice answer alike when the key is set |
| Coursework.SecondServerIgnoresMultipleChoice | backend/full_server.py:574 | the standalone server gives 0 to a multiple-choice answer equal to the key, where the main server gives full points |
| Coursework.AppendDrawings | backend/app_api.py:764-767 | with new drawings the stored list is the last min(500, total) of the old list followed by the new ones; without new drawings it is unchanged |
| Coursework.NewestDrawingsKept | backend/app_api.py:764-767 | the stored list never exceeds 500, ends with the newest drawings, and keeps the old ones when everything fits |
| Coursework.SaveWhiteboard | backend/app_api.py:761-767 | saving sets the content and time stamp and appends the drawings under the cap |
| ServerArgs.DigitsValueOfNatToString | backend/full_server.py:26 | the digit value of a number's decimal text is the number |
| ServerArgs.ParseInt | backend/full_server.py:26 | `int()` on text, `None` where it raises; ServerArgs.ParseIntOfDigits, ServerArgs.ParseIntNegative, ServerArgs.ParseIntPadded, ServerArgs.ParseIntPlus, ServerArgs.ParseIntTooManyDigits and ServerArgs.ParseIntRejects state it |
| ServerArgs.ParseIntOfDigits | backend/full_server.py:26 | `int()` reads a plain string of at most 4300 digits as its decimal value |
| ServerArgs.ParseIntOfNatToString | backend/full_server.py:26 | `int()` reads back the decimal text of every natural number of at most 4300 digits |
| ServerArgs.NegativeDigits | backend/full_server.py:26 | a leading '-' before at most 4300 digits gives the negated value |
| ServerArgs.ParseIntNegative | backend/full_server.py:26 | `int()` reads "-n" as minus n |
| ServerArgs.ParseIntPadded | backend/full_server.py:26 | white space (tab to carriage return, and space) of any length on either side of any text leaves what `int()` reads unchanged |
| ServerArgs.SeparatorsRefused | backend/full_server.py:26 | a separator character 0x1C to 0x1F at either end of any text makes `int()` refuse it, as it is not white space to `int()` |
| ServerArgs.ParseIntPlus | backend/full_server.py:26 | a '+' before an unsigned text without surrounding white space changes nothing |
| ServerArgs.ParseIntTooManyDigits | backend/full_server.py:26 | a digit string longer than the default cap of 4300 digits is refused |
| ServerArgs.ParseIntRejects | backend/full_server.py:26 | empty, blank, a bare sign, letters, a doubled or trailing underscore are refused |
| ServerArgs.ScanCovers | backend/full_server.py:23-35 | the loop consumes every argument exactly once, in order |
| ServerArgs.Scan | backend/full_server.py:23-35 | the steps the loop takes; ServerArgs.ScanCovers states that they consume every argument once, in order |
| ServerArgs.Apply | backend/full_server.py:25-35 | the steps applied to a configuration; ServerArgs.LaterFlagOverrides and ServerArgs.ApplyStopsAtRefusedPort state it |
| ServerArgs.ArgsOutcome | backend/full_server.py:18-37 | the outcome of parse_args as a function; ServerArgs.ParseArgs is proved equal to it |
| ServerArgs.ParseArgs | backend/full_server.py:18-37 | the loop computes the outcome of applying the scanned flags to the defaults, stopping at a bad port |
| ServerArgs.NoFlagsDefaults | backend/full_server.py:19-21 | without flags every setting keeps its default |
| ServerArgs.DanglingFlagSkipped | backend/full_server.py:25-35 | a flag as the last argument is skipped |
| ServerArgs.FlagTakesNextToken | backend/full_server.py:28-30 | the token after a flag is its value even when it is itself a flag |
| ServerArgs.LaterFlagOverrides | backend/full_server.py:23-35 | once a later flag sets a field, its earlier value does not matter |
| ServerArgs.BadPortFails | backend/full_server.py:25-27 | for every argument list, parsing fails at the first `--port` value `int()` refuses, with that value, whatever follows |
| ServerArgs.ApplyStopsAtRefusedPort | backend/full_server.py:25-27 | applying the steps stops at the first refused port, from any configuration |
| ServerArgs.ApplyFailsOnlyAtRefusedPort | backend/full_server.py:25-27 | a failure is only ever caused by a refused port, and reports that port's value |
| Router.PathOf | frontend/src/router/index.js:4-101 | a top-level route's full path is its table path |
| Router.StaticRedirects | frontend/src/router/index.js:4-101 | '/' leads to '/login' and each section's bare path to its first page |
| Router.RedirectsAreFinal | frontend/src/router/index.js:4-101 | no redirect leads to another redirect, and a section redirects to one of its own children |
| Router.TableMeta | frontend/src/router/index.js:14-100 | every route listing roles requires a login; children inherit their section's meta and extend its path |
| Router.Guard | frontend/src/router/index.js:108-130 | the `beforeEach` decision; Router.GuardRules states its rules in order |
| Router.Navigate | frontend/src/router/index.js:108-130 | a navigation to a URL path and the route it matched: the static redirect, then the guard on the URL's own path; Router.LoginPathIsLiteral, Router.NoRedirectLoop and Router.EmptyTokenIsNoToken state it |
| Router.OnlyLoginPath | frontend/src/router/index.js:4-101 | only the login route has the path '/login' |
| Router.GuardRules | frontend/src/router/index.js:108-130 | the guard's rules in order: no token on a protected route goes to login, a token on login goes to the dashboard, a known user outside the roles goes to the dashboard, and only otherwise does navigation proceed |
| Router.NoUserSkipsRoles | frontend/src/router/index.js:122-127 | with no user in the store, a signed-in navigation passes the role check |
| Router.EmptyTokenIsNoToken | frontend/src/router/index.js:110-112 | an empty stored token counts as no token |
| Router.NoRedirectLoop | frontend/src/router/index.js:108-130 | every redirect the guard issues lands on a page the guard then lets through |
| Router.LoginPathIsLiteral | frontend/src/router/index.js:115-118 | with a token, '/login' is sent to the dashboard while '/LOGIN' and '/login/' pass the login test |
| Router.RoleAccess | frontend/src/router/index.js:108-130 | a student is kept out of the admin and teacher pages, an admin may open teacher pages, and a user without a role is kept out of a role-listing section |
| Router.LoginRedirects | frontend/src/router/index.js:108-130 | no token on a protected page leads to the login page, '/' with a token leads to the dashboard, and an unmatched URL without a token proceeds |

## Left out

- Persistence: the JSON files and the SQLite database are fields or parameters; file reading, writing, corrupt files and the `load_json` defaults are not modelled.
- Flask routing, request parsing, CORS and the HTTP status codes are not modelled. Each handler starts from its already-parsed arguments. The missing-parameter replies of `submit_assignment` (missing `user_id` or `assignment_id`) are not modelled.
- Concurrency: every handler runs alone. The race between two requests reading and writing the same file is not modelled, and neither is the whiteboard lock.
- Time: `now` is a whole number of seconds. ISO time stamps, `created_at` and the fractional seconds of `total_seconds()` are not kept.
- Randomness: `random.randint(10, 20)` is the `bonus` parameter.
- The constant `my_turn` key is not kept. Neither are the `opponent_left` key of the live reply (always false there) and the `both_answered` and `player_answered` keys of the cached-round reply (always true there). The live reply keeps both of the latter.
- Duel.Poll, Duel.Inv: the caller's user id is always an integer. In the source a state request without a `user_id` parameter, or with one that is not an integer, reads it as None. Such a caller counts as player 2, so a stale player 1 heartbeat ends the match with a null `winner`, and the "finished iff a winner is set" part of Duel.Inv then fails. The model leaves that request out to keep one integer id type for every handler. The game client that builds the request is not part of this model.
- Duel.PollRecordsProcessedOnce: the repair of a stored `processed_by` that is not a list is not modelled; the model's list is always a list.
- Duel.Submit: the client-supplied `is_correct` is a boolean. JSON values of other types and their Python truthiness are not modelled.
- Profiles.AwardEffects: the `.get` defaults for profiles lacking `wins`, `medals` or `gold` are not modelled. Every profile the server creates has them.
- Engine.GameServer.StudentsGameStatus: the students query is a parameter rather than a read of the `users` table.
- Save of the whiteboard's online-user list and its 30-second pruning is not modelled; the `updates` key is not kept.
- Coursework.Extension: lower-casing is ASCII only. Python's Unicode `lower()` (e.g. the Kelvin sign becoming 'k') is not modelled.
- ServerArgs.ParseInt: the digit cap is fixed at its default of 4300; `PYTHONINTMAXSTRDIGITS` and `sys.set_int_max_str_digits` are not modelled, nor are Python versions before 3.10.7 and 3.11, which have no cap. Only ASCII digits and ASCII white space (tab to carriage return, and space) are handled. Python's `int()` also accepts other Unicode digits and spaces. A bad port is a `BadPort` result; in the source it is an uncaught exception at start-up.
- Coursework.SubmitAssignment: the answer is text or null. JSON values of other types, a NULL `points`, and the operation log written afterwards are not modelled.
- Router.Navigate: matching a URL string to a route is the router library's job, so navigation starts from the URL's path and the route it matched (or none); which paths match which route (letter case, a trailing '/') is not modelled, only that the guard's login test sees the path as written. The `from` argument, the history mode and lazy component loading are not modelled.
- The rest of the repository (assignments CRUD, attendance, statistics, the FastAPI `app/` package, the other server scripts and the Vue pages) is not part of this model.
