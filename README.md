# BarShow scoring core in Dafny

BarShow is an Android TV scoreboard for a best-of-five table-tennis match.
This project models two parts of it:

- **The scoring state machine of the scoreboard screen** (`DetailsScreen` in
  `MainActivity.kt`). Its state is the two display-side counters, the log of
  the points of the set in play, one saved log and one stored `"p1-p2"`
  score per finished set, the first server and the starter of the set in
  play, the current server, the serve number within the service turn, and
  the winner. A d-pad key adds a point for the left or the right side, or
  takes back the last point. Undo when the set in play has no points
  reopens the previous set without its winning point.
- **The MQTT command decoder** (`MqttManager.kt`). The topic prefix is
  normalised to end in `/`. The client subscribes to `<prefix>control/#`.
  Each arriving message becomes at most one event: a point, an undo, a
  player name, or one of the two side-change switches.

Modules:

- `Optional` (`optional.dfy`): the option type.
- `ScoreText` (`score_text.dfy`): the text side of the set scores.
  - Kotlin's `"$n"` for integers and `toInt()`.
  - `split('-')`.
  - The counts of sets won that are read back from the stored strings.
  - The five score slots, reversed while the players have changed ends.
- `MatchRules` (`match_rules.dfy`): the rules as functions on a `Match`
  value.
  - Set won, the final set, and the change of ends.
  - The closed form of the service rotation.
  - The key handler as `AddPoint`, `UndoPoint` and `HandleKey`.
  - An invariant `Inv` that ties the counters, the service, the stored
    scores and the winner to the point logs. `Inv` is proved to hold
    initially and to be kept by every key press and every first-server
    choice, together with the undo round trips.
- `Scoreboard` (`scoreboard.dfy`): the screen's state as a class whose
  methods update its fields step by step, as the handler does.
  - Each method is proved to produce the state that the `MatchRules`
    function gives. The class invariant `Valid()` is `Inv` of that state.
  - The `count { ... }` loops are methods proved against their recursive
    definitions.
- `MqttDecoder` (`mqtt_decoder.dfy`): prefix normalisation, the
  subscription filter, `handleMessage`, and the events.

Players are 1 and 2. The sides are the left and right of the screen. While
the sides are swapped (ends changed and an odd number of sets finished),
player 1 plays on the right. The counters count display sides; the stored
set scores are in player terms.

The scoring follows the code. A set is won by reaching 11 points (6 in the
fifth set) with a lead of two. There is no separate deuce rule: in sets one
to four the service changes every two points even after 10-10. The same
holds for the undo and reopen paths.

## Model

| member | source | states |
|---|---|---|
| ScoreText.DigitChar | app/src/main/java/com/maciej/barshow/MainActivity.kt:359 | the digit written for a value below ten reads back as that value |
| ScoreText.NatToString | app/src/main/java/com/maciej/barshow/MainActivity.kt:359 | the decimal text of a natural number is a non-empty run of digits with no leading zero |
| ScoreText.IntToString | app/src/main/java/com/maciej/barshow/MainActivity.kt:359 | the text of an integer is non-empty; it starts with, and contains, a minus sign exactly when the number is negative |
| ScoreText.ParseInt | app/src/main/java/com/maciej/barshow/MainActivity.kt:274-275 | `toInt` succeeds only on a digit run, or on `-` or `+` followed by a non-empty digit run, and gives that run's decimal value, negated after `-` |
| ScoreText.DigitsValueOfNatToString | app/src/main/java/com/maciej/barshow/MainActivity.kt:359-362 | reading back the digits of a natural number gives that number |
| ScoreText.ParseIntOfIntToString | app/src/main/java/com/maciej/barshow/MainActivity.kt:359-362 | `toInt` of the text an integer is written as gives that integer back, for every integer |
| ScoreText.Split | app/src/main/java/com/maciej/barshow/MainActivity.kt:274-275 | `split` always yields at least one piece, and no piece contains the separator |
| ScoreText.JoinSplit | app/src/main/java/com/maciej/barshow/MainActivity.kt:274-275 | joining the pieces with the separator restores the text: `split` loses nothing |
| ScoreText.SplitWithoutSeparator | app/src/main/java/com/maciej/barshow/MainActivity.kt:274-275 | a text without the separator splits into itself alone |
| ScoreText.SplitAtFirstSeparator | app/src/main/java/com/maciej/barshow/MainActivity.kt:274-275 | text before the first separator is the first piece and the rest splits on its own |
| ScoreText.ScorePairOfFormatScore | app/src/main/java/com/maciej/barshow/MainActivity.kt:359-362 | a stored `"p1-p2"` score splits and parses back to exactly (p1, p2) |
| ScoreText.SetsWonAfterAppend | app/src/main/java/com/maciej/barshow/MainActivity.kt:359-362 | storing a set score adds one set to the player with more points and nothing to the other |
| ScoreText.SetsWonPrefix | app/src/main/java/com/maciej/barshow/MainActivity.kt:337 | dropping the last stored score never raises either player's set count |
| ScoreText.SetsWonPartition | app/src/main/java/com/maciej/barshow/MainActivity.kt:274-275 | when every stored score has a winner, the two set counts add up to the number of stored sets |
| ScoreText.DisplayOfStoredScore | app/src/main/java/com/maciej/barshow/MainActivity.kt:404-408 | a stored score is shown as stored, or as `p2 : p1` while the sides are swapped (the left-hand player's points first) |
| ScoreText.DisplayOfEmptySlot | app/src/main/java/com/maciej/barshow/MainActivity.kt:404-408 | a slot without a finished set shows `- : -` whether or not the sides are swapped |
| MatchRules.Other | app/src/main/java/com/maciej/barshow/MainActivity.kt:333 | the other player is never the same player |
| MatchRules.Flipped | app/src/main/java/com/maciej/barshow/MainActivity.kt:343 | flipping a set starter that is present gives the other player |
| MatchRules.CountsCoverLog | app/src/main/java/com/maciej/barshow/MainActivity.kt:339 | every logged point is counted for exactly one side |
| MatchRules.CountAppend | app/src/main/java/com/maciej/barshow/MainActivity.kt:326-327 | logging a point raises that side's count by one and leaves the other's |
| MatchRules.SetWon | app/src/main/java/com/maciej/barshow/MainActivity.kt:354-355 | a set is won exactly when the leader has at least 11 points (6 in the final set) and leads by two or more; a tie never wins |
| MatchRules.LeftPlayerOwnsLeftCounter | app/src/main/java/com/maciej/barshow/MainActivity.kt:357-358 | the player the serve marker and the top-left label treat as standing on the left is the one whose stored score is the left counter; the other player's is the right counter |
| MatchRules.IsServiceOnLeft | app/src/main/java/com/maciej/barshow/MainActivity.kt:399 | the serve marker is on the left exactly when the server is the player standing on the left |
| MatchRules.SetStarterNext | app/src/main/java/com/maciej/barshow/MainActivity.kt:364 | each new set is started by the other player than the previous one |
| MatchRules.RotateAfterPointClosedForm | app/src/main/java/com/maciej/barshow/MainActivity.kt:365-367 | the step-by-step rotation after a point keeps the server and serve number on the closed form of lines 346-347 |
| MatchRules.RotateBackClosedForm | app/src/main/java/com/maciej/barshow/MainActivity.kt:333-334 | the step back on undo keeps the server and serve number on the closed form |
| MatchRules.RotateRoundTrip | app/src/main/java/com/maciej/barshow/MainActivity.kt:333-334 | stepping the service back after stepping it forward restores server and serve number |
| MatchRules.InvSavedLogsNonEmpty | app/src/main/java/com/maciej/barshow/MainActivity.kt:336-340 | in every reachable state each stored score has a saved log and no saved log is empty, so the reopening undo never takes from an empty list |
| MatchRules.StoredScoresDecisive | app/src/main/java/com/maciej/barshow/MainActivity.kt:274-275 | every stored set score has a strict winner |
| MatchRules.StoredScoreReadsBack | app/src/main/java/com/maciej/barshow/MainActivity.kt:357-359 | each stored score reads back as the points of player 1 and player 2 in that set's saved log, whichever ends they played at |
| MatchRules.AtMostFiveSets | app/src/main/java/com/maciej/barshow/MainActivity.kt:356 | at most five scores are stored, as many as saved logs, and at most four while no one has won |
| MatchRules.WinnerIffThreeSets | app/src/main/java/com/maciej/barshow/MainActivity.kt:361-363 | a player is the winner exactly when three stored sets are theirs |
| MatchRules.InitialInv | app/src/main/java/com/maciej/barshow/MainActivity.kt:251-262 | the opening state satisfies the invariant |
| MatchRules.ChooseFirstServerInv | app/src/main/java/com/maciej/barshow/MainActivity.kt:314-315 | choosing the first server keeps the invariant |
| MatchRules.AddPointInv | app/src/main/java/com/maciej/barshow/MainActivity.kt:326-368 | adding a point keeps the invariant: counters equal the log's counts, service on the closed form, winner after exactly three sets |
| MatchRules.UndoPointInv | app/src/main/java/com/maciej/barshow/MainActivity.kt:328-349 | the undo key keeps the invariant, within a set and across a set boundary |
| MatchRules.HandleKeyInv | app/src/main/java/com/maciej/barshow/MainActivity.kt:323-370 | every key press keeps the invariant, including the ones ignored after the match or before the first server |
| MatchRules.UndoAfterAdd | app/src/main/java/com/maciej/barshow/MainActivity.kt:328-349 | undo right after a point that did not end the match restores the exact previous state, even when the point closed a set |
| MatchRules.UndoAfterInSetPoint | app/src/main/java/com/maciej/barshow/MainActivity.kt:329-334 | undo of a point inside a set restores the previous state |
| MatchRules.UndoAfterSetPoint | app/src/main/java/com/maciej/barshow/MainActivity.kt:335-347 | undo of a set-winning point reopens that set in the state before the point |
| MatchRules.UndoAtStart | app/src/main/java/com/maciej/barshow/MainActivity.kt:328-349 | undo with no points and no finished sets changes nothing |
| MatchRules.CrossSetUndo | app/src/main/java/com/maciej/barshow/MainActivity.kt:335-347 | undo at the start of a set drops the last stored score and saved log, restores that log without its last point, recounts the counters from it, and hands the start back to that set's starter |
| MatchRules.ServiceFollowsClosedForm | app/src/main/java/com/maciej/barshow/MainActivity.kt:342-347 | in play, the set starter alternates from the first server and the server and serve number are a function of the set starter and the points played |
| MatchRules.AddPointEndsSetIffWon | app/src/main/java/com/maciej/barshow/MainActivity.kt:354-359 | a point stores a new set score exactly when it wins the set |
| MatchRules.StoresScoreIffWon | app/src/main/java/com/maciej/barshow/MainActivity.kt:354-365 | with fewer than five scores stored, a point adds one score when it wins the set and leaves the stored scores unchanged otherwise |
| Scoreboard.CountSide | app/src/main/java/com/maciej/barshow/MainActivity.kt:339 | the counting loop returns the number of the side's points in the log |
| Scoreboard.CountSetsWon | app/src/main/java/com/maciej/barshow/MainActivity.kt:361-362 | the counting loops return the numbers of stored sets won by each player |
| Scoreboard.Scoreboard.constructor | app/src/main/java/com/maciej/barshow/MainActivity.kt:251-262 | the screen opens in the initial state, which satisfies the invariant |
| Scoreboard.Scoreboard.ChooseFirstServer | app/src/main/java/com/maciej/barshow/MainActivity.kt:314-315 | a first-server button sets first server, set starter and server, keeps the invariant, and does nothing once a first server or winner exists |
| Scoreboard.Scoreboard.Score | app/src/main/java/com/maciej/barshow/MainActivity.kt:326-327 | a point key on a shown scoreboard produces the state `AddPoint` gives and keeps the invariant |
| Scoreboard.Scoreboard.RecordPoint | app/src/main/java/com/maciej/barshow/MainActivity.kt:354-368 | the in-place point and set-won check produce the state `AddPoint` gives |
| Scoreboard.Scoreboard.FinishSet | app/src/main/java/com/maciej/barshow/MainActivity.kt:356-364 | freezing the set produces the state `CloseSet` gives |
| Scoreboard.Scoreboard.DecideOrStartNextSet | app/src/main/java/com/maciej/barshow/MainActivity.kt:361-364 | the winner is set after three sets, otherwise the counters, log and service are reset for the next set |
| Scoreboard.Scoreboard.AdvanceService | app/src/main/java/com/maciej/barshow/MainActivity.kt:365-367 | the service moves on as `RotateAfterPoint` says and nothing else changes |
| Scoreboard.Scoreboard.Undo | app/src/main/java/com/maciej/barshow/MainActivity.kt:328-349 | the undo key on a shown scoreboard produces the state `UndoPoint` gives and keeps the invariant |
| Scoreboard.Scoreboard.RevertLastPoint | app/src/main/java/com/maciej/barshow/MainActivity.kt:329-347 | the in-place undo (take back a point, or reopen the previous set) produces the state `UndoPoint` gives |
| Scoreboard.Scoreboard.TakeBackPoint | app/src/main/java/com/maciej/barshow/MainActivity.kt:329-334 | taking back a point produces the state `TakeBack` gives |
| Scoreboard.Scoreboard.ReopenPreviousSet | app/src/main/java/com/maciej/barshow/MainActivity.kt:335-347 | reopening the previous set produces the state `Reopen` gives |
| Scoreboard.Scoreboard.RestoreLastSet | app/src/main/java/com/maciej/barshow/MainActivity.kt:336-342 | the saved log is restored without its last point, the stored score dropped and the counters recounted; nothing else changes |
| Scoreboard.Scoreboard.RecomputeService | app/src/main/java/com/maciej/barshow/MainActivity.kt:344-347 | the server and serve number are set to the closed form for the points played; nothing else changes |
| Scoreboard.Scoreboard.OnKey | app/src/main/java/com/maciej/barshow/MainActivity.kt:323-370 | a key is handled exactly while the scoreboard is shown; the new state is `HandleKey` of the old one, and the invariant is kept |
| MqttDecoder.CleanPrefix | app/src/main/java/com/maciej/barshow/MqttManager.kt:94 | the normalised prefix ends in `/`, extends the prefix by at most one character, and is the prefix itself when that already ends in `/` |
| MqttDecoder.CleanPrefixIdempotent | app/src/main/java/com/maciej/barshow/MqttManager.kt:34 | normalising twice is normalising once |
| MqttDecoder.SubscriptionFilter | app/src/main/java/com/maciej/barshow/MqttManager.kt:72-73 | the filter starts with the configured prefix and ends in the `#` wildcard |
| MqttDecoder.SubscriptionCovers | app/src/main/java/com/maciej/barshow/MqttManager.kt:72-73 | the filter takes exactly the topics under `<normalised prefix>control/` |
| MqttDecoder.RemovePrefix | app/src/main/java/com/maciej/barshow/MqttManager.kt:95 | the result is what follows the prefix when the text starts with it, and the text unchanged otherwise |
| MqttDecoder.Lowercase | app/src/main/java/com/maciej/barshow/MqttManager.kt:103 | lower-casing keeps the length and lowers each letter in place |
| MqttDecoder.FlagTruth | app/src/main/java/com/maciej/barshow/MqttManager.kt:103-104 | a switch payload means on exactly when it is `on` in any letter case, `true` or `1` |
| MqttDecoder.EventFor | app/src/main/java/com/maciej/barshow/MqttManager.kt:97-106 | there is an event exactly for the seven known sub-topics, and it is the event of that sub-topic; names are the payload unchanged and switches are the parsed payload |
| MqttDecoder.EventForEncoding | app/src/main/java/com/maciej/barshow/MqttManager.kt:97-106 | every event is decoded back from its own sub-topic and payload |
| MqttDecoder.DecodeUnderPrefix | app/src/main/java/com/maciej/barshow/MqttManager.kt:93-106 | a message on `<normalised prefix>control/<sub>` is decoded from `<sub>` |
| MqttDecoder.HandleMessageRoundTrip | app/src/main/java/com/maciej/barshow/MqttManager.kt:93-107 | an event sent on its topic under the prefix is the event decoded |
| MqttDecoder.DecodeBare | app/src/main/java/com/maciej/barshow/MqttManager.kt:94-95 | a sub-topic sent with neither prefix is still decoded |
| MqttDecoder.DecodeControlOnly | app/src/main/java/com/maciej/barshow/MqttManager.kt:94-95 | `control/<sub>` sent without the configured prefix is still decoded, whatever the prefix |

## Left out

- The Compose user interface: layout, the winner and first-server screens, focus, and the player labels. Only the values the screen derives from the scoring state are modelled.
- The key-event plumbing: the key-up filter, and keys other than left, right and down. They are not handled and change nothing.
- Sounds (`SoundPlayer`): they have no effect on the state.
- The screen computes `isFinalSet` and `isSwapped` when it is drawn. The handler uses those captured values. The model computes them from the state at the start of each key press, which assumes the screen is redrawn between key presses.
- The faint second serve marker (`MainActivity.kt` line 401) is a purely visual hint and is not modelled.
- MQTT networking: connecting, the connection options, the last-will message on `status/match_active`, publishing, disconnecting, and the flow the events are emitted to. `HandleMessage` returns the event that would be emitted.
- Messages whose topic or body is null are dropped before decoding, and so are not modelled. The UTF-8 decoding of the message body is not modelled: the payload is taken as text.
- ScoreText.P1SetsWon: a stored score that does not split into two integers counts as won by neither player, where Kotlin's `count` throws (`MainActivity.kt:274-275`, `361-362`). The same holds for ScoreText.P2SetsWon, ScoreText.FirstWon and ScoreText.SecondWon. No such score is stored in a reachable state (MatchRules.StoredScoresDecisive).
- ScoreText.ParseInt: reads ASCII digits only and has no 32-bit overflow. Kotlin also accepts other Unicode decimal digits and rejects values outside the `Int` range. The stored scores are small non-negative numbers, so this does not arise in reachable states.
- MqttDecoder.SubscriptionCovers: the `#` wildcard is modelled as a test on the text before it. The MQTT rule that `#` also matches the parent level itself (`<prefix>control`) is not modelled, and neither is level-by-level matching.
- MqttDecoder.Lowercase: lowers ASCII letters only, whereas Kotlin lowers all Unicode letters. No other character lowers to `o` or `n`, so `FlagTruth` holds for the full mapping as well.
- Integer counters are unbounded. The code's 32-bit `Int` would wrap only after more than two billion points in one set, which is not modelled.
- Nothing in `MainActivity.kt` consumes the decoded MQTT events, so their effect on the scoreboard is not modelled. Persistence of the match across restarts has no code in these files and is not part of this model.
