/** The table-tennis scoring rules of the scoreboard screen, as values.

    `Match` holds the screen's scoring state (`DetailsScreen`,
    MainActivity.kt lines 251-262); `AddPoint`, `UndoPoint` and `HandleKey`
    say what one key press does to it (lines 323-370). The class in
    module Scoreboard performs the same steps in place and is proved to agree
    with these functions; the lemmas here state what the source promises about
    them: counters agree with the point log, the server follows a closed form,
    stored set scores are in absolute player terms, the winner is declared at
    three sets, and undo takes back the last point even across a set
    boundary. */
module MatchRules {
  import opened Optional
  import opened ScoreText

  /** Players are the integers 1 and 2, as in the source. */
  type Player = p: int | p == 1 || p == 2 witness 1

  /** `if (p == 1) 2 else 1` */
  function Other(p: Player): (q: Player)
    ensures q != p
  {
    if p == 1 then 2 else 1
  }

  /** `if (setStartingPlayer == 1) 2 else 1` on the nullable set starter. */
  function Flipped(p: Option<Player>): (q: Player)
    ensures p.Some? ==> q == Other(p.value)
  {
    if p == Some(1) then 2 else 1
  }

  /** A point log entry: the display side ("left"/"right") that won the rally. */
  datatype Side = Left | Right

  /** The commands of the remote's arrow keys: left, right and down. */
  datatype Command = AddLeft | AddRight | Undo

  /** `history.count { it == side }` */
  function Count(h: seq<Side>, side: Side): nat {
    if |h| == 0 then 0 else Count(h[..|h| - 1], side) + (if h[|h| - 1] == side then 1 else 0)
  }

  lemma {:induction false} CountsCoverLog(h: seq<Side>)
    ensures Count(h, Left) + Count(h, Right) == |h|
  {
    if |h| > 0 {
      CountsCoverLog(h[..|h| - 1]);
    }
  }

  lemma CountAppend(h: seq<Side>, s: Side, side: Side)
    ensures Count(h + [s], side) == Count(h, side) + (if s == side then 1 else 0)
  {
    assert (h + [s])[..|h|] == h;
  }

  // ---------------------------------------------------------------------
  // Set rules
  // ---------------------------------------------------------------------

  /** `val isFinalSet = setScores.size == 4` */
  function IsFinalSet(completedSets: nat): bool {
    completedSets == 4
  }

  /** `val winPoints = if (isFinalSet) 6 else 11` */
  function WinPoints(isFinal: bool): nat {
    if isFinal then 6 else 11
  }

  function Max(a: int, b: int): int { if a >= b then a else b }

  function Abs(a: int): int { if a >= 0 then a else -a }

  /** Line 355: some side has at least `winPoints` and leads by two or more.
      Equivalently, the leader has reached the threshold with a margin of at
      least two; in particular a tie (10-10, 5-5, ...) never wins a set. */
  predicate SetWon(left: int, right: int, isFinal: bool)
    ensures SetWon(left, right, isFinal) ==> left != right
    ensures SetWon(left, right, isFinal) <==> Max(left, right) >= WinPoints(isFinal) && Abs(left - right) >= 2
  {
    (left >= WinPoints(isFinal) && left >= right + 2) || (right >= WinPoints(isFinal) && right >= left + 2)
  }

  /** Line 273: the players have changed ends after an odd number of sets. */
  function IsSwapped(changeSidesEnabled: bool, completedSets: nat): bool {
    changeSidesEnabled && completedSets % 2 != 0
  }

  /** The player whose name and counter are shown on the left (line 373). */
  function LeftPlayer(swapped: bool): Player {
    if swapped then 2 else 1
  }

  /** Line 399: where the serve marker is drawn. */
  function IsServiceOnLeft(swapped: bool, servicePlayer: Player): (onLeft: bool)
    ensures onLeft <==> servicePlayer == LeftPlayer(swapped)
  {
    if !swapped then servicePlayer == 1 else servicePlayer == 2
  }

  /** The won/lost points of a finished set's log, in absolute player terms
      (lines 357-358): player 1 played on the right while swapped. */
  function AbsoluteScore(h: seq<Side>, swapped: bool): (nat, nat) {
    if swapped then (Count(h, Right), Count(h, Left)) else (Count(h, Left), Count(h, Right))
  }

  /** The player named on the left owns the left counter: of a log's points
      in player terms, `LeftPlayer`'s are the left side's and the other
      player's are the right side's. */
  lemma LeftPlayerOwnsLeftCounter(h: seq<Side>, swapped: bool)
    ensures var p := AbsoluteScore(h, swapped);
            && (if LeftPlayer(swapped) == 1 then p.0 else p.1) == Count(h, Left)
            && (if LeftPlayer(swapped) == 1 then p.1 else p.0) == Count(h, Right)
  {
  }

  predicate SetWonBy(h: seq<Side>, isFinal: bool) {
    SetWon(Count(h, Left), Count(h, Right), isFinal)
  }

  /** A log that was never a won set at any point: a set still in play. */
  predicate InPlay(h: seq<Side>, isFinal: bool)
    decreases |h|
  {
    && !SetWonBy(h, isFinal)
    && (|h| > 0 ==> InPlay(h[..|h| - 1], isFinal))
  }

  /** The log of a finished set: won by its last point and not before. */
  predicate Completed(h: seq<Side>, isFinal: bool) {
    |h| > 0 && InPlay(h[..|h| - 1], isFinal) && SetWonBy(h, isFinal)
  }

  lemma {:induction false} InPlayPrefix(h: seq<Side>, j: nat, isFinal: bool)
    requires InPlay(h, isFinal) && j <= |h|
    ensures InPlay(h[..j], isFinal)
    decreases |h|
  {
    if j < |h| {
      InPlayPrefix(h[..|h| - 1], j, isFinal);
      assert h[..|h| - 1][..j] == h[..j];
    } else {
      assert h[..j] == h;
    }
  }

  lemma InPlayExtend(h: seq<Side>, s: Side, isFinal: bool)
    ensures InPlay(h + [s], isFinal) <==> InPlay(h, isFinal) && !SetWonBy(h + [s], isFinal)
    ensures (h + [s])[..|h|] == h
  {
    assert (h + [s])[..|h|] == h;
  }

  // ---------------------------------------------------------------------
  // Service
  // ---------------------------------------------------------------------

  /** Who starts serving in the set after `completedSets` finished sets:
      the match's first server, alternating set by set. */
  function SetStarter(first: Player, completedSets: nat): Player {
    if completedSets % 2 == 0 then first else Other(first)
  }

  lemma SetStarterNext(first: Player, completedSets: nat)
    ensures SetStarter(first, completedSets + 1) == Other(SetStarter(first, completedSets))
  {
  }

  /** Lines 346-347: the server after `total` points of a set. Service
      passes every point in the final set and every two points otherwise;
      there is no special rule at 10-10. */
  function ServerFor(setStarter: Player, total: nat, isFinal: bool): Player {
    if isFinal then (if total % 2 == 0 then setStarter else Other(setStarter))
    else (if (total / 2) % 2 == 0 then setStarter else Other(setStarter))
  }

  /** Lines 346-347: 1 or 2, the number of the serve within the server's turn. */
  function ServiceCountFor(total: nat, isFinal: bool): int {
    if isFinal then 1 else total % 2 + 1
  }

  /** Lines 365-367: the service update after a point that did not end the set. */
  function RotateAfterPoint(servicePlayer: Player, serviceCount: int, isFinal: bool): (Player, int) {
    if isFinal then (Other(servicePlayer), serviceCount)
    else if serviceCount == 2 then (Other(servicePlayer), 1)
    else (servicePlayer, serviceCount + 1)
  }

  /** Lines 333-334: the service update after a point is taken back. */
  function RotateBack(servicePlayer: Player, serviceCount: int, isFinal: bool): (Player, int) {
    if isFinal then (Other(servicePlayer), serviceCount)
    else if serviceCount - 1 == 0 then (Other(servicePlayer), 2)
    else (servicePlayer, serviceCount - 1)
  }

  /** Rotating after a point keeps the incremental service state on the
      closed form. */
  lemma RotateAfterPointClosedForm(starter: Player, total: nat, isFinal: bool)
    ensures RotateAfterPoint(ServerFor(starter, total, isFinal), ServiceCountFor(total, isFinal), isFinal)
         == (ServerFor(starter, total + 1, isFinal), ServiceCountFor(total + 1, isFinal))
  {
    if !isFinal && total % 2 == 1 {
      assert (total + 1) / 2 == total / 2 + 1;
    }
  }

  /** Rotating back after an undo keeps it on the closed form too. */
  lemma RotateBackClosedForm(starter: Player, total: nat, isFinal: bool)
    requires total > 0
    ensures RotateBack(ServerFor(starter, total, isFinal), ServiceCountFor(total, isFinal), isFinal)
         == (ServerFor(starter, total - 1, isFinal), ServiceCountFor(total - 1, isFinal))
  {
    if !isFinal && total % 2 == 0 {
      assert (total - 1) / 2 == total / 2 - 1;
    }
  }

  // ---------------------------------------------------------------------
  // The scoring state and one key press
  // ---------------------------------------------------------------------

  datatype Match = Match(
    left: int,                          // leftCounter
    right: int,                         // rightCounter
    history: seq<Side>,                 // point log of the set in play
    setsPointHistory: seq<seq<Side>>,   // point logs of the finished sets
    setScores: seq<string>,             // "p1-p2" of the finished sets
    startingPlayer: Option<Player>,     // chosen first server of the match
    setStartingPlayer: Option<Player>,  // first server of the set in play
    servicePlayer: Player,
    serviceCount: int,
    winner: Option<Player>)

  /** The state when the screen opens (lines 251-262). */
  const Initial: Match := Match(0, 0, [], [], [], None, None, 1, 1, None)

  /** The screen accepts key presses only while it shows the scoreboard:
      no winner yet (line 278) and a first server chosen (line 309). */
  predicate Accepts(m: Match) {
    m.winner.None? && m.startingPlayer.Some?
  }

  /** Line 363: player 1 if they have won three sets, else player 2 if
      they have. */
  function WinnerOf(scores: seq<string>): Option<Player> {
    if P1SetsWon(scores) == 3 then Some(1)
    else if P2SetsWon(scores) == 3 then Some(2)
    else None
  }

  /** Lines 314-315: the first-server buttons, shown while there is no
      winner and no first server. */
  function ChooseFirstServer(m: Match, p: Player): Match {
    if m.winner.None? && m.startingPlayer.None? then
      m.(startingPlayer := Some(p), setStartingPlayer := Some(p), servicePlayer := p, serviceCount := 1)
    else m
  }

  /** Lines 326-327: the point is counted and logged. */
  function Scored(m: Match, side: Side): Match {
    m.(left := if side == Left then m.left + 1 else m.left,
       right := if side == Right then m.right + 1 else m.right,
       history := m.history + [side])
  }

  /** Line 364: counters and log cleared for the next set, whose starter is
      the other player and serves first. */
  function NextSet(m: Match): Match {
    var starter := Flipped(m.setStartingPlayer);
    m.(left := 0, right := 0, history := [], setStartingPlayer := Some(starter),
       servicePlayer := starter, serviceCount := 1)
  }

  /** Lines 357-364: the set just won is closed. Its score is frozen in
      player terms (player 1 first, so (right, left) while the sides are
      swapped), its log is saved, and either the match is decided or the
      next set begins. */
  function CloseSet(s: Match, swapped: bool): Match {
    var scores := s.setScores + [FormatScore(if swapped then s.right else s.left, if swapped then s.left else s.right)];
    var frozen := s.(setScores := scores, setsPointHistory := s.setsPointHistory + [s.history]);
    if WinnerOf(scores).Some? then frozen.(winner := WinnerOf(scores))
    else NextSet(frozen)
  }

  /** Lines 326-327 and 354-368: a point for one display side. While the
      sides are swapped, player 1 plays on the right, so the score frozen at
      the end of a set is (right, left). */
  function AddPoint(m: Match, side: Side, changeSidesEnabled: bool): Match {
    var isFinal := IsFinalSet(|m.setScores|);
    var swapped := IsSwapped(changeSidesEnabled, |m.setScores|);
    var s := Scored(m, side);
    var won := SetWon(s.left, s.right, isFinal);
    if won && |m.setScores| < 5 then CloseSet(s, swapped)
    else if !won then
      var service := RotateAfterPoint(m.servicePlayer, m.serviceCount, isFinal);
      s.(servicePlayer := service.0, serviceCount := service.1)
    else s
  }

  /** What the cross-set undo needs of the state: a stored score beside
      every saved log, and the log it reopens not empty (otherwise one of the
      `removeAt(lastIndex)` calls throws). */
  predicate SavedLogsNonEmpty(m: Match) {
    && |m.setScores| == |m.setsPointHistory|
    && forall i :: 0 <= i < |m.setsPointHistory| ==> |m.setsPointHistory[i]| > 0
  }

  /** Lines 329-334: the last point of the set in play is taken back and
      the service rotation is stepped back. */
  function TakeBack(m: Match): Match
    requires |m.history| > 0
  {
    var last := m.history[|m.history| - 1];
    var service := RotateBack(m.servicePlayer, m.serviceCount, IsFinalSet(|m.setScores|));
    m.(history := m.history[..|m.history| - 1],
       left := if last == Left then m.left - 1 else m.left,
       right := if last == Left then m.right else m.right - 1,
       servicePlayer := service.0, serviceCount := service.1)
  }

  /** Lines 335-347: the previous set is reopened from its saved log without
      its winning point; its stored score is dropped, its starter restored,
      and the server recomputed from the closed form. */
  function Reopen(m: Match): Match
    requires |m.setsPointHistory| > 0 && SavedLogsNonEmpty(m)
  {
    var restored := m.setsPointHistory[|m.setsPointHistory| - 1];
    var scores := m.setScores[..|m.setScores| - 1];
    var prevLeft, prevRight := Count(restored, Left), Count(restored, Right);
    var last := restored[|restored| - 1];
    var left := if last == Left then prevLeft - 1 else prevLeft;
    var right := if last == Right then prevRight - 1 else prevRight;
    var starter := Flipped(m.setStartingPlayer);
    var total: nat := left + right;
    m.(setsPointHistory := m.setsPointHistory[..|m.setsPointHistory| - 1],
       setScores := scores,
       history := restored[..|restored| - 1],
       left := left, right := right,
       setStartingPlayer := Some(starter),
       servicePlayer := ServerFor(starter, total, IsFinalSet(|scores|)),
       serviceCount := ServiceCountFor(total, IsFinalSet(|scores|)))
  }

  /** Lines 328-349: the undo key. With points in the set, the last one is
      taken back; with none, the previous set is reopened; at the very start
      of the match, nothing happens. The set-won check is skipped. */
  function UndoPoint(m: Match): Match
    requires SavedLogsNonEmpty(m)
  {
    if |m.history| > 0 then TakeBack(m)
    else if |m.setsPointHistory| > 0 then Reopen(m)
    else m
  }

  /** One key press on the scoreboard; ignored unless the scoreboard is shown. */
  function HandleKey(m: Match, cmd: Command, changeSidesEnabled: bool): Match
    requires SavedLogsNonEmpty(m)
  {
    if !Accepts(m) then m
    else match cmd
      case AddLeft => AddPoint(m, Left, changeSidesEnabled)
      case AddRight => AddPoint(m, Right, changeSidesEnabled)
      case Undo => UndoPoint(m)
  }

  // ---------------------------------------------------------------------
  // The invariant
  // ---------------------------------------------------------------------

  /** The finished set at position `index` has its log, was won by the
      log's last point and not before, and its stored score is the log's count
      in absolute player terms. */
  ghost predicate SetRecorded(score: string, log: seq<Side>, index: nat, changeSidesEnabled: bool) {
    var p := AbsoluteScore(log, IsSwapped(changeSidesEnabled, index));
    Completed(log, IsFinalSet(index)) && score == FormatScore(p.0, p.1)
  }

  /** `SetRecorded` for every finished set, one score per log. */
  ghost predicate FinishedSetsAgree(scores: seq<string>, logs: seq<seq<Side>>, changeSidesEnabled: bool)
    decreases |logs|
  {
    && |scores| == |logs|
    && (|logs| > 0 ==>
          && FinishedSetsAgree(scores[..|scores| - 1], logs[..|logs| - 1], changeSidesEnabled)
          && SetRecorded(scores[|scores| - 1], logs[|logs| - 1], |logs| - 1, changeSidesEnabled))
  }

  lemma {:induction false} FinishedSetAt(scores: seq<string>, logs: seq<seq<Side>>, cs: bool, i: nat)
    requires FinishedSetsAgree(scores, logs, cs) && i < |logs|
    ensures SetRecorded(scores[i], logs[i], i, cs)
    decreases |logs|
  {
    if i < |logs| - 1 {
      FinishedSetAt(scores[..|scores| - 1], logs[..|logs| - 1], cs, i);
    }
  }

  /** The service state of the set in play is the closed form of its
      starter and its number of points. */
  ghost predicate ServiceOnClosedForm(m: Match) {
    && m.setStartingPlayer.Some?
    && m.servicePlayer == ServerFor(m.setStartingPlayer.value, |m.history|, IsFinalSet(|m.setScores|))
    && m.serviceCount == ServiceCountFor(|m.history|, IsFinalSet(|m.setScores|))
  }

  /** The counters are the per-side counts of the point log. */
  ghost predicate CountersAgree(m: Match) {
    m.left == Count(m.history, Left) && m.right == Count(m.history, Right)
  }

  /** The set's starter alternates from the match's first server. */
  ghost predicate StarterAgrees(m: Match) {
    m.startingPlayer.Some? ==>
      m.setStartingPlayer == Some(SetStarter(m.startingPlayer.value,
                                             if m.winner.Some? && |m.setScores| > 0 then |m.setScores| - 1 else |m.setScores|))
  }

  /** While there is no winner: nobody has three sets, the set in play has
      not been won, and the service state is on the closed form. */
  ghost predicate LiveSetAgrees(m: Match) {
    m.winner.None? ==>
      && P1SetsWon(m.setScores) < 3 && P2SetsWon(m.setScores) < 3
      && InPlay(m.history, IsFinalSet(|m.setScores|))
      && (m.startingPlayer.Some? ==> ServiceOnClosedForm(m))
  }

  /** Once there is a winner: it was declared by the last set, which won a
      third set for it, and the log still shows that set. */
  ghost predicate WonMatchAgrees(m: Match) {
    m.winner.Some? ==>
      && |m.setScores| > 0 && m.startingPlayer.Some?
      && |m.setsPointHistory| == |m.setScores|
      && m.history == m.setsPointHistory[|m.setsPointHistory| - 1]
      && P1SetsWon(m.setScores[..|m.setScores| - 1]) < 3
      && P2SetsWon(m.setScores[..|m.setScores| - 1]) < 3
      && m.winner == WinnerOf(m.setScores)
  }

  ghost predicate Inv(m: Match, changeSidesEnabled: bool) {
    && CountersAgree(m)
    && FinishedSetsAgree(m.setScores, m.setsPointHistory, changeSidesEnabled)
    && (m.startingPlayer.None? ==> m == Initial)
    && StarterAgrees(m)
    && LiveSetAgrees(m)
    && WonMatchAgrees(m)
  }

  lemma InvSavedLogsNonEmpty(m: Match, cs: bool)
    requires Inv(m, cs)
    ensures SavedLogsNonEmpty(m)
  {
    forall i | 0 <= i < |m.setsPointHistory|
      ensures |m.setsPointHistory[i]| > 0
    {
      FinishedSetAt(m.setScores, m.setsPointHistory, cs, i);
    }
  }

  /** Every stored score parses to a pair with a winner. */
  lemma StoredScoresDecisive(scores: seq<string>, logs: seq<seq<Side>>, cs: bool)
    requires FinishedSetsAgree(scores, logs, cs)
    ensures forall i :: 0 <= i < |scores| ==> Decisive(scores[i])
  {
    forall i | 0 <= i < |scores|
      ensures Decisive(scores[i])
    {
      FinishedSetAt(scores, logs, cs, i);
      var p := AbsoluteScore(logs[i], IsSwapped(cs, i));
      ScorePairOfFormatScore(p.0, p.1);
    }
  }

  /** The stored score of every finished set reads back as the points each
      player won in it. */
  lemma StoredScoreReadsBack(m: Match, cs: bool, i: nat)
    requires Inv(m, cs) && i < |m.setScores|
    ensures ScorePair(m.setScores[i]) == Some(AbsoluteScore(m.setsPointHistory[i], IsSwapped(cs, i)))
  {
    FinishedSetAt(m.setScores, m.setsPointHistory, cs, i);
    var p := AbsoluteScore(m.setsPointHistory[i], IsSwapped(cs, i));
    ScorePairOfFormatScore(p.0, p.1);
  }

  /** At most five sets are ever stored, one log per stored score. */
  lemma AtMostFiveSets(m: Match, cs: bool)
    requires Inv(m, cs)
    ensures |m.setScores| <= 5 && |m.setScores| == |m.setsPointHistory|
    ensures m.winner.None? ==> |m.setScores| <= 4
  {
    StoredScoresDecisive(m.setScores, m.setsPointHistory, cs);
    assert LiveSetAgrees(m) && WonMatchAgrees(m);
    SetCountBound(m.setScores, m.winner.Some?);
  }

  /** At most four decisive scores can be stored while neither player has
      won three of them, and one more once the last of them decides. */
  lemma SetCountBound(scores: seq<string>, decided: bool)
    requires forall i :: 0 <= i < |scores| ==> Decisive(scores[i])
    requires !decided ==> P1SetsWon(scores) < 3 && P2SetsWon(scores) < 3
    requires decided ==> |scores| > 0 && P1SetsWon(scores[..|scores| - 1]) < 3 && P2SetsWon(scores[..|scores| - 1]) < 3
    ensures |scores| <= 5
    ensures !decided ==> |scores| <= 4
  {
    if decided {
      var prefix := scores[..|scores| - 1];
      assert forall i :: 0 <= i < |prefix| ==> prefix[i] == scores[i];
      SetsWonPartition(prefix);
    } else {
      SetsWonPartition(scores);
    }
  }

  /** The winner is declared exactly when a player has won three sets. */
  lemma WinnerIffThreeSets(m: Match, cs: bool)
    requires Inv(m, cs)
    ensures m.winner == Some(1) <==> P1SetsWon(m.setScores) == 3
    ensures m.winner == Some(2) <==> P2SetsWon(m.setScores) == 3
  {
    if m.winner.Some? {
      var prefix := m.setScores[..|m.setScores| - 1];
      assert m.setScores[..|m.setScores| - 1] == prefix;
    }
  }

  // ---------------------------------------------------------------------
  // Every transition keeps the invariant
  // ---------------------------------------------------------------------

  lemma InitialInv(cs: bool)
    ensures Inv(Initial, cs)
  {
  }

  lemma ChooseFirstServerInv(m: Match, p: Player, cs: bool)
    requires Inv(m, cs)
    ensures Inv(ChooseFirstServer(m, p), cs)
  {
  }

  /** The finished-set facts after one more set is frozen. */
  lemma FreezeAgrees(scores: seq<string>, logs: seq<seq<Side>>, h: seq<Side>, cs: bool)
    requires FinishedSetsAgree(scores, logs, cs)
    requires Completed(h, IsFinalSet(|scores|))
    ensures FinishedSetsAgree(
              scores + [FormatScore(AbsoluteScore(h, IsSwapped(cs, |scores|)).0,
                                    AbsoluteScore(h, IsSwapped(cs, |scores|)).1)],
              logs + [h], cs)
  {
    var x := FormatScore(AbsoluteScore(h, IsSwapped(cs, |scores|)).0, AbsoluteScore(h, IsSwapped(cs, |scores|)).1);
    assert (scores + [x])[..|scores|] == scores;
    assert (logs + [h])[..|logs|] == logs;
  }

  lemma ScoredCounters(m: Match, side: Side)
    requires CountersAgree(m)
    ensures CountersAgree(Scored(m, side))
  {
    CountAppend(m.history, side, Left);
    CountAppend(m.history, side, Right);
  }

  /** A point that does not win the set: logged, counted, service rotated. */
  lemma AddInSetLive(m: Match, side: Side, cs: bool)
    requires CountersAgree(m) && LiveSetAgrees(m) && Accepts(m)
    requires !SetWonBy(m.history + [side], IsFinalSet(|m.setScores|))
    ensures LiveSetAgrees(AddPoint(m, side, cs))
  {
    ScoredCounters(m, side);
    InPlayExtend(m.history, side, IsFinalSet(|m.setScores|));
    RotateAfterPointClosedForm(m.setStartingPlayer.value, |m.history|, IsFinalSet(|m.setScores|));
  }

  lemma AddInSetInv(m: Match, side: Side, cs: bool)
    requires Inv(m, cs) && Accepts(m)
    requires !SetWonBy(m.history + [side], IsFinalSet(|m.setScores|))
    ensures Inv(AddPoint(m, side, cs), cs)
  {
    ScoredCounters(m, side);
    AddInSetLive(m, side, cs);
  }

  /** The facts about a set that the point just won. */
  lemma WinningPointCompletes(m: Match, side: Side, cs: bool)
    requires CountersAgree(m) && LiveSetAgrees(m) && Accepts(m)
    requires SetWonBy(m.history + [side], IsFinalSet(|m.setScores|))
    ensures var s := Scored(m, side);
            && CountersAgree(s)
            && SetWon(s.left, s.right, IsFinalSet(|m.setScores|))
            && Completed(s.history, IsFinalSet(|m.setScores|))
            && AbsoluteScore(s.history, IsSwapped(cs, |m.setScores|))
               == (if IsSwapped(cs, |m.setScores|) then s.right else s.left,
                   if IsSwapped(cs, |m.setScores|) then s.left else s.right)
  {
    ScoredCounters(m, side);
    InPlayExtend(m.history, side, IsFinalSet(|m.setScores|));
  }

  /** The state after a point that wins the set and the match. */
  lemma AddWinsMatchShape(m: Match, side: Side, cs: bool)
    requires CountersAgree(m) && LiveSetAgrees(m) && Accepts(m) && |m.setScores| < 5
    requires SetWonBy(m.history + [side], IsFinalSet(|m.setScores|))
    requires var p := AbsoluteScore(m.history + [side], IsSwapped(cs, |m.setScores|));
             WinnerOf(m.setScores + [FormatScore(p.0, p.1)]).Some?
    ensures var p := AbsoluteScore(m.history + [side], IsSwapped(cs, |m.setScores|));
            var scores := m.setScores + [FormatScore(p.0, p.1)];
            AddPoint(m, side, cs)
              == Scored(m, side).(setScores := scores,
                                  setsPointHistory := m.setsPointHistory + [m.history + [side]],
                                  winner := WinnerOf(scores))
  {
    WinningPointCompletes(m, side, cs);
  }

  /** Once the match is won, the starter stays that of the deciding set
      and the winner is the one the stored scores give. */
  lemma AddWinsMatchParts(m: Match, side: Side, cs: bool)
    requires LiveSetAgrees(m) && StarterAgrees(m) && Accepts(m) && |m.setScores| < 5
    requires |m.setScores| == |m.setsPointHistory|
    requires var p := AbsoluteScore(m.history + [side], IsSwapped(cs, |m.setScores|));
             WinnerOf(m.setScores + [FormatScore(p.0, p.1)]).Some?
    ensures var p := AbsoluteScore(m.history + [side], IsSwapped(cs, |m.setScores|));
            var scores := m.setScores + [FormatScore(p.0, p.1)];
            var won := Scored(m, side).(setScores := scores,
                                        setsPointHistory := m.setsPointHistory + [m.history + [side]],
                                        winner := WinnerOf(scores));
            StarterAgrees(won) && LiveSetAgrees(won) && WonMatchAgrees(won)
  {
    var n := |m.setScores|;
    var p := AbsoluteScore(m.history + [side], IsSwapped(cs, n));
    var scores := m.setScores + [FormatScore(p.0, p.1)];
    assert scores[..n] == m.setScores;
  }

  /** A point that wins the set and the match. */
  lemma AddWinsMatchInv(m: Match, side: Side, cs: bool)
    requires Inv(m, cs) && Accepts(m) && |m.setScores| < 5
    requires SetWonBy(m.history + [side], IsFinalSet(|m.setScores|))
    requires var p := AbsoluteScore(m.history + [side], IsSwapped(cs, |m.setScores|));
             WinnerOf(m.setScores + [FormatScore(p.0, p.1)]).Some?
    ensures Inv(AddPoint(m, side, cs), cs)
  {
    WinningPointCompletes(m, side, cs);
    FreezeAgrees(m.setScores, m.setsPointHistory, m.history + [side], cs);
    AddWinsMatchShape(m, side, cs);
    AddWinsMatchParts(m, side, cs);
  }

  /** Freezing a set that does not decide the match leaves both players
      short of three sets. */
  lemma NoWinnerYet(scores: seq<string>, p1: nat, p2: nat)
    requires P1SetsWon(scores) < 3 && P2SetsWon(scores) < 3
    requires WinnerOf(scores + [FormatScore(p1, p2)]).None?
    ensures P1SetsWon(scores + [FormatScore(p1, p2)]) < 3 && P2SetsWon(scores + [FormatScore(p1, p2)]) < 3
  {
    SetsWonAfterAppend(scores, p1, p2);
  }

  /** A point that wins a set but not the match: the next set starts with
      the other starter serving. */
  lemma AddWinsSetLive(m: Match, side: Side, cs: bool)
    requires LiveSetAgrees(m) && StarterAgrees(m) && Accepts(m) && |m.setScores| < 5
    requires var p := AbsoluteScore(m.history + [side], IsSwapped(cs, |m.setScores|));
             WinnerOf(m.setScores + [FormatScore(p.0, p.1)]).None?
    ensures var p := AbsoluteScore(m.history + [side], IsSwapped(cs, |m.setScores|));
            var frozen := Scored(m, side).(setScores := m.setScores + [FormatScore(p.0, p.1)],
                                           setsPointHistory := m.setsPointHistory + [m.history + [side]]);
            LiveSetAgrees(NextSet(frozen)) && StarterAgrees(NextSet(frozen)) && CountersAgree(NextSet(frozen))
  {
    var n := |m.setScores|;
    var p := AbsoluteScore(m.history + [side], IsSwapped(cs, n));
    var frozen := Scored(m, side).(setScores := m.setScores + [FormatScore(p.0, p.1)],
                                   setsPointHistory := m.setsPointHistory + [m.history + [side]]);
    NoWinnerYet(m.setScores, p.0, p.1);
    NextSetAgrees(frozen, m.startingPlayer.value);
  }

  /** The next set begins from a frozen set that did not decide the match:
      the counters and log are empty and the new starter serves first. */
  lemma NextSetAgrees(frozen: Match, first: Player)
    requires frozen.winner.None? && frozen.startingPlayer == Some(first) && |frozen.setScores| > 0
    requires frozen.setStartingPlayer == Some(SetStarter(first, |frozen.setScores| - 1))
    requires P1SetsWon(frozen.setScores) < 3 && P2SetsWon(frozen.setScores) < 3
    ensures LiveSetAgrees(NextSet(frozen)) && StarterAgrees(NextSet(frozen)) && CountersAgree(NextSet(frozen))
  {
    SetStarterNext(first, |frozen.setScores| - 1);
    var empty: seq<Side> := [];
    assert InPlay(empty, IsFinalSet(|frozen.setScores|));
  }

  lemma AddWinsSetInv(m: Match, side: Side, cs: bool)
    requires Inv(m, cs) && Accepts(m) && |m.setScores| < 5
    requires SetWonBy(m.history + [side], IsFinalSet(|m.setScores|))
    requires var p := AbsoluteScore(m.history + [side], IsSwapped(cs, |m.setScores|));
             WinnerOf(m.setScores + [FormatScore(p.0, p.1)]).None?
    ensures Inv(AddPoint(m, side, cs), cs)
  {
    WinningPointCompletes(m, side, cs);
    FreezeAgrees(m.setScores, m.setsPointHistory, m.history + [side], cs);
    AddWinsSetLive(m, side, cs);
  }

  lemma AddPointInv(m: Match, side: Side, cs: bool)
    requires Inv(m, cs) && Accepts(m)
    ensures Inv(AddPoint(m, side, cs), cs)
  {
    var n := |m.setScores|;
    AtMostFiveSets(m, cs);
    var h := m.history + [side];
    if !SetWonBy(h, IsFinalSet(n)) {
      AddInSetInv(m, side, cs);
    } else {
      var p := AbsoluteScore(h, IsSwapped(cs, n));
      if WinnerOf(m.setScores + [FormatScore(p.0, p.1)]).Some? {
        AddWinsMatchInv(m, side, cs);
      } else {
        AddWinsSetInv(m, side, cs);
      }
    }
  }

  lemma FinishedSetsAgreePrefix(scores: seq<string>, logs: seq<seq<Side>>, cs: bool)
    requires FinishedSetsAgree(scores, logs, cs) && |logs| > 0
    ensures FinishedSetsAgree(scores[..|scores| - 1], logs[..|logs| - 1], cs)
  {
  }

  lemma TakeBackCounters(m: Match)
    requires CountersAgree(m) && |m.history| > 0
    ensures CountersAgree(TakeBack(m))
    ensures TakeBack(m).history == m.history[..|m.history| - 1]
  {
    var h := m.history[..|m.history| - 1];
    var last := m.history[|m.history| - 1];
    assert m.history == h + [last];
    CountAppend(h, last, Left);
    CountAppend(h, last, Right);
  }

  lemma TakeBackLive(m: Match)
    requires LiveSetAgrees(m) && Accepts(m) && |m.history| > 0
    ensures LiveSetAgrees(TakeBack(m))
  {
    var isFinal := IsFinalSet(|m.setScores|);
    InPlayPrefix(m.history, |m.history| - 1, isFinal);
    RotateBackClosedForm(m.setStartingPlayer.value, |m.history|, isFinal);
  }

  /** Undo of a point of the set in play. */
  lemma UndoInSetInv(m: Match, cs: bool)
    requires Inv(m, cs) && Accepts(m) && |m.history| > 0
    ensures SavedLogsNonEmpty(m)
    ensures Inv(UndoPoint(m), cs)
  {
    InvSavedLogsNonEmpty(m, cs);
    TakeBackCounters(m);
    TakeBackLive(m);
  }

  lemma ReopenCounters(m: Match)
    requires |m.setsPointHistory| > 0 && SavedLogsNonEmpty(m)
    ensures var restored := m.setsPointHistory[|m.setsPointHistory| - 1];
            && Reopen(m).history == restored[..|restored| - 1]
            && CountersAgree(Reopen(m))
            && Reopen(m).left + Reopen(m).right == |Reopen(m).history|
  {
    var restored := m.setsPointHistory[|m.setsPointHistory| - 1];
    var h := restored[..|restored| - 1];
    var last := restored[|restored| - 1];
    assert restored == h + [last];
    CountAppend(h, last, Left);
    CountAppend(h, last, Right);
    CountsCoverLog(h);
  }

  lemma ReopenStarter(m: Match)
    requires StarterAgrees(m) && Accepts(m) && |m.setsPointHistory| > 0 && SavedLogsNonEmpty(m)
    ensures StarterAgrees(Reopen(m))
    ensures Reopen(m).setStartingPlayer == Some(Other(m.setStartingPlayer.value))
  {
    SetStarterNext(m.startingPlayer.value, |m.setScores| - 1);
  }

  /** The last saved log is a completed set. */
  lemma LastSetCompleted(scores: seq<string>, logs: seq<seq<Side>>, cs: bool)
    requires FinishedSetsAgree(scores, logs, cs) && |logs| > 0
    ensures Completed(logs[|logs| - 1], IsFinalSet(|logs| - 1))
  {
  }

  lemma ReopenLive(m: Match)
    requires LiveSetAgrees(m) && Accepts(m) && StarterAgrees(m)
    requires |m.setsPointHistory| > 0 && SavedLogsNonEmpty(m)
    requires Completed(m.setsPointHistory[|m.setsPointHistory| - 1], IsFinalSet(|m.setsPointHistory| - 1))
    ensures LiveSetAgrees(Reopen(m))
    ensures InPlay(Reopen(m).history, IsFinalSet(|Reopen(m).setScores|))
  {
    ReopenCounters(m);
    ReopenStarter(m);
    SetsWonPrefix(m.setScores);
  }

  /** Undo with an empty log, reopening the previous set. */
  lemma UndoAcrossSetInv(m: Match, cs: bool)
    requires Inv(m, cs) && Accepts(m) && |m.history| == 0 && |m.setsPointHistory| > 0
    ensures SavedLogsNonEmpty(m)
    ensures Inv(UndoPoint(m), cs)
  {
    InvSavedLogsNonEmpty(m, cs);
    ReopenCounters(m);
    ReopenStarter(m);
    LastSetCompleted(m.setScores, m.setsPointHistory, cs);
    ReopenLive(m);
    FinishedSetsAgreePrefix(m.setScores, m.setsPointHistory, cs);
  }

  lemma UndoPointInv(m: Match, cs: bool)
    requires Inv(m, cs) && Accepts(m)
    ensures SavedLogsNonEmpty(m)
    ensures Inv(UndoPoint(m), cs)
  {
    InvSavedLogsNonEmpty(m, cs);
    if |m.history| > 0 {
      UndoInSetInv(m, cs);
    } else if |m.setsPointHistory| > 0 {
      UndoAcrossSetInv(m, cs);
    }
  }

  lemma HandleKeyInv(m: Match, cmd: Command, cs: bool)
    requires Inv(m, cs)
    ensures SavedLogsNonEmpty(m)
    ensures Inv(HandleKey(m, cmd, cs), cs)
  {
    InvSavedLogsNonEmpty(m, cs);
    if Accepts(m) {
      match cmd
      case AddLeft => AddPointInv(m, Left, cs);
      case AddRight => AddPointInv(m, Right, cs);
      case Undo => UndoPointInv(m, cs);
    }
  }

  // ---------------------------------------------------------------------
  // Undo
  // ---------------------------------------------------------------------

  /** Stepping the rotation back undoes stepping it forward, for any serve
      number the closed form can produce. */
  lemma RotateRoundTrip(servicePlayer: Player, serviceCount: int, isFinal: bool)
    requires isFinal || serviceCount == 1 || serviceCount == 2
    ensures var next := RotateAfterPoint(servicePlayer, serviceCount, isFinal);
            RotateBack(next.0, next.1, isFinal) == (servicePlayer, serviceCount)
  {
  }

  /** Undo after a point that stays inside the set. */
  lemma UndoAfterInSetPoint(m: Match, side: Side, cs: bool)
    requires Inv(m, cs) && Accepts(m)
    requires !SetWonBy(m.history + [side], IsFinalSet(|m.setScores|))
    ensures SavedLogsNonEmpty(AddPoint(m, side, cs))
    ensures UndoPoint(AddPoint(m, side, cs)) == m
  {
    InvSavedLogsNonEmpty(m, cs);
    ScoredCounters(m, side);
    var a := AddPoint(m, side, cs);
    assert a.history[..|m.history|] == m.history;
    RotateRoundTrip(m.servicePlayer, m.serviceCount, IsFinalSet(|m.setScores|));
    assert UndoPoint(a) == TakeBack(a);
  }

  /** Reopening a set that was just frozen, whatever score text was
      stored for it, gives back the state before its winning point. */
  lemma ReopenAfterNextSet(m: Match, side: Side, score: string)
    requires CountersAgree(m) && Accepts(m) && StarterAgrees(m) && LiveSetAgrees(m)
    requires SavedLogsNonEmpty(m)
    ensures var frozen := Scored(m, side).(setScores := m.setScores + [score],
                                           setsPointHistory := m.setsPointHistory + [m.history + [side]]);
            && SavedLogsNonEmpty(NextSet(frozen))
            && |NextSet(frozen).setsPointHistory| > 0
            && Reopen(NextSet(frozen)) == m
  {
    var n := |m.setScores|;
    var h := m.history + [side];
    var frozen := Scored(m, side).(setScores := m.setScores + [score],
                                   setsPointHistory := m.setsPointHistory + [h]);
    var a := NextSet(frozen);
    assert a.setsPointHistory[..n] == m.setsPointHistory;
    assert a.setScores[..n] == m.setScores;
    assert h[..|m.history|] == m.history;
    CountAppend(m.history, side, Left);
    CountAppend(m.history, side, Right);
    CountsCoverLog(m.history);
  }

  /** Undo after a point that ends a set but not the match. */
  lemma UndoAfterSetPoint(m: Match, side: Side, cs: bool)
    requires Inv(m, cs) && Accepts(m) && |m.setScores| < 5
    requires SetWonBy(m.history + [side], IsFinalSet(|m.setScores|))
    requires var p := AbsoluteScore(m.history + [side], IsSwapped(cs, |m.setScores|));
             WinnerOf(m.setScores + [FormatScore(p.0, p.1)]).None?
    ensures SavedLogsNonEmpty(AddPoint(m, side, cs))
    ensures UndoPoint(AddPoint(m, side, cs)) == m
  {
    InvSavedLogsNonEmpty(m, cs);
    WinningPointCompletes(m, side, cs);
    var p := AbsoluteScore(m.history + [side], IsSwapped(cs, |m.setScores|));
    ReopenAfterNextSet(m, side, FormatScore(p.0, p.1));
  }

  /** Undo takes back a point: after any point that does not end the match,
      undo restores the state exactly, whether the point stayed inside the
      set or finished it (then the set is reopened from its log). */
  lemma UndoAfterAdd(m: Match, side: Side, cs: bool)
    requires Inv(m, cs) && Accepts(m)
    requires AddPoint(m, side, cs).winner.None?
    ensures SavedLogsNonEmpty(AddPoint(m, side, cs))
    ensures UndoPoint(AddPoint(m, side, cs)) == m
  {
    AtMostFiveSets(m, cs);
    if SetWonBy(m.history + [side], IsFinalSet(|m.setScores|)) {
      WinningPointCompletes(m, side, cs);
      UndoAfterSetPoint(m, side, cs);
    } else {
      UndoAfterInSetPoint(m, side, cs);
    }
  }

  /** Undo at the very start of the match changes nothing. */
  lemma UndoAtStart(m: Match)
    requires SavedLogsNonEmpty(m)
    requires |m.history| == 0 && |m.setsPointHistory| == 0
    ensures UndoPoint(m) == m
  {
  }

  /** Undo with an empty log reopens the previous set: it drops the last
      stored score and log, restores that log without its winning point with
      counters to match, gives the set back to its starter, and leaves the
      reopened set in play rather than won again. */
  lemma CrossSetUndo(m: Match, cs: bool)
    requires Inv(m, cs) && Accepts(m)
    requires |m.history| == 0 && |m.setsPointHistory| > 0
    ensures SavedLogsNonEmpty(m)
    ensures var r := UndoPoint(m);
      && var n := |m.setsPointHistory|;
      && r.setScores == m.setScores[..n - 1]
      && r.setsPointHistory == m.setsPointHistory[..n - 1]
      && r.history == m.setsPointHistory[n - 1][..|m.setsPointHistory[n - 1]| - 1]
      && r.left == Count(r.history, Left) && r.right == Count(r.history, Right)
      && r.setStartingPlayer == Some(Other(m.setStartingPlayer.value))
      && r.setStartingPlayer == Some(SetStarter(m.startingPlayer.value, n - 1))
      && InPlay(r.history, IsFinalSet(n - 1))
      && r.winner.None?
  {
    UndoPointInv(m, cs);
  }

  // ---------------------------------------------------------------------
  // Service
  // ---------------------------------------------------------------------

  /** While the match is live, the server and the serve number are always
      the closed form of the set's starter and the points played in it;
      the set's starter alternates set by set from the chosen first server. */
  lemma ServiceFollowsClosedForm(m: Match, cs: bool)
    requires Inv(m, cs) && Accepts(m)
    ensures m.setStartingPlayer == Some(SetStarter(m.startingPlayer.value, |m.setScores|))
    ensures m.servicePlayer == ServerFor(SetStarter(m.startingPlayer.value, |m.setScores|),
                                         m.left + m.right, IsFinalSet(|m.setScores|))
    ensures m.serviceCount == ServiceCountFor(m.left + m.right, IsFinalSet(|m.setScores|))
  {
    CountsCoverLog(m.history);
  }

  /** Adding a point ends the set exactly when the new counters win it. */
  lemma AddPointEndsSetIffWon(m: Match, side: Side, cs: bool)
    requires Inv(m, cs) && Accepts(m)
    ensures var left := if side == Left then m.left + 1 else m.left;
            var right := if side == Right then m.right + 1 else m.right;
            (|AddPoint(m, side, cs).setScores| == |m.setScores| + 1)
              == SetWon(left, right, IsFinalSet(|m.setScores|))
  {
    AtMostFiveSets(m, cs);
    StoresScoreIffWon(m, side, cs);
  }

  /** With room for another score, a point stores one exactly when it wins
      the set, and otherwise leaves the stored scores alone. */
  lemma StoresScoreIffWon(m: Match, side: Side, cs: bool)
    requires |m.setScores| < 5
    ensures var s := Scored(m, side);
            var r := AddPoint(m, side, cs);
            && (SetWon(s.left, s.right, IsFinalSet(|m.setScores|)) ==> |r.setScores| == |m.setScores| + 1)
            && (!SetWon(s.left, s.right, IsFinalSet(|m.setScores|)) ==> r.setScores == m.setScores)
  {
    var s := Scored(m, side);
    var swapped := IsSwapped(cs, |m.setScores|);
    if SetWon(s.left, s.right, IsFinalSet(|m.setScores|)) {
      assert AddPoint(m, side, cs) == CloseSet(s, swapped);
    }
  }
}
