/** The scoring state of the scoreboard screen (`DetailsScreen` in
    MainActivity.kt, lines 251-262) as an object whose fields the key
    handler (lines 323-370) and the first-server buttons (lines 314-315)
    update in place. Every method is proved to agree with the functions of
    module MatchRules, so the invariant and the lemmas proved there hold of
    this object after any sequence of calls. */
module Scoreboard {
  import opened Optional
  import opened ScoreText
  import opened MatchRules

  /** `history.count { it == side }` (line 339) */
  method CountSide(h: seq<Side>, side: Side) returns (n: nat)
    ensures n == Count(h, side)
  {
    n := 0;
    var i := 0;
    while i < |h|
      invariant 0 <= i <= |h|
      invariant n == Count(h[..i], side)
    {
      assert h[..i + 1][..i] == h[..i];
      if h[i] == side {
        n := n + 1;
      }
      i := i + 1;
    }
    assert h[..|h|] == h;
  }

  /** The two `setScores.count { ... }` of lines 361-362. */
  method CountSetsWon(scores: seq<string>) returns (p1: nat, p2: nat)
    ensures p1 == P1SetsWon(scores) && p2 == P2SetsWon(scores)
  {
    p1, p2 := 0, 0;
    var i := 0;
    while i < |scores|
      invariant 0 <= i <= |scores|
      invariant p1 == P1SetsWon(scores[..i]) && p2 == P2SetsWon(scores[..i])
    {
      assert scores[..i + 1][..i] == scores[..i];
      var parts := ScorePair(scores[i]);
      if parts.Some? && parts.value.0 > parts.value.1 {
        p1 := p1 + 1;
      }
      if parts.Some? && parts.value.1 > parts.value.0 {
        p2 := p2 + 1;
      }
      i := i + 1;
    }
    assert scores[..|scores|] == scores;
  }

  class Scoreboard {
    /** Whether the players change ends after each set (a screen parameter). */
    const changeSidesEnabled: bool

    var leftCounter: int
    var rightCounter: int
    var history: seq<Side>
    var setsPointHistory: seq<seq<Side>>
    var setScores: seq<string>
    var startingPlayer: Option<Player>
    var setStartingPlayer: Option<Player>
    var servicePlayer: Player
    var serviceCount: int
    var winner: Option<Player>

    /** The object's state as a value of MatchRules. */
    function State(): Match
      reads this
    {
      Match(leftCounter, rightCounter, history, setsPointHistory, setScores,
            startingPlayer, setStartingPlayer, servicePlayer, serviceCount, winner)
    }

    ghost predicate Valid()
      reads this
    {
      Inv(State(), changeSidesEnabled)
    }

    /** The screen opens with no first server, no points and no sets. */
    constructor (changeSidesEnabled: bool)
      ensures this.changeSidesEnabled == changeSidesEnabled
      ensures State() == Initial
      ensures Valid()
    {
      this.changeSidesEnabled := changeSidesEnabled;
      leftCounter, rightCounter := 0, 0;
      history, setsPointHistory, setScores := [], [], [];
      startingPlayer, setStartingPlayer := None, None;
      servicePlayer, serviceCount := 1, 1;
      winner := None;
      InitialInv(changeSidesEnabled);
    }

    /** Lines 314-315: a first-server button. The buttons are shown only
        while there is no winner and no first server (lines 278, 309). */
    method ChooseFirstServer(p: Player) returns (shown: bool)
      requires Valid()
      modifies this
      ensures Valid()
      ensures shown == (old(winner).None? && old(startingPlayer).None?)
      ensures State() == MatchRules.ChooseFirstServer(old(State()), p)
      ensures shown ==> startingPlayer == setStartingPlayer == Some(p) && servicePlayer == p && serviceCount == 1
    {
      ChooseFirstServerInv(State(), p, changeSidesEnabled);
      shown := winner.None? && startingPlayer.None?;
      if shown {
        startingPlayer := Some(p);
        setStartingPlayer := Some(p);
        servicePlayer := p;
        serviceCount := 1;
      }
    }

    /** Lines 326-327 and 354-368: a point for one side while the scoreboard
        is shown; the invariant is kept. */
    method Score(side: Side)
      requires Valid() && Accepts(State())
      modifies this
      ensures Valid()
      ensures State() == AddPoint(old(State()), side, changeSidesEnabled)
    {
      AddPointInv(State(), side, changeSidesEnabled);
      RecordPoint(side);
    }

    /** The in-place steps of a point: the counter, the log, then the set-won
        check. */
    method RecordPoint(side: Side)
      modifies this
      ensures State() == AddPoint(old(State()), side, changeSidesEnabled)
    {
      ghost var before := State();
      var isFinalSet := IsFinalSet(|setScores|);
      var isSwapped := IsSwapped(changeSidesEnabled, |setScores|);
      if side == Left {
        leftCounter := leftCounter + 1;
      } else {
        rightCounter := rightCounter + 1;
      }
      history := history + [side];
      var winPoints := WinPoints(isFinalSet);
      var setWon := (leftCounter >= winPoints && leftCounter >= rightCounter + 2)
                 || (rightCounter >= winPoints && rightCounter >= leftCounter + 2);
      ghost var scored := State();
      assert scored == Scored(before, side);
      assert setWon == SetWon(scored.left, scored.right, isFinalSet);
      if setWon && |setScores| < 5 {
        FinishSet(isSwapped);
      } else if !setWon {
        AdvanceService(isFinalSet);
      }
    }

    /** Lines 357-364: the score is frozen and the log saved; then the
        match is decided or the next set begins. */
    method FinishSet(isSwapped: bool)
      modifies this
      ensures State() == CloseSet(old(State()), isSwapped)
    {
      var p1Score := if isSwapped then rightCounter else leftCounter;
      var p2Score := if isSwapped then leftCounter else rightCounter;
      setScores := setScores + [FormatScore(p1Score, p2Score)];
      setsPointHistory := setsPointHistory + [history];
      DecideOrStartNextSet();
    }

    /** Lines 360-364: with three sets won a player is the winner; otherwise
        the next set starts. */
    method DecideOrStartNextSet()
      modifies this
      ensures var w := WinnerOf(old(setScores));
              State() == if w.Some? then old(State()).(winner := w) else NextSet(old(State()))
    {
      var currentP1Sets, currentP2Sets := CountSetsWon(setScores);
      if currentP1Sets == 3 {
        winner := Some(1);
      } else if currentP2Sets == 3 {
        winner := Some(2);
      } else {
        leftCounter, rightCounter := 0, 0;
        history := [];
        setStartingPlayer := Some(Flipped(setStartingPlayer));
        servicePlayer := setStartingPlayer.value;
        serviceCount := 1;
      }
    }

    /** Lines 365-367: the service moves on after a point that did not end
        the set. */
    method AdvanceService(isFinalSet: bool)
      modifies this
      ensures var service := RotateAfterPoint(old(servicePlayer), old(serviceCount), isFinalSet);
              State() == old(State()).(servicePlayer := service.0, serviceCount := service.1)
    {
      if isFinalSet {
        servicePlayer := Other(servicePlayer);
      } else if serviceCount == 2 {
        serviceCount := 1;
        servicePlayer := Other(servicePlayer);
      } else {
        serviceCount := serviceCount + 1;
      }
    }

    /** Lines 328-349: the undo key while the scoreboard is shown; the
        invariant is kept. */
    method Undo()
      requires Valid() && Accepts(State())
      modifies this
      ensures SavedLogsNonEmpty(old(State()))
      ensures Valid()
      ensures State() == UndoPoint(old(State()))
    {
      UndoPointInv(State(), changeSidesEnabled);
      RevertLastPoint();
    }

    /** The in-place steps of an undo: a point of the set in play is taken
        back, or else the previous set is reopened. */
    method RevertLastPoint()
      requires SavedLogsNonEmpty(State())
      modifies this
      ensures State() == UndoPoint(old(State()))
    {
      if |history| > 0 {
        TakeBackPoint();
      } else if |setsPointHistory| > 0 {
        ReopenPreviousSet();
      }
    }

    /** Lines 329-334: the last point of the set in play is taken back. */
    method TakeBackPoint()
      requires |history| > 0
      modifies this
      ensures State() == TakeBack(old(State()))
    {
      var isFinalSet := IsFinalSet(|setScores|);
      var lastPointFor := history[|history| - 1];
      history := history[..|history| - 1];
      if lastPointFor == Left {
        leftCounter := leftCounter - 1;
      } else {
        rightCounter := rightCounter - 1;
      }
      if isFinalSet {
        servicePlayer := Other(servicePlayer);
      } else {
        serviceCount := serviceCount - 1;
        if serviceCount == 0 {
          servicePlayer := Other(servicePlayer);
          serviceCount := 2;
        }
      }
    }

    /** Lines 335-347: the previous set is reopened from its saved log. */
    method ReopenPreviousSet()
      requires |setsPointHistory| > 0 && SavedLogsNonEmpty(State())
      modifies this
      ensures State() == Reopen(old(State()))
    {
      RestoreLastSet();
      setStartingPlayer := Some(Flipped(setStartingPlayer));
      RecomputeService();
    }

    /** Lines 336-341: the saved log of the previous set becomes the log in
        play without its winning point, its stored score is dropped, and
        the counters are recounted from the log. */
    method RestoreLastSet()
      requires |setsPointHistory| > 0 && SavedLogsNonEmpty(State())
      modifies this
      ensures var restored := old(setsPointHistory[|setsPointHistory| - 1]);
              var last := restored[|restored| - 1];
              State() == old(State()).(setsPointHistory := old(setsPointHistory[..|setsPointHistory| - 1]),
                                       setScores := old(setScores[..|setScores| - 1]),
                                       history := restored[..|restored| - 1],
                                       left := if last == Left then Count(restored, Left) - 1 else Count(restored, Left),
                                       right := if last == Right then Count(restored, Right) - 1 else Count(restored, Right))
    {
      var lastSetHistory := setsPointHistory[|setsPointHistory| - 1];
      setsPointHistory := setsPointHistory[..|setsPointHistory| - 1];
      setScores := setScores[..|setScores| - 1];
      history := lastSetHistory;
      var prevLeftCounter := CountSide(history, Left);
      var prevRightCounter := CountSide(history, Right);
      var lastPointFor := history[|history| - 1];
      history := history[..|history| - 1];
      leftCounter := if lastPointFor == Left then prevLeftCounter - 1 else prevLeftCounter;
      rightCounter := if lastPointFor == Right then prevRightCounter - 1 else prevRightCounter;
    }

    /** Lines 342-347: the server of the reopened set, recomputed from its
        starter and the number of points played. */
    method RecomputeService()
      requires setStartingPlayer.Some? && leftCounter + rightCounter >= 0
      modifies this
      ensures var total: nat := old(leftCounter + rightCounter);
              var isFinal := IsFinalSet(|old(setScores)|);
              State() == old(State()).(servicePlayer := ServerFor(old(setStartingPlayer).value, total, isFinal),
                                       serviceCount := ServiceCountFor(total, isFinal))
    {
      var isNowFinalSet := |setScores| == 4;
      var totalPoints: nat := leftCounter + rightCounter;
      if isNowFinalSet {
        servicePlayer := if totalPoints % 2 == 0 then setStartingPlayer.value else Other(setStartingPlayer.value);
        serviceCount := 1;
      } else {
        var servicePairIndex := totalPoints / 2;
        servicePlayer := if servicePairIndex % 2 == 0 then setStartingPlayer.value else Other(setStartingPlayer.value);
        serviceCount := totalPoints % 2 + 1;
      }
    }

    /** The key handler: the scoreboard takes a key only while it is shown
        (no winner, first server chosen); otherwise nothing changes. */
    method OnKey(cmd: Command) returns (handled: bool)
      requires Valid()
      modifies this
      ensures SavedLogsNonEmpty(old(State()))
      ensures Valid()
      ensures handled == Accepts(old(State()))
      ensures State() == HandleKey(old(State()), cmd, changeSidesEnabled)
    {
      ghost var before := State();
      InvSavedLogsNonEmpty(before, changeSidesEnabled);
      HandleKeyInv(before, cmd, changeSidesEnabled);
      handled := winner.None? && startingPlayer.Some?;
      if !handled {
        return;
      }
      match cmd
      case AddLeft => Score(Left);
      case AddRight => Score(Right);
      case Undo => Undo();
    }
  }
}
