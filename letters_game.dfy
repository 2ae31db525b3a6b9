/** The letters quiz: the player is shown a letter and must press the
    matching key on an on-screen keyboard.

    Each event handler of the page reads the state of the render it was
    created in and then issues setter calls. `startGame` and the delayed
    callback a correct answer schedules therefore read `playedLetters` and
    `score` as they were BEFORE the handler's own setters ran: the functions
    below take those captured values as separate parameters. A scheduled
    callback is a `Timer` value holding what it captured; the pending ones
    may fire in any order (`FireTimer` names the one that fires). Random
    choice is the parameter `pick`: `getRandomItem` returns element
    `pick % |available|`. */
module LettersGame {
  import opened Common
  import opened Schema

  datatype GameState = Loading | Start | Playing | Correct | Incorrect | Completed

  /** The body of the `saveProgress` request: game 1, the score, and the
      `lettersCompleted`/`totalLetters` pair that is serialized into
      `completedLevels`. */
  datatype ProgressReport = ProgressReport(gameId: int, score: int, lettersCompleted: seq<int>, totalLetters: int)

  /** A scheduled callback: after a correct answer (with the played list,
      score and letter it captured), or after a wrong one. */
  datatype Timer = NextLetter(played: seq<int>, score: int, current: ArabicLetter) | BackToPlaying

  /** The page's state variables, the callbacks still pending and the
      progress reports sent so far. */
  datatype Screen = Screen(
    gameState: GameState,
    currentLetter: Option<ArabicLetter>,
    score: int,
    playedLetters: seq<int>,
    pending: seq<Timer>,
    saved: seq<ProgressReport>)

  const LettersGameId: int := 1
  const CorrectPoints: int := 10
  const WrongPenalty: int := 2

  /** The letters whose id has not been played yet, in list order. */
  function Available(letters: seq<ArabicLetter>, played: seq<int>): (r: seq<ArabicLetter>)
    ensures forall l :: l in r <==> l in letters && l.id !in played
    ensures IsSublist(r, letters)
  {
    var unplayed := (l: ArabicLetter) => l.id !in played;
    FilterIsSublist(letters, unplayed);
    Filter(letters, unplayed)
  }

  /** `saveProgress(...)` is sent only for a signed-in player. */
  function Report(saved: seq<ProgressReport>, isAuthenticated: bool, score: int, played: seq<int>, total: int): (r: seq<ProgressReport>)
    ensures isAuthenticated ==> r == saved + [ProgressReport(LettersGameId, score, played, total)]
    ensures !isAuthenticated ==> r == saved
  {
    if isAuthenticated then saved + [ProgressReport(LettersGameId, score, played, total)] else saved
  }

  /** `selectRandomLetter`, reading `played` and `score` as captured: with
      no letter left the game is COMPLETED and progress is reported;
      otherwise a letter not yet played becomes the current one. Nothing
      else changes. */
  function Select(letters: seq<ArabicLetter>, isAuthenticated: bool, played: seq<int>, score: int,
                  s: Screen, pick: nat): (r: Screen)
    ensures Available(letters, played) == [] ==>
              r == s.(gameState := Completed, saved := Report(s.saved, isAuthenticated, score, played, |letters|))
    ensures Available(letters, played) != [] ==>
              r.currentLetter.Some? && r.currentLetter.value in letters && r.currentLetter.value.id !in played &&
              r == s.(currentLetter := r.currentLetter)
  {
    var available := Available(letters, played);
    if available == [] then
      s.(gameState := Completed, saved := Report(s.saved, isAuthenticated, score, played, |letters|))
    else
      s.(currentLetter := Some(available[pick % |available|]))
  }

  /** `startGame`: nothing without letters. Otherwise the score and the
      played list are reset and the game is PLAYING, but `selectRandomLetter`
      still reads the played list and score from before the reset. When that
      list leaves a letter, one of those letters becomes current. When it
      holds every letter (a restart after COMPLETED), the previous round is
      reported again and its last letter stays current. */
  function StartStep(letters: seq<ArabicLetter>, isAuthenticated: bool, s: Screen, pick: nat): (r: Screen)
    ensures letters == [] ==> r == s
    ensures letters != [] ==> r.gameState == Playing && r.score == 0 && r.playedLetters == [] && r.pending == s.pending
    ensures letters != [] && Available(letters, s.playedLetters) != [] ==>
              r.currentLetter.Some? && r.currentLetter.value in letters &&
              r.currentLetter.value.id !in s.playedLetters && r.saved == s.saved
    ensures letters != [] && Available(letters, s.playedLetters) == [] ==>
              r.currentLetter == s.currentLetter &&
              r.saved == Report(s.saved, isAuthenticated, s.score, s.playedLetters, |letters|)
  {
    if letters == [] then s
    else Select(letters, isAuthenticated, s.playedLetters, s.score, s.(score := 0, playedLetters := []), pick).(gameState := Playing)
  }

  /** `startGame` as evidently intended: the draw reads the reset (empty)
      played list, so any letter can come up and nothing is reported. */
  function StartStepIntended(letters: seq<ArabicLetter>, isAuthenticated: bool, s: Screen, pick: nat): (r: Screen)
    ensures letters == [] ==> r == s
    ensures letters != [] ==>
              r.gameState == Playing && r.score == 0 && r.playedLetters == [] && r.pending == s.pending &&
              r.saved == s.saved && r.currentLetter.Some? && r.currentLetter.value in letters
  {
    if letters == [] then s
    else
      assert letters[0] in Available(letters, []);
      Select(letters, isAuthenticated, [], 0, s.(score := 0, playedLetters := []), pick).(gameState := Playing)
  }

  /** `Math.max(0, score - 2)`. */
  function Penalized(score: int): (r: int)
    ensures r >= 0 && r >= score - WrongPenalty
    ensures score >= WrongPenalty ==> r == score - WrongPenalty
    ensures score < WrongPenalty ==> r == 0
  {
    if score - WrongPenalty < 0 then 0 else score - WrongPenalty
  }

  /** `handleLetterClick`. */
  function ClickStep(letter: string, s: Screen): (r: Screen)
    // ignored unless PLAYING with a current letter
    ensures s.gameState != Playing || s.currentLetter.None? ==> r == s
    // a correct key: +10, the letter's id is played, CORRECT, and the next-letter callback is scheduled
    ensures s.gameState == Playing && s.currentLetter.Some? && letter == s.currentLetter.value.letter ==>
              r == s.(score := s.score + CorrectPoints,
                      playedLetters := s.playedLetters + [s.currentLetter.value.id],
                      gameState := Correct,
                      pending := s.pending + [NextLetter(s.playedLetters, s.score, s.currentLetter.value)])
    // a wrong key: the score drops by 2 but not below 0, INCORRECT, the played list is kept
    ensures s.gameState == Playing && s.currentLetter.Some? && letter != s.currentLetter.value.letter ==>
              r == s.(score := Penalized(s.score), gameState := Incorrect, pending := s.pending + [BackToPlaying])
  {
    if s.gameState != Playing || s.currentLetter.None? then s
    else
      var current := s.currentLetter.value;
      if letter == current.letter then
        s.(score := s.score + CorrectPoints,
           playedLetters := s.playedLetters + [current.id],
           gameState := Correct,
           pending := s.pending + [NextLetter(s.playedLetters, s.score, current)])
      else
        s.(score := Penalized(s.score), gameState := Incorrect, pending := s.pending + [BackToPlaying])
  }

  /** The pending callbacks without the `k`-th. */
  function Without(pending: seq<Timer>, k: nat): (r: seq<Timer>)
    requires k < |pending|
    ensures |r| == |pending| - 1
    ensures forall t :: t in r ==> t in pending
  {
    pending[..k] + pending[k + 1..]
  }

  /** The `k`-th pending callback fires. After a wrong answer: back to
      PLAYING. After a correct one, with the values captured at the click:
      when `played.length + 1 >= letters.length` the game is COMPLETED and
      the captured score plus 10 and the captured list plus the letter are
      reported; otherwise a letter is drawn from those missing from the
      CAPTURED list and the game is PLAYING. */
  function FireStep(letters: seq<ArabicLetter>, isAuthenticated: bool, s: Screen, k: nat, pick: nat): (r: Screen)
    requires k < |s.pending|
    ensures s.pending[k].BackToPlaying? ==> r == s.(pending := Without(s.pending, k), gameState := Playing)
    ensures s.pending[k].NextLetter? && |s.pending[k].played| + 1 >= |letters| ==>
              r.gameState == Completed && r.score == s.score && r.playedLetters == s.playedLetters
    ensures s.pending[k].NextLetter? && |s.pending[k].played| + 1 < |letters| ==>
              r.gameState == Playing && r.score == s.score && r.playedLetters == s.playedLetters
    // completion reports the captured score plus 10 and the captured list plus the answered letter
    ensures s.pending[k].NextLetter? && |s.pending[k].played| + 1 >= |letters| ==>
              var t := s.pending[k];
              r.currentLetter == s.currentLetter &&
              r.saved == Report(s.saved, isAuthenticated, t.score + CorrectPoints, t.played + [t.current.id], |letters|)
    // otherwise the next letter is one missing from the captured list
    ensures s.pending[k].NextLetter? && |s.pending[k].played| + 1 < |letters| &&
            Available(letters, s.pending[k].played) != [] ==>
              r.currentLetter.Some? && r.currentLetter.value in letters &&
              r.currentLetter.value.id !in s.pending[k].played && r.saved == s.saved
    // and when the captured list already covers every letter, that list is reported
    ensures s.pending[k].NextLetter? && |s.pending[k].played| + 1 < |letters| &&
            Available(letters, s.pending[k].played) == [] ==>
              r.currentLetter == s.currentLetter &&
              r.saved == Report(s.saved, isAuthenticated, s.pending[k].score, s.pending[k].played, |letters|)
    ensures r.pending == Without(s.pending, k)
  {
    var rest := s.(pending := Without(s.pending, k));
    match s.pending[k]
    case BackToPlaying => rest.(gameState := Playing)
    case NextLetter(played, score, current) =>
      if |played| + 1 >= |letters| then
        rest.(gameState := Completed,
              saved := Report(rest.saved, isAuthenticated, score + CorrectPoints, played + [current.id], |letters|))
      else
        Select(letters, isAuthenticated, played, score, rest, pick).(gameState := Playing)
  }

  // ---------------------------------------------------------------------
  // Properties of the steps

  /** No step makes the score negative. */
  lemma ScoreNeverNegative(letters: seq<ArabicLetter>, isAuthenticated: bool, s: Screen, letter: string, k: nat, pick: nat)
    requires s.score >= 0
    ensures StartStep(letters, isAuthenticated, s, pick).score >= 0
    ensures ClickStep(letter, s).score >= 0
    ensures k < |s.pending| ==> FireStep(letters, isAuthenticated, s, k, pick).score >= 0
  {
  }

  /** A correct answer completes the game, once its callback fires,
      exactly when the played list captured at the click is at most one
      letter short of the whole set. */
  lemma CorrectAnswerCompletes(letters: seq<ArabicLetter>, isAuthenticated: bool, s: Screen, pick: nat)
    requires s.gameState == Playing && s.currentLetter.Some? && s.pending == []
    ensures var clicked := ClickStep(s.currentLetter.value.letter, s);
            var fired := FireStep(letters, isAuthenticated, clicked, 0, pick);
            (fired.gameState == Completed <==> |s.playedLetters| + 1 >= |letters|) &&
            fired.playedLetters == s.playedLetters + [s.currentLetter.value.id] &&
            fired.score == s.score + CorrectPoints
  {
  }

  // ---------------------------------------------------------------------
  // The played list should never repeat a letter

  predicate NoDuplicates(xs: seq<int>) {
    forall i, j :: 0 <= i < j < |xs| ==> xs[i] != xs[j]
  }

  /** Between rounds: no id is played twice, and while PLAYING the current
      letter has not been played yet. */
  predicate FreshRound(s: Screen) {
    NoDuplicates(s.playedLetters) &&
    (s.gameState == Playing && s.currentLetter.Some? ==> s.currentLetter.value.id !in s.playedLetters)
  }

  /** The callback as evidently intended: it reads the played list and the
      score as they are when it fires (the answered letter included), draws
      the next letter from the ones still missing, and completes the game
      exactly when none is left. */
  function FireStepIntended(letters: seq<ArabicLetter>, isAuthenticated: bool, s: Screen, k: nat, pick: nat): (r: Screen)
    requires k < |s.pending|
    ensures s.pending[k].BackToPlaying? ==> r == s.(pending := Without(s.pending, k), gameState := Playing)
    ensures s.pending[k].NextLetter? && r.gameState == Completed ==>
              forall l :: l in letters ==> l.id in s.playedLetters
    ensures s.pending[k].NextLetter? && r.gameState != Completed ==>
              r.gameState == Playing && r.currentLetter.Some? && r.currentLetter.value in letters &&
              r.currentLetter.value.id !in s.playedLetters
    ensures r.pending == Without(s.pending, k) && r.score == s.score && r.playedLetters == s.playedLetters
  {
    var rest := s.(pending := Without(s.pending, k));
    match s.pending[k]
    case BackToPlaying => rest.(gameState := Playing)
    case NextLetter(_, _, _) =>
      var next := Select(letters, isAuthenticated, rest.playedLetters, rest.score, rest, pick);
      if Available(letters, rest.playedLetters) == [] then next else next.(gameState := Playing)
  }

  /** With the intended callback a whole round (a key press and the
      callback it schedules) keeps the played list free of repeats and the
      next letter unplayed. */
  lemma IntendedRoundStaysFresh(letters: seq<ArabicLetter>, isAuthenticated: bool, s: Screen, letter: string, pick: nat)
    requires FreshRound(s) && s.pending == []
    ensures var clicked := ClickStep(letter, s);
            clicked.pending == [] ||
            FreshRound(FireStepIntended(letters, isAuthenticated, clicked, 0, pick))
  {
    var clicked := ClickStep(letter, s);
    if clicked.pending != [] {
      var played := clicked.playedLetters;
      assert NoDuplicates(played) by {
        if letter == s.currentLetter.value.letter {
          assert played == s.playedLetters + [s.currentLetter.value.id];
          forall i, j | 0 <= i < j < |played| ensures played[i] != played[j] {
            if j == |played| - 1 {
              assert played[i] in s.playedLetters;
            }
          }
        }
      }
    }
  }

  /** Two letters, ids 1 and 2, used by the counterexample below. */
  const Alif: ArabicLetter := ArabicLetter(1, "ا", "ألف", None, "[]", "ا", "ا", "ـا", "ـا")
  const Ba: ArabicLetter := ArabicLetter(2, "ب", "باء", None, "[]", "ب", "بـ", "ـبـ", "ـب")

  /** As written, the callback draws from the list captured before the
      click, so the letter just answered can be drawn again: with two
      letters and the first draw landing on Alif again, the next round
      starts with Alif already played, a second correct press plays it
      twice, and the game completes without Ba ever being asked. */
  lemma StaleCallbackRepeatsLetter()
    ensures var s0 := Screen(Playing, Some(Alif), 0, [], [], []);
            var s1 := ClickStep("ا", s0);
            var s2 := FireStep([Alif, Ba], true, s1, 0, 0);
            var s3 := ClickStep("ا", s2);
            var s4 := FireStep([Alif, Ba], true, s3, 0, 0);
            FreshRound(s0) && !FreshRound(s2) &&
            s4.gameState == Completed && s4.playedLetters == [1, 1] && Ba.id !in s4.playedLetters &&
            s4.saved == [ProgressReport(LettersGameId, 20, [1, 1], 2)]
  {
    var letters := [Alif, Ba];
    var s0 := Screen(Playing, Some(Alif), 0, [], [], []);
    var s1 := ClickStep("ا", s0);
    assert s1.pending == [NextLetter([], 0, Alif)];
    assert Available(letters, []) == letters by {
      FilterAll(letters, (l: ArabicLetter) => l.id !in []);
    }
    var s2 := FireStep(letters, true, s1, 0, 0);
    assert s2.currentLetter == Some(Alif) && s2.playedLetters == [1];
    var s3 := ClickStep("ا", s2);
    assert s3.pending == [NextLetter([1], 10, Alif)];
  }

  /** As written, restarting a completed game reports that game a second
      time and keeps its last letter: with two letters, answering Ba after
      Alif completes the game with one report, and "play again" then sends
      the same report again and starts the new round on Ba. The intended
      start sends nothing. */
  lemma RestartRepeatsReport()
    ensures var s0 := Screen(Playing, Some(Ba), 10, [1], [], []);
            var s1 := ClickStep("ب", s0);
            var s2 := FireStep([Alif, Ba], true, s1, 0, 0);
            var s3 := StartStep([Alif, Ba], true, s2, 0);
            var report := ProgressReport(LettersGameId, 20, [1, 2], 2);
            s2.gameState == Completed && s2.saved == [report] &&
            s3.gameState == Playing && s3.score == 0 && s3.currentLetter == Some(Ba) && s3.saved == [report, report] &&
            StartStepIntended([Alif, Ba], true, s2, 0).saved == [report]
  {
    var letters := [Alif, Ba];
    var s0 := Screen(Playing, Some(Ba), 10, [1], [], []);
    var s1 := ClickStep("ب", s0);
    assert s1.pending == [NextLetter([1], 10, Ba)];
    var s2 := FireStep(letters, true, s1, 0, 0);
    assert s2.playedLetters == [1, 2];
    assert Available(letters, [1, 2]) == [] by {
      FilterNone(letters, (l: ArabicLetter) => l.id !in [1, 2]);
    }
  }

  // ---------------------------------------------------------------------
  // The page

  class LettersPage {
    const letters: seq<ArabicLetter>
    const isAuthenticated: bool
    var gameState: GameState
    var currentLetter: Option<ArabicLetter>
    var score: int
    var playedLetters: seq<int>
    var pending: seq<Timer>
    var saved: seq<ProgressReport>

    function State(): (r: Screen)
      reads this
      ensures r.score == score && r.playedLetters == playedLetters && r.gameState == gameState
    {
      Screen(gameState, currentLetter, score, playedLetters, pending, saved)
    }

    ghost predicate Valid()
      reads this
    {
      score >= 0
    }

    /** The page once the letters (and the signed-in user) have loaded:
        START when there are letters, LOADING otherwise. */
    constructor(letters: seq<ArabicLetter>, isAuthenticated: bool)
      ensures Valid()
      ensures this.letters == letters && this.isAuthenticated == isAuthenticated
      ensures State() == Screen(if letters != [] then Start else Loading, None, 0, [], [], [])
    {
      this.letters := letters;
      this.isAuthenticated := isAuthenticated;
      gameState := if letters != [] then Start else Loading;
      currentLetter := None;
      score := 0;
      playedLetters := [];
      pending := [];
      saved := [];
    }

    method SelectRandomLetter(played: seq<int>, capturedScore: int, pick: nat)
      modifies this
      ensures State() == Select(letters, isAuthenticated, played, capturedScore, old(State()), pick)
    {
      var available := Available(letters, played);
      if available == [] {
        gameState := Completed;
        if isAuthenticated {
          saved := saved + [ProgressReport(LettersGameId, capturedScore, played, |letters|)];
        }
        return;
      }
      currentLetter := Some(available[pick % |available|]);
    }

    method StartGame(pick: nat)
      requires Valid()
      modifies this
      ensures Valid()
      ensures State() == StartStep(letters, isAuthenticated, old(State()), pick)
    {
      if |letters| == 0 {
        return;
      }
      var capturedPlayed, capturedScore := playedLetters, score;
      score := 0;
      playedLetters := [];
      SelectRandomLetter(capturedPlayed, capturedScore, pick);
      gameState := Playing;
    }

    /** `startGame` as evidently intended (see `StartStepIntended`). */
    method StartGameIntended(pick: nat)
      requires Valid()
      modifies this
      ensures Valid()
      ensures State() == StartStepIntended(letters, isAuthenticated, old(State()), pick)
    {
      if |letters| == 0 {
        return;
      }
      score := 0;
      playedLetters := [];
      SelectRandomLetter([], 0, pick);
      gameState := Playing;
    }

    method HandleLetterClick(letter: string)
      requires Valid()
      modifies this
      ensures Valid()
      ensures State() == ClickStep(letter, old(State()))
    {
      if gameState != Playing || currentLetter.None? {
        return;
      }
      var current := currentLetter.value;
      if letter == current.letter {
        pending := pending + [NextLetter(playedLetters, score, current)];
        score := score + CorrectPoints;
        playedLetters := playedLetters + [current.id];
        gameState := Correct;
      } else {
        score := if score - WrongPenalty < 0 then 0 else score - WrongPenalty;
        gameState := Incorrect;
        pending := pending + [BackToPlaying];
      }
    }

    method FireTimer(k: nat, pick: nat)
      requires Valid() && k < |pending|
      modifies this
      ensures Valid()
      ensures State() == FireStep(letters, isAuthenticated, old(State()), k, pick)
    {
      var timer := pending[k];
      pending := pending[..k] + pending[k + 1..];
      match timer
      case BackToPlaying =>
        gameState := Playing;
      case NextLetter(played, capturedScore, current) =>
        if |played| + 1 >= |letters| {
          gameState := Completed;
          if isAuthenticated {
            saved := saved + [ProgressReport(LettersGameId, capturedScore + CorrectPoints, played + [current.id], |letters|)];
          }
        } else {
          SelectRandomLetter(played, capturedScore, pick);
          gameState := Playing;
        }
    }

    /** The callback as evidently intended (see `FireStepIntended`): it
        draws from the played list as it is when it fires. */
    method FireTimerIntended(k: nat, pick: nat)
      requires Valid() && k < |pending|
      modifies this
      ensures Valid()
      ensures State() == FireStepIntended(letters, isAuthenticated, old(State()), k, pick)
    {
      var timer := pending[k];
      pending := pending[..k] + pending[k + 1..];
      if timer.BackToPlaying? {
        gameState := Playing;
        return;
      }
      var noneLeft := Available(letters, playedLetters) == [];
      SelectRandomLetter(playedLetters, score, pick);
      if !noneLeft {
        gameState := Playing;
      }
    }
  }
}
