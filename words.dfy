/** The words page: a fixed list of picture words, a search-and-difficulty
    filter over it, and a quiz that asks for the English translation of a
    randomly drawn word. Random choice is the parameter `pick`: word
    `pick % 9` is drawn. */
module Words {
  import opened Common

  datatype Word = Word(id: int, word: string, translation: string, image: string, difficulty: string)

  const ArabicWords: seq<Word> := [
    Word(1, "أسد", "lion", "https://cdn-icons-png.flaticon.com/512/4677/4677496.png", "easy"),
    Word(2, "بطة", "duck", "https://cdn-icons-png.flaticon.com/512/4677/4677485.png", "easy"),
    Word(3, "تفاحة", "apple", "https://cdn-icons-png.flaticon.com/512/4677/4677443.png", "easy"),
    Word(4, "ثعلب", "fox", "https://cdn-icons-png.flaticon.com/512/4677/4677447.png", "medium"),
    Word(5, "جمل", "camel", "https://cdn-icons-png.flaticon.com/512/4677/4677437.png", "medium"),
    Word(6, "حصان", "horse", "https://cdn-icons-png.flaticon.com/512/4677/4677590.png", "medium"),
    Word(7, "خروف", "sheep", "https://cdn-icons-png.flaticon.com/512/4677/4677532.png", "hard"),
    Word(8, "دجاجة", "chicken", "https://cdn-icons-png.flaticon.com/512/4677/4677562.png", "hard"),
    Word(9, "ذئب", "wolf", "https://cdn-icons-png.flaticon.com/512/4677/4677496.png", "hard")
  ]

  // ---------------------------------------------------------------------
  // The list filter

  /** An empty search matches everything; otherwise the Arabic word must
      contain the term as typed, or the translation must contain the term
      lower-cased. */
  predicate MatchesSearch(w: Word, searchTerm: string) {
    searchTerm == "" || Includes(w.word, searchTerm) || Includes(w.translation, ToLowerAscii(searchTerm))
  }

  /** "all" matches every difficulty; any other value only itself. */
  predicate MatchesDifficulty(w: Word, difficulty: string) {
    difficulty == "all" || w.difficulty == difficulty
  }

  /** `filteredWords`: the words matching both the search and the
      difficulty, in list order. */
  function FilteredWords(words: seq<Word>, searchTerm: string, difficulty: string): (r: seq<Word>)
    ensures forall w :: w in r <==> w in words && MatchesSearch(w, searchTerm) && MatchesDifficulty(w, difficulty)
    ensures IsSublist(r, words)
  {
    var keep := (w: Word) => MatchesSearch(w, searchTerm) && MatchesDifficulty(w, difficulty);
    FilterIsSublist(words, keep);
    Filter(words, keep)
  }

  /** With no search and "all" difficulties, the whole list is shown. */
  lemma UnfilteredShowsAll(words: seq<Word>)
    ensures FilteredWords(words, "", "all") == words
  {
    FilterAll(words, (w: Word) => MatchesSearch(w, "") && MatchesDifficulty(w, "all"));
  }

  /** A chosen difficulty shows only words of that difficulty. */
  lemma DifficultyIsRespected(words: seq<Word>, searchTerm: string, difficulty: string)
    requires difficulty != "all"
    ensures forall w :: w in FilteredWords(words, searchTerm, difficulty) ==> w.difficulty == difficulty
  {
  }

  /** A non-empty search shows a word exactly when its Arabic text contains
      the term or its translation contains the lower-cased term, at some
      position. */
  lemma SearchMatchesSubstrings(words: seq<Word>, searchTerm: string, w: Word)
    requires searchTerm != "" && w in words
    ensures w in FilteredWords(words, searchTerm, "all") <==>
              (exists i :: OccursAt(w.word, searchTerm, i)) ||
              (exists i :: OccursAt(w.translation, ToLowerAscii(searchTerm), i))
  {
    assert MatchesSearch(w, searchTerm) <==>
           Includes(w.word, searchTerm) || Includes(w.translation, ToLowerAscii(searchTerm));
  }

  // ---------------------------------------------------------------------
  // The answer check

  /** `userAnswer.toLowerCase().trim() === translation`. Only a translation
      with no blank at either end, and no longer than the answer, can be
      matched. */
  predicate AnswerCorrect(userAnswer: string, translation: string)
    ensures AnswerCorrect(userAnswer, translation) ==> |translation| <= |userAnswer|
    ensures AnswerCorrect(userAnswer, translation) && translation != [] ==>
              !IsJsWhitespace(translation[0]) && !IsJsWhitespace(translation[|translation| - 1])
  {
    Trim(ToLowerAscii(userAnswer)) == translation
  }

  predicate HasNoUpperAscii(s: string) {
    forall i :: 0 <= i < |s| ==> !('A' <= s[i] <= 'Z')
  }

  predicate HasNoWhitespace(s: string) {
    forall i :: 0 <= i < |s| ==> !IsJsWhitespace(s[i])
  }

  /** Whitespace around the answer and upper case do not matter: a
      non-empty translation with no upper case and no whitespace is
      accepted however the player capitalizes it and with any whitespace
      padding. */
  lemma PaddingAndCaseIgnored(pre: string, typed: string, post: string, translation: string)
    requires AllWhitespace(pre) && AllWhitespace(post)
    requires translation != "" && HasNoUpperAscii(translation) && HasNoWhitespace(translation)
    requires |typed| == |translation| && forall i :: 0 <= i < |typed| ==> LowerChar(typed[i]) == translation[i]
    ensures AnswerCorrect(pre + typed + post, translation)
  {
    ToLowerAppend(pre + typed, post);
    ToLowerAppend(pre, typed);
    assert ToLowerAscii(typed) == translation;
    LowerKeepsWhitespace(pre);
    LowerKeepsWhitespace(post);
    TrimRemovesPadding(pre, translation, post);
  }

  /** A non-empty word of lower-case ASCII letters is accepted as typed. */
  lemma LowerWordAccepted(t: string)
    requires t != [] && forall i :: 0 <= i < |t| ==> 'a' <= t[i] <= 'z'
    ensures AnswerCorrect(t, t)
  {
    assert ToLowerAscii(t) == t;
    TrimRemovesPadding("", t, "");
    assert "" + t + "" == t;
  }

  /** Every translation in the fixed list is accepted when typed as shown. */
  lemma StoredTranslationsAccepted(k: int)
    requires 0 <= k < |ArabicWords|
    ensures AnswerCorrect(ArabicWords[k].translation, ArabicWords[k].translation)
  {
    LowerWordAccepted(ArabicWords[k].translation);
  }

  /** A blank answer is never correct for the fixed list: every
      translation is non-empty. */
  lemma BlankAnswerWrong(k: int, blank: string)
    requires 0 <= k < |ArabicWords|
    requires forall i :: 0 <= i < |blank| ==> IsJsWhitespace(blank[i])
    ensures !AnswerCorrect(blank, ArabicWords[k].translation)
  {
    var lowered := ToLowerAscii(blank);
    assert forall i :: 0 <= i < |lowered| ==> IsJsWhitespace(lowered[i]);
    assert TrimStart(lowered) == [];
  }

  // ---------------------------------------------------------------------
  // The quiz

  class WordsQuiz {
    var isQuizMode: bool
    var currentQuizWord: Option<Word>
    var userAnswer: string
    var isCorrect: Option<bool>
    var quizScore: int
    /** Next-word callbacks scheduled by `checkAnswer` and not yet run. */
    var pendingNext: nat

    /** The score only ever grows by 10 from 0. */
    ghost predicate Valid()
      reads this
    {
      quizScore >= 0 && quizScore % 10 == 0
    }

    constructor()
      ensures Valid()
      ensures !isQuizMode && currentQuizWord.None? && userAnswer == "" && isCorrect.None? && quizScore == 0 && pendingNext == 0
    {
      isQuizMode := false;
      currentQuizWord := None;
      userAnswer := "";
      isCorrect := None;
      quizScore := 0;
      pendingNext := 0;
    }

    /** `selectRandomWord`: any of the nine words, drawn from the whole list. */
    method SelectRandomWord(pick: nat)
      modifies this
      ensures currentQuizWord == Some(ArabicWords[pick % |ArabicWords|])
      ensures isQuizMode == old(isQuizMode) && userAnswer == old(userAnswer) && isCorrect == old(isCorrect)
      ensures quizScore == old(quizScore) && pendingNext == old(pendingNext)
    {
      currentQuizWord := Some(ArabicWords[pick % |ArabicWords|]);
    }

    /** The answer box. */
    method TypeAnswer(text: string)
      modifies this
      ensures userAnswer == text
      ensures isQuizMode == old(isQuizMode) && currentQuizWord == old(currentQuizWord) && isCorrect == old(isCorrect)
      ensures quizScore == old(quizScore) && pendingNext == old(pendingNext)
    {
      userAnswer := text;
    }

    /** `startQuiz`: quiz mode, a blank answer, no verdict, score 0, and a
        fresh word. */
    method StartQuiz(pick: nat)
      modifies this
      ensures Valid()
      ensures isQuizMode && userAnswer == "" && isCorrect.None? && quizScore == 0
      ensures currentQuizWord == Some(ArabicWords[pick % |ArabicWords|]) && pendingNext == old(pendingNext)
    {
      isQuizMode := true;
      userAnswer := "";
      isCorrect := None;
      quizScore := 0;
      SelectRandomWord(pick);
    }

    /** `checkAnswer`: nothing without a word. Otherwise the verdict is
        shown, a correct answer earns 10 points, and the next word is
        scheduled. */
    method CheckAnswer()
      requires Valid()
      modifies this
      ensures Valid() && quizScore >= old(quizScore)
      ensures old(currentQuizWord).None? ==>
                isCorrect == old(isCorrect) && quizScore == old(quizScore) && pendingNext == old(pendingNext)
      ensures old(currentQuizWord).Some? ==>
                var correct := AnswerCorrect(old(userAnswer), old(currentQuizWord).value.translation);
                isCorrect == Some(correct) &&
                quizScore == old(quizScore) + (if correct then 10 else 0) &&
                pendingNext == old(pendingNext) + 1
      ensures isQuizMode == old(isQuizMode) && currentQuizWord == old(currentQuizWord) && userAnswer == old(userAnswer)
    {
      if currentQuizWord.None? {
        return;
      }
      var correct := AnswerCorrect(userAnswer, currentQuizWord.value.translation);
      isCorrect := Some(correct);
      if correct {
        quizScore := quizScore + 10;
      }
      pendingNext := pendingNext + 1;
    }

    /** A scheduled next-word callback runs: the answer is cleared, the
        verdict hidden and a new word drawn; the score is kept. */
    method NextWordTimer(pick: nat)
      requires Valid() && pendingNext > 0
      modifies this
      ensures Valid()
      ensures userAnswer == "" && isCorrect.None? && currentQuizWord == Some(ArabicWords[pick % |ArabicWords|])
      ensures quizScore == old(quizScore) && isQuizMode == old(isQuizMode) && pendingNext == old(pendingNext) - 1
    {
      pendingNext := pendingNext - 1;
      userAnswer := "";
      isCorrect := None;
      SelectRandomWord(pick);
    }

    /** `endQuiz`: leaves quiz mode and keeps everything else. */
    method EndQuiz()
      modifies this
      ensures !isQuizMode
      ensures currentQuizWord == old(currentQuizWord) && userAnswer == old(userAnswer) && isCorrect == old(isCorrect)
      ensures quizScore == old(quizScore) && pendingNext == old(pendingNext)
    {
      isQuizMode := false;
    }
  }
}
