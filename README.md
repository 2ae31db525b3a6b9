# KidsPlayground core, modelled in Dafny

KidsPlayground is a web site that teaches Arabic to children. It has letter,
word and story games, per-user progress, and paid subscriptions. This project
models its core: the in-memory data store (`MemStorage`) and the expiry
computation for reset-password tokens on the server. On the client it models
the Arabic text helpers, `truncate`, and the Fisher–Yates `shuffleArray`. It
also models the decision logic inside the game and account pages:
- the letters quiz state machine;
- the word filter and the word quiz;
- the story level filter;
- grouping games by type;
- the subscription panel of the profile page;
- the savings badge and subscribe guard of the plan card.

Modules follow the source files:

| module | file | form |
|---|---|---|
| `Schema` | `schema.dfy` | records of the five tables (datatypes) |
| `Storage` | `storage.dfy` | `class MemStorage`: five `map` tables and five id counters, methods with frame postconditions |
| `Tokens` | `tokens.dfy` | `calculateExpiryTime` as a function of `now` |
| `ArabicUtils` | `arabic_utils.dfy` | pure string functions |
| `Utils` | `utils.dfy` | `truncate` (function), `shuffleArray` (method over an `array`, specified by a function) |
| `LettersGame` | `letters_game.dfy` | step functions and `class LettersPage`, whose methods are proved equal to them |
| `Words` | `words.dfy` | the filter as a function, the quiz as `class WordsQuiz` |
| `Stories`, `GamesIndex`, `Profile`, `SubscriptionPlanCard` | one file each | functions, and the grouping loop as a method |
| `Common` | `common.dfy` | `Option`, `filter`, `find`, `includes`, ASCII lower-casing, `trim`, decimal rendering |

Conventions:
- Times are integers of milliseconds. The clock reading is a parameter `now`.
- Random choices are parameters (`pick`), reduced with `%` to the range the
  source's `Math.floor(Math.random() * n)` can produce.
- Strings are sequences of Unicode code points.
- JSON-valued columns (`features`, `examples`, `completedLevels`) are opaque
  strings.
- A React event handler reads the state of the render in which it was created.
  The page models therefore pass the values a handler or a delayed callback
  captured as separate parameters. A scheduled callback is a value in a list
  of pending callbacks. Pending callbacks may fire in any order.

## Model

| member | source | states |
|---|---|---|
| `Storage.NewUser` | KidsPlayground/KidsPlayground/server/storage.ts:103-117 | a new user keeps the inserted name, password and email. It is unsubscribed and unverified, every tier, date and token field is null, and it is created at `now` |
| `Storage.NewGame` | KidsPlayground/KidsPlayground/server/storage.ts:221-227 | a new game copies the insert and takes `featured ?? false` |
| `Storage.NewPlan` | KidsPlayground/KidsPlayground/server/storage.ts:241-247 | a new plan copies the insert and takes `popular ?? false` |
| `Storage.NewLetter` | KidsPlayground/KidsPlayground/server/storage.ts:265-271 | a new letter copies the insert, and its sound URL is null when none is given |
| `Storage.NewProgress` | KidsPlayground/KidsPlayground/server/storage.ts:299-305 | a new progress row has the pair, `score ?? 0`, the levels and `lastPlayed = now` |
| `Storage.RefreshedProgress` | KidsPlayground/KidsPlayground/server/storage.ts:287-293 | an overwritten row keeps its id and pair and takes the new score (`?? 0`), levels and play time |
| `Storage.Subscribed` | KidsPlayground/KidsPlayground/server/storage.ts:126-131 | the user is always subscribed afterwards, with the given tier and end date; no other field changes |
| `Storage.WithVerificationToken` | KidsPlayground/KidsPlayground/server/storage.ts:156-159 | only the verification token changes |
| `Storage.Verified` | KidsPlayground/KidsPlayground/server/storage.ts:169-173 | the user is verified and has no verification token; no other field changes |
| `Storage.WithResetToken` | KidsPlayground/KidsPlayground/server/storage.ts:183-187 | only the reset token and its expiry change |
| `Storage.WithNewPassword` | KidsPlayground/KidsPlayground/server/storage.ts:197-202 | the password changes, the reset token and its expiry are cleared, and no other field changes |
| `Storage.VerifiedIdempotent` | KidsPlayground/KidsPlayground/server/storage.ts:165-177 | verifying twice is verifying once |
| `Storage.ResetPasswordSpendsToken` | KidsPlayground/KidsPlayground/server/storage.ts:193-206 | after a password reset no reset token is live for that user at any time, so a reset token is single-use |
| `Storage.ResetTokenWindow` | KidsPlayground/KidsPlayground/server/storage.ts:142-150 | a stored reset token is live exactly while `now` is before its expiry |
| `Storage.ResetTokenLive` | KidsPlayground/KidsPlayground/server/storage.ts:144-146 | the `find` callback of the reset lookup: the token matches, an expiry is set, and now is before it; `ResetTokenWindow` and `ResetPasswordSpendsToken` state what it means for a stored or spent token |
| `Storage.Table` | KidsPlayground/KidsPlayground/server/storage.ts:311-536 | consecutive creations on an empty table give ids 1, 2, … in call order |
| `Storage.TableSnoc` | KidsPlayground/KidsPlayground/server/storage.ts:534-536 | one more creation adds exactly the next id |
| `Storage.RowsAreValues` | KidsPlayground/KidsPlayground/server/storage.ts:209-211 | the id-ordered listing of a dense table holds exactly the table's values |
| `Storage.InsertNewPair` | KidsPlayground/KidsPlayground/server/storage.ts:298-307 | inserting a row for a pair with no row keeps one row per (user, game) pair |
| `Storage.RewriteSamePair` | KidsPlayground/KidsPlayground/server/storage.ts:287-295 | rewriting a row under its own id and pair keeps one row per pair |
| `Storage.RewriteKeepsProgressTable` | KidsPlayground/KidsPlayground/server/storage.ts:287-295 | rewriting the existing row of a (user, game) pair in place keeps ids dense, rows keyed by id and one row per pair, and leaves the table size and the id counter as they were |
| `Storage.AppendKeepsProgressTable` | KidsPlayground/KidsPlayground/server/storage.ts:298-307 | adding a row for a pair that has none, under the next id, keeps ids dense, rows keyed and one row per pair, and grows the table and the counter by one |
| `Storage.MemStorage.constructor` | KidsPlayground/KidsPlayground/server/storage.ts:62-82 | five empty tables, and every counter starts at 1 |
| `Storage.MemStorage.GetUser` | KidsPlayground/KidsPlayground/server/storage.ts:91-93 | a user is found exactly for the ids handed out so far, and it is stored under its own id |
| `Storage.MemStorage.FirstUser` | KidsPlayground/KidsPlayground/server/storage.ts:95-101 | `find` over the users in insertion order: the user with the least id that satisfies the test, or none exactly when no user does |
| `Storage.FirstRow` | KidsPlayground/KidsPlayground/server/storage.ts:96 | `find` over a table's values in insertion order: nothing iff no row with id in 1 ‥ next−1 passes; otherwise a passing row whose id is the least that passes |
| `Storage.MemStorage.GetUserByUsername` | KidsPlayground/KidsPlayground/server/storage.ts:95-97 | found iff some user has that username; the one found has it and has the least id among those that do, as `find` over the insertion-ordered users returns the first |
| `Storage.MemStorage.GetUserByEmail` | KidsPlayground/KidsPlayground/server/storage.ts:99-101 | found iff some user has that email; the one found has it and has the least id among those that do |
| `Storage.MemStorage.GetUserByVerificationToken` | KidsPlayground/KidsPlayground/server/storage.ts:138-140 | found iff some user holds that verification token; the one found holds it and has the least id among those that do |
| `Storage.MemStorage.GetUserByResetPasswordToken` | KidsPlayground/KidsPlayground/server/storage.ts:142-150 | found iff some user holds the token with an expiry after `now`; a matching but expired or expiry-less token yields nothing; the one found has the least id among users with a live match |
| `Storage.MemStorage.CreateUser` | KidsPlayground/KidsPlayground/server/storage.ts:103-120 | takes the next user id, adds exactly that row with the defaults, and leaves the other tables alone |
| `Storage.MemStorage.UpdateUserSubscription` | KidsPlayground/KidsPlayground/server/storage.ts:122-135 | an unknown id returns none and changes nothing; otherwise only that user is rewritten, as `Subscribed` |
| `Storage.MemStorage.SetVerificationToken` | KidsPlayground/KidsPlayground/server/storage.ts:152-163 | the same, with `WithVerificationToken` |
| `Storage.MemStorage.VerifyUser` | KidsPlayground/KidsPlayground/server/storage.ts:165-177 | the same, with `Verified`; afterwards no verification token leads to that user |
| `Storage.MemStorage.SetResetPasswordToken` | KidsPlayground/KidsPlayground/server/storage.ts:179-191 | the same, with `WithResetToken`; afterwards the token resolves before `expires`, and not to this user from `expires` on |
| `Storage.MemStorage.ResetPassword` | KidsPlayground/KidsPlayground/server/storage.ts:193-206 | the same, with `WithNewPassword`; afterwards no reset token leads to that user |
| `Storage.MemStorage.GetAllGames` | KidsPlayground/KidsPlayground/server/storage.ts:209-211 | every game, in id order |
| `Storage.MemStorage.GetGameById` | KidsPlayground/KidsPlayground/server/storage.ts:213-215 | found exactly for ids handed out so far |
| `Storage.MemStorage.GetFeaturedGames` | KidsPlayground/KidsPlayground/server/storage.ts:217-219 | exactly the featured games, as an order-preserving sublist of all games |
| `Storage.MemStorage.CreateGame` | KidsPlayground/KidsPlayground/server/storage.ts:221-230 | takes the next game id and adds exactly that row |
| `Storage.MemStorage.GetAllSubscriptionPlans` | KidsPlayground/KidsPlayground/server/storage.ts:233-235 | every plan, in id order |
| `Storage.MemStorage.GetSubscriptionPlanById` | KidsPlayground/KidsPlayground/server/storage.ts:237-239 | found exactly for ids handed out so far |
| `Storage.MemStorage.CreateSubscriptionPlan` | KidsPlayground/KidsPlayground/server/storage.ts:241-250 | takes the next plan id and adds exactly that row |
| `Storage.MemStorage.GetAllArabicLetters` | KidsPlayground/KidsPlayground/server/storage.ts:253-255 | every letter, in id order |
| `Storage.MemStorage.GetArabicLetterById` | KidsPlayground/KidsPlayground/server/storage.ts:257-259 | found exactly for ids handed out so far |
| `Storage.MemStorage.GetArabicLetterByLetter` | KidsPlayground/KidsPlayground/server/storage.ts:261-263 | the earliest row for that glyph, or none iff no row has it |
| `Storage.MemStorage.CreateArabicLetter` | KidsPlayground/KidsPlayground/server/storage.ts:265-274 | takes the next letter id and adds exactly that row |
| `Storage.MemStorage.GetUserProgress` | KidsPlayground/KidsPlayground/server/storage.ts:277-279 | exactly the progress rows of that user, in id order (a sublist of all rows in id order) |
| `Storage.MemStorage.ProgressRow` | KidsPlayground/KidsPlayground/server/storage.ts:283-285 | the row of a (user, game) pair, or none iff there is no such row |
| `Storage.MemStorage.UpdateUserProgress` | KidsPlayground/KidsPlayground/server/storage.ts:281-308 | an existing pair is overwritten under its own id; otherwise one row is added under the next id. One row per pair is kept, and the table grows by at most one |
| `Storage.MemStorage.SeedInitialData` | KidsPlayground/KidsPlayground/server/storage.ts:311-537 | a no-op when any of games, plans or letters is present; on an empty catalogue it adds exactly the 3 plans, 6 games and 8 letters, in order |
| `Storage.SeedSizes` | KidsPlayground/KidsPlayground/server/storage.ts:318-536 | the seed catalogue has three plans, six games and eight letters |
| `Storage.MemStorage.SeedCatalogue` | KidsPlayground/KidsPlayground/server/storage.ts:311-537 | on a store with no games, plans or letters, and for a non-empty plan list, creating the given plans, games and letters in order leaves exactly those as the three tables, with ids 1, 2, … and each counter one past its table; users and progress are untouched. On any other store nothing changes |
| `Storage.MemStorage.CreatePlans` | KidsPlayground/KidsPlayground/server/storage.ts:318-354 | the plan creations of the seed build `Table(plans)` |
| `Storage.MemStorage.CreateGames` | KidsPlayground/KidsPlayground/server/storage.ts:358-417 | the game creations of the seed build `Table(games)` |
| `Storage.MemStorage.CreateLetters` | KidsPlayground/KidsPlayground/server/storage.ts:534-536 | the letter loop of the seed builds `Table(letters)` |
| `Storage.SeedIsIdempotent` | KidsPlayground/KidsPlayground/server/storage.ts:311-316 | seeding twice leaves the catalogue as seeding once does |
| `Storage.VerifyIsIdempotent` | KidsPlayground/KidsPlayground/server/storage.ts:165-177 | verifying a user twice leaves the store as verifying once does |
| `Tokens.CalculateExpiryTime` | server/utils/tokens.ts:15-18 | the expiry is `now + hours × 3,600,000` ms |
| `Tokens.DefaultIsOneHour` | server/utils/tokens.ts:15 | the default is a one-hour window |
| `Tokens.ExpiryInFuture` | server/utils/tokens.ts:10-17 | the expiry is after `now` iff `hours > 0` |
| `Tokens.ExpiryMonotone` | server/utils/tokens.ts:17 | more hours never give an earlier expiry |
| `Tokens.StoredTokenWindow` | server/utils/tokens.ts:15-18 | a reset token stored with this expiry resolves for later instants exactly while fewer than `hours` hours have passed |
| `ArabicUtils.IsArabicLetter` | client/src/lib/arabic-utils.ts:4-8 | false for any length other than 1; otherwise true iff the character is in U+0600..U+06FF |
| `ArabicUtils.IsRTL` | client/src/lib/arabic-utils.ts:11-15 | false for "", otherwise `isArabicLetter` of the first character |
| `ArabicUtils.GetTextDirection` | client/src/lib/arabic-utils.ts:75-77 | "rtl" exactly when `isRTL` holds |
| `ArabicUtils.GetLetterForm` | client/src/lib/arabic-utils.ts:18-29 | the requested form, or the isolated form when that one is empty |
| `ArabicUtils.IsolatedFormIsStored` | client/src/lib/arabic-utils.ts:28 | asking for the isolated form gives the stored isolated form |
| `ArabicUtils.CharImage` | client/src/lib/arabic-utils.ts:33-70 | a character with a table entry becomes that entry, and any other character passes through |
| `ArabicUtils.Transliterate` | client/src/lib/arabic-utils.ts:32-72 | the output is never shorter than the input, and "" maps to "" |
| `ArabicUtils.JoinImagesAppend` | client/src/lib/arabic-utils.ts:69-71 | mapping each character to its image and joining distributes over concatenation, for any image function |
| `ArabicUtils.JoinImagesLength` | client/src/lib/arabic-utils.ts:69-71 | when no character's image is empty, the joined images are at least as long as the text |
| `ArabicUtils.TransliterateAppend` | client/src/lib/arabic-utils.ts:69-71 | transliteration distributes over concatenation: it is a per-character map |
| `ArabicUtils.TransliterateChar` | client/src/lib/arabic-utils.ts:69-71 | a one-character text becomes that character's image; with `TransliterateAppend`, the output is the join of every character's image |
| `ArabicUtils.TransliteratePassThrough` | client/src/lib/arabic-utils.ts:70 | text with no table character comes back unchanged |
| `ArabicUtils.TableIsAscii` | client/src/lib/arabic-utils.ts:33-67 | every table entry is non-empty printable ASCII |
| `ArabicUtils.TableWordsBecomeAscii` | client/src/lib/arabic-utils.ts:69-71 | text spelled from table letters transliterates to pure ASCII |
| `ArabicUtils.ArabicDigitFor` | client/src/lib/arabic-utils.ts:118-119 | an ASCII digit d becomes U+0660+d, and any other character is kept |
| `ArabicUtils.ReplaceDigits` | client/src/lib/arabic-utils.ts:119 | the same length, with each character digit-mapped in place |
| `ArabicUtils.ToArabicNumerals` | client/src/lib/arabic-utils.ts:117-120 | the length of the decimal rendering is kept |
| `ArabicUtils.NaturalsBecomeArabicDigits` | client/src/lib/arabic-utils.ts:117-120 | for a natural number every character is an Arabic-Indic digit, and the i-th stands for the i-th decimal digit |
| `ArabicUtils.ArabicNumeralsRoundTrip` | client/src/lib/arabic-utils.ts:117-120 | mapping the digits back gives the decimal rendering, whose value is the number |
| `ArabicUtils.NegativeKeepsSign` | client/src/lib/arabic-utils.ts:119 | a negative number keeps its leading minus, followed by the digits of its magnitude |
| `ArabicUtils.WesternDigitFor` | client/src/lib/arabic-utils.ts:118 | the inverse digit map yields an ASCII digit for an Arabic-Indic one |
| `ArabicUtils.WesternDigits` | client/src/lib/arabic-utils.ts:118 | the inverse map applied per character |
| `ArabicUtils.DigitRoundTrip` | client/src/lib/arabic-utils.ts:118-119 | turning an ASCII digit into its Arabic-Indic digit and back gives the same digit |
| `Utils.Truncate` | KidsPlayground/KidsPlayground/client/src/lib/utils.ts:34-37 | "" stays ""; a string no longer than `length` is unchanged; a longer one keeps its first `length` characters (none for a negative length) and adds "...", so its length is `length + 3` |
| `Utils.TruncateBounds` | KidsPlayground/KidsPlayground/client/src/lib/utils.ts:36 | the result is at most `length + 3` long, and it always starts with the original's first `length` characters (the whole original when that is shorter) |
| `Utils.TruncateIdempotent` | KidsPlayground/KidsPlayground/client/src/lib/utils.ts:34-37 | truncating twice is truncating once |
| `Utils.Swap` | KidsPlayground/KidsPlayground/client/src/lib/utils.ts:47 | the swap exchanges the two positions and keeps the others |
| `Utils.Draw` | KidsPlayground/KidsPlayground/client/src/lib/utils.ts:46 | every swap index j satisfies 0 ≤ j ≤ i |
| `Utils.Steps` | KidsPlayground/KidsPlayground/client/src/lib/utils.ts:45-48 | the loop from i down to 1 keeps the length |
| `Utils.Shuffled` | KidsPlayground/KidsPlayground/client/src/lib/utils.ts:43-50 | the whole Fisher–Yates shuffle as a value, with the input's length; `ShuffledPermutes` proves it a permutation and `ShuffleArray` is proved equal to it |
| `Utils.SwapPermutes` | KidsPlayground/KidsPlayground/client/src/lib/utils.ts:47 | a swap is a permutation |
| `Utils.StepsPermute` | KidsPlayground/KidsPlayground/client/src/lib/utils.ts:45-48 | the remaining loop steps permute the array |
| `Utils.ShuffledPermutes` | KidsPlayground/KidsPlayground/client/src/lib/utils.ts:43-50 | the shuffle has the same length and multiset as its input |
| `Utils.StepsIdentity` | KidsPlayground/KidsPlayground/client/src/lib/utils.ts:45-48 | with every draw landing on i itself, nothing moves |
| `Utils.ShortArraysUnchanged` | KidsPlayground/KidsPlayground/client/src/lib/utils.ts:45 | arrays of length 0 or 1 come back unchanged |
| `Utils.ShuffleArray` | KidsPlayground/KidsPlayground/client/src/lib/utils.ts:43-50 | returns a fresh array that is a permutation of the input, equal to the specification `Shuffled`, and leaves the argument unmodified |
| `LettersGame.Available` | client/src/pages/games/letters.tsx:89 | exactly the letters whose id is not played, in list order |
| `LettersGame.Report` | client/src/pages/games/letters.tsx:96-105 | progress is sent, for game 1, only for a signed-in player |
| `LettersGame.Select` | client/src/pages/games/letters.tsx:88-119 | with no letter left the game is COMPLETED and progress is reported; otherwise the new current letter is an unplayed one and nothing else changes |
| `LettersGame.StartStep` | client/src/pages/games/letters.tsx:77-85 | nothing without letters; otherwise score 0, an empty played list and PLAYING. The draw reads the played list from before the reset: when it leaves letters, the new current letter is one of them and nothing is reported; when it holds every letter, the previous round is reported again and its letter stays current |
| `LettersGame.StartStepIntended` | client/src/pages/games/letters.tsx:77-85 | the corrected start: with letters, score 0, an empty played list, PLAYING, a current letter from the list, and no report sent |
| `LettersGame.Penalized` | client/src/pages/games/letters.tsx:160 | `max(0, score − 2)`: the score minus 2 from 2 up, and 0 below 2 |
| `LettersGame.ClickStep` | client/src/pages/games/letters.tsx:122-174 | the click is ignored unless PLAYING with a letter. A correct key gives +10, appends the id, enters CORRECT and schedules the next letter. A wrong key gives the penalty, enters INCORRECT, keeps the played list and schedules the way back |
| `LettersGame.Without` | client/src/pages/games/letters.tsx:138-157 | a fired callback leaves the pending list |
| `LettersGame.FireStep` | client/src/pages/games/letters.tsx:138-172 | a wrong-answer callback returns to PLAYING. A correct-answer callback completes iff the captured played list plus one covers the letters, reporting the captured score plus 10 and the captured list plus the answered letter. Otherwise it plays on with a current letter missing from the captured list, and reports the captured list if that list already covers every letter |
| `LettersGame.ScoreNeverNegative` | client/src/pages/games/letters.tsx:77-160 | no step makes the score negative |
| `LettersGame.CorrectAnswerCompletes` | client/src/pages/games/letters.tsx:125-157 | after a correct key and its callback, the game is completed iff `playedLetters.length + 1 >= letters.length`; the score is +10 and the id is appended |
| `LettersGame.FireStepIntended` | client/src/pages/games/letters.tsx:138-157 | the corrected callback: it completes only when every letter has been played, and otherwise the next letter is unplayed |
| `LettersGame.IntendedRoundStaysFresh` | client/src/pages/games/letters.tsx:88-157 | with the corrected callback a round keeps the played list free of repeats and the next letter unplayed |
| `LettersGame.StaleCallbackRepeatsLetter` | client/src/pages/games/letters.tsx:138-157 | as written, two letters and a draw landing on the answered letter make the game ask it again, play it twice and complete without the other letter |
| `LettersGame.RestartRepeatsReport` | client/src/pages/games/letters.tsx:77-85 | the restart counterexample on the as-written steps: finishing a two-letter game sends one report, and restarting sends it again and keeps Ba current, while the corrected start sends nothing |
| `LettersGame.LettersPage.State` | client/src/pages/games/letters.tsx:28-33 | the page's state variables as one value |
| `LettersGame.LettersPage.constructor` | client/src/pages/games/letters.tsx:64-74 | after loading: START with letters, LOADING without, score 0, nothing played |
| `LettersGame.LettersPage.SelectRandomLetter` | client/src/pages/games/letters.tsx:88-119 | the page changes as `Select` says |
| `LettersGame.LettersPage.StartGame` | client/src/pages/games/letters.tsx:77-85 | the page changes as `StartStep` says, and the score stays non-negative |
| `LettersGame.LettersPage.StartGameIntended` | client/src/pages/games/letters.tsx:77-85 | the page changes as `StartStepIntended` says |
| `LettersGame.LettersPage.HandleLetterClick` | client/src/pages/games/letters.tsx:122-174 | the page changes as `ClickStep` says |
| `LettersGame.LettersPage.FireTimer` | client/src/pages/games/letters.tsx:138-172 | the page changes as `FireStep` says |
| `LettersGame.LettersPage.FireTimerIntended` | client/src/pages/games/letters.tsx:138-157 | the page changes as `FireStepIntended` says |
| `Words.FilteredWords` | KidsPlayground/KidsPlayground/client/src/pages/games/words.tsx:35-44 | a word is listed iff it matches the search and the difficulty; the result is an order-preserving sublist |
| `Words.UnfilteredShowsAll` | KidsPlayground/KidsPlayground/client/src/pages/games/words.tsx:35-44 | an empty search with "all" lists every word |
| `Words.DifficultyIsRespected` | KidsPlayground/KidsPlayground/client/src/pages/games/words.tsx:40-41 | with a difficulty other than "all", every listed word has that difficulty |
| `Words.SearchMatchesSubstrings` | KidsPlayground/KidsPlayground/client/src/pages/games/words.tsx:36-38 | a non-empty search lists a word iff its Arabic text contains the term, or its translation contains the lower-cased term |
| `Words.AnswerCorrect` | KidsPlayground/KidsPlayground/client/src/pages/games/words.tsx:65 | the answer check `toLowerCase().trim() === translation`: a matched translation is no longer than the answer and has no blank at either end |
| `Words.PaddingAndCaseIgnored` | KidsPlayground/KidsPlayground/client/src/pages/games/words.tsx:65 | any capitalization and whitespace padding of the translation is accepted |
| `Words.LowerWordAccepted` | KidsPlayground/KidsPlayground/client/src/pages/games/words.tsx:65 | a lower-case ASCII word is accepted as typed |
| `Words.StoredTranslationsAccepted` | KidsPlayground/KidsPlayground/client/src/pages/games/words.tsx:13-23 | every stored translation is accepted when typed as shown |
| `Words.BlankAnswerWrong` | KidsPlayground/KidsPlayground/client/src/pages/games/words.tsx:13-23 | a blank answer is never correct |
| `Words.WordsQuiz.constructor` | KidsPlayground/KidsPlayground/client/src/pages/games/words.tsx:28-32 | the initial quiz state, with score 0 |
| `Words.WordsQuiz.SelectRandomWord` | KidsPlayground/KidsPlayground/client/src/pages/games/words.tsx:56-59 | any of the nine words is drawn from the whole list, and nothing else changes |
| `Words.WordsQuiz.TypeAnswer` | KidsPlayground/KidsPlayground/client/src/pages/games/words.tsx:148 | only the answer changes |
| `Words.WordsQuiz.StartQuiz` | KidsPlayground/KidsPlayground/client/src/pages/games/words.tsx:47-53 | quiz mode, a blank answer, no verdict, score 0 and a drawn word |
| `Words.WordsQuiz.CheckAnswer` | KidsPlayground/KidsPlayground/client/src/pages/games/words.tsx:62-78 | nothing without a word; otherwise the verdict is the lower-cased trimmed comparison, the score rises by exactly 10 on a correct answer, the next word is scheduled, and the score stays a non-decreasing multiple of 10 |
| `Words.WordsQuiz.NextWordTimer` | KidsPlayground/KidsPlayground/client/src/pages/games/words.tsx:73-77 | the answer is cleared, the verdict hidden, a new word drawn, and the score kept |
| `Words.WordsQuiz.EndQuiz` | KidsPlayground/KidsPlayground/client/src/pages/games/words.tsx:81-83 | leaves quiz mode and keeps the rest |
| `Stories.FilteredStories` | KidsPlayground/KidsPlayground/client/src/pages/games/stories.tsx:45-47 | no level (or the falsy 0) gives the whole list; level k gives exactly the stories of level k; the result is always an order-preserving sublist |
| `Stories.AbsentLevelSelectsNothing` | KidsPlayground/KidsPlayground/client/src/pages/games/stories.tsx:44-46 | a level no story has shows the empty state |
| `Stories.LevelThreeIsEmpty` | KidsPlayground/KidsPlayground/client/src/pages/games/stories.tsx:11-39 | with the fixed stories, level 3 shows the empty state and "all" does not |
| `Stories.LevelOneStories` | KidsPlayground/KidsPlayground/client/src/pages/games/stories.tsx:11-46 | level 1 shows the first two stories |
| `Stories.LevelTwoStories` | KidsPlayground/KidsPlayground/client/src/pages/games/stories.tsx:11-46 | level 2 shows the third story |
| `GamesIndex.Group` | KidsPlayground/KidsPlayground/client/src/pages/games/index.tsx:33-36 | a game is in the group of type t iff it has type t |
| `GamesIndex.TypesInOrder` | KidsPlayground/KidsPlayground/client/src/pages/games/index.tsx:33-35 | the keys are exactly the types present, in order of first appearance |
| `GamesIndex.TypesAreDistinct` | KidsPlayground/KidsPlayground/client/src/pages/games/index.tsx:33-35 | each key is created once |
| `GamesIndex.GroupSnoc` | KidsPlayground/KidsPlayground/client/src/pages/games/index.tsx:36 | pushing a game extends its own group only |
| `GamesIndex.SizeSumSnoc` | KidsPlayground/KidsPlayground/client/src/pages/games/index.tsx:32-37 | one more game adds one to the total size of the groups |
| `GamesIndex.AbsentTypeEmptyGroup` | KidsPlayground/KidsPlayground/client/src/pages/games/index.tsx:33-34 | a new key starts with an empty group |
| `GamesIndex.GroupSizesSum` | KidsPlayground/KidsPlayground/client/src/pages/games/index.tsx:32-38 | the group sizes sum to the number of games |
| `GamesIndex.GroupStep` | KidsPlayground/KidsPlayground/client/src/pages/games/index.tsx:32-37 | one iteration of the grouping loop keeps the grouping invariant: a first-seen type gets a key at the end of the key order and an empty group, and the game is pushed onto its type's group |
| `GamesIndex.GroupGames` | KidsPlayground/KidsPlayground/client/src/pages/games/index.tsx:30-39 | the loop builds exactly one group per type present, each holding that type's games in list order |
| `GamesIndex.GroupingFacts` | KidsPlayground/KidsPlayground/client/src/pages/games/index.tsx:32-38 | every game is in its type's group; every member has that type; groups keep list order and are non-empty; the sizes sum to the number of games |
| `GamesIndex.GroupHeading` | KidsPlayground/KidsPlayground/client/src/pages/games/index.tsx:131-134 | fixed titles for "letters", "words" and "stories", and "ألعاب " plus the type otherwise |
| `GamesIndex.HeadingsDistinct` | KidsPlayground/KidsPlayground/client/src/pages/games/index.tsx:131-134 | different types get different headings |
| `GamesIndex.SeededTypesUseGenericHeading` | KidsPlayground/KidsPlayground/client/src/pages/games/index.tsx:131-134 | the seeded (Arabic) game types all get the generic heading |
| `Profile.CeilDays` | KidsPlayground/client/src/pages/profile.tsx:59 | `Math.ceil` of milliseconds over a day, characterised by its bracket |
| `Profile.DaysRemaining` | KidsPlayground/client/src/pages/profile.tsx:55-60 | 0 without an end date or once it has passed; otherwise the days left, rounded up; never negative |
| `Profile.PartialDayCountsAsOne` | KidsPlayground/client/src/pages/profile.tsx:59 | up to one day left counts as exactly one day |
| `Profile.StatusLabel` | KidsPlayground/client/src/pages/profile.tsx:62-66 | the label of each status |
| `Profile.SubscriptionStatus` | KidsPlayground/client/src/pages/profile.tsx:62-66 | not subscribed whatever the dates; a subscriber is active iff there is an end date with days remaining, and expired otherwise |
| `Profile.ActiveUntilEndDate` | KidsPlayground/client/src/pages/profile.tsx:55-66 | active exactly while the end date is in the future |
| `Profile.ShowRenewalAlert` | KidsPlayground/client/src/pages/profile.tsx:243 | shown iff not subscribed, or there is an end date at most 7 days away |
| `Profile.AlertWithinAWeek` | KidsPlayground/client/src/pages/profile.tsx:58-243 | for a subscriber: shown iff the end date is at most 7 × 86,400,000 ms away |
| `Profile.ExpiredAlerts` | KidsPlayground/client/src/pages/profile.tsx:62-243 | an expired subscriber sees the alert iff they have an end date |
| `Profile.GameName` | KidsPlayground/client/src/pages/profile.tsx:284-290 | ids 1, 2 and 3 get the fixed names; any other id gets "لعبة رقم " plus its decimal rendering |
| `Profile.GameNamesDistinct` | KidsPlayground/client/src/pages/profile.tsx:284-290 | different ids get different names |
| `SubscriptionPlanCard.CalculateSavings` | KidsPlayground/KidsPlayground/client/src/components/subscription-plan.tsx:71-79 | none for a one-month plan; otherwise savings exist iff the price is below 30 × duration, and they are positive with `savings + price = 30 × duration` |
| `SubscriptionPlanCard.SavingsGrowAsPriceFalls` | KidsPlayground/KidsPlayground/client/src/components/subscription-plan.tsx:74-78 | a cheaper plan of the same length saves exactly the price difference more |
| `SubscriptionPlanCard.SeededPlanSavings` | KidsPlayground/KidsPlayground/client/src/components/subscription-plan.tsx:72-78 | the seeded plans show no badge, 30 and 60 |
| `SubscriptionPlanCard.MonthlyPriceMatchesSeed` | KidsPlayground/KidsPlayground/client/src/components/subscription-plan.tsx:74 | the constant 30 is the seeded monthly plan's price |
| `SubscriptionPlanCard.HandleSubscribe` | KidsPlayground/KidsPlayground/client/src/components/subscription-plan.tsx:57-68 | not logged in gives the login toast iff no request is sent; logged in sends the request for this plan |
| `Common.Filter` | KidsPlayground/KidsPlayground/server/storage.ts:218 | `Array.prototype.filter`: an element is in the result iff it is in the input and passes, and the result is no longer than the input |
| `Common.FilterCounts` | KidsPlayground/KidsPlayground/server/storage.ts:218 | each passing element occurs in the result as often as in the input, and a failing one not at all |
| `Common.FilterIsSublist` | KidsPlayground/KidsPlayground/server/storage.ts:218 | a filter keeps the input's order |
| `Common.Find` | KidsPlayground/KidsPlayground/server/storage.ts:96 | `Array.prototype.find`: the first element that passes, or none exactly when none does |
| `Common.Includes` | KidsPlayground/KidsPlayground/client/src/pages/games/words.tsx:37-38 | `String.prototype.includes`: true iff the term occurs at some position |
| `Common.ToLowerAscii` | KidsPlayground/KidsPlayground/client/src/pages/games/words.tsx:38 | lower-cases A–Z and keeps the length and every other character |
| `Common.TrimStart` | KidsPlayground/KidsPlayground/client/src/pages/games/words.tsx:65 | removes exactly the leading whitespace |
| `Common.TrimEnd` | KidsPlayground/KidsPlayground/client/src/pages/games/words.tsx:65 | removes exactly the trailing whitespace |
| `Common.Trim` | KidsPlayground/KidsPlayground/client/src/pages/games/words.tsx:65 | `String.prototype.trim`: the result is empty or starts and ends with a non-whitespace character |
| `Common.TrimRemovesPadding` | KidsPlayground/KidsPlayground/client/src/pages/games/words.tsx:65 | trimming whitespace padding around a word with non-blank ends gives the word |
| `Common.LowerKeepsWhitespace` | KidsPlayground/KidsPlayground/client/src/pages/games/words.tsx:65 | lower-casing leaves a string of whitespace unchanged |
| `Common.ToLowerAppend` | KidsPlayground/KidsPlayground/client/src/pages/games/words.tsx:65 | lower-casing distributes over concatenation |
| `Common.DecimalString` | KidsPlayground/client/src/pages/profile.tsx:290 | `Number.prototype.toString` on a safe integer (magnitude at most 2^53): the first character is a minus sign iff the number is negative, and what follows the sign is a non-empty string of ASCII digits with no leading zero whose value is the magnitude |
| `Common.NatDigitsValue` | client/src/lib/arabic-utils.ts:119 | the decimal digits of n read back as n |
| `Common.DecimalStringInjective` | KidsPlayground/client/src/pages/profile.tsx:290 | different integers have different renderings |

## Left out

- `DatabaseStorage` (the Postgres/ORM store, KidsPlayground/KidsPlayground/server/storage.ts:541-927) is not part of this model. It is a foreign SQL layer, and its expiry check mirrors `ResetTokenLive`.
- The session stores (storage.ts:84-87) are library objects and are not modelled.
- Authentication, HTTP routes, password hashing, e-mail sending, and `generateToken` (which uses `crypto.randomBytes`) are not part of this model. They are I/O or library code. The seen-then-create race in registration is a concurrency matter; the model is sequential.
- Usernames and e-mails are not made unique by the store, as in the source. `CreateUser` does not check them.
- JSON (`JSON.parse`/`JSON.stringify` of `features`, `examples` and `completedLevels`) is opaque text. The letters report is kept as the structured `ProgressReport` value rather than its serialized text.
- Floating point is not modelled: progress percentages, the fractional `hours` of `calculateExpiryTime`, and story ratings (kept as tenths). Times are whole milliseconds and `hours` is a whole number.
- `Intl` date and currency formatting and `cn` are presentation only.
- `Common.ToLowerAscii`: `toLowerCase` is modelled for ASCII A–Z only; full Unicode case mapping is left out.
- `Utils.Truncate`: lengths count code points, where JavaScript counts UTF-16 units; the two differ only for characters outside the Basic Multilingual Plane. A non-integer `length` is not modelled.
- `ArabicUtils.ToArabicNumerals`: modelled on integers, and exact only on safe integers (|n| ≤ 2^53). Non-integer numbers are left out. So is the exponent notation `toString` uses from 10^21 up. Above 2^53, JavaScript prints the shortest digits that round-trip, padded with zeros (`(2**60).toString()` is "1152921504606847000"). The model renders every digit of the exact value. Ids and scores stay far below that bound.
- `GamesIndex.GroupGames`: the groups are a Dafny map. The source's plain object also treats inherited keys such as "constructor" as already present, and `Object.entries` lists integer-like keys first. Neither quirk is modelled; the model keeps the keys in creation order.
- React mechanics are not modelled: rendering, React Query, toasts, `localStorage`, audio autoplay (and its 500 ms timer), and the delays of the timers. Loading is modelled by the page constructor.
- `Profile.DaysRemaining`: a stored end date is taken as present or absent. The source tests the truthiness of the stored value before parsing it, and an unparsable date string is not modelled.
- `Words.WordsQuiz.CheckAnswer`: the check button is disabled for a blank answer, but the Enter key still calls `checkAnswer`. The model allows the call in both cases.
- `Tokens.CalculateExpiryTime`: the `Date` object's range limit (±8.64 × 10^15 ms) is not modelled.

## Findings

| source | as written | input that shows it | evidently intended | confidence | as-written member | corrected member |
|---|---|---|---|---|---|---|
| client/src/pages/games/letters.tsx:138-157 | The callback a correct key schedules was created in the render before the click. It decides completion and draws the next letter from that render's `playedLetters`, which does not yet hold the letter just answered. | Letters alif (id 1) and ba (id 2). Alif is asked and answered. The draw (`pick` 0) lands on alif again. Answering it again plays it twice, and the game completes with `[1, 1]` reported and ba never asked. | The next letter is drawn from the letters not yet played, the answered one included, and the game completes only when every letter has been played. | not executed | `LettersGame.StaleCallbackRepeatsLetter` | `LettersGame.FireStepIntended`, with `LettersGame.IntendedRoundStaysFresh` |
| client/src/pages/games/letters.tsx:77-85 | `startGame` resets the score and the played list and then calls `selectRandomLetter`, which reads the render's values from before the reset. After a completed game that list holds every letter, so "play again" takes the all-played branch. It sends the finished round's report a second time, and the new round opens on the previous round's last letter. | Letters alif and ba, with alif already played at score 10. Answering ba completes the game with the report (score 20, `[1, 2]`). Restarting sends that report again and leaves ba current, at score 0 with nothing played. | A restart draws from all the letters and sends no report. | not executed | `LettersGame.RestartRepeatsReport` | `LettersGame.StartStepIntended` |
