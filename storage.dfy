/** The in-memory data-access layer: five tables keyed by integer id, one
    id counter per table, lookups that scan a table in insertion order,
    updates of single user fields by id, an upsert of per-(user, game)
    progress rows, and a guarded seed of the reference catalogue. */
module Storage {
  import opened Common
  import opened Schema

  // ---------------------------------------------------------------------
  // Tables

  /** The keys of `m` are exactly the ids handed out so far, 1 .. next-1:
      ids come from a counter starting at 1 and rows are never removed. */
  ghost predicate Dense<T>(m: map<int, T>, next: int) {
    1 <= next && forall k :: k in m <==> 1 <= k < next
  }

  /** A dense table holds one row per id handed out. */
  lemma {:induction false} DenseSize<T>(m: map<int, T>, next: int)
    requires Dense(m, next)
    ensures |m| == next - 1
    decreases next
  {
    if next == 1 {
      assert forall k :: k !in m.Keys;
      assert m.Keys == {};
    } else {
      var m' := m - {next - 1};
      assert m'.Keys == m.Keys - {next - 1};
      DenseSize(m', next - 1);
    }
  }

  /** `Array.from(table.values())`. `Map` iterates in insertion order, ids
      are inserted in increasing order and `set` on a present key keeps its
      place, so the rows come out in id order. */
  function Rows<T>(m: map<int, T>, next: int): (r: seq<T>)
    requires forall k :: 1 <= k < next ==> k in m
    ensures |r| == if next < 1 then 0 else next - 1
    ensures forall i :: 0 <= i < |r| ==> r[i] == m[i + 1]
    decreases next
  {
    if next <= 1 then [] else Rows(m, next - 1) + [m[next - 1]]
  }

  /** The rows of a dense table are exactly its values. */
  lemma RowsAreValues<T(!new)>(m: map<int, T>, next: int)
    requires Dense(m, next)
    ensures forall x :: x in Rows(m, next) <==> x in m.Values
  {
    var rows := Rows(m, next);
    forall k | k in m ensures m[k] in rows {
      assert rows[k - 1] == m[k];
    }
  }

  /** `Array.from(table.values()).find(p)`: the row with the least id
      satisfying `p`. */
  function FirstRow<T>(m: map<int, T>, next: int, p: T -> bool): (r: Option<T>)
    requires forall k :: 1 <= k < next ==> k in m
    ensures r.None? <==> forall k :: 1 <= k < next ==> !p(m[k])
    ensures r.Some? ==> exists k :: 1 <= k < next && m[k] == r.value && p(r.value) &&
                          forall j :: 1 <= j < k ==> !p(m[j])
  {
    var rows := Rows(m, next);
    var r := Find(rows, p);
    assert forall k :: 1 <= k < next ==> m[k] == rows[k - 1];
    r
  }

  /** Every row is stored under its own id. */
  ghost predicate UsersKeyed(m: map<int, User>) { forall k :: k in m ==> m[k].id == k }
  ghost predicate GamesKeyed(m: map<int, Game>) { forall k :: k in m ==> m[k].id == k }
  ghost predicate PlansKeyed(m: map<int, SubscriptionPlan>) { forall k :: k in m ==> m[k].id == k }
  ghost predicate LettersKeyed(m: map<int, ArabicLetter>) { forall k :: k in m ==> m[k].id == k }
  ghost predicate ProgressKeyed(m: map<int, UserProgress>) { forall k :: k in m ==> m[k].id == k }

  /** At most one progress row per (userId, gameId) pair. */
  ghost predicate OneRowPerPair(m: map<int, UserProgress>) {
    forall a, b :: a in m && b in m && m[a].userId == m[b].userId && m[a].gameId == m[b].gameId ==> a == b
  }

  /** Adding a row for a pair not yet present keeps one row per pair. */
  lemma InsertNewPair(m: map<int, UserProgress>, row: UserProgress)
    requires OneRowPerPair(m) && row.id !in m
    requires forall k :: k in m ==> m[k].userId != row.userId || m[k].gameId != row.gameId
    ensures OneRowPerPair(m[row.id := row])
  {
  }

  /** Rewriting a row with its own pair keeps one row per pair. */
  lemma RewriteSamePair(m: map<int, UserProgress>, row: UserProgress)
    requires OneRowPerPair(m) && row.id in m
    requires m[row.id].userId == row.userId && m[row.id].gameId == row.gameId
    ensures OneRowPerPair(m[row.id := row])
  {
  }

  /** Rewriting a progress row under its own id and pair keeps the table's
      invariant and its size. */
  lemma RewriteKeepsProgressTable(m: map<int, UserProgress>, next: int, row: UserProgress)
    requires Dense(m, next) && ProgressKeyed(m) && OneRowPerPair(m) && row.id in m
    requires m[row.id].userId == row.userId && m[row.id].gameId == row.gameId && m[row.id].id == row.id
    ensures Dense(m[row.id := row], next) && ProgressKeyed(m[row.id := row]) && OneRowPerPair(m[row.id := row])
    ensures |m[row.id := row]| == |m|
  {
    RewriteSamePair(m, row);
  }

  /** Adding a progress row for a new pair under the next id keeps the
      table's invariant and grows the table by one row. */
  lemma AppendKeepsProgressTable(m: map<int, UserProgress>, next: int, row: UserProgress)
    requires Dense(m, next) && ProgressKeyed(m) && OneRowPerPair(m) && row.id == next
    requires forall k :: k in m ==> m[k].userId != row.userId || m[k].gameId != row.gameId
    ensures Dense(m[next := row], next + 1) && ProgressKeyed(m[next := row]) && OneRowPerPair(m[next := row])
    ensures |m[next := row]| == |m| + 1
  {
    InsertNewPair(m, row);
    DenseSize(m, next);
    DenseSize(m[next := row], next + 1);
  }

  // ---------------------------------------------------------------------
  // Rows built from insert shapes (the defaults each `create*` fills in)

  /** `createUser`: not subscribed, not verified, every tier, date and
      token field null, created now. */
  function NewUser(id: int, u: InsertUser, now: int): (r: User)
    ensures r.id == id && r.createdAt == now
    ensures r.username == u.username && r.password == u.password && r.email == u.email && r.fullName == u.fullName
    ensures !r.isSubscribed && r.subscriptionTier.None? && r.subscriptionEndDate.None?
    ensures !r.isVerified && r.verificationToken.None?
    ensures r.resetPasswordToken.None? && r.resetPasswordExpires.None?
  {
    User(id, u.username, u.password, u.email, u.fullName, false, None, None, false, None, None, None, now)
  }

  /** `createGame`: `featured ?? false`. */
  function NewGame(id: int, g: InsertGame): (r: Game)
    ensures r.id == id && r.featured == g.featured.GetOr(false)
    ensures (r.title, r.description, r.imageUrl, r.ageRange, r.gameType, r.route)
         == (g.title, g.description, g.imageUrl, g.ageRange, g.gameType, g.route)
  {
    Game(id, g.title, g.description, g.imageUrl, g.ageRange, g.gameType, g.route, g.featured.GetOr(false))
  }

  /** `createSubscriptionPlan`: `popular ?? false`. */
  function NewPlan(id: int, p: InsertSubscriptionPlan): (r: SubscriptionPlan)
    ensures r.id == id && r.popular == p.popular.GetOr(false)
    ensures (r.name, r.duration, r.price, r.features) == (p.name, p.duration, p.price, p.features)
  {
    SubscriptionPlan(id, p.name, p.duration, p.price, p.features, p.popular.GetOr(false))
  }

  /** `createArabicLetter`: `soundUrl ?? null`. */
  function NewLetter(id: int, l: InsertArabicLetter): (r: ArabicLetter)
    ensures r.id == id && r.soundUrl == l.soundUrl
    ensures (r.letter, r.name, r.examples, r.isolated, r.initial, r.medial, r.final)
         == (l.letter, l.name, l.examples, l.isolated, l.initial, l.medial, l.final)
  {
    ArabicLetter(id, l.letter, l.name, l.soundUrl, l.examples, l.isolated, l.initial, l.medial, l.final)
  }

  /** The row `updateUserProgress` inserts for a new pair. */
  function NewProgress(id: int, p: InsertUserProgress, now: int): (r: UserProgress)
    ensures r.id == id && r.userId == p.userId && r.gameId == p.gameId
    ensures r.score == p.score.GetOr(0) && r.completedLevels == p.completedLevels && r.lastPlayed == now
  {
    UserProgress(id, p.userId, p.gameId, p.score.GetOr(0), p.completedLevels, now)
  }

  /** The row `updateUserProgress` writes over an existing one: same id and
      pair, new score (`?? 0`), levels and play time. */
  function RefreshedProgress(row: UserProgress, p: InsertUserProgress, now: int): (r: UserProgress)
    ensures r.score == p.score.GetOr(0) && r.completedLevels == p.completedLevels && r.lastPlayed == now
    ensures r.(score := row.score, completedLevels := row.completedLevels, lastPlayed := row.lastPlayed) == row
  {
    row.(score := p.score.GetOr(0), completedLevels := p.completedLevels, lastPlayed := now)
  }

  /** The table a sequence of `create*` calls builds from an empty one. */
  function Table<I, R>(inserts: seq<I>, make: (int, I) -> R): (m: map<int, R>)
    ensures Dense(m, |inserts| + 1)
    ensures forall j :: 0 <= j < |inserts| ==> m[j + 1] == make(j + 1, inserts[j])
  {
    if inserts == [] then map[]
    else
      var n := |inserts|;
      Table(inserts[..n - 1], make)[n := make(n, inserts[n - 1])]
  }

  lemma TableSnoc<I, R>(inserts: seq<I>, x: I, make: (int, I) -> R)
    ensures Table(inserts + [x], make) == Table(inserts, make)[|inserts| + 1 := make(|inserts| + 1, x)]
  {
    assert (inserts + [x])[..|inserts|] == inserts;
  }

  // ---------------------------------------------------------------------
  // Single-user updates: each changes its named fields and nothing else

  /** `updateUserSubscription`: always marks the user subscribed. */
  function Subscribed(u: User, tier: string, endDate: int): (v: User)
    ensures v.isSubscribed && v.subscriptionTier == Some(tier) && v.subscriptionEndDate == Some(endDate)
    ensures v.(isSubscribed := u.isSubscribed, subscriptionTier := u.subscriptionTier,
               subscriptionEndDate := u.subscriptionEndDate) == u
  {
    u.(isSubscribed := true, subscriptionTier := Some(tier), subscriptionEndDate := Some(endDate))
  }

  function WithVerificationToken(u: User, token: string): (v: User)
    ensures v.verificationToken == Some(token)
    ensures v.(verificationToken := u.verificationToken) == u
  {
    u.(verificationToken := Some(token))
  }

  /** `verifyUser`: verified, and the verification token is spent. */
  function Verified(u: User): (v: User)
    ensures v.isVerified && v.verificationToken.None?
    ensures v.(isVerified := u.isVerified, verificationToken := u.verificationToken) == u
  {
    u.(isVerified := true, verificationToken := None)
  }

  function WithResetToken(u: User, token: string, expires: int): (v: User)
    ensures v.resetPasswordToken == Some(token) && v.resetPasswordExpires == Some(expires)
    ensures v.(resetPasswordToken := u.resetPasswordToken, resetPasswordExpires := u.resetPasswordExpires) == u
  {
    u.(resetPasswordToken := Some(token), resetPasswordExpires := Some(expires))
  }

  /** `resetPassword`: the new hash, with the reset token and its expiry
      cleared in the same write. */
  function WithNewPassword(u: User, password: string): (v: User)
    ensures v.password == password && v.resetPasswordToken.None? && v.resetPasswordExpires.None?
    ensures v.(password := u.password, resetPasswordToken := u.resetPasswordToken,
               resetPasswordExpires := u.resetPasswordExpires) == u
  {
    u.(password := password, resetPasswordToken := None, resetPasswordExpires := None)
  }

  /** Verifying twice is the same as verifying once. */
  lemma VerifiedIdempotent(u: User)
    ensures Verified(Verified(u)) == Verified(u)
  {
  }

  /** The lookup condition of `getUserByResetPasswordToken`: the token
      matches, an expiry is set, and the current time is before it. */
  predicate ResetTokenLive(u: User, token: string, now: int) {
    u.resetPasswordToken == Some(token) && u.resetPasswordExpires.Some? && now < u.resetPasswordExpires.value
  }

  /** A password reset spends the reset token: no token is live for the
      user afterwards, at any time. */
  lemma ResetPasswordSpendsToken(u: User, password: string, token: string, now: int)
    ensures !ResetTokenLive(WithNewPassword(u, password), token, now)
  {
  }

  /** Setting a reset token opens exactly the window before its expiry. */
  lemma ResetTokenWindow(u: User, token: string, expires: int, now: int)
    ensures ResetTokenLive(WithResetToken(u, token, expires), token, now) <==> now < expires
  {
  }

  // ---------------------------------------------------------------------
  // The fixed catalogue `seedInitialData` inserts (storage.ts, lines 318-532).
  // The JSON columns hold the text `JSON.stringify` produces for the lists.

  const SeedPlans: seq<InsertSubscriptionPlan> := [
    InsertSubscriptionPlan("اشتراك شهري", 1, 30, "[\"وصول كامل لجميع الألعاب\",\"تتبع تقدم التعلم\",\"دعم فني أساسي\"]", Some(false)),
    InsertSubscriptionPlan("اشتراك 6 أشهر", 6, 150, "[\"وصول كامل لجميع الألعاب\",\"تتبع تقدم التعلم\",\"دعم فني متميز\",\"تقارير متقدمة للأداء\"]", Some(true)),
    InsertSubscriptionPlan("اشتراك سنوي", 12, 300, "[\"وصول كامل لجميع الألعاب\",\"تتبع تقدم التعلم\",\"دعم فني ممتاز على مدار الساعة\",\"تقارير متقدمة للأداء\",\"خصم 20% على المحتوى الإضافي\"]", Some(false))
  ]

  const SeedGames: seq<InsertGame> := [
    InsertGame("تعلم الحروف", "ساعد طفلك على تعلم الحروف العربية بطريقة تفاعلية ممتعة مع أصوات نطق الحروف.", "https://images.pexels.com/photos/3893739/pexels-photo-3893739.jpeg", "3-6 سنوات", "حروف", "/games/letters", Some(true)),
    InsertGame("لعبة الكلمات", "ساعد طفلك على تكوين الكلمات العربية وفهم معانيها من خلال ألعاب تفاعلية ممتعة.", "https://images.pexels.com/photos/3662667/pexels-photo-3662667.jpeg", "6-9 سنوات", "كلمات", "/games/words", Some(false)),
    InsertGame("قصص تفاعلية", "اسمع وشاهد قصص عربية تفاعلية مع أنشطة تساعد على تنمية مهارات القراءة والفهم.", "https://images.pexels.com/photos/4260325/pexels-photo-4260325.jpeg", "5-12 سنة", "قصص", "/games/stories", Some(false)),
    InsertGame("تعلم الأرقام", "لعبة للتعرف على الأرقام العربية وتعلم العد والعمليات الحسابية الأساسية.", "https://images.pexels.com/photos/4144144/pexels-photo-4144144.jpeg", "4-8 سنوات", "أرقام", "/games/numbers", Some(true)),
    InsertGame("تحدي الإملاء", "لعبة تعليمية تساعد على تحسين مهارات الإملاء والكتابة باللغة العربية.", "https://images.pexels.com/photos/3992943/pexels-photo-3992943.jpeg", "7-12 سنة", "إملاء", "/games/spelling", Some(false)),
    InsertGame("ألغاز لغوية", "مجموعة من الألغاز اللغوية التفاعلية التي تساعد على إثراء المفردات وتنمية التفكير.", "https://images.pexels.com/photos/7676393/pexels-photo-7676393.jpeg", "8-14 سنة", "ألغاز", "/games/puzzles", Some(false))
  ]

  const SeedLetters: seq<InsertArabicLetter> := [
    InsertArabicLetter("ا", "ألف", Some("/sounds/alif.mp3"), "[{\"word\":\"أَمير\",\"translation\":\"Prince\"},{\"word\":\"أَسَد\",\"translation\":\"Lion\"},{\"word\":\"أُم\",\"translation\":\"Mother\"}]", "ا", "ا", "ـا", "ـا"),
    InsertArabicLetter("ب", "باء", Some("/sounds/ba.mp3"), "[{\"word\":\"بَيت\",\"translation\":\"House\"},{\"word\":\"باب\",\"translation\":\"Door\"},{\"word\":\"كِتاب\",\"translation\":\"Book\"}]", "ب", "بـ", "ـبـ", "ـب"),
    InsertArabicLetter("ت", "تاء", Some("/sounds/ta.mp3"), "[{\"word\":\"تُفاح\",\"translation\":\"Apple\"},{\"word\":\"تَمر\",\"translation\":\"Date (fruit)\"},{\"word\":\"بِنت\",\"translation\":\"Girl\"}]", "ت", "تـ", "ـتـ", "ـت"),
    InsertArabicLetter("ث", "ثاء", Some("/sounds/tha.mp3"), "[{\"word\":\"ثَلاثة\",\"translation\":\"Three\"},{\"word\":\"ثَعلب\",\"translation\":\"Fox\"},{\"word\":\"مُثَلَّث\",\"translation\":\"Triangle\"}]", "ث", "ثـ", "ـثـ", "ـث"),
    InsertArabicLetter("ج", "جيم", Some("/sounds/jim.mp3"), "[{\"word\":\"جَمَل\",\"translation\":\"Camel\"},{\"word\":\"جَبَل\",\"translation\":\"Mountain\"},{\"word\":\"دَجاج\",\"translation\":\"Chicken\"}]", "ج", "جـ", "ـجـ", "ـج"),
    InsertArabicLetter("ح", "حاء", Some("/sounds/ha.mp3"), "[{\"word\":\"حُب\",\"translation\":\"Love\"},{\"word\":\"حَمامة\",\"translation\":\"Dove\"},{\"word\":\"مِفتاح\",\"translation\":\"Key\"}]", "ح", "حـ", "ـحـ", "ـح"),
    InsertArabicLetter("خ", "خاء", Some("/sounds/kha.mp3"), "[{\"word\":\"خُبز\",\"translation\":\"Bread\"},{\"word\":\"خَيمة\",\"translation\":\"Tent\"},{\"word\":\"مَطبَخ\",\"translation\":\"Kitchen\"}]", "خ", "خـ", "ـخـ", "ـخ"),
    InsertArabicLetter("د", "دال", Some("/sounds/dal.mp3"), "[{\"word\":\"دَرس\",\"translation\":\"Lesson\"},{\"word\":\"دُب\",\"translation\":\"Bear\"},{\"word\":\"وَلَد\",\"translation\":\"Boy\"}]", "د", "د", "ـد", "ـد")
  ]

  /** The catalogue: three plans, six games, eight letters. */
  lemma SeedSizes()
    ensures |SeedPlans| == 3 && |SeedGames| == 6 && |SeedLetters| == 8
  {
  }

  // ---------------------------------------------------------------------
  // The store

  class MemStorage {
    var users: map<int, User>
    var games: map<int, Game>
    var subscriptionPlans: map<int, SubscriptionPlan>
    var arabicLetters: map<int, ArabicLetter>
    var userProgress: map<int, UserProgress>

    /** The next id each table hands out. */
    var userId: int
    var gameId: int
    var planId: int
    var letterId: int
    var progressId: int

    ghost predicate Valid()
      reads this
    {
      && Dense(users, userId) && UsersKeyed(users)
      && Dense(games, gameId) && GamesKeyed(games)
      && Dense(subscriptionPlans, planId) && PlansKeyed(subscriptionPlans)
      && Dense(arabicLetters, letterId) && LettersKeyed(arabicLetters)
      && Dense(userProgress, progressId) && ProgressKeyed(userProgress)
      && OneRowPerPair(userProgress)
    }

    /** Only the tables flagged (with their counters) differ from the
        pre-state. */
    twostate predicate ChangedAtMost(userTable: bool := false, gameTable: bool := false, planTable: bool := false,
                                     letterTable: bool := false, progressTable: bool := false)
      reads this
    {
      && (!userTable ==> users == old(users) && userId == old(userId))
      && (!gameTable ==> games == old(games) && gameId == old(gameId))
      && (!planTable ==> subscriptionPlans == old(subscriptionPlans) && planId == old(planId))
      && (!letterTable ==> arabicLetters == old(arabicLetters) && letterId == old(letterId))
      && (!progressTable ==> userProgress == old(userProgress) && progressId == old(progressId))
    }

    constructor ()
      ensures Valid()
      ensures users == map[] && games == map[] && subscriptionPlans == map[]
      ensures arabicLetters == map[] && userProgress == map[]
      ensures userId == 1 && gameId == 1 && planId == 1 && letterId == 1 && progressId == 1
    {
      users, games, subscriptionPlans, arabicLetters, userProgress := map[], map[], map[], map[], map[];
      userId, gameId, planId, letterId, progressId := 1, 1, 1, 1, 1;
    }

    // ----- Users

    /** `getUser`: present exactly for the ids handed out so far. */
    function GetUser(id: int): (r: Option<User>)
      reads this
      requires Valid()
      ensures r.Some? <==> 1 <= id < userId
      ensures r.Some? ==> r.value.id == id && r.value == users[id]
    {
      if id in users then Some(users[id]) else None
    }

    /** The user with the least id satisfying `p` (`find` over the users). */
    function FirstUser(p: User -> bool): (r: Option<User>)
      reads this
      requires Valid()
      ensures r.None? <==> forall k :: k in users ==> !p(users[k])
      ensures r.Some? ==> r.value.id in users && users[r.value.id] == r.value && p(r.value)
      ensures r.Some? ==> forall k :: 1 <= k < r.value.id ==> !p(users[k])
    {
      FirstRow(users, userId, p)
    }

    function GetUserByUsername(username: string): (r: Option<User>)
      reads this
      requires Valid()
      ensures r.None? <==> forall k :: k in users ==> users[k].username != username
      ensures r.Some? ==> r.value.id in users && users[r.value.id] == r.value && r.value.username == username
      ensures r.Some? ==> forall k :: 1 <= k < r.value.id ==> users[k].username != username
    {
      FirstUser((u: User) => u.username == username)
    }

    function GetUserByEmail(email: string): (r: Option<User>)
      reads this
      requires Valid()
      ensures r.None? <==> forall k :: k in users ==> users[k].email != email
      ensures r.Some? ==> r.value.id in users && users[r.value.id] == r.value && r.value.email == email
      ensures r.Some? ==> forall k :: 1 <= k < r.value.id ==> users[k].email != email
    {
      FirstUser((u: User) => u.email == email)
    }

    function GetUserByVerificationToken(token: string): (r: Option<User>)
      reads this
      requires Valid()
      ensures r.None? <==> forall k :: k in users ==> users[k].verificationToken != Some(token)
      ensures r.Some? ==> r.value.id in users && users[r.value.id] == r.value && r.value.verificationToken == Some(token)
      ensures r.Some? ==> forall k :: 1 <= k < r.value.id ==> users[k].verificationToken != Some(token)
    {
      FirstUser((u: User) => u.verificationToken == Some(token))
    }

    /** Only a live token resolves: a matching token whose expiry is absent
        or not after `now` yields nothing. */
    function GetUserByResetPasswordToken(token: string, now: int): (r: Option<User>)
      reads this
      requires Valid()
      ensures r.None? <==> forall k :: k in users ==> !ResetTokenLive(users[k], token, now)
      ensures r.Some? ==> r.value.id in users && users[r.value.id] == r.value
      ensures r.Some? ==> r.value.resetPasswordToken == Some(token) && r.value.resetPasswordExpires.Some?
                          && now < r.value.resetPasswordExpires.value
      ensures r.Some? ==> forall k :: 1 <= k < r.value.id ==> !ResetTokenLive(users[k], token, now)
    {
      FirstUser((u: User) => ResetTokenLive(u, token, now))
    }

    /** `createUser`: the next user id, the defaults of `NewUser`, one new
        row. Uniqueness of username and email is left to the caller, as in
        the source. */
    method CreateUser(insertUser: InsertUser, now: int) returns (user: User)
      requires Valid()
      modifies this
      ensures Valid() && ChangedAtMost(userTable := true)
      ensures user == NewUser(old(userId), insertUser, now) && user.id !in old(users)
      ensures users == old(users)[user.id := user] && userId == old(userId) + 1
    {
      var id := userId;
      userId := userId + 1;
      user := NewUser(id, insertUser, now);
      users := users[id := user];
    }

    /** Shared shape of the five updates by id: an unknown id changes
        nothing and yields None; a known one rewrites that one row. */
    twostate predicate UpdatedOne(id: int, new r: Option<User>, v: User)
      reads this
    {
      if id in old(users)
      then r == Some(v) && users == old(users)[id := v] && ChangedAtMost(userTable := true) && userId == old(userId)
      else r.None? && ChangedAtMost()
    }

    method UpdateUserSubscription(id: int, tier: string, endDate: int) returns (r: Option<User>)
      requires Valid()
      modifies this
      ensures Valid()
      ensures id in old(users) ==> UpdatedOne(id, r, Subscribed(old(users)[id], tier, endDate))
      ensures id !in old(users) ==> r.None? && ChangedAtMost()
    {
      var user := GetUser(id);
      if user.None? {
        return None;
      }
      var updated := Subscribed(user.value, tier, endDate);
      users := users[id := updated];
      r := Some(updated);
    }

    method SetVerificationToken(id: int, token: string) returns (r: Option<User>)
      requires Valid()
      modifies this
      ensures Valid()
      ensures id in old(users) ==> UpdatedOne(id, r, WithVerificationToken(old(users)[id], token))
      ensures id !in old(users) ==> r.None? && ChangedAtMost()
    {
      var user := GetUser(id);
      if user.None? {
        return None;
      }
      var updated := WithVerificationToken(user.value, token);
      users := users[id := updated];
      r := Some(updated);
    }

    /** `verifyUser`; afterwards no verification token leads to this user. */
    method VerifyUser(id: int) returns (r: Option<User>)
      requires Valid()
      modifies this
      ensures Valid()
      ensures id in old(users) ==> UpdatedOne(id, r, Verified(old(users)[id]))
      ensures id !in old(users) ==> r.None? && ChangedAtMost()
      ensures id in old(users) ==> forall t :: GetUserByVerificationToken(t).None? || GetUserByVerificationToken(t).value.id != id
    {
      var user := GetUser(id);
      if user.None? {
        return None;
      }
      var updated := Verified(user.value);
      users := users[id := updated];
      r := Some(updated);
    }

    /** `setResetPasswordToken`; afterwards the token resolves (to this user
        or an earlier one holding the same token) exactly until `expires`,
        as far as this user is concerned. */
    method SetResetPasswordToken(id: int, token: string, expires: int) returns (r: Option<User>)
      requires Valid()
      modifies this
      ensures Valid()
      ensures id in old(users) ==> UpdatedOne(id, r, WithResetToken(old(users)[id], token, expires))
      ensures id !in old(users) ==> r.None? && ChangedAtMost()
      ensures id in old(users) ==> forall now :: now < expires ==> GetUserByResetPasswordToken(token, now).Some?
      ensures id in old(users) ==> forall now :: now >= expires ==>
                GetUserByResetPasswordToken(token, now).None? || GetUserByResetPasswordToken(token, now).value.id != id
    {
      var user := GetUser(id);
      if user.None? {
        return None;
      }
      var updated := WithResetToken(user.value, token, expires);
      users := users[id := updated];
      r := Some(updated);
      assert forall now :: now < expires ==> ResetTokenLive(users[id], token, now);
    }

    /** `resetPassword`; afterwards no reset token leads to this user, so a
        reset token is good for one use. */
    method ResetPassword(id: int, password: string) returns (r: Option<User>)
      requires Valid()
      modifies this
      ensures Valid()
      ensures id in old(users) ==> UpdatedOne(id, r, WithNewPassword(old(users)[id], password))
      ensures id !in old(users) ==> r.None? && ChangedAtMost()
      ensures id in old(users) ==> forall t, now ::
                GetUserByResetPasswordToken(t, now).None? || GetUserByResetPasswordToken(t, now).value.id != id
    {
      var user := GetUser(id);
      if user.None? {
        return None;
      }
      var updated := WithNewPassword(user.value, password);
      users := users[id := updated];
      r := Some(updated);
    }

    // ----- Games

    /** `getAllGames`: every game, in id order. */
    function GetAllGames(): (r: seq<Game>)
      reads this
      requires Valid()
      ensures |r| == |games| == gameId - 1
      ensures forall i :: 0 <= i < |r| ==> r[i] == games[i + 1] && r[i].id == i + 1
    {
      DenseSize(games, gameId);
      Rows(games, gameId)
    }

    function GetGameById(id: int): (r: Option<Game>)
      reads this
      requires Valid()
      ensures r.Some? <==> 1 <= id < gameId
      ensures r.Some? ==> r.value.id == id && r.value == games[id]
    {
      if id in games then Some(games[id]) else None
    }

    /** `getFeaturedGames`: exactly the featured games, in id order. */
    function GetFeaturedGames(): (r: seq<Game>)
      reads this
      requires Valid()
      ensures forall g :: g in r <==> g in games.Values && g.featured
      ensures IsSublist(r, GetAllGames())
    {
      var all := GetAllGames();
      var featured := (g: Game) => g.featured;
      FilterIsSublist(all, featured);
      RowsAreValues(games, gameId);
      Filter(all, featured)
    }

    method CreateGame(insertGame: InsertGame) returns (game: Game)
      requires Valid()
      modifies this
      ensures Valid() && ChangedAtMost(gameTable := true)
      ensures game == NewGame(old(gameId), insertGame) && game.id !in old(games)
      ensures games == old(games)[game.id := game] && gameId == old(gameId) + 1
    {
      var id := gameId;
      gameId := gameId + 1;
      game := NewGame(id, insertGame);
      games := games[id := game];
    }

    // ----- Subscription plans

    function GetAllSubscriptionPlans(): (r: seq<SubscriptionPlan>)
      reads this
      requires Valid()
      ensures |r| == |subscriptionPlans| == planId - 1
      ensures forall i :: 0 <= i < |r| ==> r[i] == subscriptionPlans[i + 1] && r[i].id == i + 1
    {
      DenseSize(subscriptionPlans, planId);
      Rows(subscriptionPlans, planId)
    }

    function GetSubscriptionPlanById(id: int): (r: Option<SubscriptionPlan>)
      reads this
      requires Valid()
      ensures r.Some? <==> 1 <= id < planId
      ensures r.Some? ==> r.value.id == id && r.value == subscriptionPlans[id]
    {
      if id in subscriptionPlans then Some(subscriptionPlans[id]) else None
    }

    method CreateSubscriptionPlan(insertPlan: InsertSubscriptionPlan) returns (plan: SubscriptionPlan)
      requires Valid()
      modifies this
      ensures Valid() && ChangedAtMost(planTable := true)
      ensures plan == NewPlan(old(planId), insertPlan) && plan.id !in old(subscriptionPlans)
      ensures subscriptionPlans == old(subscriptionPlans)[plan.id := plan] && planId == old(planId) + 1
    {
      var id := planId;
      planId := planId + 1;
      plan := NewPlan(id, insertPlan);
      subscriptionPlans := subscriptionPlans[id := plan];
    }

    // ----- Arabic letters

    function GetAllArabicLetters(): (r: seq<ArabicLetter>)
      reads this
      requires Valid()
      ensures |r| == |arabicLetters| == letterId - 1
      ensures forall i :: 0 <= i < |r| ==> r[i] == arabicLetters[i + 1] && r[i].id == i + 1
    {
      DenseSize(arabicLetters, letterId);
      Rows(arabicLetters, letterId)
    }

    function GetArabicLetterById(id: int): (r: Option<ArabicLetter>)
      reads this
      requires Valid()
      ensures r.Some? <==> 1 <= id < letterId
      ensures r.Some? ==> r.value.id == id && r.value == arabicLetters[id]
    {
      if id in arabicLetters then Some(arabicLetters[id]) else None
    }

    /** `getArabicLetterByLetter`: the earliest row for that glyph. */
    function GetArabicLetterByLetter(letter: string): (r: Option<ArabicLetter>)
      reads this
      requires Valid()
      ensures r.None? <==> forall k :: k in arabicLetters ==> arabicLetters[k].letter != letter
      ensures r.Some? ==> r.value.id in arabicLetters && arabicLetters[r.value.id] == r.value && r.value.letter == letter
      ensures r.Some? ==> forall k :: 1 <= k < r.value.id ==> arabicLetters[k].letter != letter
    {
      FirstRow(arabicLetters, letterId, (l: ArabicLetter) => l.letter == letter)
    }

    method CreateArabicLetter(insertLetter: InsertArabicLetter) returns (letter: ArabicLetter)
      requires Valid()
      modifies this
      ensures Valid() && ChangedAtMost(letterTable := true)
      ensures letter == NewLetter(old(letterId), insertLetter) && letter.id !in old(arabicLetters)
      ensures arabicLetters == old(arabicLetters)[letter.id := letter] && letterId == old(letterId) + 1
    {
      var id := letterId;
      letterId := letterId + 1;
      letter := NewLetter(id, insertLetter);
      arabicLetters := arabicLetters[id := letter];
    }

    // ----- User progress

    /** `getUserProgress`: exactly the rows of that user, in id order. */
    function GetUserProgress(uid: int): (r: seq<UserProgress>)
      reads this
      requires Valid()
      ensures forall p :: p in r <==> p in userProgress.Values && p.userId == uid
      ensures IsSublist(r, Rows(userProgress, progressId))
    {
      var all := Rows(userProgress, progressId);
      var mine := (p: UserProgress) => p.userId == uid;
      RowsAreValues(userProgress, progressId);
      FilterIsSublist(all, mine);
      Filter(all, mine)
    }

    /** The progress row of one (user, game) pair, if there is one. */
    function ProgressRow(uid: int, gid: int): (r: Option<UserProgress>)
      reads this
      requires Valid()
      ensures r.None? <==> forall k :: k in userProgress ==> userProgress[k].userId != uid || userProgress[k].gameId != gid
      ensures r.Some? ==> r.value.id in userProgress && userProgress[r.value.id] == r.value
      ensures r.Some? ==> r.value.userId == uid && r.value.gameId == gid
    {
      FirstRow(userProgress, progressId, (p: UserProgress) => p.userId == uid && p.gameId == gid)
    }

    /** `updateUserProgress`: an upsert keyed by (userId, gameId). An
        existing row is rewritten under its own id; otherwise one row is
        added under the next progress id. Either way the table keeps at most
        one row per pair and grows by at most one row. */
    method UpdateUserProgress(insertProgress: InsertUserProgress, now: int) returns (row: UserProgress)
      requires Valid()
      modifies this
      ensures Valid() && ChangedAtMost(progressTable := true)
      ensures row.userId == insertProgress.userId && row.gameId == insertProgress.gameId
      ensures row.score == insertProgress.score.GetOr(0) && row.completedLevels == insertProgress.completedLevels
      ensures row.lastPlayed == now
      ensures userProgress == old(userProgress)[row.id := row]
      ensures old(ProgressRow(insertProgress.userId, insertProgress.gameId)).Some? ==>
                row == RefreshedProgress(old(ProgressRow(insertProgress.userId, insertProgress.gameId)).value, insertProgress, now)
                && progressId == old(progressId)
      ensures old(ProgressRow(insertProgress.userId, insertProgress.gameId)).None? ==>
                row == NewProgress(old(progressId), insertProgress, now) && row.id !in old(userProgress)
                && progressId == old(progressId) + 1
      ensures |userProgress| <= |old(userProgress)| + 1
    {
      var existing := ProgressRow(insertProgress.userId, insertProgress.gameId);
      if existing.Some? {
        row := RefreshedProgress(existing.value, insertProgress, now);
        RewriteKeepsProgressTable(userProgress, progressId, row);
        userProgress := userProgress[row.id := row];
        return;
      }
      var id := progressId;
      row := NewProgress(id, insertProgress, now);
      AppendKeepsProgressTable(userProgress, progressId, row);
      progressId := progressId + 1;
      userProgress := userProgress[id := row];
    }

    // ----- Seed

    ghost predicate Empty()
      reads this
    {
      |games| == 0 && |subscriptionPlans| == 0 && |arabicLetters| == 0
    }

    /** `seedInitialData`: a no-op unless the games, plans and letters
        tables are all empty; on an empty catalogue it adds the three plans,
        six games and eight letters of the fixed catalogue, in order. */
    method SeedInitialData()
      requires Valid()
      modifies this
      ensures Valid()
      ensures !old(Empty()) ==> ChangedAtMost()
      ensures old(Empty()) ==> ChangedAtMost(gameTable := true, planTable := true, letterTable := true)
      ensures old(Empty()) ==> subscriptionPlans == Table(SeedPlans, NewPlan) && planId == 4
      ensures old(Empty()) ==> games == Table(SeedGames, NewGame) && gameId == 7
      ensures old(Empty()) ==> arabicLetters == Table(SeedLetters, NewLetter) && letterId == 9
      ensures old(Empty()) ==> |subscriptionPlans| == 3 && |games| == 6 && |arabicLetters| == 8
      ensures !Empty()
    {
      SeedSizes();
      SeedCatalogue(SeedPlans, SeedGames, SeedLetters);
    }

    /** The seed on a given catalogue of at least one plan. */
    method SeedCatalogue(plans: seq<InsertSubscriptionPlan>, inserts: seq<InsertGame>, letters: seq<InsertArabicLetter>)
      requires Valid() && plans != []
      modifies this
      ensures Valid()
      ensures !old(Empty()) ==> ChangedAtMost()
      ensures old(Empty()) ==> ChangedAtMost(gameTable := true, planTable := true, letterTable := true)
      ensures old(Empty()) ==> subscriptionPlans == Table(plans, NewPlan) && planId == |plans| + 1
      ensures old(Empty()) ==> games == Table(inserts, NewGame) && gameId == |inserts| + 1
      ensures old(Empty()) ==> arabicLetters == Table(letters, NewLetter) && letterId == |letters| + 1
      ensures old(Empty()) ==> |subscriptionPlans| == |plans| && |games| == |inserts| && |arabicLetters| == |letters|
      ensures !Empty()
    {
      if |games| > 0 || |subscriptionPlans| > 0 || |arabicLetters| > 0 {
        return;
      }
      assert planId == 1 && gameId == 1 && letterId == 1 by {
        DenseSize(games, gameId);
        DenseSize(subscriptionPlans, planId);
        DenseSize(arabicLetters, letterId);
      }
      CreatePlans(plans);
      CreateGames(inserts);
      CreateLetters(letters);
      DenseSize(games, gameId);
      DenseSize(subscriptionPlans, planId);
      DenseSize(arabicLetters, letterId);
    }

    /** Consecutive `createSubscriptionPlan` calls on an empty plan table. */
    method CreatePlans(plans: seq<InsertSubscriptionPlan>)
      requires Valid() && planId == 1
      modifies this
      ensures Valid() && ChangedAtMost(planTable := true)
      ensures subscriptionPlans == Table(plans, NewPlan) && planId == |plans| + 1
    {
      DenseSize(subscriptionPlans, planId);
      assert subscriptionPlans == Table([], NewPlan);
      for i := 0 to |plans|
        invariant Valid() && ChangedAtMost(planTable := true)
        invariant subscriptionPlans == Table(plans[..i], NewPlan) && planId == i + 1
      {
        var _ := CreateSubscriptionPlan(plans[i]);
        TableSnoc(plans[..i], plans[i], NewPlan);
        assert plans[..i + 1] == plans[..i] + [plans[i]];
      }
      assert plans[..|plans|] == plans;
    }

    /** Consecutive `createGame` calls on an empty game table. */
    method CreateGames(inserts: seq<InsertGame>)
      requires Valid() && gameId == 1
      modifies this
      ensures Valid() && ChangedAtMost(gameTable := true)
      ensures games == Table(inserts, NewGame) && gameId == |inserts| + 1
    {
      DenseSize(games, gameId);
      assert games == Table([], NewGame);
      for i := 0 to |inserts|
        invariant Valid() && ChangedAtMost(gameTable := true)
        invariant games == Table(inserts[..i], NewGame) && gameId == i + 1
      {
        var _ := CreateGame(inserts[i]);
        TableSnoc(inserts[..i], inserts[i], NewGame);
        assert inserts[..i + 1] == inserts[..i] + [inserts[i]];
      }
      assert inserts[..|inserts|] == inserts;
    }

    /** The `for (const letter of arabicLetters)` loop of the seed. */
    method CreateLetters(letters: seq<InsertArabicLetter>)
      requires Valid() && letterId == 1
      modifies this
      ensures Valid() && ChangedAtMost(letterTable := true)
      ensures arabicLetters == Table(letters, NewLetter) && letterId == |letters| + 1
    {
      DenseSize(arabicLetters, letterId);
      assert arabicLetters == Table([], NewLetter);
      for i := 0 to |letters|
        invariant Valid() && ChangedAtMost(letterTable := true)
        invariant arabicLetters == Table(letters[..i], NewLetter) && letterId == i + 1
      {
        var _ := CreateArabicLetter(letters[i]);
        TableSnoc(letters[..i], letters[i], NewLetter);
        assert letters[..i + 1] == letters[..i] + [letters[i]];
      }
      assert letters[..|letters|] == letters;
    }
  }

  /** Seeding twice leaves the catalogue as seeding once does. */
  method SeedIsIdempotent(s: MemStorage)
    requires s.Valid()
    modifies s
    ensures s.Valid()
    ensures old(s.Empty()) ==> s.subscriptionPlans == Table(SeedPlans, NewPlan) && s.games == Table(SeedGames, NewGame)
                               && s.arabicLetters == Table(SeedLetters, NewLetter)
    ensures !old(s.Empty()) ==> s.subscriptionPlans == old(s.subscriptionPlans) && s.games == old(s.games)
                                && s.arabicLetters == old(s.arabicLetters)
  {
    s.SeedInitialData();
    var plans, games, letters := s.subscriptionPlans, s.games, s.arabicLetters;
    s.SeedInitialData();
    assert s.subscriptionPlans == plans && s.games == games && s.arabicLetters == letters;
  }

  /** Verifying twice leaves the user as verifying once does. */
  method VerifyIsIdempotent(s: MemStorage, id: int)
    requires s.Valid() && id in s.users
    modifies s
    ensures s.Valid()
    ensures s.users == old(s.users)[id := Verified(old(s.users[id]))] && s.userId == old(s.userId)
  {
    var first := s.VerifyUser(id);
    var second := s.VerifyUser(id);
    VerifiedIdempotent(old(s.users[id]));
    assert first == second && second.value.isVerified && second.value.verificationToken.None?;
  }
}
