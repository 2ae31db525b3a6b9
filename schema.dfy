/** Record shapes shared by the server and the client (the rows of the
    users, games, subscription_plans, arabic_letters and user_progress
    tables, and the insert shapes that the storage layer completes).
    Timestamps are integer milliseconds since the epoch; `features`,
    `examples` and `completedLevels` are serialized JSON kept as opaque
    text. */
module Schema {
  import opened Common

  datatype User = User(
    id: int,
    username: string,
    password: string,            // already hashed by the caller
    email: string,
    fullName: string,
    isSubscribed: bool,
    subscriptionTier: Option<string>,
    subscriptionEndDate: Option<int>,
    isVerified: bool,
    verificationToken: Option<string>,
    resetPasswordToken: Option<string>,
    resetPasswordExpires: Option<int>,
    createdAt: int)

  /** What registration supplies: the four picked columns. */
  datatype InsertUser = InsertUser(username: string, password: string, email: string, fullName: string)

  datatype Game = Game(
    id: int,
    title: string,
    description: string,
    imageUrl: string,
    ageRange: string,
    gameType: string,
    route: string,
    featured: bool)

  /** Every column but the id; `featured` may be omitted or null. */
  datatype InsertGame = InsertGame(
    title: string,
    description: string,
    imageUrl: string,
    ageRange: string,
    gameType: string,
    route: string,
    featured: Option<bool>)

  datatype SubscriptionPlan = SubscriptionPlan(
    id: int,
    name: string,
    duration: int,               // months
    price: int,                  // whole currency units
    features: string,            // JSON list of feature lines
    popular: bool)

  datatype InsertSubscriptionPlan = InsertSubscriptionPlan(
    name: string,
    duration: int,
    price: int,
    features: string,
    popular: Option<bool>)

  datatype ArabicLetter = ArabicLetter(
    id: int,
    letter: string,
    name: string,
    soundUrl: Option<string>,
    examples: string,            // JSON list of {word, translation}
    isolated: string,
    initial: string,
    medial: string,
    final: string)

  /** `soundUrl` may be omitted or null; both read as None. */
  datatype InsertArabicLetter = InsertArabicLetter(
    letter: string,
    name: string,
    soundUrl: Option<string>,
    examples: string,
    isolated: string,
    initial: string,
    medial: string,
    final: string)

  datatype UserProgress = UserProgress(
    id: int,
    userId: int,
    gameId: int,
    score: int,
    completedLevels: string,     // JSON progress descriptor
    lastPlayed: int)

  /** Every column but the id; `score` may be omitted. A supplied
      `lastPlayed` is always overwritten by the store, so it is not kept. */
  datatype InsertUserProgress = InsertUserProgress(
    userId: int,
    gameId: int,
    score: Option<int>,
    completedLevels: string)
}
