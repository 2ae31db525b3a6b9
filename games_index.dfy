/** The games index page: the games are grouped by their `gameType`, one
    card per group, each under a heading chosen from the type. */
module GamesIndex {
  import opened Common
  import opened Schema
  import Storage

  /** `game.gameType === t`. */
  function HasType(t: string): Game -> bool {
    (g: Game) => g.gameType == t
  }

  /** The group of type `t`: the games of that type, in list order. */
  function Group(games: seq<Game>, t: string): (r: seq<Game>)
    ensures forall g :: g in r <==> g in games && g.gameType == t
  {
    Filter(games, HasType(t))
  }

  /** The distinct types, in order of first appearance: the order in which
      the grouping loop creates the keys. */
  function TypesInOrder(games: seq<Game>): (r: seq<string>)
    ensures forall t :: t in r <==> exists g :: g in games && g.gameType == t
    decreases |games|
  {
    if games == [] then []
    else
      var init, last := games[..|games| - 1], games[|games| - 1];
      var types := TypesInOrder(init);
      assert forall g :: g in games <==> g in init || g == last by {
        assert games == init + [last];
      }
      if last.gameType in types then types else types + [last.gameType]
  }

  predicate Distinct(ts: seq<string>) {
    forall i, j :: 0 <= i < j < |ts| ==> ts[i] != ts[j]
  }

  lemma {:induction false} TypesAreDistinct(games: seq<Game>)
    ensures Distinct(TypesInOrder(games))
    decreases |games|
  {
    if games != [] {
      TypesAreDistinct(games[..|games| - 1]);
    }
  }

  /** Appending a game to the list appends it to its own group only. */
  lemma GroupSnoc(games: seq<Game>, g: Game, t: string)
    ensures Group(games + [g], t) == Group(games, t) + (if g.gameType == t then [g] else [])
  {
    FilterAppend(games, [g], HasType(t));
    assert Filter([g], HasType(t)) == (if g.gameType == t then [g] else []) by {
      assert [g][1..] == [];
    }
  }

  /** The total size of the groups named by `ts`. */
  function SizeSum(games: seq<Game>, ts: seq<string>): (n: nat)
    decreases |ts|
  {
    if ts == [] then 0 else SizeSum(games, ts[..|ts| - 1]) + |Group(games, ts[|ts| - 1])|
  }

  /** One more game adds one to the total of any list of distinct types
      that contains its type, and nothing otherwise. */
  lemma {:induction false} SizeSumSnoc(games: seq<Game>, g: Game, ts: seq<string>)
    requires Distinct(ts)
    ensures SizeSum(games + [g], ts) == SizeSum(games, ts) + (if g.gameType in ts then 1 else 0)
    decreases |ts|
  {
    if ts != [] {
      var init, last := ts[..|ts| - 1], ts[|ts| - 1];
      assert Distinct(init);
      SizeSumSnoc(games, g, init);
      GroupSnoc(games, g, last);
      assert g.gameType in ts <==> g.gameType in init || g.gameType == last by {
        assert ts == init + [last];
      }
      assert g.gameType == last ==> g.gameType !in init;
    }
  }

  /** A type with no game has an empty group. */
  lemma AbsentTypeEmptyGroup(games: seq<Game>, t: string)
    requires forall g :: g in games ==> g.gameType != t
    ensures Group(games, t) == []
  {
    FilterNone(games, HasType(t));
  }

  /** The group sizes add up to the number of games: every game is in
      exactly one group. */
  lemma {:induction false} GroupSizesSum(games: seq<Game>)
    ensures SizeSum(games, TypesInOrder(games)) == |games|
    decreases |games|
  {
    if games != [] {
      var init, last := games[..|games| - 1], games[|games| - 1];
      assert games == init + [last];
      var types := TypesInOrder(init);
      GroupSizesSum(init);
      TypesAreDistinct(init);
      SizeSumSnoc(init, last, types);
      if last.gameType !in types {
        AbsentTypeEmptyGroup(init, last.gameType);
        GroupSnoc(init, last, last.gameType);
      }
    }
  }

  /** The result of the grouping loop: every key is the type of some game,
      its group holds exactly the games of that type in list order, no
      group is empty, and `keys` lists the keys once each in creation
      order. */
  ghost predicate GroupedBy(games: seq<Game>, groups: map<string, seq<Game>>, keys: seq<string>) {
    keys == TypesInOrder(games) &&
    (forall t :: t in groups <==> t in keys) &&
    (forall t :: t in groups ==> groups[t] == Group(games, t))
  }

  /** One iteration of the grouping loop keeps `GroupedBy`: a new type gets
      an empty group and a key, then the game is pushed onto its group. */
  lemma GroupStep(games: seq<Game>, game: Game, groups: map<string, seq<Game>>, keys: seq<string>)
    requires GroupedBy(games, groups, keys)
    ensures var t := game.gameType;
            var started := if t in groups then groups else groups[t := []];
            GroupedBy(games + [game], started[t := started[t] + [game]], if t in groups then keys else keys + [t])
  {
    var t := game.gameType;
    var started := if t in groups then groups else groups[t := []];
    var groups' := started[t := started[t] + [game]];
    var keys' := if t in groups then keys else keys + [t];
    assert keys' == TypesInOrder(games + [game]) by {
      assert (games + [game])[..|games|] == games;
      assert (games + [game])[|games|] == game;
    }
    forall u | u in groups' ensures groups'[u] == Group(games + [game], u) {
      GroupSnoc(games, game, u);
      if u == t && t !in groups {
        AbsentTypeEmptyGroup(games, t);
      }
    }
    assert forall u :: u in groups' <==> u in keys';
  }

  /** `gameGroups`: `forEach` over the games, creating the group of a type
      the first time it is seen and pushing the game onto it. */
  method GroupGames(allGames: seq<Game>) returns (groups: map<string, seq<Game>>, keys: seq<string>)
    ensures GroupedBy(allGames, groups, keys)
  {
    groups, keys := map[], [];
    for i := 0 to |allGames|
      invariant GroupedBy(allGames[..i], groups, keys)
    {
      var game := allGames[i];
      assert allGames[..i + 1] == allGames[..i] + [game];
      GroupStep(allGames[..i], game, groups, keys);
      if game.gameType !in groups {
        groups := groups[game.gameType := []];
        keys := keys + [game.gameType];
      }
      groups := groups[game.gameType := groups[game.gameType] + [game]];
    }
    assert allGames[..|allGames|] == allGames;
  }

  /** What the grouping promises, for any grouping the loop produces: every
      game sits in the group of its type, every group member has the group's
      type and appears in the list, groups keep list order, no group is
      empty, and the sizes add up to the number of games. */
  lemma GroupingFacts(games: seq<Game>, groups: map<string, seq<Game>>, keys: seq<string>)
    requires GroupedBy(games, groups, keys)
    ensures forall g :: g in games ==> g.gameType in groups && g in groups[g.gameType]
    ensures forall t, g :: t in groups && g in groups[t] ==> g.gameType == t && g in games
    ensures forall t :: t in groups ==> IsSublist(groups[t], games) && groups[t] != []
    ensures SizeSum(games, keys) == |games|
  {
    forall t | t in groups ensures IsSublist(groups[t], games) && groups[t] != [] {
      FilterIsSublist(games, HasType(t));
      var g :| g in games && g.gameType == t;
      assert g in groups[t];
    }
    GroupSizesSum(games);
  }

  // ---------------------------------------------------------------------
  // Headings

  /** The card heading: fixed titles for "letters", "words" and "stories",
      and "ألعاب " followed by the type for any other type. */
  function GroupHeading(t: string): (h: string)
    ensures t == "letters" ==> h == "حروف الألف والباء"
    ensures t == "words" ==> h == "حروف التاء والثاء"
    ensures t == "stories" ==> h == "حروف الجيم والحاء والخاء"
    ensures t !in {"letters", "words", "stories"} ==> h == "ألعاب " + t
  {
    if t == "letters" then "حروف الألف والباء"
    else if t == "words" then "حروف التاء والثاء"
    else if t == "stories" then "حروف الجيم والحاء والخاء"
    else "ألعاب " + t
  }

  /** Different types get different headings, so no two cards share one. */
  lemma HeadingsDistinct(a: string, b: string)
    requires a != b
    ensures GroupHeading(a) != GroupHeading(b)
  {
    var fixed := {"letters", "words", "stories"};
    if a !in fixed && b !in fixed {
      assert GroupHeading(a)[6..] == a && GroupHeading(b)[6..] == b;
    } else if a !in fixed {
      assert GroupHeading(a)[0] == 'أ' && GroupHeading(b)[0] == 'ح';
    } else if b !in fixed {
      assert GroupHeading(b)[0] == 'أ' && GroupHeading(a)[0] == 'ح';
    }
  }

  /** The catalogue the store seeds uses Arabic type names, none of them a
      fixed-title type, so every seeded card gets the generic heading. */
  lemma SeededTypesUseGenericHeading(k: int)
    requires 0 <= k < |Storage.SeedGames|
    ensures GroupHeading(Storage.SeedGames[k].gameType) == "ألعاب " + Storage.SeedGames[k].gameType
  {
  }
}
