/** The stories page: three fixed stories and a level filter. The level
    buttons set the selection to none (all stories) or to 1, 2 or 3. Story
    ratings are kept in tenths (4.8 is 48). */
module Stories {
  import opened Common

  datatype Story = Story(id: int, title: string, level: int, description: string, duration: string,
                         ratingTenths: int, imgUrl: string)

  const AvailableStories: seq<Story> := [
    Story(1, "قصة الأرنب الذكي", 1,
          "قصة مسلية وتعليمية للأطفال عن أرنب صغير يتعلم حروف اللغة العربية",
          "5 دقائق", 48, "https://cdn-icons-png.flaticon.com/512/4677/4677443.png"),
    Story(2, "مغامرات القط سمسم", 1,
          "استكشف مع القط سمسم كيفية تكوين الكلمات والجمل البسيطة باللغة العربية",
          "8 دقائق", 46, "https://cdn-icons-png.flaticon.com/512/4677/4677496.png"),
    Story(3, "الطائر الصغير", 2,
          "قصة ممتعة حول طائر صغير يحاول تعلم الطيران ويتعلم خلال رحلته الحروف والكلمات العربية",
          "7 دقائق", 49, "https://cdn-icons-png.flaticon.com/512/4677/4677485.png")
  ]

  /** `story.level === level`. */
  function AtLevel(level: int): Story -> bool {
    (s: Story) => s.level == level
  }

  /** `selectedLevel ? filter(level === selectedLevel) : all`. The test is
      JavaScript truthiness, so a selected level of 0 counts as no
      selection. */
  function FilteredStories(stories: seq<Story>, selectedLevel: Option<int>): (r: seq<Story>)
    ensures selectedLevel.None? || selectedLevel == Some(0) ==> r == stories
    ensures selectedLevel.Some? && selectedLevel.value != 0 ==>
              forall s :: s in r <==> s in stories && s.level == selectedLevel.value
    ensures IsSublist(r, stories)
  {
    if selectedLevel.Some? && selectedLevel.value != 0 then
      FilterIsSublist(stories, AtLevel(selectedLevel.value));
      Filter(stories, AtLevel(selectedLevel.value))
    else
      FilterIsSublist(stories, (s: Story) => true);
      FilterAll(stories, (s: Story) => true);
      stories
  }

  /** The empty-state panel is shown when nothing passes the filter. */
  predicate ShowsEmptyState(stories: seq<Story>, selectedLevel: Option<int>) {
    FilteredStories(stories, selectedLevel) == []
  }

  /** A level no story has selects nothing. */
  lemma AbsentLevelSelectsNothing(stories: seq<Story>, level: int)
    requires level != 0 && forall s :: s in stories ==> s.level != level
    ensures ShowsEmptyState(stories, Some(level))
  {
    FilterNone(stories, AtLevel(level));
  }

  /** Of the fixed stories, level 3 is empty and shows the empty state,
      while "all" never does. */
  lemma LevelThreeIsEmpty()
    ensures ShowsEmptyState(AvailableStories, Some(3))
    ensures !ShowsEmptyState(AvailableStories, None)
  {
    AbsentLevelSelectsNothing(AvailableStories, 3);
  }

  /** Level 1 shows the first two fixed stories. */
  lemma LevelOneStories()
    ensures FilteredStories(AvailableStories, Some(1)) == AvailableStories[..2]
  {
    var s := AvailableStories;
    assert s == s[..2] + s[2..];
    FilterAppend(s[..2], s[2..], AtLevel(1));
    FilterAll(s[..2], AtLevel(1));
    FilterNone(s[2..], AtLevel(1));
  }

  /** Level 2 shows the third. */
  lemma LevelTwoStories()
    ensures FilteredStories(AvailableStories, Some(2)) == AvailableStories[2..]
  {
    var s := AvailableStories;
    assert s == s[..2] + s[2..];
    FilterAppend(s[..2], s[2..], AtLevel(2));
    FilterNone(s[..2], AtLevel(2));
    FilterAll(s[2..], AtLevel(2));
  }
}
