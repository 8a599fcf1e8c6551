/**
 * The study-tips browser: a fixed list of tips, a row of category buttons that
 * filters the list (the id "all" shows every tip), and tips that expand to show
 * their description when pressed, one at a time.
 */
module StudyTips {
  import opened Wrappers

  datatype Category = Focus | Organization | Retention | Wellness

  /** The string a tip's category is stored as, and the id of its filter button. */
  function CategoryId(c: Category): string {
    match c
    case Focus => "focus"
    case Organization => "organization"
    case Retention => "retention"
    case Wellness => "wellness"
  }

  /** The id of the button that shows every tip. */
  const AllId: string := "all"

  datatype StudyTip = StudyTip(id: string, title: string, description: string, icon: string, category: Category)

  const Tips: seq<StudyTip> := [
    StudyTip("1", "Create a Dedicated Study Space",
      "Find a quiet, well-lit area free from distractions. Keep it organized and comfortable.",
      "home", Organization),
    StudyTip("2", "Use Active Recall Techniques",
      "Test yourself instead of just re-reading. Use flashcards, practice questions, or explain concepts to others.",
      "lightbulb-o", Retention),
    StudyTip("3", "Take Regular Breaks",
      "Follow the Pomodoro technique: 25 minutes of focused study, then 5-minute breaks.",
      "clock-o", Focus),
    StudyTip("4", "Review Material Regularly",
      "Spaced repetition helps information stick. Review notes within 24 hours, then weekly.",
      "refresh", Retention),
    StudyTip("5", "Stay Hydrated and Rested",
      "Your brain needs water and sleep to function optimally. Aim for 7-9 hours of sleep.",
      "heart", Wellness),
    StudyTip("6", "Eliminate Distractions",
      "Put your phone on silent, close unnecessary tabs, and use apps like Forest to stay focused.",
      "ban", Focus)
  ]

  /** A filter button: its id is what selecting it stores. */
  datatype CategoryButton = CategoryButton(id: string, name: string, icon: string)

  const Buttons: seq<CategoryButton> := [
    CategoryButton(AllId, "All Tips", "list"),
    CategoryButton("focus", "Focus", "crosshairs"),
    CategoryButton("organization", "Organization", "folder"),
    CategoryButton("retention", "Retention", "brain"),
    CategoryButton("wellness", "Wellness", "heart")
  ]

  /** The categories in the order of their buttons. */
  const Categories: seq<Category> := [Focus, Organization, Retention, Wellness]

  /**
   * The first button selects "all", each later one selects the category in the same
   * place of `Categories`, and that list names every category: no button stores an
   * id the filter does not know, and every category can be selected.
   */
  lemma ButtonsSelectKnownFilters()
    ensures |Buttons| == |Categories| + 1 && Buttons[0].id == AllId
    ensures forall i :: 1 <= i < |Buttons| ==> Buttons[i].id == CategoryId(Categories[i - 1])
    ensures forall c :: c in Categories
  {
    forall c
      ensures c in Categories
    {
      match c
      case Focus => assert Categories[0] == c;
      case Organization => assert Categories[1] == c;
      case Retention => assert Categories[2] == c;
      case Wellness => assert Categories[3] == c;
    }
  }

  /** `a` is `b` with some elements left out, the rest in their original order. */
  predicate IsSubsequence<T(==)>(a: seq<T>, b: seq<T>)
    decreases |b|
  {
    if a == [] then true
    else if b == [] then false
    else if a[0] == b[0] then IsSubsequence(a[1..], b[1..])
    else IsSubsequence(a, b[1..])
  }

  predicate DistinctIds(tips: seq<StudyTip>) {
    forall i, j :: 0 <= i < j < |tips| ==> tips[i].id != tips[j].id
  }

  /** `tips.filter(tip => tip.category === category)`. */
  function FilterByCategory(tips: seq<StudyTip>, category: string): (r: seq<StudyTip>)
    ensures forall t :: t in r ==> t in tips && CategoryId(t.category) == category
    ensures forall t :: t in tips && CategoryId(t.category) == category ==> t in r
  {
    if tips == [] then []
    else if CategoryId(tips[0].category) == category then [tips[0]] + FilterByCategory(tips[1..], category)
    else FilterByCategory(tips[1..], category)
  }

  /** The filter keeps the tips it returns in their original order. */
  lemma {:induction false} FilterIsSubsequence(tips: seq<StudyTip>, category: string)
    ensures IsSubsequence(FilterByCategory(tips, category), tips)
  {
    if tips != [] {
      var r := FilterByCategory(tips[1..], category);
      FilterIsSubsequence(tips[1..], category);
      if CategoryId(tips[0].category) != category {
        assert r != [] ==> r[0] in r && r[0] != tips[0];
      }
    }
  }

  /** `filteredTips`: every tip for "all", otherwise the tips whose category is the selected id. */
  function FilterTips(tips: seq<StudyTip>, selected: string): (r: seq<StudyTip>)
    ensures selected == AllId ==> r == tips
    ensures selected != AllId ==> forall t :: t in r <==> t in tips && CategoryId(t.category) == selected
    ensures IsSubsequence(r, tips)
  {
    if selected == AllId then
      SubsequenceOfItself(tips);
      tips
    else
      FilterIsSubsequence(tips, selected);
      FilterByCategory(tips, selected)
  }

  lemma {:induction false} SubsequenceOfItself<T>(s: seq<T>)
    ensures IsSubsequence(s, s)
  {
    if s != [] {
      SubsequenceOfItself(s[1..]);
    }
  }

  /** A selected id that is neither "all" nor a category shows no tips at all. */
  lemma {:induction false} UnknownSelectionShowsNothing(tips: seq<StudyTip>, selected: string)
    requires selected != AllId
    requires forall c: Category :: CategoryId(c) != selected
    ensures FilterTips(tips, selected) == []
  {
    if tips != [] {
      UnknownSelectionShowsNothing(tips[1..], selected);
      assert CategoryId(tips[0].category) != selected;
    }
  }

  /** Filtering a non-empty list decides its first tip, then filters the rest. */
  lemma FilterCons(tips: seq<StudyTip>, category: string)
    requires tips != []
    ensures FilterByCategory(tips, category)
         == (if CategoryId(tips[0].category) == category then [tips[0]] else []) + FilterByCategory(tips[1..], category)
  {
  }

  /**
   * The four category filters split the list: every tip lands in exactly one of
   * them, so together they hold exactly the list's tips.
   */
  lemma {:induction false} CategoriesPartitionTips(tips: seq<StudyTip>)
    ensures multiset(FilterByCategory(tips, "focus")) + multiset(FilterByCategory(tips, "organization"))
          + multiset(FilterByCategory(tips, "retention")) + multiset(FilterByCategory(tips, "wellness"))
         == multiset(tips)
  {
    if tips != [] {
      var t, rest := tips[0], tips[1..];
      assert tips == [t] + rest;
      var f, o, r, w := FilterByCategory(rest, "focus"), FilterByCategory(rest, "organization"),
        FilterByCategory(rest, "retention"), FilterByCategory(rest, "wellness");
      var f', o', r', w' := FilterByCategory(tips, "focus"), FilterByCategory(tips, "organization"),
        FilterByCategory(tips, "retention"), FilterByCategory(tips, "wellness");
      CategoriesPartitionTips(rest);
      FilterCons(tips, "focus");
      FilterCons(tips, "organization");
      FilterCons(tips, "retention");
      FilterCons(tips, "wellness");
      PartitionStep(t, rest, f, o, r, w, f', o', r', w');
    }
  }

  /** Adding one tip in front adds it to exactly one of the four parts. */
  lemma PartitionStep(t: StudyTip, rest: seq<StudyTip>,
                      f: seq<StudyTip>, o: seq<StudyTip>, r: seq<StudyTip>, w: seq<StudyTip>,
                      f': seq<StudyTip>, o': seq<StudyTip>, r': seq<StudyTip>, w': seq<StudyTip>)
    requires multiset(f) + multiset(o) + multiset(r) + multiset(w) == multiset(rest)
    requires f' == (if CategoryId(t.category) == "focus" then [t] else []) + f
    requires o' == (if CategoryId(t.category) == "organization" then [t] else []) + o
    requires r' == (if CategoryId(t.category) == "retention" then [t] else []) + r
    requires w' == (if CategoryId(t.category) == "wellness" then [t] else []) + w
    ensures multiset(f') + multiset(o') + multiset(r') + multiset(w') == multiset([t] + rest)
  {
  }

  /** The four category filters' lengths add up to the length of the list. */
  lemma CategoryCountsAddUp(tips: seq<StudyTip>)
    ensures |FilterByCategory(tips, "focus")| + |FilterByCategory(tips, "organization")|
          + |FilterByCategory(tips, "retention")| + |FilterByCategory(tips, "wellness")|
         == |tips|
  {
    CategoriesPartitionTips(tips);
    assert |multiset(tips)| == |tips|;
  }

  /** No tip is shown under two different categories. */
  lemma CategoryFiltersDisjoint(tips: seq<StudyTip>, a: Category, b: Category)
    requires a != b
    ensures forall t :: t in FilterByCategory(tips, CategoryId(a)) ==> t !in FilterByCategory(tips, CategoryId(b))
  {
  }

  /** Filtering keeps ids distinct. */
  lemma {:induction false} FilterKeepsDistinctIds(tips: seq<StudyTip>, category: string)
    requires DistinctIds(tips)
    ensures DistinctIds(FilterByCategory(tips, category))
  {
    if tips != [] {
      var rest := FilterByCategory(tips[1..], category);
      FirstIdIsUnique(tips);
      FilterKeepsDistinctIds(tips[1..], category);
      if CategoryId(tips[0].category) == category {
        var r := [tips[0]] + rest;
        forall i, j | 0 <= i < j < |r|
          ensures r[i].id != r[j].id
        {
          assert r[j] == rest[j - 1] && r[j] in rest;
          if i > 0 {
            assert r[i] == rest[i - 1];
          }
        }
      }
    }
  }

  /** In a list with distinct ids, the first id does not occur again, and the rest still has distinct ids. */
  lemma FirstIdIsUnique(tips: seq<StudyTip>)
    requires tips != [] && DistinctIds(tips)
    ensures forall t :: t in tips[1..] ==> t.id != tips[0].id
    ensures DistinctIds(tips[1..])
  {
    forall t | t in tips[1..]
      ensures t.id != tips[0].id
    {
      var k :| 0 <= k < |tips| - 1 && tips[1..][k] == t;
      assert tips[k + 1] == t;
    }
    forall i, j | 0 <= i < j < |tips| - 1
      ensures tips[1..][i].id != tips[1..][j].id
    {
      assert tips[1..][i] == tips[i + 1] && tips[1..][j] == tips[j + 1];
    }
  }

  /** The seed tips have pairwise distinct ids. */
  lemma SeedIdsDistinct()
    ensures DistinctIds(Tips)
  {
  }

  /** `toggleTip`: pressing the expanded tip collapses it, pressing any other tip expands that one. */
  function Toggled(expanded: Option<string>, tipId: string): (r: Option<string>)
    ensures r == None <==> expanded == Some(tipId)
    ensures r != None ==> r == Some(tipId)
  {
    if expanded == Some(tipId) then None else Some(tipId)
  }

  /** Pressing the same tip twice restores the expansion exactly when nothing or that tip was expanded. */
  lemma ToggleTwice(expanded: Option<string>, tipId: string)
    ensures Toggled(Toggled(expanded, tipId), tipId) == expanded <==> expanded == None || expanded == Some(tipId)
  {
  }

  /** Pressing a tip while a different one is expanded replaces it. */
  lemma ToggleReplaces(other: string, tipId: string)
    requires other != tipId
    ensures Toggled(Some(other), tipId) == Some(tipId)
  {
  }

  /** With distinct ids, at most one shown tip displays its description. */
  lemma AtMostOneDescriptionShown(selected: string, expanded: Option<string>)
    ensures var shown := FilterTips(Tips, selected);
      forall i, j ::
        (0 <= i < |shown| && 0 <= j < |shown| && expanded == Some(shown[i].id) && expanded == Some(shown[j].id))
        ==> i == j
  {
    SeedIdsDistinct();
    if selected != AllId {
      FilterKeepsDistinctIds(Tips, selected);
    }
  }

  /**
   * A tip outside the selected category is not shown, nor is any other tip with
   * its id, so an expanded tip that selecting a category hides shows no description.
   */
  lemma HiddenTipShowsNoDescription(tip: StudyTip, c: Category)
    requires tip in Tips && tip.category != c
    ensures forall t :: t in FilterTips(Tips, CategoryId(c)) ==> t.id != tip.id
  {
    SeedIdsDistinct();
    forall t | t in FilterTips(Tips, CategoryId(c))
      ensures t.id != tip.id
    {
      var i :| 0 <= i < |Tips| && Tips[i] == t;
      var j :| 0 <= j < |Tips| && Tips[j] == tip;
      assert i != j;
    }
  }

  /** Every seed tip is shown under some category button other than "all". */
  lemma EveryTipHasAButton()
    ensures forall t :: t in Tips ==>
      exists i :: 1 <= i < |Buttons| && t in FilterTips(Tips, Buttons[i].id)
  {
    ButtonsSelectKnownFilters();
    forall t | t in Tips
      ensures exists i :: 1 <= i < |Buttons| && t in FilterTips(Tips, Buttons[i].id)
    {
      assert t.category in Categories;
      var k :| 0 <= k < |Categories| && Categories[k] == t.category;
      assert Buttons[k + 1].id == CategoryId(t.category);
      assert t in FilterTips(Tips, Buttons[k + 1].id);
    }
  }

  /** The component's state: the selected filter button and the expanded tip, if any. */
  class TipsBrowser {
    var selectedCategory: string
    var expandedTip: Option<string>

    /** The component mounts showing every tip, none expanded. */
    constructor ()
      ensures selectedCategory == AllId && expandedTip == None
      ensures ShownTips() == Tips
    {
      selectedCategory := AllId;
      expandedTip := None;
    }

    /** The tips the list shows for the current selection. */
    function ShownTips(): (r: seq<StudyTip>)
      reads this
      ensures IsSubsequence(r, Tips)
      ensures selectedCategory == AllId ==> r == Tips
      ensures selectedCategory != AllId ==> forall t :: t in r <==> t in Tips && CategoryId(t.category) == selectedCategory
    {
      FilterTips(Tips, selectedCategory)
    }

    /** Whether the tip with this id shows its description. */
    predicate IsExpanded(tipId: string): (r: bool)
      reads this
      ensures r ==> forall other :: other != tipId ==> expandedTip != Some(other)
    {
      expandedTip == Some(tipId)
    }

    method ToggleTip(tipId: string)
      modifies this
      ensures expandedTip == Toggled(old(expandedTip), tipId)
      ensures IsExpanded(tipId) <==> !old(IsExpanded(tipId))
      ensures selectedCategory == old(selectedCategory)
    {
      expandedTip := if expandedTip == Some(tipId) then None else Some(tipId);
    }

    /** Pressing a category button stores its id and nothing else. */
    method SelectCategory(categoryId: string)
      modifies this
      ensures selectedCategory == categoryId
      ensures expandedTip == old(expandedTip)
    {
      selectedCategory := categoryId;
    }
  }
}
