/** The habit tracker widget's state update and category colouring. */
module HabitTracker {

  /** A habit card's state (its icon is left out). */
  datatype TrackedHabit = TrackedHabit(id: int, name: string, streak: int, completed: bool, category: string)

  datatype Category = Category(id: string, name: string, color: string)

  const DefaultColor: string := "text-gray-500"

  const HabitCategories: seq<Category> := [
    Category("health", "Health", "text-green-500"),
    Category("fitness", "Fitness", "text-orange-500"),
    Category("learning", "Learning", "text-blue-500"),
    Category("sleep", "Sleep", "text-purple-500"),
    Category("mindfulness", "Mindfulness", "text-teal-500")
  ]

  /** The sample habits the widget starts with: none completed yet. */
  const InitialHabits: seq<TrackedHabit> := [
    TrackedHabit(1, "Drink Water", 12, false, "health"),
    TrackedHabit(2, "Exercise", 5, false, "fitness"),
    TrackedHabit(3, "Read Book", 8, false, "learning"),
    TrackedHabit(4, "8h Sleep", 3, false, "sleep"),
    TrackedHabit(5, "Meditation", 15, false, "mindfulness")
  ]

  /** One card clicked: the completion flag flips and the streak follows it. */
  function Flip(h: TrackedHabit): (r: TrackedHabit)
    ensures r.completed == !h.completed
    ensures r.streak == (if r.completed then h.streak + 1 else h.streak - 1)
    ensures r.id == h.id && r.name == h.name && r.category == h.category
  {
    h.(completed := !h.completed, streak := if !h.completed then h.streak + 1 else h.streak - 1)
  }

  /**
   * `toggleHabit(id)`: the same list, in the same order, with every habit
   * carrying that id flipped and every other one untouched.
   */
  function ToggleHabit(habits: seq<TrackedHabit>, id: int): (r: seq<TrackedHabit>)
    ensures |r| == |habits|
    ensures forall i :: 0 <= i < |habits| ==> r[i] == if habits[i].id == id then Flip(habits[i]) else habits[i]
  {
    if habits == [] then []
    else [if habits[0].id == id then Flip(habits[0]) else habits[0]] + ToggleHabit(habits[1..], id)
  }

  /** Clicking the same card twice restores the list. */
  lemma ToggleTwice(habits: seq<TrackedHabit>, id: int)
    ensures ToggleHabit(ToggleHabit(habits, id), id) == habits
  {
    var once := ToggleHabit(habits, id);
    var twice := ToggleHabit(once, id);
    forall i | 0 <= i < |habits|
      ensures twice[i] == habits[i]
    {
      if habits[i].id == id {
        assert once[i] == Flip(habits[i]);
      }
    }
  }

  /** An id no habit carries leaves the list unchanged. */
  lemma ToggleUnknownId(habits: seq<TrackedHabit>, id: int)
    requires forall i :: 0 <= i < |habits| ==> habits[i].id != id
    ensures ToggleHabit(habits, id) == habits
  {
    var r := ToggleHabit(habits, id);
    assert forall i :: 0 <= i < |habits| ==> r[i] == habits[i];
  }

  /** The widget's state after a sequence of clicks. */
  function ToggleAll(habits: seq<TrackedHabit>, clicks: seq<int>): seq<TrackedHabit>
    decreases |clicks|
  {
    if clicks == [] then habits else ToggleAll(ToggleHabit(habits, clicks[0]), clicks[1..])
  }

  /** Each habit's streak is its starting streak, plus one while it is completed. */
  ghost predicate StreakTracksCompletion(habits: seq<TrackedHabit>, start: seq<TrackedHabit>)
  {
    && |habits| == |start|
    && forall i :: 0 <= i < |habits| ==>
         habits[i].id == start[i].id && habits[i].streak == start[i].streak + (if habits[i].completed then 1 else 0)
  }

  lemma {:induction false} ToggleAllKeepsStreak(habits: seq<TrackedHabit>, start: seq<TrackedHabit>, clicks: seq<int>)
    requires StreakTracksCompletion(habits, start)
    ensures StreakTracksCompletion(ToggleAll(habits, clicks), start)
    decreases |clicks|
  {
    if clicks != [] {
      var next := ToggleHabit(habits, clicks[0]);
      assert StreakTracksCompletion(next, start);
      ToggleAllKeepsStreak(next, start, clicks[1..]);
    }
  }

  /**
   * From the sample list, whatever the clicks, a habit's streak is its
   * sample streak plus one exactly when it is completed.
   */
  lemma StreakInvariant(clicks: seq<int>)
    ensures StreakTracksCompletion(ToggleAll(InitialHabits, clicks), InitialHabits)
  {
    ToggleAllKeepsStreak(InitialHabits, InitialHabits, clicks);
  }

  /** `categories.find(c => c.id === categoryId)?.color || "text-gray-500"`. */
  function CategoryColor(categories: seq<Category>, categoryId: string): (color: string)
    ensures (forall i :: 0 <= i < |categories| ==> categories[i].id != categoryId) ==> color == DefaultColor
    ensures forall i | 0 <= i < |categories| && categories[i].id == categoryId
                       && (forall j :: 0 <= j < i ==> categories[j].id != categoryId) ::
              color == (if categories[i].color != "" then categories[i].color else DefaultColor)
    ensures color != ""
  {
    if categories == [] then DefaultColor
    else if categories[0].id == categoryId then
      (if categories[0].color != "" then categories[0].color else DefaultColor)
    else
      CategoryColor(categories[1..], categoryId)
  }

  /** `getCategoryColor` over the widget's fixed categories. */
  function GetCategoryColor(categoryId: string): (color: string)
    ensures forall i :: 0 <= i < |HabitCategories| && HabitCategories[i].id == categoryId ==>
      color == HabitCategories[i].color
    ensures (forall i :: 0 <= i < |HabitCategories| ==> HabitCategories[i].id != categoryId) ==> color == DefaultColor
  {
    CategoryColor(HabitCategories, categoryId)
  }
}
