/**
 * The tasks screen (app/mockups/TasksScreen.tsx): the tab, search and
 * category filters over the task list, the category colour lookup and the
 * priority and status tables.
 */
module TasksScreen {
  import opened Options
  import opened Seqs
  import opened Text

  datatype Priority = High | Medium | Low
  datatype TaskStatus = Todo | InProgress | Completed
  datatype Assignee = Assignee(id: string, name: string, avatar: Option<string>)
  datatype Creator = Creator(id: string, name: string)

  datatype Task = Task(
    id: string,
    title: string,
    description: Option<string>,
    dueDate: Option<string>,
    priority: Priority,
    status: TaskStatus,
    category: Option<string>,
    assignedTo: Option<Assignee>,
    createdBy: Option<Creator>)

  datatype Tab = Assigned | Created | All
  datatype TaskCategory = TaskCategory(id: string, name: string, color: string)

  /** The id of the signed-in user, fixed in the screen. */
  const CurrentUserId: string := "1"

  /** The tab predicate: `assignedTo?.id === '1'`, `createdBy?.id === '1'`, or every task. */
  predicate OnTab(tab: Tab, t: Task)
  {
    match tab
    case Assigned => t.assignedTo.Some? && t.assignedTo.value.id == CurrentUserId
    case Created => t.createdBy.Some? && t.createdBy.value.id == CurrentUserId
    case All => true
  }

  /** `field?.toLowerCase().includes(query)`: an absent field matches nothing. */
  predicate FieldContains(field: Option<string>, query: string)
  {
    field.Some? && Contains(Lower(field.value), query)
  }

  /** The search predicate for an already lowercased query. */
  predicate MatchesQuery(t: Task, query: string)
  {
    Contains(Lower(t.title), query) || FieldContains(t.description, query) || FieldContains(t.category, query)
  }

  /** Whether a task passes all three filters. */
  predicate KeepTask(t: Task, tab: Tab, searchQuery: string, selected: Option<string>)
  {
    && OnTab(tab, t)
    && (searchQuery == "" || MatchesQuery(t, Lower(searchQuery)))
    && (Truthy(selected) ==> t.category == selected)
  }

  // The stages as function values, so that the same predicate can be named in proofs.

  function TabFilter(tab: Tab): Task -> bool
  {
    (t: Task) => OnTab(tab, t)
  }

  function SearchFilter(query: string): Task -> bool
  {
    (t: Task) => MatchesQuery(t, query)
  }

  function CategoryFilter(category: string): Task -> bool
  {
    (t: Task) => t.category == Some(category)
  }

  function KeepFilter(tab: Tab, searchQuery: string, selected: Option<string>): Task -> bool
  {
    (t: Task) => KeepTask(t, tab, searchQuery, selected)
  }

  /** `getFilteredTasks`: by tab, then by a non-empty search query, then by a selected category. */
  function GetFilteredTasks(tasks: seq<Task>, tab: Tab, searchQuery: string, selected: Option<string>): seq<Task>
  {
    var byTab := FilterIf(tasks, tab != All, TabFilter(tab));
    var bySearch := FilterIf(byTab, searchQuery != "", SearchFilter(Lower(searchQuery)));
    FilterIf(bySearch, Truthy(selected), CategoryFilter(if selected.Some? then selected.value else ""))
  }

  /** The pipeline is one filter by the conjunction of the three predicates. */
  lemma FilteredTasksIsFilter(tasks: seq<Task>, tab: Tab, searchQuery: string, selected: Option<string>)
    ensures GetFilteredTasks(tasks, tab, searchQuery, selected) == Filter(tasks, KeepFilter(tab, searchQuery, selected))
  {
    FilterIfThrice(tasks, tab != All, TabFilter(tab), searchQuery != "", SearchFilter(Lower(searchQuery)),
      Truthy(selected), CategoryFilter(if selected.Some? then selected.value else ""),
      KeepFilter(tab, searchQuery, selected));
  }

  /**
   * The result is the subsequence of `tasks` (original order) holding
   * exactly the tasks on the tab, matching a non-empty query in title,
   * description or category (case-insensitively) and, when a category is
   * selected, of exactly that category.
   */
  lemma FilteredTasksExact(tasks: seq<Task>, tab: Tab, searchQuery: string, selected: Option<string>)
    ensures IsSubsequence(GetFilteredTasks(tasks, tab, searchQuery, selected), tasks)
    ensures forall t :: t in GetFilteredTasks(tasks, tab, searchQuery, selected) <==>
      t in tasks && KeepTask(t, tab, searchQuery, selected)
    ensures forall t ::
      multiset(GetFilteredTasks(tasks, tab, searchQuery, selected))[t] == (if KeepTask(t, tab, searchQuery, selected) then multiset(tasks)[t] else 0)
  {
    var keep := KeepFilter(tab, searchQuery, selected);
    FilteredTasksIsFilter(tasks, tab, searchQuery, selected);
    FilterIsSubsequence(tasks, keep);
    FilterMembers(tasks, keep);
    FilterMultiplicity(tasks, keep);
    assert forall t :: keep(t) == KeepTask(t, tab, searchQuery, selected);
  }

  /** The tabs: `assigned` keeps exactly the tasks assigned to the user (none without an assignee), `created` those created by the user, `all` everything. */
  lemma TabsExact(tasks: seq<Task>)
    ensures forall t :: t in GetFilteredTasks(tasks, Assigned, "", None) <==>
      t in tasks && t.assignedTo.Some? && t.assignedTo.value.id == "1"
    ensures forall t :: t in GetFilteredTasks(tasks, Created, "", None) <==>
      t in tasks && t.createdBy.Some? && t.createdBy.value.id == "1"
    ensures GetFilteredTasks(tasks, All, "", None) == tasks
  {
    FilteredTasksExact(tasks, Assigned, "", None);
    FilteredTasksExact(tasks, Created, "", None);
  }

  /** An empty query and no selected category leave the tab's list as it is; the empty string selects no category. */
  lemma EmptyQueryNoSearch(tasks: seq<Task>, tab: Tab, selected: Option<string>)
    ensures GetFilteredTasks(tasks, tab, "", None) == GetFilteredTasks(tasks, tab, "", Some(""))
    ensures forall t :: t in GetFilteredTasks(tasks, tab, "", selected) <==>
      t in tasks && OnTab(tab, t) && (Truthy(selected) ==> t.category == selected)
  {
    FilteredTasksExact(tasks, tab, "", selected);
  }

  /** Filtering the filtered list again with the same tab, query and category changes nothing. */
  lemma FilteredTasksIdempotent(tasks: seq<Task>, tab: Tab, searchQuery: string, selected: Option<string>)
    ensures var r := GetFilteredTasks(tasks, tab, searchQuery, selected);
      GetFilteredTasks(r, tab, searchQuery, selected) == r
  {
    var keep := KeepFilter(tab, searchQuery, selected);
    var r := GetFilteredTasks(tasks, tab, searchQuery, selected);
    FilteredTasksIsFilter(tasks, tab, searchQuery, selected);
    FilteredTasksIsFilter(r, tab, searchQuery, selected);
    FilterIdempotent(tasks, keep);
  }

  /** Position `i` holds the first category named `name`. */
  predicate FirstNamed(categories: seq<TaskCategory>, i: int, name: string)
  {
    0 <= i < |categories| && categories[i].name == name &&
    forall j :: 0 <= j < i ==> categories[j].name != name
  }

  /** `taskCategories.find(cat => cat.name === name)`: the first category of that name. */
  function FindCategory(categories: seq<TaskCategory>, name: string): (r: Option<TaskCategory>)
    ensures r.None? <==> forall i :: 0 <= i < |categories| ==> categories[i].name != name
    ensures r.Some? ==> exists i :: FirstNamed(categories, i, name) && categories[i] == r.value
    decreases |categories|
  {
    if categories == [] then None
    else if categories[0].name == name then Some(categories[0])
    else FindCategory(categories[1..], name)
  }

  const DefaultCategoryColor: string := "#CCCCCC"

  /** `getCategoryColor`: the colour of the first category of that name; grey for a missing, empty or unknown name. */
  function CategoryColor(categories: seq<TaskCategory>, name: Option<string>): (color: string)
    ensures (name.None? || name.value == "") ==> color == DefaultCategoryColor
    ensures name.Some? && (forall i :: 0 <= i < |categories| ==> categories[i].name != name.value) ==>
      color == DefaultCategoryColor
    ensures name.Some? && name.value != "" && (exists i :: 0 <= i < |categories| && categories[i].name == name.value) ==>
      exists i :: FirstNamed(categories, i, name.value) && color == categories[i].color
  {
    if name.None? || name.value == "" then DefaultCategoryColor
    else
      match FindCategory(categories, name.value)
      case Some(c) => c.color
      case None => DefaultCategoryColor
  }

  /** The screen's fixed categories. */
  const TaskCategories: seq<TaskCategory> := [
    TaskCategory("1", "Culte", "#FF6B6B"),
    TaskCategory("2", "Événements", "#4ECDC4"),
    TaskCategory("3", "Administration", "#FFD166"),
    TaskCategory("4", "Jeunesse", "#6A0572"),
    TaskCategory("5", "Musique", "#1A535C")
  ]

  /** With the screen's categories, a known name gets its own colour. */
  lemma TaskCategoryKnownColor()
    ensures CategoryColor(TaskCategories, Some("Jeunesse")) == "#6A0572"
  {
    var cs := TaskCategories;
    assert cs[3].name == "Jeunesse";
    assert |cs| == 5 && cs[0].name != "Jeunesse" && cs[1].name != "Jeunesse" && cs[2].name != "Jeunesse" && cs[4].name != "Jeunesse";
    var i :| FirstNamed(cs, i, "Jeunesse") && CategoryColor(cs, Some("Jeunesse")) == cs[i].color;
    assert FirstNamed(cs, i, "Jeunesse");
    assert i == 0 || i == 1 || i == 2 || i == 3 || i == 4;
    assert i == 3;
  }

  /** With the screen's categories, an unknown or missing name gets grey. */
  lemma TaskCategoryUnknownColor()
    ensures CategoryColor(TaskCategories, Some("Sport")) == DefaultCategoryColor
    ensures CategoryColor(TaskCategories, None) == DefaultCategoryColor
  {
    var cs := TaskCategories;
    assert "Culte"[0] != "Sport"[0];
    assert forall k :: 0 <= k < |cs| ==> |cs[k].name| != 5 || cs[k].name == "Culte";
    assert FindCategory(cs, "Sport") == None;
  }

  /** `getPriorityIcon`. */
  function PriorityIcon(p: Priority): string
  {
    match p
    case High => "exclamationmark.triangle.fill"
    case Medium => "equal.circle.fill"
    case Low => "arrow.down.circle.fill"
  }

  /** `getStatusLabel`. */
  function StatusLabel(s: TaskStatus): string
  {
    match s
    case Todo => "À faire"
    case InProgress => "En cours"
    case Completed => "Terminé"
  }

  /** Distinct priorities get distinct icons and distinct statuses distinct labels. */
  lemma TablesInjective(p1: Priority, p2: Priority, s1: TaskStatus, s2: TaskStatus)
    ensures PriorityIcon(p1) == PriorityIcon(p2) <==> p1 == p2
    ensures StatusLabel(s1) == StatusLabel(s2) <==> s1 == s2
  {
  }
}
