/** The mobile scanner: a list of pick and put-away tasks, the task being
    worked on, the scan box, and the three handlers `startTask`,
    `handleScan` and `completeTask`, with `getTaskProgress` behind the
    progress bars and the "Complete Task" button.

    Starting a task makes the listed task object the current one. After a
    scan the current task is replaced by a shallow copy, but that copy
    shares its item objects with the listed task, and a scan changes only an
    item object, in place. So the listed task always sees the same counters
    as the current one. The model therefore keeps the current task as an
    index into the list and updates the listed task. The list itself only
    changes when a task completes, which also clears the current task, so
    the index stays valid. */
module Scanner {
  import opened Options
  import Text
  import Search
  import Seqs

  datatype TaskKind = Pick | Putaway

  /** A line of a task. `count` is the item's `picked` counter in a pick
      task and its `processed` counter in a put-away task; `location` is
      the pick location or the suggested put-away location. */
  datatype TaskItem = TaskItem(sku: string, name: string, location: string, quantity: nat, count: nat)

  /** A task. `reference` is the order id of a pick task or the purchase
      order id of a put-away task, and `party` its customer or supplier. */
  datatype Task = Task(
    id: string,
    kind: TaskKind,
    reference: string,
    party: string,
    items: seq<TaskItem>,
    priority: string,
    estimatedTime: string)

  datatype Tab = TasksTab | ScannerTab | HistoryTab

  /** The toasts the handlers raise. */
  datatype Notice =
    | TaskStarted(startedKind: TaskKind, party: string)
    | ItemScanned(name: string)
    | ItemNotFound
    | NoActiveTask
    | TaskCompleted(completedKind: TaskKind)
    | TaskIncomplete

  /** The component's state: the task list, the index of the current task
      (`null` when none), the scan box and the active tab. */
  datatype Screen = Screen(tasks: seq<Task>, current: Option<nat>, scanInput: string, tab: Tab)

  /** A handler's result: the next state and the toast it raised, if any. */
  datatype Step = Step(screen: Screen, notice: Option<Notice>)

  predicate CurrentInRange(s: Screen) {
    s.current.Some? ==> s.current.value < |s.tasks|
  }

  /** No counter has passed its item's quantity. */
  predicate CountsBounded(items: seq<TaskItem>) {
    forall i :: 0 <= i < |items| ==> items[i].count <= items[i].quantity
  }

  /** The invariant of the screen: the current task is a listed task and
      every counter of every task lies in `0 .. quantity`. */
  predicate Valid(s: Screen) {
    && CurrentInRange(s)
    && forall t :: 0 <= t < |s.tasks| ==> CountsBounded(s.tasks[t].items)
  }

  /** The callback of `items.find`: the scanned text equals the SKU, or the
      item's name contains it, ignoring case. */
  predicate ItemMatches(item: TaskItem, value: string) {
    item.sku == value || Search.MatchesTerm(item.name, value)
  }

  /** `items.find` from position `from` on, as an index. */
  function FindFrom(items: seq<TaskItem>, value: string, from: nat): (r: Option<nat>)
    requires from <= |items|
    ensures r.Some? ==> from <= r.value < |items| && ItemMatches(items[r.value], value)
    ensures forall k :: from <= k < (if r.Some? then r.value else |items|) ==> !ItemMatches(items[k], value)
    decreases |items| - from
  {
    if from == |items| then None
    else if ItemMatches(items[from], value) then Some(from)
    else FindFrom(items, value, from + 1)
  }

  /** `items.find(...)`: the position of the first matching item. */
  function FindItem(items: seq<TaskItem>, value: string): (r: Option<nat>)
    ensures r.Some? ==> r.value < |items| && ItemMatches(items[r.value], value)
    ensures r.Some? ==> forall k :: 0 <= k < r.value ==> !ItemMatches(items[k], value)
    ensures r.None? ==> forall k :: 0 <= k < |items| ==> !ItemMatches(items[k], value)
  {
    FindFrom(items, value, 0)
  }

  function Min(a: int, b: int): int {
    if a <= b then a else b
  }

  /** One more unit counted on an item, but never beyond its quantity. A
      pick task counts in `picked` and a put-away task in `processed`; both
      are the `count` field here, so the update is the same for both kinds. */
  function Bump(item: TaskItem): TaskItem {
    item.(count := Min(item.count + 1, item.quantity))
  }

  /** `after` is `before` with at most one counter changed: the counter of
      item `j` of task `c`. Every other task, every other item, and every
      other field of that item are as they were. */
  predicate OnlyCounterChanged(before: seq<Task>, after: seq<Task>, c: nat, j: nat)
    requires c < |before| && j < |before[c].items|
  {
    && |after| == |before|
    && (forall t :: 0 <= t < |before| && t != c ==> after[t] == before[t])
    && after[c] == before[c].(items := after[c].items)
    && |after[c].items| == |before[c].items|
    && (forall k :: 0 <= k < |before[c].items| && k != j ==> after[c].items[k] == before[c].items[k])
    && after[c].items[j] == before[c].items[j].(count := after[c].items[j].count)
  }

  /** The update a successful scan makes: item `j` of task `c` has its
      counter bumped, and nothing else changes. */
  function CountScan(tasks: seq<Task>, c: nat, j: nat): (r: seq<Task>)
    requires c < |tasks| && j < |tasks[c].items|
    ensures OnlyCounterChanged(tasks, r, c, j)
    ensures r[c].items[j].count ==
      (if tasks[c].items[j].count < tasks[c].items[j].quantity
       then tasks[c].items[j].count + 1 else tasks[c].items[j].quantity)
    ensures CountsBounded(tasks[c].items) ==> CountsBounded(r[c].items)
  {
    var task := tasks[c];
    tasks[c := task.(items := task.items[j := Bump(task.items[j])])]
  }

  /** `handleScan(scannedValue)`.
      - Blank input (empty or white space only) changes nothing and raises
        no toast.
      - Otherwise the scan box is cleared whatever happens next, and the
        current task and tab stay as they are.
      - With no current task, or when no item of the current task matches,
        no task changes and the matching toast is raised.
      - Otherwise the first matching item's counter moves one step towards
        its quantity and stops there; nothing else in any task changes.
      - Every step keeps the screen invariant. */
  function HandleScan(s: Screen, value: string): (r: Step)
    requires CurrentInRange(s)
    ensures Text.IsBlank(value) ==> r == Step(s, None)
    ensures !Text.IsBlank(value) ==>
      r.screen.scanInput == [] && r.screen.current == s.current && r.screen.tab == s.tab
    ensures !Text.IsBlank(value) && s.current.None? ==>
      r.screen.tasks == s.tasks && r.notice == Some(NoActiveTask)
    ensures !Text.IsBlank(value) && s.current.Some? ==>
      var c := s.current.value;
      var items := s.tasks[c].items;
      match FindItem(items, value)
      case None =>
        r.screen.tasks == s.tasks && r.notice == Some(ItemNotFound)
      case Some(j) =>
        && r.notice == Some(ItemScanned(items[j].name))
        && OnlyCounterChanged(s.tasks, r.screen.tasks, c, j)
        && r.screen.tasks[c].items[j].count ==
             (if items[j].count < items[j].quantity then items[j].count + 1 else items[j].quantity)
    ensures Valid(s) ==> Valid(r.screen)
  {
    if Text.IsBlank(value) then Step(s, None)
    else
      var cleared := s.(scanInput := []);
      match s.current
      case None => Step(cleared, Some(NoActiveTask))
      case Some(c) =>
        var task := s.tasks[c];
        match FindItem(task.items, value)
        case None => Step(cleared, Some(ItemNotFound))
        case Some(j) =>
          Step(cleared.(tasks := CountScan(s.tasks, c, j)), Some(ItemScanned(task.items[j].name)))
  }

  /** `startTask(task)` for the `i`-th listed task (the button exists only
      for listed tasks): it becomes the current task, the scanner tab opens,
      and nothing else changes. */
  function StartTask(s: Screen, i: nat): (r: Step)
    requires i < |s.tasks|
    ensures r.screen.current == Some(i) && r.screen.tab == ScannerTab
    ensures r.screen.tasks == s.tasks && r.screen.scanInput == s.scanInput
    ensures r.notice == Some(TaskStarted(s.tasks[i].kind, s.tasks[i].party))
    ensures Valid(s) ==> Valid(r.screen)
  {
    Step(s.(current := Some(i), tab := ScannerTab),
         Some(TaskStarted(s.tasks[i].kind, s.tasks[i].party)))
  }

  /** The guard of `completeTask`: every counter has reached its item's
      quantity (`picked` for a pick task, `processed` for a put-away task). */
  predicate AllItemsDone(task: Task) {
    forall i :: 0 <= i < |task.items| ==> task.items[i].count >= task.items[i].quantity
  }

  /** `completeTask()`.
      - With no current task it does nothing.
      - It succeeds exactly when every counter of the current task has
        reached its quantity. Then the list loses exactly the tasks with
        the current task's id and keeps every copy of every other task, in
        order; the current task is cleared and the task tab opens.
      - Otherwise nothing changes and the "incomplete" toast is raised.
      - Every step keeps the screen invariant. */
  function CompleteTask(s: Screen): (r: Step)
    requires CurrentInRange(s)
    ensures s.current.None? ==> r == Step(s, None)
    ensures s.current.Some? ==>
      var task := s.tasks[s.current.value];
      && (r.notice == Some(TaskCompleted(task.kind)) <==> AllItemsDone(task))
      && (AllItemsDone(task) ==>
            && r.screen.current == None
            && r.screen.tab == TasksTab
            && r.screen.scanInput == s.scanInput
            && (forall t :: t in r.screen.tasks <==> t in s.tasks && t.id != task.id)
            && (forall t :: multiset(r.screen.tasks)[t] == if t.id != task.id then multiset(s.tasks)[t] else 0)
            && Seqs.IsSubsequence(r.screen.tasks, s.tasks)
            && |r.screen.tasks| < |s.tasks|)
      && (!AllItemsDone(task) ==> r == Step(s, Some(TaskIncomplete)))
    ensures Valid(s) ==> Valid(r.screen)
  {
    match s.current
    case None => Step(s, None)
    case Some(c) =>
      var task := s.tasks[c];
      if AllItemsDone(task) then
        var remaining := Seqs.Filter(s.tasks, (t: Task) => t.id != task.id);
        Seqs.FilterIsSubsequence(s.tasks, (t: Task) => t.id != task.id);
        Seqs.FilterCounts(s.tasks, (t: Task) => t.id != task.id);
        Step(Screen(remaining, None, s.scanInput, TasksTab), Some(TaskCompleted(task.kind)))
      else
        Step(s, Some(TaskIncomplete))
  }

  function ItemQuantity(item: TaskItem): nat { item.quantity }

  function ItemCount(item: TaskItem): nat { item.count }

  /** `getTaskProgress` as the two sums it divides: units done and units
      to do. */
  datatype TaskProgress = TaskProgress(completed: nat, total: nat)

  function GetTaskProgress(task: Task): TaskProgress {
    TaskProgress(Seqs.Sum(task.items, ItemCount), Seqs.Sum(task.items, ItemQuantity))
  }

  /** The "Complete Task" button is disabled while the task's percentage is
      below 100. For a task with no units the percentage is `NaN`, which is
      not below 100, so the button is enabled. */
  predicate CompleteEnabled(task: Task) {
    var p := GetTaskProgress(task);
    !(p.total > 0 && p.completed < p.total)
  }

  /** While no counter is past its quantity, the button is enabled exactly
      when `completeTask` would succeed: the summed progress and the
      per-item guard agree. */
  lemma CompleteButtonMatchesGuard(task: Task)
    requires CountsBounded(task.items)
    ensures CompleteEnabled(task) <==> AllItemsDone(task)
    ensures GetTaskProgress(task).completed <= GetTaskProgress(task).total
  {
    Seqs.SumCompare(task.items, ItemCount, ItemQuantity);
  }

  /** Whether a scan of `value` counts a unit on the `t`-th task: the input
      is not blank, that task is the current one, and its first matching
      item is still below its quantity. */
  predicate CountsUnit(s: Screen, value: string, t: nat)
    requires CurrentInRange(s)
  {
    && !Text.IsBlank(value)
    && s.current == Some(t)
    && (var found := FindItem(s.tasks[t].items, value);
        found.Some? && s.tasks[t].items[found.value].count < s.tasks[t].items[found.value].quantity)
  }

  /** A scan moves the current task's progress by exactly one unit when the
      matched item is below its quantity and by nothing otherwise; the
      total never changes, and no other task's progress changes. */
  lemma ScanProgress(s: Screen, value: string)
    requires Valid(s)
    ensures
      var r := HandleScan(s, value);
      && |r.screen.tasks| == |s.tasks|
      && forall t :: 0 <= t < |s.tasks| ==>
           && GetTaskProgress(r.screen.tasks[t]).total == GetTaskProgress(s.tasks[t]).total
           && GetTaskProgress(r.screen.tasks[t]).completed
                == GetTaskProgress(s.tasks[t]).completed + (if CountsUnit(s, value, t) then 1 else 0)
  {
    var r := HandleScan(s, value);
    if !Text.IsBlank(value) && s.current.Some? {
      var c := s.current.value;
      var items := s.tasks[c].items;
      match FindItem(items, value)
      case None =>
      case Some(j) =>
        var after := r.screen.tasks[c].items;
        assert after == items[j := after[j]];
        Seqs.SumUpdate(items, j, after[j], ItemCount);
        Seqs.SumUpdate(items, j, after[j], ItemQuantity);
    }
  }

  /** A scan that matches an item already at its quantity changes no task:
      the counter is capped. */
  lemma ScanAtCapIsNoop(tasks: seq<Task>, c: nat, j: nat)
    requires c < |tasks| && j < |tasks[c].items|
    requires tasks[c].items[j].count == tasks[c].items[j].quantity
    ensures CountScan(tasks, c, j) == tasks
  {
    var after := CountScan(tasks, c, j);
    assert after[c].items == tasks[c].items;
    assert after[c] == tasks[c];
  }
}
