/** A Codex rollout as tasks: one task per request, numbered by its place in the rollout, growing until
    it completes. A longer parse extends a shorter one task by task. */
module CodexTasks {
  /** A rollout line as the parser sees it. `Line` is one it takes no text from. */
  datatype Entry =
    | TaskStarted(imported: bool)
    | TaskComplete
    | UserMessage(content: string)
    | AssistantReply(content: string)
    | Line

  datatype TaskValue = TaskValue(ordinal: nat, importing: bool, user: string, parts: seq<string>)
  {
    function AddUser(content: string): TaskValue {
      if parts != [] then this.(parts := parts + ["User: " + content]) else this.(user := content)
    }

    function AddReply(content: string): TaskValue {
      if parts != [] && StartsUser(parts[|parts| - 1])
      then this.(parts := parts + ["Assistant: " + content])
      else this.(parts := parts + [content])
    }

    /** A task whose turn is emitted. */
    predicate Replied() { !importing && parts != [] }

    function Text(truncate: string -> string): string {
      truncate(if user != "" then "User: " + user + "\n\nAssistant: " + Joined(parts) else Joined(parts))
    }
  }

  predicate StartsUser(s: string) { |s| >= 6 && s[..6] == "User: " }

  function Joined(parts: seq<string>): string {
    if parts == [] then "" else if |parts| == 1 then parts[0] else parts[0] + "\n\n" + Joined(parts[1..])
  }

  function Opened(ordinal: nat, importing: bool): TaskValue { TaskValue(ordinal, importing, "", []) }

  /** The tasks so far, and whether the last one still takes entries. */
  datatype Parsing = Parsing(tasks: seq<TaskValue>, open: bool)
  {
    function Last(): TaskValue
      requires tasks != []
    {
      tasks[|tasks| - 1]
    }

    function WithLast(t: TaskValue): Parsing
      requires tasks != []
    {
      this.(tasks := tasks[..|tasks| - 1] + [t])
    }
  }

  function Open(st: Parsing, importing: bool): (r: Parsing)
    ensures r.tasks != [] && r.open
  {
    Parsing(st.tasks + [Opened(|st.tasks|, importing)], true)
  }

  /** Open a task for a message when none is open, or, in a rollout without task events, when the
      user speaks after a reply. */
  function Ready(st: Parsing, hasTasks: bool, byUser: bool): (r: Parsing)
    ensures r.tasks != []
  {
    if st.tasks == [] || !st.open || (!hasTasks && byUser && st.Last().parts != []) then Open(st, false) else st
  }

  function Step(st: Parsing, hasTasks: bool, e: Entry): Parsing {
    match e
    case TaskStarted(imported) => Open(st, imported)
    case TaskComplete => st.(open := false)
    case UserMessage(content) =>
      var r := Ready(st, hasTasks, true);
      if r.Last().importing then r else r.WithLast(r.Last().AddUser(content))
    case AssistantReply(content) =>
      var r := Ready(st, hasTasks, false);
      if r.Last().importing then r else r.WithLast(r.Last().AddReply(content))
    case Line => st
  }

  function Parse(entries: seq<Entry>, hasTasks: bool): Parsing {
    if entries == [] then Parsing([], false)
    else Step(Parse(entries[..|entries| - 1], hasTasks), hasTasks, entries[|entries| - 1])
  }

  predicate HasTasks(entries: seq<Entry>) { exists i :: 0 <= i < |entries| && entries[i].TaskStarted? }

  function Tasks(entries: seq<Entry>): seq<TaskValue> { Parse(entries, HasTasks(entries)).tasks }

  // ---- The parser -------------------------------------------------------------------------

  class Task {
    const ordinal: nat
    const importing: bool
    var user: string
    var parts: seq<string>

    function Value(): TaskValue reads this { TaskValue(ordinal, importing, user, parts) }

    constructor (ordinal: nat, importing: bool)
      ensures Value() == Opened(ordinal, importing)
    {
      this.ordinal, this.importing := ordinal, importing;
      user, parts := "", [];
    }

    method AddUser(content: string)
      modifies this
      ensures Value() == old(Value()).AddUser(content)
    {
      if parts != [] { parts := parts + ["User: " + content]; } else { user := content; }
    }

    method AddReply(content: string)
      modifies this
      ensures Value() == old(Value()).AddReply(content)
    {
      var said := content;
      if parts != [] && StartsUser(parts[|parts| - 1]) { said := "Assistant: " + content; }
      parts := parts + [said];
    }
  }

  ghost function Values(tasks: seq<Task>): seq<TaskValue>
    reads tasks
  {
    seq(|tasks|, i requires 0 <= i < |tasks| reads tasks => tasks[i].Value())
  }

  ghost predicate Holds(tasks: seq<Task>, current: Task?, st: Parsing)
    reads tasks
  {
    && (forall i, j | 0 <= i < j < |tasks| :: tasks[i] != tasks[j])
    && Values(tasks) == st.tasks
    && (if st.open && st.tasks != [] then current != null && current == tasks[|tasks| - 1] else current == null)
  }

  method OpenTask(tasks: seq<Task>, importing: bool, ghost st: Parsing) returns (t: Task, more: seq<Task>)
    requires Values(tasks) == st.tasks && forall i, j | 0 <= i < j < |tasks| :: tasks[i] != tasks[j]
    ensures fresh(t) && more == tasks + [t]
    ensures Holds(more, t, Open(st, importing)) && unchanged(tasks)
  {
    t := new Task(|tasks|, importing);
    more := tasks + [t];
    assert Values(more) == Open(st, importing).tasks;
  }

  /** Put a message into the last task, which takes entries. */
  method Take(tasks: seq<Task>, current: Task, e: Entry, ghost st: Parsing)
    requires Holds(tasks, current, st) && (e.UserMessage? || e.AssistantReply?)
    modifies current
    ensures Holds(tasks, current, Taken(st, e))
  {
    ghost var before, last := Values(tasks), |tasks| - 1;
    assert Values(tasks)[last] == current.Value();
    if !current.importing {
      if e.UserMessage? { current.AddUser(e.content); } else { current.AddReply(e.content); }
      assert Values(tasks) == before[..last] + [current.Value()];
    }
  }

  function Taken(st: Parsing, e: Entry): Parsing
    requires e.UserMessage? || e.AssistantReply?
  {
    if st.tasks == [] || st.Last().importing then st
    else st.WithLast(if e.UserMessage? then st.Last().AddUser(e.content) else st.Last().AddReply(e.content))
  }

  /** One user or assistant message. */
  method Message(tasks: seq<Task>, current: Task?, hasTasks: bool, e: Entry, ghost st: Parsing)
    returns (more: seq<Task>, now: Task?)
    requires Holds(tasks, current, st) && (e.UserMessage? || e.AssistantReply?)
    modifies tasks
    ensures Holds(more, now, Step(st, hasTasks, e))
    ensures forall i | 0 <= i < |more| :: more[i] in tasks || fresh(more[i])
  {
    hide Step, Taken, Open, Values;
    StepTakes(st, hasTasks, e);
    LastValue(tasks, st);
    ghost var ready := Ready(st, hasTasks, e.UserMessage?);
    if current == null || (!hasTasks && e.UserMessage? && current.parts != []) {
      now, more := OpenTask(tasks, false, st);
    } else {
      now, more := current, tasks;
    }
    Take(more, now, e, ready);
  }

  lemma StepTakes(st: Parsing, hasTasks: bool, e: Entry)
    requires e.UserMessage? || e.AssistantReply?
    ensures Step(st, hasTasks, e) == Taken(Ready(st, hasTasks, e.UserMessage?), e)
  {}

  lemma LastValue(tasks: seq<Task>, st: Parsing)
    requires Values(tasks) == st.tasks
    ensures |tasks| == |st.tasks|
    ensures st.tasks != [] ==> tasks[|tasks| - 1].Value() == st.Last()
  {
    if st.tasks != [] { assert Values(tasks)[|tasks| - 1] == tasks[|tasks| - 1].Value(); }
  }

  /** Group rollout entries into tasks, numbered by their position in the rollout. */
  method ParseTasks(entries: seq<Entry>) returns (tasks: seq<Task>)
    ensures fresh(tasks) && Values(tasks) == Tasks(entries)
  {
    hide Step, Open;
    var hasTasks := exists i :: 0 <= i < |entries| && entries[i].TaskStarted?;
    tasks := [];
    var current: Task? := null;
    for n := 0 to |entries|
      invariant fresh(tasks) && Holds(tasks, current, Parse(entries[..n], hasTasks))
    {
      var e := entries[n];
      ghost var st := Parse(entries[..n], hasTasks);
      ParseNext(entries, n, hasTasks);
      match e
      case TaskStarted(imported) =>
        current, tasks := OpenTask(tasks, imported, st);
      case TaskComplete => current := null;
      case Line =>
      case _ => tasks, current := Message(tasks, current, hasTasks, e, st);
    }
    assert entries[..|entries|] == entries;
  }

  lemma ParseNext(entries: seq<Entry>, n: nat, hasTasks: bool)
    requires n < |entries|
    ensures var st, e := Parse(entries[..n], hasTasks), entries[n];
            && Parse(entries[..n + 1], hasTasks) == Step(st, hasTasks, e)
            && (e.TaskStarted? ==> Step(st, hasTasks, e) == Open(st, e.imported))
            && (e.TaskComplete? ==> Step(st, hasTasks, e) == st.(open := false))
            && (e.Line? ==> Step(st, hasTasks, e) == st)
  {
    assert entries[..n + 1][..n] == entries[..n];
  }

  // ---- A longer parse extends a shorter one -----------------------------------------------

  /** The same task later on: its request is fixed once a reply exists, its parts only grow. */
  predicate Grown(a: TaskValue, b: TaskValue) {
    && a.ordinal == b.ordinal && a.importing == b.importing && a.parts <= b.parts
    && (a.parts != [] ==> a.user == b.user)
  }

  /** Only the last task may have grown. */
  predicate Extends(a: seq<TaskValue>, b: seq<TaskValue>) {
    && |a| <= |b| && (forall i | 0 <= i < |a| - 1 :: b[i] == a[i])
    && (a != [] ==> Grown(a[|a| - 1], b[|a| - 1]))
  }

  lemma StepExtends(st: Parsing, hasTasks: bool, e: Entry)
    ensures Extends(st.tasks, Step(st, hasTasks, e).tasks)
  {
    if e.UserMessage? || e.AssistantReply? {
      var r := Ready(st, hasTasks, e.UserMessage?);
      assert st.tasks != [] ==> r.tasks[|st.tasks| - 1] == st.Last();
    }
  }

  lemma ExtendsOn(a: seq<TaskValue>, b: seq<TaskValue>, c: seq<TaskValue>)
    requires Extends(a, b) && Extends(b, c)
    ensures Extends(a, c)
  {
    if a != [] && |b| > |a| { assert c[|a| - 1] == b[|a| - 1]; }
  }

  /** On an append-only rollout whose kind does not change, each parse extends the one before: the same
      ordinals, every task but the last untouched. */
  lemma {:induction false} LongerExtends(entries: seq<Entry>, more: seq<Entry>, hasTasks: bool)
    ensures Extends(Parse(entries, hasTasks).tasks, Parse(entries + more, hasTasks).tasks)
  {
    hide Extends, Step;
    var a := Parse(entries, hasTasks);
    if more == [] {
      assert entries + more == entries;
      SameExtends(a.tasks);
    } else {
      var front, e := more[..|more| - 1], more[|more| - 1];
      var mid := Parse(entries + front, hasTasks);
      LongerExtends(entries, front, hasTasks);
      assert (entries + more)[..|entries + more| - 1] == entries + front;
      StepExtends(mid, hasTasks, e);
      ExtendsOn(a.tasks, mid.tasks, Step(mid, hasTasks, e).tasks);
    }
  }

  lemma SameExtends(a: seq<TaskValue>)
    ensures Extends(a, a)
  {}

  predicate Placed(tasks: seq<TaskValue>) { forall i | 0 <= i < |tasks| :: tasks[i].ordinal == i }

  lemma StepPlaced(st: Parsing, hasTasks: bool, e: Entry)
    requires Placed(st.tasks)
    ensures Placed(Step(st, hasTasks, e).tasks)
  {
    hide Joined, StartsUser;
    if e.UserMessage? || e.AssistantReply? {
      assert Placed(Ready(st, hasTasks, e.UserMessage?).tasks);
    }
  }

  /** Each task's ordinal is its place. */
  lemma {:induction false} OrdinalsArePlaces(entries: seq<Entry>, hasTasks: bool)
    ensures Placed(Parse(entries, hasTasks).tasks)
  {
    hide Step;
    if entries != [] {
      OrdinalsArePlaces(entries[..|entries| - 1], hasTasks);
      StepPlaced(Parse(entries[..|entries| - 1], hasTasks), hasTasks, entries[|entries| - 1]);
    }
  }

  // ---- When the kind of a rollout changes -------------------------------------------------

  /** The user speaks at `j` after a reply, with no end of a task in between. */
  predicate SplitAt(entries: seq<Entry>, j: nat)
    requires j < |entries|
  {
    entries[j].UserMessage? && Answered(entries[..j])
  }

  /** The last reply comes after the last end of a task. */
  predicate Answered(entries: seq<Entry>) {
    exists i :: 0 <= i < |entries| && entries[i].AssistantReply?
                && forall k | i < k < |entries| :: !entries[k].TaskComplete?
  }

  predicate Splits(entries: seq<Entry>) { exists j :: 0 <= j < |entries| && SplitAt(entries, j) }

  lemma AnsweredNext(front: seq<Entry>, e: Entry)
    ensures Answered(front + [e]) <==> e.AssistantReply? || (Answered(front) && !e.TaskComplete?)
  {
    var all := front + [e];
    if Answered(all) {
      var i :| 0 <= i < |all| && all[i].AssistantReply? && forall k | i < k < |all| :: !all[k].TaskComplete?;
      if i < |front| {
        assert all[|front|] == e;
        assert front[i] == all[i] && forall k | i < k < |front| :: front[k] == all[k];
      }
    }
    if Answered(front) && !e.TaskComplete? {
      var i :| 0 <= i < |front| && front[i].AssistantReply? && forall k | i < k < |front| :: !front[k].TaskComplete?;
      assert all[i] == front[i];
    }
    if e.AssistantReply? { assert all[|front|] == e; }
  }

  lemma SplitsNext(front: seq<Entry>, e: Entry)
    ensures Splits(front + [e]) <==> Splits(front) || (e.UserMessage? && Answered(front))
  {
    hide Answered;
    var all := front + [e];
    assert all[..|front|] == front;
    forall j | 0 <= j < |front| ensures SplitAt(all, j) == SplitAt(front, j) { assert all[..j] == front[..j]; }
    assert SplitAt(all, |front|) == (e.UserMessage? && Answered(front));
    if Splits(front) {
      var j :| 0 <= j < |front| && SplitAt(front, j);
      assert SplitAt(all, j);
    }
  }

  /** A task takes entries and has a reply. */
  predicate Replying(st: Parsing) { st.open && st.tasks != [] && st.Last().parts != [] }

  lemma SameStep(st: Parsing, e: Entry)
    requires !e.TaskStarted? && (st.tasks != [] ==> !st.Last().importing)
    requires !(e.UserMessage? && Replying(st))
    ensures Step(st, true, e) == Step(st, false, e)
    ensures var st' := Step(st, false, e);
            && (st'.tasks != [] ==> !st'.Last().importing)
            && (Replying(st') <==> e.AssistantReply? || (Replying(st) && !e.TaskComplete?))
  {}

  /** Until the user speaks after a reply within a task both kinds of rollout are read alike. */
  lemma {:induction false} KindsAlike(entries: seq<Entry>)
    requires !HasTasks(entries) && !Splits(entries)
    ensures var st := Parse(entries, false);
            && Parse(entries, true) == st && (st.tasks != [] ==> !st.Last().importing)
            && (Replying(st) <==> Answered(entries))
  {
    hide Step, Replying, Answered, Splits, HasTasks;
    if entries == [] {
      NoEntries();
    } else {
      var front, e := entries[..|entries| - 1], entries[|entries| - 1];
      assert entries == front + [e];
      HasTasksNext(front, e);
      SplitsNext(front, e);
      AnsweredNext(front, e);
      KindsAlike(front);
      SameStep(Parse(front, false), e);
    }
  }

  lemma NoEntries()
    ensures !Answered([]) && Parse([], false) == Parse([], true) == Parsing([], false) && !Replying(Parsing([], false))
  {}

  lemma HasTasksNext(front: seq<Entry>, e: Entry)
    ensures HasTasks(front + [e]) <==> HasTasks(front) || e.TaskStarted?
  {
    assert (front + [e])[|front|] == e;
    if HasTasks(front) {
      var i :| 0 <= i < |front| && front[i].TaskStarted?;
      assert (front + [e])[i] == front[i];
    }
  }

  lemma {:induction false} FirstSplit(entries: seq<Entry>) returns (j: nat)
    requires Splits(entries)
    ensures j < |entries| && SplitAt(entries, j) && !Splits(entries[..j])
    decreases |entries|
  {
    hide Answered;
    var front, e := entries[..|entries| - 1], entries[|entries| - 1];
    assert entries == front + [e];
    SplitsNext(front, e);
    if Splits(front) {
      j := FirstSplit(front);
      assert front[..j] == entries[..j];
    } else {
      j := |front|;
      assert entries[..j] == front;
    }
  }

  /** Where it does, the two kinds part: one opens a task, the other goes on in the one that replied. */
  lemma SplitStep(st: Parsing, e: Entry)
    requires e.UserMessage? && Replying(st) && !st.Last().importing
    ensures var k := |st.tasks| - 1;
            && |Step(st, false, e).tasks| == k + 2 && Step(st, false, e).tasks[k] == st.tasks[k]
            && |Step(st, true, e).tasks| == k + 1 && |Step(st, true, e).tasks[k].parts| == |st.tasks[k].parts| + 1
  {}

  lemma SplitNeverExtends(entries: seq<Entry>, more: seq<Entry>)
    requires !HasTasks(entries) && Splits(entries)
    ensures !Extends(Parse(entries, false).tasks, Parse(entries + more, true).tasks)
  {
    hide Step, Replying, Answered, Splits, HasTasks, Parse;
    var j := FirstSplit(entries);
    var front, next := entries[..j], entries[..j + 1];
    NoTasksBefore(entries, j);
    KindsAlike(front);
    var st, k := Parse(front, false), |Parse(front, false).tasks| - 1;
    ReplyingSome(st);
    SplitStep(st, entries[j]);
    OneMore(entries, j, false);
    OneMore(entries, j, true);
    assert next + entries[j + 1..] == entries && next + (entries[j + 1..] + more) == entries + more;
    LongerExtends(next, entries[j + 1..], false);
    LongerExtends(next, entries[j + 1..] + more, true);
    assert Parse(entries, false).tasks[k] == st.tasks[k];
    assert Grown(Parse(next, true).tasks[k], Parse(entries + more, true).tasks[k]);
  }

  lemma ReplyingSome(st: Parsing)
    ensures Replying(st) ==> st.tasks != []
  {}

  lemma NoTasksBefore(entries: seq<Entry>, j: nat)
    requires !HasTasks(entries) && j <= |entries|
    ensures !HasTasks(entries[..j])
  {}

  lemma OneMore(entries: seq<Entry>, j: nat, hasTasks: bool)
    requires j < |entries|
    ensures Parse(entries[..j + 1], hasTasks) == Step(Parse(entries[..j], hasTasks), hasTasks, entries[j])
  {
    hide Step;
    assert entries[..j + 1][..j] == entries[..j];
  }

  lemma HasTasksBoth(entries: seq<Entry>, more: seq<Entry>)
    ensures HasTasks(entries + more) <==> HasTasks(entries) || HasTasks(more)
  {
    if HasTasks(entries) {
      var i :| 0 <= i < |entries| && entries[i].TaskStarted?;
      assert (entries + more)[i] == entries[i];
    }
    if HasTasks(more) {
      var i :| 0 <= i < |more| && more[i].TaskStarted?;
      assert (entries + more)[|entries| + i] == more[i];
    }
  }

  /** Whatever is appended: the longer parse extends the shorter one exactly when the rollout had task
      events before, or still has none, or the user never spoke after a reply within a task. */
  lemma ExtendsIff(entries: seq<Entry>, more: seq<Entry>)
    ensures Extends(Tasks(entries), Tasks(entries + more))
            <==> HasTasks(entries) || !HasTasks(more) || !Splits(entries)
  {
    hide Step, Splits, Parse, HasTasks, Extends;
    HasTasksBoth(entries, more);
    if HasTasks(entries) || !HasTasks(more) {
      LongerExtends(entries, more, HasTasks(entries));
    } else if Splits(entries) {
      SplitNeverExtends(entries, more);
    } else {
      KindsAlike(entries);
      LongerExtends(entries, more, true);
    }
  }

  /** When the first task event comes late, the rollout is read again as one with task events and its
      turns are not extended: what were two tasks become one. */
  lemma KindChangeShifts()
    ensures var early := [UserMessage("a"), AssistantReply("b"), UserMessage("c"), AssistantReply("d")];
            && Tasks(early) == [TaskValue(0, false, "a", ["b"]), TaskValue(1, false, "c", ["d"])]
            && Tasks(early + [TaskStarted(false)])
               == [TaskValue(0, false, "a", ["b", "User: c", "Assistant: d"]), Opened(1, false)]
            && !Extends(Tasks(early), Tasks(early + [TaskStarted(false)]))
  {
    hide Step, Extends;
    var a, b, c, d := UserMessage("a"), AssistantReply("b"), UserMessage("c"), AssistantReply("d");
    var early := [a, b, c, d];
    Reads4(a, b, c, d, false);
    Reads4(a, b, c, d, true);
    WithoutEvents();
    WithEvents();
    var longer := early + [TaskStarted(false)];
    assert !HasTasks(early);
    assert longer[4] == TaskStarted(false) && HasTasks(longer);
    assert longer[..4] == early;
    NotExtended();
  }

  lemma Reads4(a: Entry, b: Entry, c: Entry, d: Entry, h: bool)
    ensures Parse([a, b, c, d], h) == Step(Step(Step(Step(Parsing([], false), h, a), h, b), h, c), h, d)
  {
    hide Step;
    assert [a][..0] == [] && [a, b][..1] == [a] && [a, b, c][..2] == [a, b] && [a, b, c, d][..3] == [a, b, c];
    assert Parse([a], h) == Step(Parsing([], false), h, a);
    assert Parse([a, b], h) == Step(Parse([a], h), h, b);
    assert Parse([a, b, c], h) == Step(Parse([a, b], h), h, c);
  }

  /** One reply, or one more message, in the last of the tasks. */
  lemma Said(before: seq<TaskValue>, ordinal: nat, user: string, parts: seq<string>, hasTasks: bool, e: Entry)
    requires e.AssistantReply? || (e.UserMessage? && (parts == [] || hasTasks))
    ensures var st := Parsing(before + [TaskValue(ordinal, false, user, parts)], true);
            Step(st, hasTasks, e)
            == if e.AssistantReply? then
                 Parsing(before + [TaskValue(ordinal, false, user, parts
                   + [if parts != [] && StartsUser(parts[|parts| - 1]) then "Assistant: " + e.content else e.content])], true)
               else if parts == [] then Parsing(before + [TaskValue(ordinal, false, e.content, [])], true)
               else Parsing(before + [TaskValue(ordinal, false, user, parts + ["User: " + e.content])], true)
  {
    var tasks := before + [TaskValue(ordinal, false, user, parts)];
    assert tasks[..|tasks| - 1] == before;
    assert parts + [] == parts;
  }

  lemma WithoutEvents()
    ensures Step(Step(Step(Step(Parsing([], false), false, UserMessage("a")), false, AssistantReply("b")),
                      false, UserMessage("c")), false, AssistantReply("d"))
            == Parsing([TaskValue(0, false, "a", ["b"]), TaskValue(1, false, "c", ["d"])], true)
  {
    var one := TaskValue(0, false, "a", ["b"]);
    var s1 := Step(Parsing([], false), false, UserMessage("a"));
    assert s1 == Parsing([] + [TaskValue(0, false, "a", [])], true);
    Said([], 0, "a", [], false, AssistantReply("b"));
    assert [] + ["b"] == ["b"] && [] + [one] == [one];
    var s3 := Step(Parsing([one], true), false, UserMessage("c"));
    assert s3 == Parsing([one] + [TaskValue(1, false, "c", [])], true);
    Said([one], 1, "c", [], false, AssistantReply("d"));
    assert [] + ["d"] == ["d"];
    assert [one] + [TaskValue(1, false, "c", ["d"])] == [one, TaskValue(1, false, "c", ["d"])];
  }

  lemma WithEvents()
    ensures var s4 := Step(Step(Step(Step(Parsing([], false), true, UserMessage("a")), true, AssistantReply("b")),
                                true, UserMessage("c")), true, AssistantReply("d"));
            && s4 == Parsing([TaskValue(0, false, "a", ["b", "User: c", "Assistant: d"])], true)
            && Step(s4, true, TaskStarted(false))
               == Parsing([TaskValue(0, false, "a", ["b", "User: c", "Assistant: d"]), Opened(1, false)], true)
  {
    var s1 := Step(Parsing([], false), true, UserMessage("a"));
    assert s1 == Parsing([] + [TaskValue(0, false, "a", [])], true);
    Said([], 0, "a", [], true, AssistantReply("b"));
    assert [] + ["b"] == ["b"];
    Said([], 0, "a", ["b"], true, UserMessage("c"));
    var said := "User: " + "c";
    assert said == "User: c" && said[..6] == "User: ";
    assert ["b"] + [said] == ["b", "User: c"];
    Said([], 0, "a", ["b", "User: c"], true, AssistantReply("d"));
    assert "Assistant: " + "d" == "Assistant: d";
    assert ["b", "User: c"] + ["Assistant: d"] == ["b", "User: c", "Assistant: d"];
    var t := TaskValue(0, false, "a", ["b", "User: c", "Assistant: d"]);
    assert [] + [t] == [t] && [t] + [Opened(1, false)] == [t, Opened(1, false)];
  }

  lemma NotExtended()
    ensures !Extends([TaskValue(0, false, "a", ["b"]), TaskValue(1, false, "c", ["d"])],
                     [TaskValue(0, false, "a", ["b", "User: c", "Assistant: d"]), Opened(1, false)])
  {
    assert ["b"] != ["b", "User: c", "Assistant: d"];
  }
}
