/** What a parse makes of a conversation, in the conversation's own terms: a rollout written from a list of turns is read
    as those turns, each with the text it is stored with. */
module CodexTalk {
  import opened CodexTasks

  /** What follows a request: the user speaks again, or a reply. */
  datatype Said = Asked(content: string) | Answered(content: string)

  /** A request with all that was said after it, or an imported turn, whose messages are not read. */
  datatype Talk = Held(request: string, said: seq<Said>) | Imported(said: seq<Said>)

  // ---- The text of a turn -------------------------------------------------------------------

  /** A line of the text: the user's begin as such, and a reply is marked when the line before it does. */
  function Spoken(said: seq<Said>, i: nat): string
    requires i < |said|
    decreases i, 1
  {
    if said[i].Asked? then "User: " + said[i].content
    else (if i > 0 && "User: " <= Spoken(said, i - 1) then "Assistant: " else "") + said[i].content
  }

  function Lines(said: seq<Said>): seq<string> { seq(|said|, i requires 0 <= i < |said| => Spoken(said, i)) }

  /** With a blank line between each two. */
  function Paragraphs(lines: seq<string>): string {
    if lines == [] then ""
    else if |lines| == 1 then lines[0]
    else Paragraphs(lines[..|lines| - 1]) + "\n\n" + lines[|lines| - 1]
  }

  lemma {:induction false} JoinedMore(parts: seq<string>, reply: string)
    requires parts != []
    ensures Joined(parts + [reply]) == Joined(parts) + "\n\n" + reply
  {
    var more := parts + [reply];
    if |parts| == 1 {
      assert more[1..] == [reply];
    } else {
      assert more[1..] == parts[1..] + [reply];
      JoinedMore(parts[1..], reply);
    }
  }

  lemma {:induction false} JoinedAre(parts: seq<string>)
    ensures Joined(parts) == Paragraphs(parts)
  {
    if |parts| > 1 {
      var front, last := parts[..|parts| - 1], parts[|parts| - 1];
      assert parts == front + [last];
      JoinedMore(front, last);
      JoinedAre(front);
    }
  }

  /** The text a task is stored with, before and after the cut. */
  function Stored(request: string, said: seq<Said>): string {
    if request == "" then Paragraphs(Lines(said)) else "User: " + request + "\n\nAssistant: " + Paragraphs(Lines(said))
  }

  lemma TextIs(t: TaskValue, truncate: string -> string, said: seq<Said>)
    requires t.parts == Lines(said)
    ensures t.Text(truncate) == truncate(Stored(t.user, said))
  {
    JoinedAre(t.parts);
  }

  /** One more reply is one more paragraph of the text. */
  lemma ReplyAdds(t: TaskValue, content: string, truncate: string -> string)
    requires t.parts != []
    ensures t.AddReply(content).user == t.user
    ensures t.AddReply(content).Text(truncate)
            == truncate((if t.user == "" then "" else "User: " + t.user + "\n\nAssistant: ") + Paragraphs(t.parts) + "\n\n"
                        + (if "User: " <= t.parts[|t.parts| - 1] then "Assistant: " else "") + content)
  {
    hide Joined, Paragraphs;
    StartsIff(t.parts[|t.parts| - 1]);
    var mark := if "User: " <= t.parts[|t.parts| - 1] then "Assistant: " else "";
    var head := if t.user == "" then "" else "User: " + t.user + "\n\nAssistant: ";
    assert [] + content == content;
    assert mark + content == if "User: " <= t.parts[|t.parts| - 1] then "Assistant: " + content else content;
    assert t.AddReply(content).parts == t.parts + [mark + content];
    JoinedMore(t.parts, mark + content);
    JoinedAre(t.parts);
    assert head + (Paragraphs(t.parts) + "\n\n" + (mark + content)) == head + Paragraphs(t.parts) + "\n\n" + mark + content;
    assert t.user == "" ==> head + Joined(t.parts + [mark + content]) == Joined(t.parts + [mark + content]);
  }

  lemma StartsIff(s: string)
    ensures StartsUser(s) <==> "User: " <= s
  {}

  // ---- Rollouts written from turns ----------------------------------------------------------

  function Message(s: Said): Entry {
    match s case Asked(content) => UserMessage(content) case Answered(content) => AssistantReply(content)
  }

  function Messages(said: seq<Said>): seq<Entry> { seq(|said|, i requires 0 <= i < |said| => Message(said[i])) }

  /** As a rollout with task events has it. */
  function Written(t: Talk): seq<Entry> {
    match t
    case Held(request, said) => [TaskStarted(false), UserMessage(request)] + Messages(said) + [TaskComplete]
    case Imported(said) => [TaskStarted(true)] + Messages(said) + [TaskComplete]
  }

  function WrittenAll(talks: seq<Talk>): seq<Entry> {
    if talks == [] then [] else WrittenAll(talks[..|talks| - 1]) + Written(talks[|talks| - 1])
  }

  /** A reply comes before the user speaks again, so the request stands. */
  predicate Kept(t: Talk) { t.Held? && t.said != [] ==> t.said[0].Answered? }

  /** What a turn is read as. */
  function ReadAs(i: nat, t: Talk): TaskValue {
    match t
    case Held(request, said) => TaskValue(i, false, request, Lines(said))
    case Imported(_) => TaskValue(i, true, "", [])
  }

  function ReadAll(talks: seq<Talk>): seq<TaskValue> { seq(|talks|, i requires 0 <= i < |talks| => ReadAs(i, talks[i])) }

  lemma NoLines()
    ensures Lines([]) == []
  {}

  lemma LinesNext(said: seq<Said>)
    requires said != []
    ensures Lines(said) == Lines(said[..|said| - 1]) + [Spoken(said, |said| - 1)]
  {
    var n := |said| - 1;
    forall i: nat | i < n ensures Spoken(said[..n], i) == Spoken(said, i) { SpokenFront(said, n, i); }
  }

  lemma {:induction false} SpokenFront(said: seq<Said>, n: nat, i: nat)
    requires i < n <= |said|
    ensures Spoken(said[..n], i) == Spoken(said, i)
  {
    if i > 0 { SpokenFront(said, n, i - 1); }
  }

  /** Entries one after another. */
  lemma {:induction false} ParseOn(a: seq<Entry>, e: Entry, hasTasks: bool)
    ensures Parse(a + [e], hasTasks) == Step(Parse(a, hasTasks), hasTasks, e)
  {
    assert (a + [e])[..|a + [e]| - 1] == a;
  }

  /** A line without text changes nothing. */
  lemma LineIgnored(a: seq<Entry>, hasTasks: bool)
    ensures Parse(a + [Line], hasTasks) == Parse(a, hasTasks)
  {
    ParseOn(a, Line, hasTasks);
  }

  /** One more message in the last task. */
  lemma SaidStep(front: seq<TaskValue>, i: nat, request: string, said: seq<Said>, hasTasks: bool)
    requires said != [] && (|said| == 1 || !hasTasks ==> said[|said| - 1].Answered?)
    ensures var n := |said| - 1;
            Step(Parsing(front + [TaskValue(i, false, request, Lines(said[..n]))], true), hasTasks, Message(said[n]))
            == Parsing(front + [TaskValue(i, false, request, Lines(said))], true)
  {
    hide Spoken;
    var n := |said| - 1;
    var v := TaskValue(i, false, request, Lines(said[..n]));
    LinesNext(said);
    SpokenIs(said);
    if n > 0 {
      SpokenFront(said, n, n - 1);
      StartsIff(v.parts[n - 1]);
      assert v.parts[n - 1] == Spoken(said, n - 1);
    }
    assert (front + [v])[..|front + [v]| - 1] == front;
  }

  lemma SpokenIs(said: seq<Said>)
    requires said != []
    ensures var n := |said| - 1;
            Spoken(said, n)
            == if said[n].Asked? then "User: " + said[n].content
               else if n > 0 && "User: " <= Spoken(said, n - 1) then "Assistant: " + said[n].content else said[n].content
  {}

  lemma {:induction false} SaidParses(a: seq<Entry>, front: seq<TaskValue>, request: string, said: seq<Said>, i: nat)
    requires Parse(a, true) == Parsing(front + [TaskValue(i, false, request, [])], true)
    requires said != [] ==> said[0].Answered?
    ensures Parse(a + Messages(said), true) == Parsing(front + [TaskValue(i, false, request, Lines(said))], true)
  {
    hide Parse, Step, Lines;
    if said == [] {
      assert Lines(said) == [] by { NoLines(); }
      assert a + Messages(said) == a;
    } else {
      var n := |said| - 1;
      var before, last := said[..n], said[n];
      SaidParses(a, front, request, before, i);
      assert a + Messages(said) == a + Messages(before) + [Message(last)];
      ParseOn(a + Messages(before), Message(last), true);
      SaidStep(front, i, request, said, true);
    }
  }

  lemma {:induction false} ImportParses(a: seq<Entry>, tasks: seq<TaskValue>, said: seq<Said>)
    requires Parse(a, true) == Parsing(tasks, true) && tasks != [] && tasks[|tasks| - 1].importing
    ensures Parse(a + Messages(said), true) == Parsing(tasks, true)
  {
    hide Parse;
    if said == [] {
      assert a + Messages(said) == a;
    } else {
      var n := |said| - 1;
      ImportParses(a, tasks, said[..n]);
      assert a + Messages(said) == a + Messages(said[..n]) + [Message(said[n])];
      ParseOn(a + Messages(said[..n]), Message(said[n]), true);
    }
  }

  lemma {:induction false} WrittenParses(a: seq<Entry>, tasks: seq<TaskValue>, t: Talk)
    requires Parse(a, true) == Parsing(tasks, false) && Kept(t)
    ensures Parse(a + Written(t), true) == Parsing(tasks + [ReadAs(|tasks|, t)], false)
  {
    hide Parse;
    match t
    case Held(request, said) =>
      var b, c := a + [TaskStarted(false)], a + [TaskStarted(false)] + [UserMessage(request)];
      ParseOn(a, TaskStarted(false), true);
      ParseOn(b, UserMessage(request), true);
      SaidParses(c, tasks, request, said, |tasks|);
      ParseOn(c + Messages(said), TaskComplete, true);
      assert a + Written(t) == c + Messages(said) + [TaskComplete];
    case Imported(said) =>
      var b := a + [TaskStarted(true)];
      ParseOn(a, TaskStarted(true), true);
      ImportParses(b, tasks + [Opened(|tasks|, true)], said);
      ParseOn(b + Messages(said), TaskComplete, true);
      assert a + Written(t) == b + Messages(said) + [TaskComplete];
  }

  lemma {:induction false} AllParse(talks: seq<Talk>)
    requires forall t | t in talks :: Kept(t)
    ensures Parse(WrittenAll(talks), true) == Parsing(ReadAll(talks), false)
  {
    hide Kept, ReadAs, Written;
    if talks != [] {
      var n := |talks| - 1;
      forall t | t in talks[..n] ensures Kept(t) { assert t in talks; }
      AllParse(talks[..n]);
      WrittenParses(WrittenAll(talks[..n]), ReadAll(talks[..n]), talks[n]);
      assert ReadAll(talks) == ReadAll(talks[..n]) + [ReadAs(n, talks[n])];
    }
  }

  /** Reading a rollout with task events gives back the turns it was written from: each under its place, imported ones
      empty, the others with their request and all that was said after it. */
  lemma TalksRoundTrip(talks: seq<Talk>)
    requires talks != [] && forall t | t in talks :: Kept(t)
    ensures Tasks(WrittenAll(talks)) == ReadAll(talks)
    ensures forall i, truncate: string -> string | 0 <= i < |talks| && talks[i].Held? ::
              Tasks(WrittenAll(talks))[i].Text(truncate) == truncate(Stored(talks[i].request, talks[i].said))
  {
    hide Parse, Lines, Stored;
    AllParse(talks);
    SomeStarted(talks);
    forall i, truncate: string -> string | 0 <= i < |talks| && talks[i].Held?
      ensures Tasks(WrittenAll(talks))[i].Text(truncate) == truncate(Stored(talks[i].request, talks[i].said))
    {
      TextIs(ReadAll(talks)[i], truncate, talks[i].said);
    }
  }

  lemma SomeStarted(talks: seq<Talk>)
    requires talks != []
    ensures HasTasks(WrittenAll(talks))
  {
    var n := |talks| - 1;
    var all, before := WrittenAll(talks), |WrittenAll(talks[..n])|;
    assert all[before] == Written(talks[n])[0];
    assert all[before].TaskStarted?;
  }

  // ---- Rollouts without task events ----------------------------------------------------------

  /** A request and the replies to it. */
  function Plain(request: string, replies: seq<string>): seq<Entry> {
    [UserMessage(request)] + Messages(Replies(replies))
  }

  function PlainAll(talks: seq<(string, seq<string>)>): seq<Entry> {
    if talks == [] then [] else PlainAll(talks[..|talks| - 1]) + Plain(talks[|talks| - 1].0, talks[|talks| - 1].1)
  }

  function Replies(replies: seq<string>): seq<Said> { seq(|replies|, i requires 0 <= i < |replies| => Answered(replies[i])) }

  function PlainRead(talks: seq<(string, seq<string>)>): seq<TaskValue> {
    seq(|talks|, i requires 0 <= i < |talks| => TaskValue(i, false, talks[i].0, Lines(Replies(talks[i].1))))
  }

  lemma {:induction false} RepliesParse(a: seq<Entry>, front: seq<TaskValue>, request: string, replies: seq<string>, i: nat)
    requires Parse(a, false) == Parsing(front + [TaskValue(i, false, request, [])], true)
    ensures Parse(a + Messages(Replies(replies)), false)
            == Parsing(front + [TaskValue(i, false, request, Lines(Replies(replies)))], true)
  {
    hide Parse, Step, Lines;
    if replies == [] {
      assert Replies(replies) == [];
      NoLines();
      assert a + Messages(Replies(replies)) == a;
    } else {
      var n := |replies| - 1;
      var said := Replies(replies);
      RepliesParse(a, front, request, replies[..n], i);
      assert said[..n] == Replies(replies[..n]);
      assert a + Messages(said) == a + Messages(said[..n]) + [Message(said[n])];
      ParseOn(a + Messages(said[..n]), Message(said[n]), false);
      SaidStep(front, i, request, said, false);
    }
  }

  /** Without task events each user message that follows a reply begins a turn, so requests that were all answered are
      read as they were written. */
  lemma {:induction false} PlainRoundTrip(talks: seq<(string, seq<string>)>)
    requires forall t | t in talks :: t.1 != []
    ensures Parse(PlainAll(talks), false) == Parsing(PlainRead(talks), talks != []) && Tasks(PlainAll(talks)) == PlainRead(talks)
  {
    hide Parse, Plain;
    if talks == [] {
      PlainNone();
    } else {
      var n := |talks| - 1;
      forall t | t in talks[..n] ensures t.1 != [] { assert t in talks; }
      PlainRoundTrip(talks[..n]);
      assert talks[n] in talks;
      PlainOn(PlainAll(talks[..n]), PlainRead(talks[..n]), talks[n].0, talks[n].1);
      assert PlainRead(talks) == PlainRead(talks[..n]) + [TaskValue(n, false, talks[n].0, Lines(Replies(talks[n].1)))];
      if n > 0 {
        assert talks[n - 1] in talks;
        assert PlainRead(talks[..n])[n - 1].parts != [];
      }
    }
    PlainHasNone(talks);
  }

  lemma PlainNone()
    ensures Parse([], false) == Parsing([], false)
  {}

  lemma PlainOn(a: seq<Entry>, tasks: seq<TaskValue>, request: string, replies: seq<string>)
    requires Parse(a, false) == Parsing(tasks, tasks != []) && (tasks != [] ==> tasks[|tasks| - 1].parts != [])
    ensures Parse(a + Plain(request, replies), false)
            == Parsing(tasks + [TaskValue(|tasks|, false, request, Lines(Replies(replies)))], true)
  {
    hide Parse, Lines;
    ParseOn(a, UserMessage(request), false);
    RepliesParse(a + [UserMessage(request)], tasks, request, replies, |tasks|);
    assert a + Plain(request, replies) == a + [UserMessage(request)] + Messages(Replies(replies));
  }

  lemma {:induction false} PlainHasNone(talks: seq<(string, seq<string>)>)
    ensures !HasTasks(PlainAll(talks))
  {
    if talks != [] {
      PlainHasNone(talks[..|talks| - 1]);
      var a, b := PlainAll(talks[..|talks| - 1]), Plain(talks[|talks| - 1].0, talks[|talks| - 1].1);
      var c := PlainAll(talks);
      forall i | 0 <= i < |c| ensures !c[i].TaskStarted? {
        if i < |a| { assert c[i] == a[i]; } else { assert c[i] == b[i - |a|]; }
      }
    }
  }
}
