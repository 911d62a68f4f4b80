/** The embedding title of a turn's passages: its project and its user's question. */
module PassageTitles {

  const TITLE_CHARS := 120
  const USER := "User: "
  const REPLY := "\n\nAssistant: "
  const DOT := " \U{00B7} "

  // ---- The question -----------------------------------------------------------------------

  /** White space as `str.split` takes it. */
  predicate IsSpace(c: char) {
    || '\t' <= c <= '\r' || '\U{1C}' <= c <= ' ' || c == '\U{85}' || c == '\U{A0}' || c == '\U{1680}'
    || '\U{2000}' <= c <= '\U{200A}' || c == '\U{2028}' || c == '\U{2029}' || c == '\U{202F}'
    || c == '\U{205F}' || c == '\U{3000}'
  }

  /** The words of a text with one space between each two; `word` is the one being read. */
  function Joined(text: string, word: string): string
    decreases |text|
  {
    if text == [] then word
    else if !IsSpace(text[0]) then Joined(text[1..], word + [text[0]])
    else if word == [] then Joined(text[1..], [])
    else
      var rest := Joined(text[1..], []);
      if rest == [] then word else word + " " + rest
  }

  /** How much of `text` stands before the first `marker`. */
  function Before(text: string, marker: string): (n: nat)
    ensures n <= |text|
  {
    if text == [] || marker <= text then 0 else 1 + Before(text[1..], marker)
  }

  function UserMessage(text: string): string {
    if USER <= text then text[|USER|..][..Before(text[|USER|..], REPLY)] else []
  }

  function Slashed(text: string): (r: string)
    ensures |r| == |text| && forall i | 0 <= i < |r| :: r[i] == if text[i] == '|' then '/' else text[i]
  {
    if text == [] then [] else [if text[0] == '|' then '/' else text[0]] + Slashed(text[1..])
  }

  function Question(text: string): string {
    var line := Slashed(Joined(UserMessage(text), []));
    if |line| > TITLE_CHARS then line[..TITLE_CHARS] else line
  }

  // ---- The project ------------------------------------------------------------------------

  function Stripped(path: string): string {
    if path != [] && path[|path| - 1] == '/' then Stripped(path[..|path| - 1]) else path
  }

  function LastPart(path: string): string {
    if path == [] || path[|path| - 1] == '/' then [] else LastPart(path[..|path| - 1]) + [path[|path| - 1]]
  }

  function ProjectName(root: string): string {
    if root in {"", "/", "unknown"} then [] else LastPart(Stripped(root))
  }

  function PassageTitle(root: string, text: string): string {
    var name, question := ProjectName(root), Question(text);
    if name == [] && question == [] then "none"
    else if question == [] then name
    else if name == [] then question
    else name + DOT + question
  }

  // ---- What a title is --------------------------------------------------------------------

  /** One line: no white space but single spaces, none of them first or, unless `cut`, last. */
  predicate OneLine(line: string, cut: bool) {
    && (forall i | 0 <= i < |line| :: IsSpace(line[i]) ==>
          line[i] == ' ' && 0 < i && (i + 1 < |line| ==> !IsSpace(line[i + 1])))
    && (line != [] && !cut ==> !IsSpace(line[|line| - 1]))
  }

  lemma {:induction false} JoinedIsLine(text: string, word: string)
    requires forall i | 0 <= i < |word| :: !IsSpace(word[i])
    ensures OneLine(Joined(text, word), false)
    decreases |text|
  {
    hide IsSpace;
    if text != [] {
      if !IsSpace(text[0]) {
        JoinedIsLine(text[1..], word + [text[0]]);
      } else {
        JoinedIsLine(text[1..], []);
        var rest := Joined(text[1..], []);
        if word != [] && rest != [] {
          var line := word + " " + rest;
          forall i | 0 <= i < |line| && IsSpace(line[i])
            ensures line[i] == ' ' && 0 < i && (i + 1 < |line| ==> !IsSpace(line[i + 1]))
          {
            if i > |word| { assert line[i] == rest[i - |word| - 1]; }
            if i + 1 < |line| && i >= |word| { assert line[i + 1] == rest[i - |word|]; }
          }
        }
      }
    }
  }

  /** A question is one line of at most 120 characters and never holds the separator of the prompt. */
  lemma QuestionIsLine(text: string)
    ensures OneLine(Question(text), true) && |Question(text)| <= TITLE_CHARS && '|' !in Question(text)
  {
    hide Joined;
    JoinedIsLine(UserMessage(text), []);
    var line := Joined(UserMessage(text), []);
    var slashed := Slashed(line);
    forall i | 0 <= i < |line| ensures IsSpace(slashed[i]) <==> IsSpace(line[i]) {}
  }

  /** The title slot of the prompt can be ended early exactly by a project whose own name holds the separator. */
  lemma SeparatorIff(root: string, text: string)
    ensures '|' in PassageTitle(root, text) <==> '|' in ProjectName(root)
  {
    QuestionIsLine(text);
    assert '|' !in DOT && '|' !in "none";
  }

  /** A project directory named with the separator. */
  lemma SeparatorSlips()
    ensures '|' in PassageTitle("/home/a|b", "")
  {
    var root := "/home/a|b";
    assert root[..8] == "/home/a|" && "/home/a|"[..7] == "/home/a";
    assert LastPart(root) == LastPart("/home/a|") + ['b'];
    assert '|' in LastPart("/home/a|");
    SeparatorIff("/home/a|b", "");
  }

  lemma {:induction false} FirstMarkerWithin(u: string, a: string, b: string, marker: string)
    requires marker != []
    ensures Before(u + marker + a, marker) <= |u|
    ensures Before(u + marker + b, marker) == Before(u + marker + a, marker)
  {
    var x, y := u + marker + a, u + marker + b;
    if u == [] {
      assert marker <= x && marker <= y;
    } else {
      assert x[1..] == u[1..] + marker + a && y[1..] == u[1..] + marker + b;
      FirstMarkerWithin(u[1..], a, b, marker);
      assert x[..|marker|] == (u + marker)[..|marker|] == y[..|marker|];
    }
  }

  lemma MessageIgnoresReply(u: string, a: string, b: string)
    ensures UserMessage(USER + (u + REPLY + a)) == UserMessage(USER + (u + REPLY + b))
  {
    hide Before;
    var x, y := u + REPLY + a, u + REPLY + b;
    FirstMarkerWithin(u, a, b, REPLY);
    var n := Before(x, REPLY);
    assert x[..n] == u[..n] == y[..n];
    assert (USER + x)[|USER|..] == x && (USER + y)[|USER|..] == y;
  }

  /** A turn's title does not depend on its reply, nor on anything after the first reply marker. */
  lemma TitleIgnoresReply(root: string, u: string, a: string, b: string)
    ensures PassageTitle(root, USER + u + REPLY + a) == PassageTitle(root, USER + u + REPLY + b)
  {
    hide Joined, Slashed, ProjectName, UserMessage;
    MessageIgnoresReply(u, a, b);
    assert USER + u + REPLY + a == USER + (u + REPLY + a) && USER + u + REPLY + b == USER + (u + REPLY + b);
  }

  // ---- What each part is ----------------------------------------------------------------------

  /** The code points that separate words. */
  lemma SpacesAre(c: char)
    ensures IsSpace(c) <==> c as int in {9, 10, 11, 12, 13, 28, 29, 30, 31, 32, 0x85, 0xA0, 0x1680, 0x2028, 0x2029, 0x202F,
                                         0x205F, 0x3000} || 0x2000 <= c as int < 0x200B
  {}

  /** A text without white space is one word. */
  lemma {:induction false} OneWord(text: string, word: string)
    requires forall i | 0 <= i < |text| :: !IsSpace(text[i])
    ensures Joined(text, word) == word + text
    decreases |text|
  {
    hide IsSpace;
    if text != [] {
      OneWord(text[1..], word + [text[0]]);
      assert word + [text[0]] + text[1..] == word + text;
    }
  }

  /** White space between two texts becomes one space, or nothing beside a blank one. */
  lemma {:induction false} WordsJoin(a: string, c: char, b: string, word: string)
    requires IsSpace(c)
    ensures Joined(a + [c] + b, word) == Spaced(Joined(a, word), Joined(b, []))
    decreases |a|
  {
    hide IsSpace;
    var text := a + [c] + b;
    if a == [] {
      assert text[1..] == b;
    } else {
      assert text[1..] == a[1..] + [c] + b;
      if !IsSpace(a[0]) {
        WordsJoin(a[1..], c, b, word + [a[0]]);
      } else {
        WordsJoin(a[1..], c, b, []);
        var x, y := Joined(a[1..], []), Joined(b, []);
        assert word + " " + (x + " " + y) == word + " " + x + " " + y;
      }
    }
  }

  function Spaced(a: string, b: string): string { if a == "" then b else if b == "" then a else a + " " + b }

  predicate NoMarkerBefore(text: string, n: nat) { forall i: nat | i < n && i <= |text| :: !("\n\nAssistant: " <= text[i..]) }

  lemma {:induction false} BeforeIs(text: string, n: nat)
    requires n <= |text| && NoMarkerBefore(text, n) && (n == |text| || REPLY <= text[n..])
    ensures Before(text, REPLY) == n
    decreases n
  {
    assert text[0..] == text;
    if n > 0 {
      forall i: nat | i < n - 1 && i <= |text[1..]| ensures !("\n\nAssistant: " <= text[1..][i..]) {
        assert text[1..][i..] == text[i + 1..];
      }
      assert text[1..][n - 1..] == text[n..];
      BeforeIs(text[1..], n - 1);
    }
  }

  /** The user's message stands between its mark and the first reply, or the end. */
  lemma MessageIs(u: string, reply: string)
    ensures NoMarkerBefore(u + REPLY + reply, |u|) ==> UserMessage("User: " + u + "\n\nAssistant: " + reply) == u
    ensures NoMarkerBefore(u, |u|) ==> UserMessage("User: " + u) == u
  {
    var x := u + REPLY + reply;
    assert (USER + x)[|USER|..] == x && (USER + u)[|USER|..] == u;
    assert "User: " + u + "\n\nAssistant: " + reply == USER + x;
    if NoMarkerBefore(x, |u|) {
      assert x[|u|..] == REPLY + reply;
      BeforeIs(x, |u|);
      assert x[..|u|] == u;
    }
    if NoMarkerBefore(u, |u|) { BeforeIs(u, |u|); }
  }

  lemma NoMessage(text: string)
    requires !("User: " <= text)
    ensures UserMessage(text) == "" && Question(text) == ""
  {}

  /** The question is the message on one line, its separators turned, and at most 120 characters of that. */
  lemma QuestionIs(text: string)
    ensures var line, q := Joined(UserMessage(text), []), Question(text);
            && |q| == (if |line| <= 120 then |line| else 120)
            && forall i | 0 <= i < |q| :: q[i] == if line[i] == '|' then '/' else line[i]
  {
    hide Joined;
  }

  /** A project is named by the last part of its path, whatever slashes follow; three roots name none. */
  lemma ProjectIs(dir: string, name: string, slashes: string)
    requires '/' !in name && name != "" && forall c | c in slashes :: c == '/'
    ensures ProjectName(dir + "/" + name + slashes) == name
  {
    hide Stripped, LastPart;
    var path := dir + "/" + name;
    assert path[|path| - 1] == name[|name| - 1] && name[|name| - 1] in name;
    StrippedIs(path, slashes);
    LastPartIs(dir + "/", name);
    var root := path + slashes;
    assert root[|dir|] == '/' && root[|dir| + 1] == name[0] && name[0] in name;
    assert "unknown"[0] != '/' && '/' !in "unknown";
    assert root != "unknown" by { assert '/' in root; }
  }

  lemma BareProjectIs(name: string, slashes: string)
    requires '/' !in name && name != "" && (forall c | c in slashes :: c == '/') && name + slashes != "unknown"
    ensures ProjectName(name + slashes) == name
  {
    hide Stripped, LastPart;
    assert name[|name| - 1] in name && name[0] in name;
    StrippedIs(name, slashes);
    LastPartIs("", name);
    assert "" + name == name && (name + slashes)[0] == name[0];
  }

  lemma NoProject()
    ensures ProjectName("") == ProjectName("/") == ProjectName("unknown") == ""
  {}

  lemma {:induction false} StrippedIs(path: string, slashes: string)
    requires (path != [] ==> path[|path| - 1] != '/') && forall c | c in slashes :: c == '/'
    ensures Stripped(path + slashes) == path
    decreases |slashes|
  {
    if slashes == [] {
      assert path + slashes == path;
    } else {
      var n := |slashes| - 1;
      assert slashes[n] in slashes;
      forall c | c in slashes[..n] ensures c == '/' { assert c in slashes; }
      assert (path + slashes)[..|path + slashes| - 1] == path + slashes[..n];
      StrippedIs(path, slashes[..n]);
    }
  }

  lemma {:induction false} LastPartIs(dir: string, name: string)
    requires (dir == [] || dir[|dir| - 1] == '/') && '/' !in name
    ensures LastPart(dir + name) == name
    decreases |name|
  {
    var path := dir + name;
    if name == [] {
      assert path == dir;
    } else {
      var n := |name| - 1;
      assert name[n] in name && path[..|path| - 1] == dir + name[..n];
      LastPartIs(dir, name[..n]);
    }
  }

  /** The two parts with a dot between them, the one that is there, or the word for neither. */
  lemma TitleIs(root: string, text: string)
    ensures var name, q := ProjectName(root), Question(text);
            && (name != "" && q != "" ==> PassageTitle(root, text) == name + " \U{00B7} " + q)
            && (name == "" && q != "" ==> PassageTitle(root, text) == q)
            && (name != "" && q == "" ==> PassageTitle(root, text) == name)
            && (name == "" && q == "" ==> PassageTitle(root, text) == "none")
  {
    hide ProjectName, Question;
  }
}
