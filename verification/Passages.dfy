/** Overlapping windows of long turns, and the doc_ids of the passages made of them. */
module Passages {
  import opened Wrappers
  import opened PassageTitles

  const PASSAGE_TOKENS := 450
  const PASSAGE_OVERLAP := 64
  const STEP := PASSAGE_TOKENS - PASSAGE_OVERLAP

  // ---- Windows ----------------------------------------------------------------------------

  /** Tokens `start` up to `end`. */
  datatype Window = Window(start: nat, end: nat)

  function Windows(n: nat, start: nat): seq<Window>
    requires n > PASSAGE_TOKENS
    decreases if start < n then n - start else 0
  {
    if start + PASSAGE_TOKENS >= n then [Window(n - PASSAGE_TOKENS, n)]
    else [Window(start, start + PASSAGE_TOKENS)] + Windows(n, start + STEP)
  }

  function CeilDiv(a: nat, b: nat): nat
    requires b > 0
  {
    (a + b - 1) / b
  }

  /** `1 + ceil((n - 450) / 386)`. */
  function WindowCount(n: nat): nat
    requires n > PASSAGE_TOKENS
  {
    1 + CeilDiv(n - PASSAGE_TOKENS, STEP)
  }

  /** Where window `i` starts. */
  function StartOf(n: nat, i: nat): nat
    requires n > PASSAGE_TOKENS
  {
    if i + 1 < WindowCount(n) then i * STEP else n - PASSAGE_TOKENS
  }

  /** Window `i` is not the last one exactly when it ends before the last token. */
  lemma LastWindow(n: nat, i: nat)
    requires n > PASSAGE_TOKENS
    ensures i + 1 < WindowCount(n) <==> i * STEP + PASSAGE_TOKENS < n
  {
    var rest := n - PASSAGE_TOKENS;
    if i * STEP < rest {
      assert i + 1 <= CeilDiv(rest, STEP);
    } else {
      assert rest + STEP - 1 <= i * STEP + STEP - 1;
      assert CeilDiv(rest, STEP) <= i;
    }
  }

  lemma {:induction false} WindowsAre(n: nat, i: nat)
    requires n > PASSAGE_TOKENS && (i == 0 || (i - 1) * STEP + PASSAGE_TOKENS < n)
    ensures var w := Windows(n, i * STEP);
            && |w| == WindowCount(n) - i
            && forall k | 0 <= k < |w| :: w[k] == Window(StartOf(n, i + k), StartOf(n, i + k) + PASSAGE_TOKENS)
    decreases if i * STEP < n then n - i * STEP else 0
  {
    LastWindow(n, i);
    if i > 0 { LastWindow(n, i - 1); }
    if i * STEP + PASSAGE_TOKENS < n {
      WindowsAre(n, i + 1);
      var w, rest := Windows(n, i * STEP), Windows(n, (i + 1) * STEP);
      assert i * STEP + STEP == (i + 1) * STEP;
      assert w == [Window(i * STEP, i * STEP + PASSAGE_TOKENS)] + rest;
      forall k | 0 <= k < |w| ensures w[k] == Window(StartOf(n, i + k), StartOf(n, i + k) + PASSAGE_TOKENS) {
        if k > 0 { assert w[k] == rest[k - 1]; }
      }
    } else {
      assert Windows(n, i * STEP) == [Window(n - PASSAGE_TOKENS, n)];
    }
  }

  /** Every window holds exactly 450 tokens, starts strictly rise, neighbours share at least 64 tokens,
      the first starts at the first token and the last ends at the last, and there are
      `1 + ceil((n - 450) / 386)` of them. */
  lemma WindowTheorem(n: nat)
    requires n > PASSAGE_TOKENS
    ensures var w := Windows(n, 0);
            && |w| == WindowCount(n) && |w| >= 2
            && (forall i | 0 <= i < |w| :: w[i].end == w[i].start + PASSAGE_TOKENS <= n)
            && (forall i | 0 <= i < |w| - 1 ::
                  w[i].start < w[i + 1].start && w[i + 1].start + PASSAGE_OVERLAP <= w[i].end)
            && w[0].start == 0 && w[|w| - 1].end == n
  {
    var w := Windows(n, 0);
    WindowsAre(n, 0);
    LastWindow(n, 0);
    forall i | 0 <= i < |w| ensures w[i].end == w[i].start + PASSAGE_TOKENS <= n {
      LastWindow(n, i);
      assert w[i] == Window(StartOf(n, 0 + i), StartOf(n, 0 + i) + PASSAGE_TOKENS);
    }
    forall i | 0 <= i < |w| - 1
      ensures w[i].start < w[i + 1].start && w[i + 1].start + PASSAGE_OVERLAP <= w[i].end
    {
      LastWindow(n, i);
      LastWindow(n, i + 1);
      assert w[i] == Window(StartOf(n, 0 + i), StartOf(n, 0 + i) + PASSAGE_TOKENS);
      assert w[i + 1] == Window(StartOf(n, 0 + (i + 1)), StartOf(n, 0 + (i + 1)) + PASSAGE_TOKENS);
    }
  }

  /** Every token is in a window, and so is every run of up to 64 tokens, whole. */
  lemma RunInOneWindow(n: nat, a: nat, length: nat) returns (i: nat)
    requires n > PASSAGE_TOKENS && 1 <= length <= PASSAGE_OVERLAP && a + length <= n
    ensures var w := Windows(n, 0); i < |w| && w[i].start <= a && a + length <= w[i].end
  {
    WindowTheorem(n);
    var w := Windows(n, 0);
    i := |w| - 1;
    while w[i].start > a
      invariant i < |w| && (i + 1 < |w| ==> a < w[i + 1].start)
    {
      i := i - 1;
    }
  }

  datatype Span = Span(start: nat, end: nat)

  function Tokens(offsets: seq<Span>): seq<Span> {
    if offsets == [] then []
    else
      var last := offsets[|offsets| - 1];
      Tokens(offsets[..|offsets| - 1]) + if last.end > last.start then [last] else []
  }

  /** From the first character of the first token to the last of the last. */
  function SpanOf(tokens: seq<Span>, w: Window): Span
    requires w.start < w.end <= |tokens|
  {
    Span(tokens[w.start].start, tokens[w.end - 1].end)
  }

  /** No spans for a short text, otherwise one per window. */
  ghost predicate AreSpans(tokens: seq<Span>, spans: seq<Span>) {
    if |tokens| <= PASSAGE_TOKENS then spans == []
    else
      var w := Windows(|tokens|, 0);
      |spans| == |w| && forall i | 0 <= i < |w| :: w[i].start < w[i].end <= |tokens| && spans[i] == SpanOf(tokens, w[i])
  }

  /** Those spans. */
  function Spans(tokens: seq<Span>): (spans: seq<Span>)
    ensures AreSpans(tokens, spans)
  {
    if |tokens| <= PASSAGE_TOKENS then []
    else
      WindowTheorem(|tokens|);
      var w := Windows(|tokens|, 0);
      seq(|w|, i requires 0 <= i < |w| => SpanOf(tokens, w[i]))
  }

  lemma OnlySpans(tokens: seq<Span>, spans: seq<Span>)
    requires AreSpans(tokens, spans)
    ensures spans == Spans(tokens)
  {
    hide Windows, WindowCount, StartOf;
    assert AreSpans(tokens, Spans(tokens));
  }

  lemma WindowsFit(n: nat)
    requires n > PASSAGE_TOKENS
    ensures forall w | w in Windows(n, 0) :: w.start < w.end <= n
  {
    hide WindowCount, StartOf;
    WindowTheorem(n);
  }

  /** The character spans of the passages. */
  method PassageSpans(offsets: seq<Span>) returns (spans: seq<Span>)
    ensures AreSpans(Tokens(offsets), spans)
  {
    hide WindowCount, StartOf, Tokens;
    var tokens := Tokens(offsets);
    spans := [];
    if |tokens| <= PASSAGE_TOKENS { return; }
    var n, start := |tokens|, 0;
    ghost var windows := Windows(n, 0);
    WindowsFit(n);
    while true
      invariant start + PASSAGE_TOKENS < n + STEP
      invariant |spans| < |windows| && windows[|spans|..] == Windows(n, start)
      invariant forall i | 0 <= i < |spans| :: spans[i] == SpanOf(tokens, windows[i])
      decreases n + STEP - start
    {
      var end := start + PASSAGE_TOKENS;
      assert windows[|spans|] == Windows(n, start)[0];
      if end >= n {
        start := n - PASSAGE_TOKENS;
        spans := spans + [Span(tokens[start].start, tokens[n - 1].end)];
        return;
      }
      assert windows[|spans|..][1..] == windows[|spans| + 1..];
      assert Windows(n, start)[1..] == Windows(n, start + STEP);
      assert |Windows(n, start + STEP)| > 0;
      spans := spans + [Span(tokens[start].start, tokens[end - 1].end)];
      start := start + STEP;
    }
  }

  // ---- Passage doc_ids --------------------------------------------------------------------

  const SUFFIX := "::p"

  function Digit(d: nat): char
    requires d < 10
  {
    '0' + d as char
  }

  predicate IsDigit(c: char) { '0' <= c <= '9' }

  function DigitValue(c: char): nat
    requires IsDigit(c)
  {
    c as nat - '0' as nat
  }

  function Decimal(n: nat): (s: string)
    ensures |s| > 0 && forall i | 0 <= i < |s| :: IsDigit(s[i])
  {
    if n < 10 then [Digit(n)] else Decimal(n / 10) + [Digit(n % 10)]
  }

  function Number(s: string): nat
    requires forall i | 0 <= i < |s| :: IsDigit(s[i])
  {
    if s == [] then 0 else 10 * Number(s[..|s| - 1]) + DigitValue(s[|s| - 1])
  }

  lemma {:induction false} NumberOfDecimal(n: nat)
    ensures Number(Decimal(n)) == n
  {
    if n >= 10 {
      NumberOfDecimal(n / 10);
      assert Decimal(n)[..|Decimal(n)| - 1] == Decimal(n / 10);
    }
  }

  function PassageDocId(parent: string, index: nat): string { parent + SUFFIX + Decimal(index) }

  /** `::p<digits>` from `i` to the end, where the end may also be just before a last line feed. */
  predicate Matches(id: string, i: nat) {
    && i + |SUFFIX| < |id| && id[i..i + |SUFFIX|] == SUFFIX
    && (AllDigits(id, i + |SUFFIX|, |id|)
        || (id[|id| - 1] == '\n' && i + |SUFFIX| < |id| - 1 && AllDigits(id, i + |SUFFIX|, |id| - 1)))
  }

  predicate AllDigits(id: string, from: nat, to: nat)
    requires from <= to <= |id|
  {
    forall k | from <= k < to :: IsDigit(id[k])
  }

  /** The leftmost match. */
  function Search(id: string, from: nat): (m: Option<nat>)
    ensures m.Some? ==> from <= m.value && Matches(id, m.value)
    ensures forall k | from <= k && (m.Some? ==> k < m.value) :: !Matches(id, k)
    decreases if from < |id| then |id| - from else 0
  {
    if from >= |id| then None else if Matches(id, from) then Some(from) else Search(id, from + 1)
  }

  function PassageParent(id: string): Option<string> {
    match Search(id, 0)
    case None => None
    case Some(i) => Some(id[..i])
  }

  function PassageIndex(id: string): Option<nat> {
    match Search(id, 0)
    case None => None
    case Some(i) =>
      var digits := if id[|id| - 1] == '\n' then id[i + |SUFFIX|..|id| - 1] else id[i + |SUFFIX|..];
      Some(Number(digits))
  }

  lemma SuffixMatches(parent: string, digits: string, j: nat)
    requires |digits| > 0 && forall i | 0 <= i < |digits| :: IsDigit(digits[i])
    ensures var id := parent + SUFFIX + digits;
            && (j < |parent| ==> !Matches(id, j)) && Matches(id, |parent|)
            && id[..|parent|] == parent && id[|parent| + |SUFFIX|..] == digits
            && id[|id| - 1] == digits[|digits| - 1]
  {
    var id := parent + SUFFIX + digits;
    assert SUFFIX[0] == ':' && SUFFIX[1] == ':' && SUFFIX[2] == 'p';
    assert id[|parent|..|parent| + |SUFFIX|] == SUFFIX;
    assert forall k | |parent| + |SUFFIX| <= k < |id| :: id[k] == digits[k - |parent| - |SUFFIX|];
    if j < |parent| {
      assert id[|parent|] == ':' && id[|parent| + 1] == ':';
      if j + |SUFFIX| <= |parent| {
        assert !IsDigit(id[|parent|]);
      } else {
        var part := id[j..j + |SUFFIX|];
        assert part[2] == id[j + 2] && id[j + 2] == ':';
        assert part != SUFFIX;
      }
    }
  }

  /** A passage doc_id gives back its parent and index, whatever the parent looks like. */
  lemma DocIdRoundTrip(parent: string, index: nat)
    ensures PassageParent(PassageDocId(parent, index)) == Some(parent)
    ensures PassageIndex(PassageDocId(parent, index)) == Some(index)
  {
    var id, digits := PassageDocId(parent, index), Decimal(index);
    forall j: nat { SuffixMatches(parent, digits, j); }
    SuffixMatches(parent, digits, 0);
    assert Search(id, 0) == Some(|parent|);
    NumberOfDecimal(index);
    assert IsDigit(digits[|digits| - 1]);
  }

  /** So no two passages share a doc_id. */
  lemma DocIdsDiffer(p: string, i: nat, q: string, j: nat)
    requires PassageDocId(p, i) == PassageDocId(q, j)
    ensures p == q && i == j
  {
    DocIdRoundTrip(p, i);
    DocIdRoundTrip(q, j);
  }

  predicate HasPrefix(id: string, prefix: string) { |prefix| <= |id| && id[..|prefix|] == prefix }

  lemma {:induction false} BetweenIsPrefix(id: string, stem: string)
    ensures !Less(id, stem + "p") && Less(id, stem + "q") <==> HasPrefix(id, stem + "p")
    decreases |stem|
  {
    if stem == [] {
      assert stem + "p" == "p" && stem + "q" == "q";
      if id != [] { OneLetter(id); }
    } else {
      var p, q := stem + "p", stem + "q";
      assert p[0] == stem[0] && q[0] == stem[0] && p[1..] == stem[1..] + "p" && q[1..] == stem[1..] + "q";
      PrefixHead(id, p);
      if id != [] && id[0] == stem[0] {
        BetweenIsPrefix(id[1..], stem[1..]);
        if HasPrefix(id, p) { assert id[1..][..|p| - 1] == p[1..]; }
        if HasPrefix(id[1..], p[1..]) { assert id[..|p|] == [id[0]] + id[1..][..|p| - 1]; assert p == [p[0]] + p[1..]; }
      }
    }
  }

  lemma PrefixHead(id: string, prefix: string)
    requires prefix != []
    ensures HasPrefix(id, prefix) ==> id != [] && id[0] == prefix[0]
  {
    if HasPrefix(id, prefix) { assert id[..|prefix|][0] == prefix[0]; }
  }

  lemma OneLetter(id: string)
    requires id != []
    ensures !Less(id, "p") && Less(id, "q") <==> HasPrefix(id, "p")
  {
    assert "p"[1..] == [] && "q"[1..] == [];
    assert HasPrefix(id, "p") <==> id[0] == 'p' by {
      if id[0] == 'p' { assert id[..1] == "p"; }
      if HasPrefix(id, "p") { assert id[..1][0] == 'p'; }
    }
    assert Less(id, "p") <==> id[0] < 'p';
    assert Less(id, "q") <==> id[0] < 'q';
  }

  /** The range the keyword index deletes for a turn holds exactly the doc_ids that start with
      `<turn>::p`, so every passage of the turn. */
  lemma DeletedRange(parent: string, id: string)
    ensures !Less(id, parent + "::p") && Less(id, parent + "::q") <==> HasPrefix(id, parent + SUFFIX)
    ensures PassageParent(id) == Some(parent) ==> HasPrefix(id, parent + SUFFIX)
  {
    BetweenIsPrefix(id, parent + "::");
    assert parent + "::" + "p" == parent + "::p" && parent + "::" + "q" == parent + "::q";
    if PassageParent(id) == Some(parent) {
      var i := Search(id, 0).value;
      assert id[..i + |SUFFIX|] == id[..i] + id[i..i + |SUFFIX|];
    }
  }

  // ---- Passages ---------------------------------------------------------------------------

  const PASSAGE_CHUNK_TYPE := "turn_passage"
  const REPLACE_SAME_TURN := "replace_same_turn"

  /** `columns` are the keys of a row but the four named ones. */
  datatype Row = Row(docId: string, text: string, projectRoot: string, chunkType: string, columns: map<string, string>)

  datatype Passage = Passage(row: Row, title: string)

  /** Passage `i` of a turn, with the text of its span. */
  predicate IsPassage(p: Passage, turn: Row, i: nat, text: string) {
    && p.row.text == text && PassageParent(p.row.docId) == Some(turn.docId) && PassageIndex(p.row.docId) == Some(i)
    && p.row.chunkType == PASSAGE_CHUNK_TYPE && p.row.projectRoot == turn.projectRoot
    && p.row.columns.Keys == turn.columns.Keys - {REPLACE_SAME_TURN}
    && (forall k | k in p.row.columns :: p.row.columns[k] == turn.columns[k])
    && p.title == PassageTitle(turn.projectRoot, turn.text)
  }

  /** Offsets of a text, as a tokenizer gives them: in order and within it. */
  ghost predicate OffsetsOf(offsets: seq<Span>, length: nat) {
    && (forall i | 0 <= i < |offsets| :: offsets[i].end <= length)
    && (forall i, j | 0 <= i < j < |offsets| :: offsets[i].start <= offsets[j].start && offsets[i].end <= offsets[j].end)
  }

  lemma {:induction false} TokensAre(offsets: seq<Span>)
    ensures forall t | t in Tokens(offsets) :: t in offsets && t.start < t.end
  {
    if offsets != [] {
      TokensAre(offsets[..|offsets| - 1]);
      assert offsets == offsets[..|offsets| - 1] + [offsets[|offsets| - 1]];
    }
  }

  lemma OffsetsFront(front: seq<Span>, last: Span, length: nat)
    requires OffsetsOf(front + [last], length)
    ensures OffsetsOf(front, length) && last.end <= length
    ensures forall t | t in front :: t.start <= last.start && t.end <= last.end
  {
    var s := front + [last];
    assert s[|front|] == last;
    forall i | 0 <= i < |front| ensures s[i] == front[i] {}
    forall t | t in front ensures t.start <= last.start && t.end <= last.end {
      var i :| 0 <= i < |front| && front[i] == t;
      assert s[i] == t;
    }
  }

  lemma OffsetsMore(front: seq<Span>, last: Span, length: nat)
    requires OffsetsOf(front, length) && last.end <= length
    requires forall t | t in front :: t.start <= last.start && t.end <= last.end
    ensures OffsetsOf(front + [last], length)
  {
    forall i | 0 <= i < |front| ensures front[i].start <= last.start && front[i].end <= last.end {
      assert front[i] in front;
    }
  }

  lemma {:induction false} TokensOf(offsets: seq<Span>, length: nat)
    requires OffsetsOf(offsets, length)
    ensures OffsetsOf(Tokens(offsets), length)
    ensures forall i | 0 <= i < |Tokens(offsets)| :: Tokens(offsets)[i].start < Tokens(offsets)[i].end
  {
    hide OffsetsOf;
    TokensAre(offsets);
    if offsets == [] {
      NoOffsets(length);
    } else {
      var front, last := offsets[..|offsets| - 1], offsets[|offsets| - 1];
      assert offsets == front + [last];
      OffsetsFront(front, last, length);
      TokensOf(front, length);
      TokensAre(front);
      OffsetsMore(Tokens(front), last, length);
      assert Tokens(front) + [] == Tokens(front);
    }
  }

  lemma NoOffsets(length: nat)
    ensures OffsetsOf([], length)
  {}

  lemma SpanWithin(offsets: seq<Span>, length: nat, spans: seq<Span>, i: nat)
    requires OffsetsOf(offsets, length) && AreSpans(Tokens(offsets), spans) && i < |spans|
    ensures spans[i].start < spans[i].end <= length
  {
    TokensOf(offsets, length);
    var tokens := Tokens(offsets);
    var w := Windows(|tokens|, 0)[i];
    assert spans[i] == SpanOf(tokens, w);
    if w.start < w.end - 1 { assert tokens[w.start].end <= tokens[w.end - 1].end; }
  }

  /** One passage per window, each with the text of its span and a doc_id that leads back to the turn
      and to its place, the turn's other columns but the replacement flag, and one title for them all. */
  method BuildPassages(turn: Row, offsets: seq<Span>) returns (passages: seq<Passage>)
    requires OffsetsOf(offsets, |turn.text|)
    ensures |passages| == |Spans(Tokens(offsets))|
    ensures forall i | 0 <= i < |passages| ::
              var span := Spans(Tokens(offsets))[i];
              && span.start < span.end <= |turn.text|
              && IsPassage(passages[i], turn, i, turn.text[span.start..span.end])
  {
    hide AreSpans, Spans, Tokens, OffsetsOf, PassageParent, PassageIndex, PassageDocId, PassageTitle;
    var spans := PassageSpans(offsets);
    OnlySpans(Tokens(offsets), spans);
    passages := [];
    if spans == [] { return; }
    var title := PassageTitle(turn.projectRoot, turn.text);
    var base := turn.columns - {REPLACE_SAME_TURN};
    for i := 0 to |spans|
      invariant |passages| == i
      invariant forall k | 0 <= k < i ::
          && spans[k].start < spans[k].end <= |turn.text|
          && IsPassage(passages[k], turn, k, turn.text[spans[k].start..spans[k].end])
    {
      DocIdRoundTrip(turn.docId, i);
      SpanWithin(offsets, |turn.text|, spans, i);
      var row := Row(PassageDocId(turn.docId, i), turn.text[spans[i].start..spans[i].end], turn.projectRoot,
                     PASSAGE_CHUNK_TYPE, base);
      passages := passages + [Passage(row, title)];
    }
  }

  /** Up to 64 consecutive tokens stand whole in the span of one passage. */
  lemma RunInOneSpan(offsets: seq<Span>, length: nat, spans: seq<Span>, a: nat, run: nat) returns (i: nat)
    requires OffsetsOf(offsets, length) && AreSpans(Tokens(offsets), spans)
    requires |Tokens(offsets)| > PASSAGE_TOKENS && 1 <= run <= PASSAGE_OVERLAP && a + run <= |Tokens(offsets)|
    ensures var tokens := Tokens(offsets);
            i < |spans| && spans[i].start <= tokens[a].start && tokens[a + run - 1].end <= spans[i].end
  {
    TokensOf(offsets, length);
    var tokens := Tokens(offsets);
    i := RunInOneWindow(|tokens|, a, run);
    var w := Windows(|tokens|, 0)[i];
    assert spans[i] == SpanOf(tokens, w);
    if w.start < a { assert tokens[w.start].start <= tokens[a].start; }
    if a + run - 1 < w.end - 1 { assert tokens[a + run - 1].end <= tokens[w.end - 1].end; }
  }

  // ---- Spans and doc_ids, said outright --------------------------------------------------------

  /** The tokens are the spans that are not empty, in order. */
  lemma EmptySpansGo(offsets: seq<Span>, t: Span)
    ensures Tokens([]) == []
    ensures Tokens(offsets + [t]) == Tokens(offsets) + if t.start < t.end then [t] else []
  {
    assert (offsets + [t])[..|offsets + [t]| - 1] == offsets;
  }

  /** The spans of a long text: passage `i` begins with token 386 * i and has 450, but the last has the last 450; and there
      is none of a text of 450 or fewer. */
  lemma SpanAt(tokens: seq<Span>, i: nat)
    ensures |tokens| <= 450 ==> Spans(tokens) == []
    ensures |tokens| > 450 && i < |Spans(tokens)| ==>
              var s := if i + 1 < |Spans(tokens)| then i * 386 else |tokens| - 450;
              s + 450 <= |tokens| && Spans(tokens)[i] == Span(tokens[s].start, tokens[s + 449].end)
  {
    hide Windows, WindowCount;
    var n := |tokens|;
    if n > 450 {
      WindowTheorem(n);
      WindowsAre(n, 0);
      var w := Windows(n, 0);
      if i < |w| {
        assert w[i] == Window(StartOf(n, 0 + i), StartOf(n, 0 + i) + PASSAGE_TOKENS);
        assert Spans(tokens)[i] == SpanOf(tokens, w[i]);
      }
    }
  }

  predicate Digits(s: string) { s != "" && forall c | c in s :: '0' <= c <= '9' }

  /** A doc_id is a passage's exactly when it ends in the mark and digits, or has one line feed after them; the rest is its
      parent. */
  lemma ParentIff(id: string, parent: string)
    ensures PassageParent(id) == Some(parent) <==>
              exists digits :: Digits(digits) && (id == parent + "::p" + digits || id == parent + "::p" + digits + "\n")
  {
    if digits :| Digits(digits) && (id == parent + "::p" + digits || id == parent + "::p" + digits + "\n") {
      ParentOf(id, parent, digits);
    }
    if PassageParent(id) == Some(parent) {
      var i := |parent|;
      assert Matches(id, i) && parent == id[..i];
      var end := if AllDigits(id, i + |SUFFIX|, |id|) then |id| else |id| - 1;
      var digits := id[i + |SUFFIX|..end];
      assert id[..end] == id[..i] + id[i..i + |SUFFIX|] + digits;
      if end < |id| { assert id == id[..end] + "\n"; } else { assert id == id[..end]; }
      forall c | c in digits ensures '0' <= c <= '9' {
        var k :| 0 <= k < |digits| && digits[k] == c;
        assert c == id[i + |SUFFIX| + k];
      }
      assert Digits(digits);
    }
  }

  /** And the digits are its index, read in base ten. */
  lemma ParentOf(id: string, parent: string, digits: string)
    requires Digits(digits) && (id == parent + "::p" + digits || id == parent + "::p" + digits + "\n")
    ensures PassageParent(id) == Some(parent)
    ensures (forall k | 0 <= k < |digits| :: IsDigit(digits[k])) && PassageIndex(id) == Some(Number(digits))
  {
    hide Matches, Search, Number;
    forall k | 0 <= k < |digits| ensures IsDigit(digits[k]) { assert digits[k] in digits; }
    var bare := parent + SUFFIX + digits;
    forall j: nat { SuffixMatches(parent, digits, j); }
    SuffixMatches(parent, digits, 0);
    assert IsDigit(digits[|digits| - 1]);
    if id == bare {
      FirstFound(id, |parent|);
    } else {
      assert id == bare + "\n" && id[|id| - 1] == '\n';
      forall j: nat { LineFeedMatches(bare, j); }
      FirstFound(id, |parent|);
      assert id[|parent| + |SUFFIX|..|id| - 1] == bare[|parent| + |SUFFIX|..] == digits;
      assert id[..|parent|] == bare[..|parent|] == parent;
    }
  }

  lemma FirstFound(id: string, i: nat)
    requires i < |id| && Matches(id, i) && forall j: nat | j < i :: !Matches(id, j)
    ensures Search(id, 0) == Some(i)
  {
    hide Matches, Search;
  }

  /** A line feed after the digits changes nothing of where a match stands. */
  lemma LineFeedMatches(bare: string, j: nat)
    requires bare != "" && IsDigit(bare[|bare| - 1])
    ensures Matches(bare + "\n", j) <==> Matches(bare, j)
  {
    var id := bare + "\n";
    assert forall k | 0 <= k < |bare| :: id[k] == bare[k];
    assert id[|bare|] == '\n' && !IsDigit(id[|bare|]);
    if j + |SUFFIX| <= |bare| { assert bare[j..j + |SUFFIX|] == id[j..j + |SUFFIX|]; }
    if Matches(id, j) {
      assert j + |SUFFIX| < |bare|;
      assert AllDigits(bare, j + |SUFFIX|, |bare|);
    }
    if Matches(bare, j) { assert AllDigits(id, j + |SUFFIX|, |bare|); }
  }

  lemma NumberIs(s: string, c: char)
    requires (forall i | 0 <= i < |s| :: IsDigit(s[i])) && '0' <= c <= '9'
    ensures Number("") == 0 && Number(s + [c]) == 10 * Number(s) + (c as int - 48)
  {
    assert (s + [c])[..|s + [c]| - 1] == s;
  }
}
