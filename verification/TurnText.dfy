/** The cut every stored turn text gets: at most 65535 bytes of UTF-8, mark included. */
module TurnText {

  const MAX_TURN_BYTES := 65535

  const CUT_MARK := "\n\n[truncated]"

  /** Bytes of one character in UTF-8. */
  function Width(c: char): (w: nat)
    ensures 1 <= w <= 4
  {
    if c as int < 0x80 then 1 else if c as int < 0x800 then 2 else if c as int < 0x10000 then 3 else 4
  }

  function Utf8Length(s: string): nat { if s == [] then 0 else Width(s[0]) + Utf8Length(s[1..]) }

  /** The whole characters among the first `keep` bytes: a decoder that ignores errors drops a last
      character that was cut through. */
  function Whole(s: string, keep: nat): string {
    if s == [] || Width(s[0]) > keep then [] else [s[0]] + Whole(s[1..], keep - Width(s[0]))
  }

  /** The cut at a limit of at least the mark's own length. */
  function Cut(text: string, limit: nat): string
    requires limit >= |CUT_MARK|
  {
    if Utf8Length(text) <= limit then text else Whole(text, limit - |CUT_MARK|) + CUT_MARK
  }

  function Truncate(text: string): string { Cut(text, MAX_TURN_BYTES) }

  lemma {:induction false} LengthJoins(a: string, b: string)
    ensures Utf8Length(a + b) == Utf8Length(a) + Utf8Length(b)
  {
    if a == [] {
      assert a + b == b;
    } else {
      assert (a + b)[0] == a[0] && (a + b)[1..] == a[1..] + b;
      LengthJoins(a[1..], b);
    }
  }

  lemma MarkLength()
    ensures Utf8Length(CUT_MARK) == |CUT_MARK|
  {
    AsciiLength(CUT_MARK);
  }

  lemma {:induction false} AsciiLength(s: string)
    requires forall i | 0 <= i < |s| :: s[i] as int < 0x80
    ensures Utf8Length(s) == |s|
  {
    if s != [] { AsciiLength(s[1..]); }
  }

  /** A longer text has more bytes. */
  lemma LengthGrows(a: string, b: string)
    requires a <= b
    ensures Utf8Length(a) <= Utf8Length(b) && (Utf8Length(a) == Utf8Length(b) ==> a == b)
  {
    assert b == a + b[|a|..];
    LengthJoins(a, b[|a|..]);
    if b[|a|..] == [] { assert a == b; }
  }

  /** What is kept is a beginning of the text that fits, and one more character would not. */
  lemma {:induction false} WholeKeeps(s: string, keep: nat)
    ensures var p := Whole(s, keep);
            && p <= s && Utf8Length(p) <= keep
            && (p != s ==> |p| < |s| && Utf8Length(p) + Width(s[|p|]) > keep)
  {
    if s != [] && Width(s[0]) <= keep { WholeKeeps(s[1..], keep - Width(s[0])); }
  }

  /** Every text that long is cut to the same characters. */
  lemma {:induction false} WholeSame(b: string, c: string, keep: nat)
    requires b <= c && Utf8Length(b) > keep
    ensures Whole(b, keep) == Whole(c, keep)
  {
    if b != [] && Width(b[0]) <= keep {
      assert b[1..] <= c[1..];
      WholeSame(b[1..], c[1..], keep - Width(b[0]));
    }
  }

  lemma Joined(a: string, b: string)
    ensures (a + b)[|a + b| - |b|..] == b && (a + b)[..|a + b| - |b|] == a
  {}

  /** The cut fits its limit, leaves a text that fits as it is, and marks every other one. */
  lemma CutFits(text: string, limit: nat)
    requires limit >= |CUT_MARK|
    ensures var cut := Cut(text, limit);
            && Utf8Length(cut) <= limit
            && (Utf8Length(text) <= limit ==> cut == text)
            && (Utf8Length(text) > limit ==>
                  |cut| >= |CUT_MARK| && cut[|cut| - |CUT_MARK|..] == CUT_MARK && cut[..|cut| - |CUT_MARK|] <= text)
  {
    hide Utf8Length, Whole;
    if Utf8Length(text) > limit {
      var p := Whole(text, limit - |CUT_MARK|);
      WholeKeeps(text, limit - |CUT_MARK|);
      LengthJoins(p, CUT_MARK);
      MarkLength();
      Joined(p, CUT_MARK);
    }
  }

  /** A text between two that are cut alike is cut like them. A text that is itself the cut of a longer one
      ends in the mark at the very limit, since the mark's first character would still have fitted, so
      whatever is longer than it is cut too. */
  lemma CutBetween(a: string, b: string, c: string, limit: nat)
    requires limit >= |CUT_MARK| && a <= b <= c && Cut(a, limit) == Cut(c, limit)
    ensures Cut(b, limit) == Cut(a, limit)
  {
    var keep := limit - |CUT_MARK|;
    LengthGrows(a, b);
    LengthGrows(b, c);
    if Utf8Length(b) > limit {
      WholeSame(b, c, keep);
    } else if Utf8Length(c) > limit {
      AtTheLimit(a, c, limit);
      assert a == b;
    }
  }

  lemma AtTheLimit(a: string, c: string, limit: nat)
    requires limit >= |CUT_MARK| && a <= c && Utf8Length(a) <= limit < Utf8Length(c)
    requires a == Whole(c, limit - |CUT_MARK|) + CUT_MARK
    ensures Utf8Length(a) == limit
  {
    var keep := limit - |CUT_MARK|;
    var p := Whole(c, keep);
    WholeKeeps(c, keep);
    LengthJoins(p, CUT_MARK);
    MarkLength();
    assert c[|p|] == a[|p|] == CUT_MARK[0];
  }

  /** The bytes of a text: those of its characters, by the four ranges of UTF-8 (section 3 of RFC 3629). */
  lemma LengthIs(text: string, c: char)
    ensures Utf8Length([]) == 0
    ensures Utf8Length(text + [c]) == Utf8Length(text)
              + if c as int <= 0x7F then 1 else if c as int <= 0x7FF then 2 else if c as int <= 0xFFFF then 3 else 4
  {
    LengthJoins(text, [c]);
  }

  /** A cut text is as long as it may be: its own characters fit beside the mark, and with the next one they would not. */
  lemma CutLongest(text: string, limit: nat)
    requires limit >= |CUT_MARK| && Utf8Length(text) > limit
    ensures var kept := |Cut(text, limit)| - |CUT_MARK|;
            && 0 <= kept < |text| && Cut(text, limit) == text[..kept] + "\n\n[truncated]"
            && Utf8Length(text[..kept]) <= limit - 13 < Utf8Length(text[..kept + 1])
  {
    hide Utf8Length;
    var keep := limit - |CUT_MARK|;
    WholeLongest(text, keep);
    var p := Whole(text, keep);
    assert Cut(text, limit) == p + CUT_MARK;
    assert |Cut(text, limit)| - |CUT_MARK| == |p|;
  }

  lemma {:induction false} WholeLongest(s: string, keep: nat)
    requires Utf8Length(s) > keep
    ensures var p := Whole(s, keep);
            |p| < |s| && p == s[..|p|] && Utf8Length(p) <= keep < Utf8Length(s[..|p| + 1])
  {
    if Width(s[0]) <= keep {
      WholeLongest(s[1..], keep - Width(s[0]));
      var q := Whole(s[1..], keep - Width(s[0]));
      assert Whole(s, keep) == [s[0]] + q;
      assert s[..|q| + 2] == [s[0]] + s[1..][..|q| + 1];
      assert s[..|q| + 1] == [s[0]] + s[1..][..|q|];
    } else {
      assert s[..1][1..] == [];
    }
  }
}
