/**
 The self-undoing Makefile editor.  Every edit is recorded in the file itself: a replaced
 line is kept behind `#>- `, and inserted lines follow a line `#>+ n` that counts them.
 Restoring drops the inserted lines and uncovers the replaced ones.
 */
module MakefileEdit {
  import opened Common

  type Line = string
  type Matcher = Line -> bool

  // ---------------------------------------------------------------------------
  // Numbers in marks
  // ---------------------------------------------------------------------------

  const DIGITS := "0123456789"

  /** %d of a natural number. */
  function Decimal(n: nat): (s: string)
    ensures |s| > 0
  {
    if n < 10 then [DIGITS[n]] else Decimal(n / 10) + [DIGITS[n % 10]]
  }

  predicate IsDigit(c: char) {
    '0' <= c <= '9'
  }

  /** atoi of unsigned digits after blanks; None is the exception it raises. */
  function Atoi(s: string): Option<nat> {
    if s == "" then None
    else if s[0] == ' ' then Atoi(s[1..])
    else if forall i :: 0 <= i < |s| ==> IsDigit(s[i]) then Some(DigitsValue(s))
    else None
  }

  function DigitsValue(s: string): nat {
    if s == "" || !IsDigit(s[|s| - 1]) then 0
    else 10 * DigitsValue(s[..|s| - 1]) + (s[|s| - 1] as int - '0' as int)
  }

  lemma {:induction false} DigitReadsBack(k: nat, s: string)
    requires k < 10 && forall i :: 0 <= i < |s| ==> IsDigit(s[i])
    ensures forall i :: 0 <= i < |s + [DIGITS[k]]| ==> IsDigit((s + [DIGITS[k]])[i])
    ensures DigitsValue(s + [DIGITS[k]]) == 10 * DigitsValue(s) + k
  {
    var d := DIGITS[k];
    assert IsDigit(d) && d as int - '0' as int == k;
    assert (s + [d])[..|s|] == s;
  }

  lemma {:induction false} DecimalReadsBack(n: nat)
    ensures forall i :: 0 <= i < |Decimal(n)| ==> IsDigit(Decimal(n)[i])
    ensures DigitsValue(Decimal(n)) == n
  {
    if n < 10 {
      DigitReadsBack(n, "");
      assert Decimal(n) == "" + [DIGITS[n]];
    } else {
      DecimalReadsBack(n / 10);
      DigitReadsBack(n % 10, Decimal(n / 10));
    }
    hide DigitsValue;
  }

  // ---------------------------------------------------------------------------
  // Marks
  // ---------------------------------------------------------------------------

  /** The tail of a slice from k on, empty when there is less. */
  function Drop<T>(s: seq<T>, k: nat): seq<T> {
    if k <= |s| then s[k..] else []
  }

  predicate IsPlus(l: Line) {
    "#>+" <= l
  }

  predicate IsMinus(l: Line) {
    "#>-" <= l
  }

  predicate Unmarked(l: Line) {
    !IsPlus(l) && !IsMinus(l)
  }

  function PlusMark(n: nat): Line {
    "#>+ " + Decimal(n)
  }

  function MinusMark(l: Line): Line {
    "#>- " + l
  }

  lemma {:induction false} PlusMarkCounts(n: nat)
    ensures IsPlus(PlusMark(n)) && Atoi(PlusMark(n)[3..]) == Some(n)
  {
    DecimalReadsBack(n);
    assert PlusMark(n)[3..] == " " + Decimal(n);
    assert (" " + Decimal(n))[1..] == Decimal(n);
    assert Atoi(" " + Decimal(n)) == Atoi(Decimal(n));
  }

  /** What restoring makes of the lines; None when a mark has no readable count. */
  function Restored(ls: seq<Line>): Option<seq<Line>>
    decreases |ls|
  {
    if ls == [] then Some([])
    else if IsPlus(ls[0]) then
      match Atoi(ls[0][3..])
      case None => None
      case Some(n) => Restored(Drop(ls, n + 1))
    else
      match Restored(ls[1..])
      case None => None
      case Some(rest) => Some([if IsMinus(ls[0]) then Drop(ls[0], 4) else ls[0]] + rest)
  }

  // ---------------------------------------------------------------------------
  // Edited files as blocks
  // ---------------------------------------------------------------------------

  /** A line left alone, a replaced line, and lines inserted by substitution. */
  datatype Block = Kept(line: Line) | Commented(line: Line) | Inserted(lines: seq<Line>)

  function Render(b: Block): (r: seq<Line>)
    ensures |r| > 0
  {
    match b
    case Kept(l) => [l]
    case Commented(l) => [MinusMark(l)]
    case Inserted(ls) => [PlusMark(|ls|)] + ls
  }

  function RenderAll(bs: seq<Block>): seq<Line> {
    if bs == [] then [] else Render(bs[0]) + RenderAll(bs[1..])
  }

  /** The lines the file had before the edits. */
  function Original(bs: seq<Block>): seq<Line> {
    if bs == [] then []
    else if bs[0].Inserted? then Original(bs[1..])
    else [bs[0].line] + Original(bs[1..])
  }

  /** Lines left alone are not marks. */
  ghost predicate WellFormed(bs: seq<Block>) {
    forall i :: 0 <= i < |bs| && bs[i].Kept? ==> Unmarked(bs[i].line)
  }

  lemma {:induction false} RestoredPastBlock(b: Block, rest: seq<Line>)
    requires b.Kept? ==> Unmarked(b.line)
    ensures Restored(Render(b) + rest) ==
            match Restored(rest)
            case None => None
            case Some(r) => Some(if b.Inserted? then r else [b.line] + r)
  {
    var ls := Render(b) + rest;
    match b
    case Inserted(lines) =>
      PlusMarkCounts(|lines|);
      assert Drop(ls, |lines| + 1) == rest;
    case Kept(l) =>
      assert ls[1..] == rest;
    case Commented(l) =>
      MinusMarkStrips(l);
      assert ls[1..] == rest;
  }

  lemma {:induction false} MinusMarkStrips(l: Line)
    ensures IsMinus(MinusMark(l)) && !IsPlus(MinusMark(l)) && Drop(MinusMark(l), 4) == l
  {
    assert MinusMark(l)[..3] == "#>-" && MinusMark(l)[4..] == l;
    assert MinusMark(l)[2] == '-' && "#>+"[2] == '+';
  }

  /** Restoring a well-formed edited file gives back its original lines. */
  lemma {:induction false} RestoreUndoes(bs: seq<Block>)
    requires WellFormed(bs)
    ensures Restored(RenderAll(bs)) == Some(Original(bs))
  {
    if bs == [] {
      assert Restored([]) == Some([]);
    } else {
      RestoreUndoes(bs[1..]);
      RestoredPastBlock(bs[0], RenderAll(bs[1..]));
      hide Restored, Render, Unmarked;
    }
  }

  // ---------------------------------------------------------------------------
  // Edits
  // ---------------------------------------------------------------------------

  /** string.split(text, '\n'). */
  function SplitLines(text: string): (r: seq<Line>)
    ensures |r| > 0
  {
    if text == "" then [""]
    else
      var rest := SplitLines(text[1..]);
      if text[0] == '\n' then [""] + rest else [[text[0]] + rest[0]] + rest[1..]
  }

  /** An edit; the matcher stands for the regular expression. */
  datatype Edit = Substitute(re: Matcher, text: string) | Append(text: string)
  {
    predicate Matches(l: Line)
      requires Substitute?
    {
      re(l)
    }
  }

  /** The first line matched, or the number of lines. */
  function Hit(ls: seq<Line>, e: Edit): (p: nat)
    requires e.Substitute?
    ensures p <= |ls|
    ensures p < |ls| ==> e.Matches(ls[p])
    ensures forall i :: 0 <= i < p ==> !e.Matches(ls[i])
  {
    if ls == [] then 0 else if e.Matches(ls[0]) then 0 else 1 + Hit(ls[1..], e)
  }

  function SubstAt(ls: seq<Line>, p: nat, news: seq<Line>): seq<Line>
    requires p < |ls|
  {
    ls[..p] + [MinusMark(ls[p]), PlusMark(|news|)] + news + ls[p + 1..]
  }

  /** The lines an append inserts: the text, and one element that is itself a line break. */
  function Appended(text: string): seq<Line> {
    SplitLines(text) + ["\n"]
  }

  function Apply(ls: seq<Line>, e: Edit): seq<Line> {
    match e
    case Substitute(_, text) =>
      if Hit(ls, e) < |ls| then SubstAt(ls, Hit(ls, e), SplitLines(text)) else ls
    case Append(text) => ls + Render(Inserted(Appended(text)))
  }

  function ApplyAll(ls: seq<Line>, es: seq<Edit>): seq<Line>
    decreases |es|
  {
    if es == [] then ls else ApplyAll(Apply(ls, es[0]), es[1..])
  }

  // ---------------------------------------------------------------------------
  // What an edit does to the Makefile
  // ---------------------------------------------------------------------------

  predicate IsComment(l: Line) {
    l != "" && l[0] == '#'
  }

  /** The lines make sees: all but the comments. */
  function Active(ls: seq<Line>): seq<Line> {
    if ls == [] then []
    else if IsComment(ls[0]) then Active(ls[1..])
    else [ls[0]] + Active(ls[1..])
  }

  lemma {:induction false} ActiveSum(a: seq<Line>, b: seq<Line>)
    ensures Active(a + b) == Active(a) + Active(b)
  {
    hide IsComment;
    if a == [] {
      assert a + b == b;
    } else {
      ActiveSum(a[1..], b);
      assert (a + b)[1..] == a[1..] + b;
    }
  }

  lemma {:induction false} MarksAreComments(l: Line, n: nat)
    ensures Active([MinusMark(l), PlusMark(n)]) == [] && Active([PlusMark(n)]) == []
  {
    assert IsComment(MinusMark(l)) && IsComment(PlusMark(n));
    hide IsComment, MinusMark, PlusMark;
    var one, two := [PlusMark(n)], [MinusMark(l), PlusMark(n)];
    assert one[1..] == [] && two[1..] == one;
    assert Active(one) == Active(one[1..]) && Active(two) == Active(two[1..]);
  }

  /** A substitution puts the lines of its text in the place of the first line that matches, an
      append puts them at the end, with a line break of their own; to make nothing else changes. */
  lemma {:induction false} EditShows(ls: seq<Line>, e: Edit)
    ensures e.Append? ==> Active(Apply(ls, e)) == Active(ls) + Active(SplitLines(e.text)) + ["\n"]
    ensures e.Substitute? && Hit(ls, e) == |ls| ==> Apply(ls, e) == ls
    ensures e.Substitute? && Hit(ls, e) < |ls| ==>
              var p := Hit(ls, e);
              Active(Apply(ls, e)) == Active(ls[..p]) + Active(SplitLines(e.text)) + Active(ls[p + 1..])
  {
    var news := SplitLines(e.text);
    hide Active, SplitLines, MinusMark, PlusMark, Hit;
    if e.Append? {
      var marked := [PlusMark(|Appended(e.text)|)];
      MarksAreComments("", |Appended(e.text)|);
      LineBreakIsActive();
      ActiveSum(ls, marked + (news + ["\n"]));
      ActiveSum(marked, news + ["\n"]);
      ActiveSum(news, ["\n"]);
      assert Render(Inserted(Appended(e.text))) == marked + (news + ["\n"]);
    } else if Hit(ls, e) < |ls| {
      var p := Hit(ls, e);
      var marked := [MinusMark(ls[p]), PlusMark(|news|)];
      MarksAreComments(ls[p], |news|);
      ActiveSum(ls[..p] + marked + news, ls[p + 1..]);
      ActiveSum(ls[..p] + marked, news);
      ActiveSum(ls[..p], marked);
    }
  }

  lemma {:induction false} LineBreakIsActive()
    ensures Active(["\n"]) == ["\n"]
  {
    assert ["\n"][1..] == [];
    assert !IsComment("\n");
  }

  /** The lines of a text, joined by line breaks, are the text; none holds a line break. */
  function Joined(ls: seq<Line>): string {
    if ls == [] then "" else if |ls| == 1 then ls[0] else ls[0] + "\n" + Joined(ls[1..])
  }

  lemma {:induction false} SplitLinesJoin(text: string)
    ensures Joined(SplitLines(text)) == text
    ensures forall i :: 0 <= i < |SplitLines(text)| ==> '\n' !in SplitLines(text)[i]
  {
    if text != "" {
      SplitLinesJoin(text[1..]);
      var rest, ls := SplitLines(text[1..]), SplitLines(text);
      if text[0] == '\n' {
        assert ls[1..] == rest;
        assert Joined(ls) == "" + "\n" + Joined(rest);
      } else {
        assert ls[1..] == rest[1..];
        assert Joined(ls) == [text[0]] + Joined(rest);
      }
      assert [text[0]] + text[1..] == text;
    }
  }

  // ---------------------------------------------------------------------------
  // Which substitutions can be undone
  // ---------------------------------------------------------------------------

  /** Line o of a block may be replaced: a line left alone, or the last inserted line. */
  predicate HarmlessIn(b: Block, o: nat) {
    b.Kept? || (b.Inserted? && 0 < o == |b.lines|)
  }

  /** Line p of the rendered blocks may be replaced. */
  predicate Harmless(bs: seq<Block>, p: nat)
    requires p < |RenderAll(bs)|
  {
    if p < |Render(bs[0])| then HarmlessIn(bs[0], p) else Harmless(bs[1..], p - |Render(bs[0])|)
  }

  /** The blocks after replacing line p. */
  function AfterHit(bs: seq<Block>, p: nat, news: seq<Line>): seq<Block>
    requires p < |RenderAll(bs)| && Harmless(bs, p)
  {
    if p < |Render(bs[0])| then HitBlock(bs[0], p, news) + bs[1..]
    else [bs[0]] + AfterHit(bs[1..], p - |Render(bs[0])|, news)
  }

  lemma {:induction false} SubstInTail(front: seq<Line>, ls: seq<Line>, p: nat, news: seq<Line>)
    requires |front| <= p < |front| + |ls|
    ensures SubstAt(front + ls, p, news) == front + SubstAt(ls, p - |front|, news)
  {
    assert (front + ls)[..p] == front + ls[..p - |front|];
    assert (front + ls)[p + 1..] == ls[p + 1 - |front|..];
  }

  lemma {:induction false} RenderCons(b: Block, bs: seq<Block>)
    ensures RenderAll([b] + bs) == Render(b) + RenderAll(bs)
    ensures Original([b] + bs) == if b.Inserted? then Original(bs) else [b.line] + Original(bs)
  {
    assert ([b] + bs)[1..] == bs;
  }

  lemma {:induction false} RenderTwo(a: Block, b: Block, bs: seq<Block>)
    requires b.Inserted?
    ensures RenderAll([a, b] + bs) == Render(a) + Render(b) + RenderAll(bs)
    ensures Original([a, b] + bs) == Original([a] + bs)
  {
    assert [a, b] + bs == [a] + ([b] + bs);
    RenderCons(a, [b] + bs);
    RenderCons(b, bs);
    RenderCons(a, bs);
    hide RenderAll, Original, Render;
  }

  lemma {:induction false} SubstFirstLine(l: Line, rest: seq<Line>, news: seq<Line>)
    ensures SubstAt([l] + rest, 0, news) == [MinusMark(l)] + ([PlusMark(|news|)] + news) + rest
  {
    hide MinusMark, PlusMark;
  }

  lemma {:induction false} SubstLastLine(mark: Line, ls: seq<Line>, rest: seq<Line>, news: seq<Line>)
    requires |ls| > 0
    ensures SubstAt([mark] + ls + rest, |ls|, news)
            == ([mark] + (ls[..|ls| - 1] + [MinusMark(ls[|ls| - 1])])) + ([PlusMark(|news|)] + news) + rest
  {
    hide MinusMark, PlusMark;
    var all := [mark] + ls + rest;
    assert all[..|ls|] == [mark] + ls[..|ls| - 1] && all[|ls| + 1..] == rest && all[|ls|] == ls[|ls| - 1];
  }

  /** What a replaced line of a block becomes. */
  function HitBlock(b: Block, o: nat, news: seq<Line>): (r: seq<Block>)
    requires HarmlessIn(b, o)
    ensures |r| == 2 && r[1] == Inserted(news)
  {
    match b
    case Kept(l) => [Commented(l), Inserted(news)]
    case Inserted(ls) => [Inserted(ls[..o - 1] + [MinusMark(ls[o - 1])]), Inserted(news)]
  }

  lemma {:induction false} SubstInFirst(b: Block, bs: seq<Block>, p: nat, news: seq<Line>)
    requires p < |Render(b)| && HarmlessIn(b, p)
    ensures SubstAt(Render(b) + RenderAll(bs), p, news) == RenderAll(HitBlock(b, p, news) + bs)
    ensures Original(HitBlock(b, p, news) + bs) == Original([b] + bs)
  {
    var t := HitBlock(b, p, news)[0];
    assert HitBlock(b, p, news) == [t, Inserted(news)];
    RenderTwo(t, Inserted(news), bs);
    RenderCons(t, bs);
    RenderCons(b, bs);
    hide RenderAll, Original;
    match b
    case Kept(l) =>
      SubstFirstLine(l, RenderAll(bs), news);
    case Inserted(ls) =>
      SubstLastLine(PlusMark(|ls|), ls, RenderAll(bs), news);
  }

  /** A harmless substitution is one on blocks, and keeps the original lines. */
  lemma {:induction false} HarmlessHit(bs: seq<Block>, p: nat, news: seq<Line>)
    requires p < |RenderAll(bs)| && Harmless(bs, p) && WellFormed(bs)
    ensures SubstAt(RenderAll(bs), p, news) == RenderAll(AfterHit(bs, p, news))
    ensures Original(AfterHit(bs, p, news)) == Original(bs)
    ensures WellFormed(AfterHit(bs, p, news))
  {
    assert bs == [bs[0]] + bs[1..];
    var front, tail := Render(bs[0]), bs[1..];
    RenderCons(bs[0], tail);
    if p < |front| {
      SubstInFirst(bs[0], tail, p, news);
    } else {
      HarmlessHit(tail, p - |front|, news);
      SubstInTail(front, RenderAll(tail), p, news);
      RenderCons(bs[0], AfterHit(tail, p - |front|, news));
      hide RenderAll, Original, SubstAt, Render;
    }
  }

  // ---------------------------------------------------------------------------
  // Any number of edits
  // ---------------------------------------------------------------------------

  function KeepAll(ls: seq<Line>): (bs: seq<Block>)
    ensures |bs| == |ls|
    ensures forall i :: 0 <= i < |bs| ==> bs[i] == Kept(ls[i])
  {
    if ls == [] then [] else [Kept(ls[0])] + KeepAll(ls[1..])
  }

  /** Every substitution of the sequence that finds a line finds a harmless one. */
  predicate AllHarmless(bs: seq<Block>, es: seq<Edit>)
    decreases |es|
  {
    if es == [] then true
    else
      match es[0]
      case Append(text) => AllHarmless(bs + [Inserted(Appended(text))], es[1..])
      case Substitute(_, text) =>
        var p := Hit(RenderAll(bs), es[0]);
        if p == |RenderAll(bs)| then AllHarmless(bs, es[1..])
        else Harmless(bs, p) && AllHarmless(AfterHit(bs, p, SplitLines(text)), es[1..])
  }

  lemma {:induction false} RenderKept(ls: seq<Line>)
    ensures RenderAll(KeepAll(ls)) == ls && Original(KeepAll(ls)) == ls
  {
    if ls != [] {
      RenderKept(ls[1..]);
      RenderCons(Kept(ls[0]), KeepAll(ls[1..]));
    }
  }

  lemma {:induction false} RenderNone()
    ensures RenderAll([]) == [] && Original([]) == []
  {
  }

  lemma {:induction false} RenderSnoc(bs: seq<Block>, b: Block)
    requires b.Inserted?
    ensures RenderAll(bs + [b]) == RenderAll(bs) + Render(b)
    ensures Original(bs + [b]) == Original(bs)
  {
    hide RenderAll, Original, Render;
    RenderNone();
    if bs == [] {
      assert bs + [b] == [b] + [];
      RenderCons(b, []);
    } else {
      var tail := bs[1..];
      RenderSnoc(tail, b);
      assert bs == [bs[0]] + tail && bs + [b] == [bs[0]] + (tail + [b]);
      RenderCons(bs[0], tail + [b]);
      RenderCons(bs[0], tail);
      Assoc(Render(bs[0]), RenderAll(tail), Render(b));
    }
  }

  /** What the edits make of the blocks. */
  function BlocksAfter(bs: seq<Block>, es: seq<Edit>): seq<Block>
    requires AllHarmless(bs, es)
    decreases |es|
  {
    if es == [] then bs
    else
      match es[0]
      case Append(text) => BlocksAfter(bs + [Inserted(Appended(text))], es[1..])
      case Substitute(_, text) =>
        var p := Hit(RenderAll(bs), es[0]);
        if p == |RenderAll(bs)| then BlocksAfter(bs, es[1..])
        else BlocksAfter(AfterHit(bs, p, SplitLines(text)), es[1..])
  }

  /** One edit as an edit of blocks. */
  lemma {:induction false} EditOnBlocks(bs: seq<Block>, es: seq<Edit>) returns (next: seq<Block>)
    requires WellFormed(bs) && es != [] && AllHarmless(bs, es)
    ensures WellFormed(next) && Apply(RenderAll(bs), es[0]) == RenderAll(next) && Original(next) == Original(bs)
    ensures AllHarmless(next, es[1..]) && BlocksAfter(bs, es) == BlocksAfter(next, es[1..])
    ensures Clean(bs) && PlainText(es[0]) ==> Clean(next)
  {
    next := bs;
    match es[0] {
      case Append(text) =>
        next := bs + [Inserted(Appended(text))];
        RenderSnoc(bs, Inserted(Appended(text)));
        AppendStaysClean(bs, text);
      case Substitute(_, text) =>
        var p := Hit(RenderAll(bs), es[0]);
        if p < |RenderAll(bs)| {
          next := AfterHit(bs, p, SplitLines(text));
          HarmlessHit(bs, p, SplitLines(text));
          HitStaysClean(bs, p, SplitLines(text));
        }
    }
    hide Render, RenderAll, Original, AfterHit, Hit, Harmless, SubstAt, Clean, PlainText;
  }

  /** The edits as edits of blocks. */
  lemma {:induction false} EditsOnBlocks(bs: seq<Block>, es: seq<Edit>)
    requires WellFormed(bs) && AllHarmless(bs, es)
    ensures var after := BlocksAfter(bs, es);
            WellFormed(after) && ApplyAll(RenderAll(bs), es) == RenderAll(after) && Original(after) == Original(bs)
    ensures Clean(bs) && PlainTexts(es) ==> Clean(BlocksAfter(bs, es))
    decreases |es|
  {
    if es != [] {
      var next := EditOnBlocks(bs, es);
      EditsOnBlocks(next, es[1..]);
      hide BlocksAfter, RenderAll, Original, Apply, AllHarmless, Clean, WellFormed, PlainText;
    }
  }

  /** Restoring after any sequence of harmless edits of a file without marks gives the file back. */
  lemma {:induction false} EditsAreUndone(original: seq<Line>, es: seq<Edit>)
    requires forall i :: 0 <= i < |original| ==> Unmarked(original[i])
    requires AllHarmless(KeepAll(original), es)
    ensures Restored(ApplyAll(original, es)) == Some(original)
  {
    RenderKept(original);
    EditsOnBlocks(KeepAll(original), es);
    RestoreUndoes(BlocksAfter(KeepAll(original), es));
  }

  // ---------------------------------------------------------------------------
  // Harmless is exactly what it takes
  // ---------------------------------------------------------------------------

  ghost predicate NoMarks(ls: seq<Line>) {
    forall i :: 0 <= i < |ls| ==> Unmarked(ls[i])
  }

  /** Inserted lines hold no marks, but that the last may have been commented out since. */
  ghost predicate CleanLines(ls: seq<Line>) {
    forall i :: 0 <= i < |ls| ==> !IsPlus(ls[i]) && (i < |ls| - 1 ==> !IsMinus(ls[i]))
  }

  /** No marks but those of the edits. */
  ghost predicate Clean(bs: seq<Block>) {
    WellFormed(bs) && forall i :: 0 <= i < |bs| && bs[i].Inserted? ==> CleanLines(bs[i].lines)
  }

  /** The text of the edit contains no marks. */
  ghost predicate PlainText(e: Edit) {
    NoMarks(SplitLines(e.text))
  }

  ghost predicate PlainTexts(es: seq<Edit>) {
    forall i :: 0 <= i < |es| ==> PlainText(es[i])
  }

  lemma {:induction false} AppendStaysClean(bs: seq<Block>, text: string)
    ensures Clean(bs) && NoMarks(SplitLines(text)) ==> Clean(bs + [Inserted(Appended(text))])
  {
    assert !IsPlus("\n");
  }

  lemma {:induction false} HitLinesStayClean(ls: seq<Line>)
    requires ls != [] && CleanLines(ls)
    ensures CleanLines(ls[..|ls| - 1] + [MinusMark(ls[|ls| - 1])])
  {
    MinusMarkStrips(ls[|ls| - 1]);
    hide IsPlus, IsMinus, MinusMark;
  }

  lemma {:induction false} HitStaysClean(bs: seq<Block>, p: nat, news: seq<Line>)
    requires p < |RenderAll(bs)| && Harmless(bs, p)
    ensures Clean(bs) && NoMarks(news) ==> Clean(AfterHit(bs, p, news))
  {
    if Clean(bs) && NoMarks(news) {
      var b, tail, front := bs[0], bs[1..], Render(bs[0]);
      if p < |front| {
        if b.Inserted? { HitLinesStayClean(b.lines); }
        FirstStaysClean(b, tail, p, news);
      } else {
        HitStaysClean(tail, p - |front|, news);
      }
    }
  }

  lemma {:induction false} FirstStaysClean(b: Block, tail: seq<Block>, p: nat, news: seq<Line>)
    requires HarmlessIn(b, p) && Clean(tail) && NoMarks(news)
    requires b.Inserted? ==> CleanLines(b.lines[..p - 1] + [MinusMark(b.lines[p - 1])])
    ensures Clean(HitBlock(b, p, news) + tail)
  {
    hide IsPlus, IsMinus, MinusMark;
  }

  /** The lines, with a comment mark taken off each that has one. */
  function Uncovered(ls: seq<Line>): (r: seq<Line>)
    ensures |r| == |ls|
  {
    seq(|ls|, i requires 0 <= i < |ls| => if IsMinus(ls[i]) then Drop(ls[i], 4) else ls[i])
  }

  ghost predicate NoCounts(ls: seq<Line>) {
    forall i :: 0 <= i < |ls| ==> !IsPlus(ls[i])
  }

  lemma {:induction false} OneLinePasses(l: Line, rest: seq<Line>, r: seq<Line>)
    requires !IsPlus(l) && Restored(rest) == Some(r)
    ensures Restored([l] + rest) == Some([if IsMinus(l) then Drop(l, 4) else l] + r)
  {
    assert ([l] + rest)[1..] == rest;
  }

  lemma {:induction false} UncoveredCons(l: Line, tail: seq<Line>)
    ensures Uncovered([l] + tail) == [if IsMinus(l) then Drop(l, 4) else l] + Uncovered(tail)
  {
    hide IsMinus, Drop;
    var ls := [l] + tail;
    forall i | 0 < i < |ls| ensures Uncovered(ls)[i] == Uncovered(tail)[i - 1] {
      assert ls[i] == tail[i - 1];
    }
  }

  /** Lines that are no counts come through restoring, uncovered. */
  lemma {:induction false} NoCountsPass(ls: seq<Line>, rest: seq<Line>, r: seq<Line>)
    requires NoCounts(ls) && Restored(rest) == Some(r)
    ensures Restored(ls + rest) == Some(Uncovered(ls) + r)
  {
    if ls == [] {
      assert ls + rest == rest && Uncovered(ls) + r == r;
    } else {
      var l, tail := ls[0], ls[1..];
      var u := if IsMinus(l) then Drop(l, 4) else l;
      NoCountsPass(tail, rest, r);
      OneLinePasses(l, tail + rest, Uncovered(tail) + r);
      UncoveredCons(l, tail);
      assert ls == [l] + tail;
      hide Restored, IsPlus, IsMinus, Drop, Uncovered;
      Assoc([l], tail, rest);
      Assoc([u], Uncovered(tail), r);
    }
  }

  lemma {:induction false} InsertedPass(news: seq<Line>, rest: seq<Line>)
    ensures Restored([PlusMark(|news|)] + (news + rest)) == Restored(rest)
  {
    RestoredPastBlock(Inserted(news), rest);
    Assoc([PlusMark(|news|)], news, rest);
  }

  lemma {:induction false} CommentPasses(l: Line, rest: seq<Line>, r: seq<Line>)
    requires Restored(rest) == Some(r)
    ensures Restored([MinusMark(l)] + rest) == Some([l] + r)
  {
    RestoredPastBlock(Commented(l), rest);
  }

  /** A replaced line that was behind a mark already, or was a count, is not uncovered fully. */
  lemma {:induction false} MarkHit(mark: Line, ls: seq<Line>, rest: seq<Line>, r: seq<Line>, news: seq<Line>)
    requires NoCounts(ls) && Restored(rest) == Some(r)
    ensures Restored(SubstAt([mark] + ls + rest, 0, news)) == Some([mark] + (Uncovered(ls) + r))
  {
    hide Restored, SubstAt, NoCounts, MinusMark, PlusMark, Uncovered;
    var tail, plus := ls + rest, [PlusMark(|news|)];
    Assoc([mark], ls, rest);
    SubstFirstLine(mark, tail, news);
    NoCountsPass(ls, rest, r);
    InsertedPass(news, tail);
    CommentPasses(mark, plus + (news + tail), Uncovered(ls) + r);
    Assoc([MinusMark(mark)], plus + news, tail);
    Assoc(plus, news, tail);
  }

  /** The lines of a block after its inserted line o is replaced, and what its count leaves. */
  lemma {:induction false} InnerLines(mark: Line, ls: seq<Line>, o: nat, rest: seq<Line>, news: seq<Line>)
    returns (s: seq<Line>, left: seq<Line>)
    requires 0 < o < |ls|
    ensures SubstAt([mark] + ls + rest, o, news) == [mark] + (s + rest)
    ensures |s| == |ls| + |news| + 1 && left == s[|ls|..] && |left| == |news| + 1
    ensures forall i :: 0 <= i < |left| ==> left[i] in news || left[i] in ls
  {
    hide MinusMark, PlusMark;
    var all := [mark] + ls + rest;
    s := ls[..o - 1] + [MinusMark(ls[o - 1]), PlusMark(|news|)] + news + ls[o..];
    left := s[|ls|..];
    assert all[..o] == [mark] + ls[..o - 1] && all[o + 1..] == ls[o..] + rest && all[o] == ls[o - 1];
    assert left == (news + ls[o..])[|ls| - o - 1..];
  }

  /** Replacing an inserted line other than the last leaves |news| + 1 lines behind. */
  lemma {:induction false} InnerHit(ls: seq<Line>, o: nat, rest: seq<Line>, r: seq<Line>, news: seq<Line>)
    returns (left: seq<Line>)
    requires NoCounts(ls) && NoCounts(news) && Restored(rest) == Some(r) && 0 < o < |ls|
    ensures |left| == |news| + 1
    ensures Restored(SubstAt([PlusMark(|ls|)] + ls + rest, o, news)) == Some(Uncovered(left) + r)
  {
    hide Restored, SubstAt, NoCounts, PlusMark, Uncovered;
    var s;
    s, left := InnerLines(PlusMark(|ls|), ls, o, rest, news);
    LeftNoCounts(ls, news, left);
    CountPasses(|ls|, s, rest);
    NoCountsPass(left, rest, r);
  }

  lemma {:induction false} LeftNoCounts(ls: seq<Line>, news: seq<Line>, left: seq<Line>)
    requires NoCounts(ls) && NoCounts(news) && forall i :: 0 <= i < |left| ==> left[i] in news || left[i] in ls
    ensures NoCounts(left)
  {
    hide IsPlus;
  }

  /** A count of n skips the mark and n lines. */
  lemma {:induction false} CountPasses(n: nat, s: seq<Line>, rest: seq<Line>)
    requires n <= |s|
    ensures Restored([PlusMark(n)] + (s + rest)) == Restored(s[n..] + rest)
  {
    PlusMarkCounts(n);
    assert Drop([PlusMark(n)] + (s + rest), n + 1) == s[n..] + rest;
  }

  lemma {:induction false} CommentedHit(l: Line, rest: seq<Line>, r: seq<Line>, news: seq<Line>)
    requires Restored(rest) == Some(r)
    ensures Restored(SubstAt([MinusMark(l)] + rest, 0, news)) != Some([l] + r)
  {
    var mark := MinusMark(l);
    assert mark != l by { assert |mark| == |l| + 4; }
    hide MinusMark, Restored, SubstAt;
    MarkHit(mark, [], rest, r, news);
    assert [mark] + [] + rest == [mark] + rest;
    assert ([mark] + (Uncovered([]) + r))[0] != ([l] + r)[0];
  }

  /** One substitution into the first block that is not harmless. */
  lemma {:induction false} HarmfulInFirst(b: Block, bs: seq<Block>, p: nat, news: seq<Line>)
    requires Clean([b] + bs) && NoMarks(news) && p < |Render(b)| && !HarmlessIn(b, p)
    requires Restored(RenderAll(bs)) == Some(Original(bs))
    ensures Restored(SubstAt(Render(b) + RenderAll(bs), p, news)) != Some(Original([b] + bs))
  {
    RenderCons(b, bs);
    assert ([b] + bs)[0] == b;
    var rest, r := RenderAll(bs), Original(bs);
    match b
    case Commented(l) =>
      CommentedHit(l, rest, r, news);
    case Inserted(ls) =>
      hide Restored, SubstAt, PlusMark, Uncovered;
      if p == 0 {
        MarkHit(PlusMark(|ls|), ls, rest, r, news);
        assert |[PlusMark(|ls|)] + (Uncovered(ls) + r)| > |r|;
      } else {
        var left := InnerHit(ls, p, rest, r, news);
        assert |Uncovered(left) + r| > |r|;
      }
  }

  /** Which substitutions restoring can undo, in a file whose inserted text contains no marks:
      exactly those of lines left alone and of the last line of an inserted block. */
  lemma {:induction false} UndoneExactlyWhenHarmless(bs: seq<Block>, p: nat, news: seq<Line>)
    requires Clean(bs) && NoMarks(news) && p < |RenderAll(bs)|
    ensures Restored(SubstAt(RenderAll(bs), p, news)) == Some(Original(bs)) <==> Harmless(bs, p)
  {
    if Harmless(bs, p) {
      HarmlessHit(bs, p, news);
      RestoreUndoes(AfterHit(bs, p, news));
    } else {
      HarmfulHit(bs, p, news);
    }
  }

  /** The same after any sequence of edits that could be undone so far, including edits that
      replaced last lines of inserted blocks. */
  lemma {:induction false} NextUndoneExactlyWhenHarmless(original: seq<Line>, es: seq<Edit>, p: nat, news: seq<Line>)
    requires NoMarks(original) && PlainTexts(es) && NoMarks(news)
    requires AllHarmless(KeepAll(original), es) && p < |ApplyAll(original, es)|
    ensures var after := BlocksAfter(KeepAll(original), es);
            && ApplyAll(original, es) == RenderAll(after)
            && (Restored(SubstAt(ApplyAll(original, es), p, news)) == Some(original) <==> Harmless(after, p))
  {
    var bs := KeepAll(original);
    RenderKept(original);
    assert Clean(bs);
    hide KeepAll, Clean, NoMarks, PlainTexts, WellFormed;
    EditsOnBlocks(bs, es);
    UndoneExactlyWhenHarmless(BlocksAfter(bs, es), p, news);
  }

  lemma {:induction false} HarmfulHit(bs: seq<Block>, p: nat, news: seq<Line>)
    requires Clean(bs) && NoMarks(news) && p < |RenderAll(bs)| && !Harmless(bs, p)
    ensures Restored(SubstAt(RenderAll(bs), p, news)) != Some(Original(bs))
  {
    assert bs == [bs[0]] + bs[1..];
    var b, tail, front := bs[0], bs[1..], Render(bs[0]);
    if p < |front| {
      RestoreUndoes(tail);
      HarmfulInFirst(b, tail, p, news);
    } else {
      HarmfulHit(tail, p - |front|, news);
      SubstInTail(front, RenderAll(tail), p, news);
      var hit := SubstAt(RenderAll(tail), p - |front|, news);
      RestoredPastBlock(b, hit);
      RenderCons(b, tail);
      if Restored(hit).Some? && !b.Inserted? {
        var r := Restored(hit).value;
        assert ([b.line] + r)[1..] == r && ([b.line] + Original(tail))[1..] == Original(tail);
      }
      hide Restored, SubstAt, RenderAll, Original, Render, Harmless;
    }
  }

  // ---------------------------------------------------------------------------
  // Through the file
  // ---------------------------------------------------------------------------

  /** Python's white space, as far as rstrip meets it in a Makefile. */
  predicate IsSpace(c: char) {
    c == ' ' || c == '\t' || c == '\n' || c == '\r'
  }

  function RStrip(l: Line): (r: Line)
    ensures r == "" || !IsSpace(r[|r| - 1])
  {
    if l != "" && IsSpace(l[|l| - 1]) then RStrip(l[..|l| - 1]) else l
  }

  /** writeback: every element and a line break. */
  function Written(ls: seq<Line>): string {
    if ls == [] then "" else ls[0] + "\n" + Written(ls[1..])
  }

  /** The read loop: lines up to and including their break, stripped on the right. */
  function ReadFrom(text: string): seq<Line> {
    if text == "" then [] else [RStrip(FirstLine(text))] + ReadFrom(text[|FirstLine(text)|..])
  }

  function FirstLine(text: string): (l: string)
    requires text != ""
    ensures 0 < |l| <= |text| && l == text[..|l|]
  {
    if text[0] == '\n' || |text| == 1 then text[..1] else [text[0]] + FirstLine(text[1..])
  }

  ghost predicate OneLine(l: Line) {
    '\n' !in l
  }

  lemma {:induction false} FirstLineIs(l: Line, rest: string)
    requires OneLine(l)
    ensures FirstLine(l + "\n" + rest) == l + "\n"
  {
    var text := l + "\n" + rest;
    if l == "" {
      assert text[..1] == "\n";
    } else {
      assert text[1..] == l[1..] + "\n" + rest && text[0] == l[0];
      FirstLineIs(l[1..], rest);
      assert l == [l[0]] + l[1..];
    }
  }

  lemma {:induction false} ReadOneLine(l: Line, rest: string)
    requires OneLine(l)
    ensures ReadFrom(l + "\n" + rest) == [RStrip(l)] + ReadFrom(rest)
  {
    var text := l + "\n" + rest;
    FirstLineIs(l, rest);
    assert text[|l| + 1..] == rest;
    assert (l + "\n")[..|l|] == l;
  }

  /** An element that ends in a line break of its own. */
  predicate Broken(l: Line) {
    l != "" && l[|l| - 1] == '\n'
  }

  lemma {:induction false} BrokenStrips(l: Line)
    requires Broken(l)
    ensures RStrip(l) == RStrip(l[..|l| - 1]) && RStrip("") == ""
    ensures l == l[..|l| - 1] + "\n"
  {
  }

  lemma {:induction false} ReadEmptyLine(rest: string)
    ensures ReadFrom("\n" + rest) == [""] + ReadFrom(rest)
  {
    ReadOneLine("", rest);
    assert "" + "\n" == "\n" && RStrip("") == "";
    hide ReadFrom, RStrip;
  }

  lemma {:induction false} ReadBrokenLine(l: Line, rest: string)
    requires Broken(l) && OneLine(l[..|l| - 1])
    ensures ReadFrom(l + "\n" + rest) == [RStrip(l), ""] + ReadFrom(rest)
  {
    var head, more, nl := l[..|l| - 1], "\n" + rest, "\n";
    BrokenStrips(l);
    ReadOneLine(head, more);
    ReadEmptyLine(rest);
    hide ReadFrom, RStrip, Broken, OneLine;
    Assoc(l, nl, rest);
    Assoc([RStrip(l)], [""], ReadFrom(rest));
  }

  /** What an element of the list reads back as: one that ends in a line break as two lines. */
  function ReadBack(l: Line): seq<Line> {
    if Broken(l) then [RStrip(l), ""] else [RStrip(l)]
  }

  function ReadBackAll(ls: seq<Line>): seq<Line> {
    if ls == [] then [] else ReadBack(ls[0]) + ReadBackAll(ls[1..])
  }

  ghost predicate WritableLine(l: Line) {
    OneLine(l) || (Broken(l) && OneLine(l[..|l| - 1]))
  }

  ghost predicate Writable(ls: seq<Line>) {
    forall i :: 0 <= i < |ls| ==> WritableLine(ls[i])
  }

  lemma {:induction false} WrittenLineReadsBack(l: Line, rest: string)
    requires WritableLine(l)
    ensures ReadFrom(l + "\n" + rest) == ReadBack(l) + ReadFrom(rest)
  {
    hide ReadFrom, RStrip;
    if Broken(l) {
      assert !OneLine(l);
      ReadBrokenLine(l, rest);
    } else {
      ReadOneLine(l, rest);
    }
  }

  lemma {:induction false} WrittenReadsBack(ls: seq<Line>)
    requires Writable(ls)
    ensures ReadFrom(Written(ls)) == ReadBackAll(ls)
  {
    if ls != [] {
      WrittenReadsBack(ls[1..]);
      WrittenLineReadsBack(ls[0], Written(ls[1..]));
      hide ReadFrom, ReadBack, WritableLine;
    }
  }

  lemma {:induction false} SplitIsOneLine(text: string)
    ensures forall i :: 0 <= i < |SplitLines(text)| ==> OneLine(SplitLines(text)[i])
  {
    if text != "" { SplitIsOneLine(text[1..]); }
  }

  predicate EndsInBreak(ls: seq<Line>) {
    |ls| > 0 && Broken(ls[|ls| - 1])
  }

  /** Blocks of a file that was itself read from disk, as edits leave them. */
  ghost predicate FileReady(b: Block) {
    match b
    case Kept(l) => OneLine(l) && RStrip(l) == l && Unmarked(l)
    case Commented(l) => OneLine(l) && RStrip(l) == l
    case Inserted(ls) =>
      forall i :: 0 <= i < |ls| ==> WritableLine(ls[i]) && (i < |ls| - 1 ==> !Broken(ls[i]))
  }

  ghost predicate AllReady(bs: seq<Block>) {
    forall i :: 0 <= i < |bs| ==> FileReady(bs[i])
  }

  /** The original lines, and an empty one for every block whose last element ends in a line break. */
  function WithBlanks(bs: seq<Block>): seq<Line> {
    if bs == [] then []
    else
      (match bs[0]
       case Inserted(ls) => if EndsInBreak(ls) then [""] else []
       case Kept(l) => [l]
       case Commented(l) => [l]) + WithBlanks(bs[1..])
  }

  lemma {:induction false} ReadBackSum(a: seq<Line>, b: seq<Line>)
    ensures ReadBackAll(a + b) == ReadBackAll(a) + ReadBackAll(b)
  {
    if a == [] {
      assert a + b == b;
    } else {
      ReadBackSum(a[1..], b);
      assert (a + b)[1..] == a[1..] + b;
      Assoc(ReadBack(a[0]), ReadBackAll(a[1..]), ReadBackAll(b));
    }
  }

  /** How many lines a list reads back as. */
  lemma {:induction false} ReadBackLength(ls: seq<Line>)
    requires FileReady(Inserted(ls))
    ensures |ReadBackAll(ls)| == |ls| + if EndsInBreak(ls) then 1 else 0
    ensures EndsInBreak(ls) ==> ReadBackAll(ls)[|ls|..] == [""]
  {
    if |ls| == 1 {
      assert ls[1..] == [] && ReadBackAll(ls) == ReadBack(ls[0]);
    } else if |ls| > 1 {
      ReadBackLength(ls[1..]);
      assert ReadBackAll(ls) == [RStrip(ls[0])] + ReadBackAll(ls[1..]);
    }
  }

  lemma {:induction false} PlusMarkReadsBack(n: nat)
    ensures OneLine(PlusMark(n)) && ReadBack(PlusMark(n)) == [PlusMark(n)]
  {
    DecimalReadsBack(n);
    var m := PlusMark(n);
    assert IsDigit(m[|m| - 1]) by {
      assert m[|m| - 1] == Decimal(n)[|Decimal(n)| - 1];
    }
    assert RStrip(m) == m;
    assert m[0] == '#' && "\n"[0] == '\n';
    forall i | 0 <= i < |m| ensures m[i] != '\n' {
      if i >= 4 { assert m[i] == Decimal(n)[i - 4] && IsDigit(Decimal(n)[i - 4]); }
    }
  }

  lemma {:induction false} MinusMarkReadsBack(l: Line, rest: seq<Line>, r: seq<Line>)
    requires OneLine(l) && RStrip(l) == l && Restored(rest) == Some(r)
    ensures OneLine(MinusMark(l)) && Restored(ReadBack(MinusMark(l)) + rest) == Some([l] + r)
  {
    var m := MinusMark(l);
    assert m[0] == '#' && "\n"[0] == '\n';
    if l != "" {
      assert m[|m| - 1] == l[|l| - 1];
      assert RStrip(m) == m;
      CommentPasses(l, rest, r);
    } else {
      assert m[..3] == "#>-" && m[3] == ' ' && RStrip("#>-") == "#>-";
      assert RStrip(m) == "#>-";
      assert ReadBack(m) == ["#>-"];
      BareMark(rest, r);
    }
  }

  /** A mark whose empty line was stripped away still uncovers an empty line. */
  lemma {:induction false} BareMark(rest: seq<Line>, r: seq<Line>)
    requires Restored(rest) == Some(r)
    ensures Restored(["#>-"] + rest) == Some([""] + r)
  {
    var ls := ["#>-"] + rest;
    assert ls[1..] == rest && IsMinus("#>-") && "#>-"[2] != "#>+"[2] && Drop("#>-", 4) == "";
  }

  lemma {:induction false} BlockThroughFile(b: Block, rest: seq<Line>, r: seq<Line>)
    requires FileReady(b) && Restored(rest) == Some(r)
    ensures Restored(ReadBackAll(Render(b)) + rest) == Some(
              (match b
               case Inserted(ls) => if EndsInBreak(ls) then [""] else []
               case Kept(l) => [l]
               case Commented(l) => [l]) + r)
  {
    match b
    case Kept(l) =>
      assert ReadBackAll([l]) == [l];
      RestoredPastBlock(b, rest);
    case Commented(l) =>
      assert ReadBackAll([MinusMark(l)]) == ReadBack(MinusMark(l));
      MinusMarkReadsBack(l, rest, r);
    case Inserted(ls) =>
      PlusMarkReadsBack(|ls|);
      ReadBackSum([PlusMark(|ls|)], ls);
      assert ReadBackAll([PlusMark(|ls|)]) == [PlusMark(|ls|)];
      ReadBackLength(ls);
      var s := ReadBackAll(ls);
      Assoc([PlusMark(|ls|)], s, rest);
      CountPasses(|ls|, s, rest);
      if EndsInBreak(ls) {
        OneLinePasses("", rest, r);
      } else {
        assert s[|ls|..] == [] && [] + rest == rest && [] + r == r;
      }
  }

  /** Written to disk, read again and restored, a ready file is its original lines and the blanks. */
  lemma {:induction false} RestoreAfterFile(bs: seq<Block>)
    requires AllReady(bs)
    ensures Restored(ReadBackAll(RenderAll(bs))) == Some(WithBlanks(bs))
  {
    if bs == [] {
      assert Restored([]) == Some([]);
    } else {
      RestoreAfterFile(bs[1..]);
      ReadBackSum(Render(bs[0]), RenderAll(bs[1..]));
      BlockThroughFile(bs[0], ReadBackAll(RenderAll(bs[1..])), WithBlanks(bs[1..]));
      hide Restored, ReadBackAll, Render, FileReady;
    }
  }

  // ---------------------------------------------------------------------------
  // Edits through the file
  // ---------------------------------------------------------------------------

  function Appends(es: seq<Edit>): nat {
    if es == [] then 0 else (if es[0].Append? then 1 else 0) + Appends(es[1..])
  }

  function Blanks(n: nat): seq<Line> {
    seq(n, _ => "")
  }

  lemma {:induction false} WithBlanksCons(b: Block, bs: seq<Block>)
    ensures WithBlanks([b] + bs) ==
            (match b
             case Inserted(ls) => if EndsInBreak(ls) then [""] else []
             case Kept(l) => [l]
             case Commented(l) => [l]) + WithBlanks(bs)
  {
    assert ([b] + bs)[1..] == bs;
  }

  lemma {:induction false} WithBlanksSnoc(bs: seq<Block>, ls: seq<Line>)
    ensures WithBlanks(bs + [Inserted(ls)]) == WithBlanks(bs) + if EndsInBreak(ls) then [""] else []
  {
    var b := Inserted(ls);
    if bs == [] {
      assert bs + [b] == [b] + [];
      WithBlanksCons(b, []);
    } else {
      WithBlanksSnoc(bs[1..], ls);
      assert bs == [bs[0]] + bs[1..] && bs + [b] == [bs[0]] + (bs[1..] + [b]);
      WithBlanksCons(bs[0], bs[1..] + [b]);
      WithBlanksCons(bs[0], bs[1..]);
      hide WithBlanks;
    }
  }

  lemma {:induction false} MarkedStaysWritable(l: Line)
    requires WritableLine(l)
    ensures WritableLine(MinusMark(l)) && (Broken(MinusMark(l)) <==> Broken(l))
  {
    var m := MinusMark(l);
    assert forall i :: 4 <= i < |m| ==> m[i] == l[i - 4];
    assert m[0] == '#' && m[1] == '>' && m[2] == '-' && m[3] == ' ';
  }

  /** Replacing the last line of a block leaves it ready, with the same blank. */
  lemma {:induction false} LastHitStaysReady(ls: seq<Line>)
    requires ls != [] && FileReady(Inserted(ls))
    ensures var hit := ls[..|ls| - 1] + [MinusMark(ls[|ls| - 1])];
            FileReady(Inserted(hit)) && (EndsInBreak(hit) <==> EndsInBreak(ls))
  {
    MarkedStaysWritable(ls[|ls| - 1]);
    hide MinusMark, WritableLine, Broken;
  }

  lemma {:induction false} HitBlockStaysReady(b: Block, p: nat, news: seq<Line>)
    requires HarmlessIn(b, p) && FileReady(b) && forall i :: 0 <= i < |news| ==> OneLine(news[i])
    ensures AllReady(HitBlock(b, p, news)) && !EndsInBreak(news)
    ensures var t := HitBlock(b, p, news)[0];
            match b
            case Kept(l) => t == Commented(l)
            case Inserted(ls) => t.Inserted? && (EndsInBreak(t.lines) <==> EndsInBreak(ls))
  {
    match b
    case Kept(l) =>
    case Inserted(ls) => LastHitStaysReady(ls);
  }

  lemma {:induction false} ReadyCons(b: Block, bs: seq<Block>)
    ensures AllReady([b] + bs) <==> FileReady(b) && AllReady(bs)
  {
    hide FileReady;
    var all := [b] + bs;
    assert all[0] == b && all[1..] == bs;
    if AllReady(all) {
      forall i | 0 <= i < |bs| ensures FileReady(bs[i]) {
        assert all[i + 1] == bs[i];
      }
    }
  }

  lemma {:induction false} FirstHitStaysReady(b: Block, tail: seq<Block>, p: nat, news: seq<Line>)
    requires HarmlessIn(b, p) && FileReady(b) && AllReady(tail) && forall i :: 0 <= i < |news| ==> OneLine(news[i])
    ensures AllReady(HitBlock(b, p, news) + tail)
    ensures WithBlanks(HitBlock(b, p, news) + tail) == WithBlanks([b] + tail)
  {
    HitBlockStaysReady(b, p, news);
    var c, i := HitBlock(b, p, news)[0], Inserted(news);
    assert HitBlock(b, p, news) == [c, i];
    assert [c, i] + tail == [c] + ([i] + tail);
    assert FileReady(c) && FileReady(i);
    hide FileReady, HitBlock, AllReady, EndsInBreak, WithBlanks;
    ReadyCons(i, tail);
    ReadyCons(c, [i] + tail);
    WithBlanksCons(c, [i] + tail);
    WithBlanksCons(i, tail);
    WithBlanksCons(b, tail);
  }

  lemma {:induction false} HitStaysReady(bs: seq<Block>, p: nat, news: seq<Line>)
    requires p < |RenderAll(bs)| && Harmless(bs, p) && AllReady(bs)
    requires forall i :: 0 <= i < |news| ==> OneLine(news[i])
    ensures AllReady(AfterHit(bs, p, news)) && WithBlanks(AfterHit(bs, p, news)) == WithBlanks(bs)
  {
    var b, tail := bs[0], bs[1..];
    assert bs == [b] + tail;
    ReadyCons(b, tail);
    hide FileReady, HitBlock, AllReady, EndsInBreak, WithBlanks, OneLine;
    if p < |Render(b)| {
      FirstHitStaysReady(b, tail, p, news);
    } else {
      var rest := AfterHit(tail, p - |Render(b)|, news);
      HitStaysReady(tail, p - |Render(b)|, news);
      ReadyCons(b, rest);
      WithBlanksCons(b, rest);
      WithBlanksCons(b, tail);
    }
  }

  lemma {:induction false} AppendStaysReady(bs: seq<Block>, text: string)
    requires AllReady(bs)
    ensures AllReady(bs + [Inserted(Appended(text))])
    ensures WithBlanks(bs + [Inserted(Appended(text))]) == WithBlanks(bs) + [""]
  {
    SplitIsOneLine(text);
    WithBlanksSnoc(bs, Appended(text));
  }

  lemma {:induction false} ReadyIsWellFormed(bs: seq<Block>)
    requires AllReady(bs)
    ensures WellFormed(bs)
  {
  }

  function Blank(e: Edit): seq<Line> {
    if e.Append? then [""] else []
  }

  lemma {:induction false} EditStaysReady(bs: seq<Block>, es: seq<Edit>) returns (next: seq<Block>)
    requires AllReady(bs) && es != [] && AllHarmless(bs, es)
    ensures AllReady(next) && Apply(RenderAll(bs), es[0]) == RenderAll(next)
    ensures AllHarmless(next, es[1..]) && WithBlanks(next) == WithBlanks(bs) + Blank(es[0])
  {
    next := bs;
    ReadyIsWellFormed(bs);
    match es[0] {
      case Append(text) =>
        next := bs + [Inserted(Appended(text))];
        RenderSnoc(bs, Inserted(Appended(text)));
        AppendStaysReady(bs, text);
      case Substitute(_, text) =>
        var p := Hit(RenderAll(bs), es[0]);
        if p < |RenderAll(bs)| {
          next := AfterHit(bs, p, SplitLines(text));
          HarmlessHit(bs, p, SplitLines(text));
          SplitIsOneLine(text);
          HitStaysReady(bs, p, SplitLines(text));
        }
    }
    hide Render, RenderAll, Original, AfterHit, Hit, Harmless, SubstAt, AllReady, WithBlanks, WellFormed;
    assert WithBlanks(bs) + [] == WithBlanks(bs);
  }

  lemma {:induction false} EditsStayReady(bs: seq<Block>, es: seq<Edit>) returns (after: seq<Block>)
    requires AllReady(bs) && AllHarmless(bs, es)
    ensures AllReady(after) && ApplyAll(RenderAll(bs), es) == RenderAll(after)
    ensures WithBlanks(after) == WithBlanks(bs) + Blanks(Appends(es))
    decreases |es|
  {
    if es == [] {
      after := bs;
      assert WithBlanks(bs) + Blanks(0) == WithBlanks(bs);
    } else {
      var next := EditStaysReady(bs, es);
      after := EditsStayReady(next, es[1..]);
      hide RenderAll, AllReady, WithBlanks, AllHarmless, Apply;
      assert Blank(es[0]) + Blanks(Appends(es[1..])) == Blanks(Appends(es));
      Assoc(WithBlanks(bs), Blank(es[0]), Blanks(Appends(es[1..])));
    }
  }

  lemma {:induction false} ReadyIsWritable(bs: seq<Block>)
    requires AllReady(bs)
    ensures Writable(RenderAll(bs))
  {
    if bs != [] {
      ReadyIsWritable(bs[1..]);
      assert FileReady(bs[0]);
      match bs[0]
      case Kept(l) =>
      case Commented(l) => MinusMarkReadsBack(l, [], []);
      case Inserted(ls) => PlusMarkReadsBack(|ls|);
    }
  }

  lemma {:induction false} KeepAllPlain(ls: seq<Line>)
    ensures WithBlanks(KeepAll(ls)) == ls
  {
    if ls != [] {
      KeepAllPlain(ls[1..]);
      WithBlanksCons(Kept(ls[0]), KeepAll(ls[1..]));
    }
  }

  /** Through writing, reading and restoring, a file edited harmlessly comes back with exactly
      one empty line more, at its end, for every append. */
  lemma {:induction false} EditsThroughFile(original: seq<Line>, es: seq<Edit>)
    requires forall i :: 0 <= i < |original| ==>
               Unmarked(original[i]) && OneLine(original[i]) && RStrip(original[i]) == original[i]
    requires AllHarmless(KeepAll(original), es)
    ensures Restored(ReadFrom(Written(ApplyAll(original, es)))) == Some(original + Blanks(Appends(es)))
  {
    RenderKept(original);
    KeepAllPlain(original);
    assert AllReady(KeepAll(original));
    hide Restored, ReadFrom, Written, AllReady, KeepAll;
    var after := EditsStayReady(KeepAll(original), es);
    ReadyIsWritable(after);
    WrittenReadsBack(RenderAll(after));
    RestoreAfterFile(after);
  }

  // ---------------------------------------------------------------------------
  // The editor, splicing its list of lines in place
  // ---------------------------------------------------------------------------

  class Makefile {
    var lines: seq<Line>

    constructor (lines: seq<Line>)
      ensures this.lines == lines
    {
      this.lines := lines;
    }

    /** Replaces the first line matched. */
    method SubstituteLine(e: Edit)
      requires e.Substitute?
      modifies this
      ensures lines == Apply(old(lines), e)
    {
      for index := 0 to |lines|
        invariant lines == old(lines)
        invariant forall i :: 0 <= i < index ==> !e.Matches(lines[i])
      {
        var line := lines[index];
        if e.Matches(line) {
          var newlines := SplitLines(e.text);
          FirstIsHit(lines, e, index);
          lines := lines[..index] + [MinusMark(line), PlusMark(|newlines|)] + newlines + lines[index + 1..];
          return;
        }
      }
      assert Hit(lines, e) == |lines|;
    }

    method AppendLines(text: string)
      modifies this
      ensures lines == Apply(old(lines), Append(text))
    {
      var news := SplitLines(text) + ["\n"];
      lines := lines + ([PlusMark(|news|)] + news);
    }

    method Edits(es: seq<Edit>)
      modifies this
      ensures lines == ApplyAll(old(lines), es)
      decreases |es|
    {
      if es != [] {
        match es[0] {
          case Append(text) => AppendLines(text);
          case Substitute(_, _) => SubstituteLine(es[0]);
        }
        Edits(es[1..]);
      }
    }

    /** Undoes the edits; gives up, as the original raises an exception, at a mark it cannot read. */
    method Restore() returns (ok: bool)
      modifies this
      ensures ok <==> Restored(old(lines)).Some?
      ensures ok ==> lines == Restored(old(lines)).value
    {
      ghost var before := lines;
      var index := 0;
      NothingDone(before);
      while index < |lines|
        invariant 0 <= index <= |lines| && Restored(before) == Behind(lines[..index], Restored(lines[index..]))
        decreases |lines| - index
      {
        hide Restored, Behind, Drop, Atoi, IsPlus, IsMinus;
        var line := lines[index];
        if IsPlus(line) {
          var count := Atoi(line[3..]);
          if count == None {
            RestoreStops(lines[..index], lines[index..]);
            return false;
          }
          RestoreSkips(lines, index, count.value);
          lines := lines[..index] + Drop(lines[index..], count.value + 1);
        } else {
          RestoreKeeps(lines, index);
          if IsMinus(line) {
            lines := lines[index := Drop(line, 4)];
          }
          index := index + 1;
        }
      }
      AllDone(lines);
      ok := true;
    }

    method WriteBack() returns (text: string)
      ensures text == Written(lines)
    {
      text := "";
      assert lines[..0] == [];
      for i := 0 to |lines|
        invariant text == Written(lines[..i])
      {
        WrittenSnoc(lines[..i], lines[i]);
        hide Written;
        assert lines[..i + 1] == lines[..i] + [lines[i]];
        text := text + lines[i];
        text := text + "\n";
      }
      assert lines[..|lines|] == lines;
    }

    method Read(text: string)
      modifies this
      ensures lines == ReadFrom(text)
    {
      lines := [];
      var rest := text;
      hide RStrip, FirstLine;
      assert ReadFrom("") == [];
      assert lines + ReadFrom(rest) == ReadFrom(rest);
      hide ReadFrom;
      while rest != ""
        invariant lines + ReadFrom(rest) == ReadFrom(text)
        decreases |rest|
      {
        var line := FirstLine(rest);
        ReadOneMore(rest);
        Assoc(lines, [RStrip(line)], ReadFrom(rest[|line|..]));
        lines := lines + [RStrip(line)];
        rest := rest[|line|..];
      }
    }
  }

  lemma {:induction false} FirstIsHit(ls: seq<Line>, e: Edit, p: nat)
    requires e.Substitute? && p < |ls| && e.Matches(ls[p]) && forall i :: 0 <= i < p ==> !e.Matches(ls[i])
    ensures Hit(ls, e) == p
  {
    var q := Hit(ls, e);
  }

  lemma {:induction false} ReadOneMore(text: string)
    requires text != ""
    ensures ReadFrom(text) == [RStrip(FirstLine(text))] + ReadFrom(text[|FirstLine(text)|..])
  {
  }

  lemma {:induction false} WrittenSnoc(ls: seq<Line>, l: Line)
    ensures Written(ls + [l]) == Written(ls) + l + "\n"
  {
    if ls == [] {
      assert ls + [l] == [l] && [l][1..] == [];
      assert l + "\n" + "" == l + "\n";
    } else {
      assert (ls + [l])[1..] == ls[1..] + [l];
      WrittenSnoc(ls[1..], l);
      hide Written;
      Assoc(ls[0] + "\n", Written(ls[1..]), l);
      Assoc(ls[0] + "\n", Written(ls[1..]) + l, "\n");
    }
  }

  /** What restoring comes to when the lines in front are done. */
  function Behind(done: seq<Line>, r: Option<seq<Line>>): Option<seq<Line>> {
    match r
    case None => None
    case Some(rest) => Some(done + rest)
  }

  lemma {:induction false} NothingDone(ls: seq<Line>)
    ensures ls[..0] == [] && ls[0..] == ls && Restored(ls) == Behind(ls[..0], Restored(ls[0..]))
  {
    if Restored(ls).Some? {
      assert [] + Restored(ls).value == Restored(ls).value;
    }
  }

  lemma {:induction false} AllDone(ls: seq<Line>)
    ensures Behind(ls[..|ls|], Restored(ls[|ls|..])) == Some(ls)
  {
    assert ls[|ls|..] == [] && ls[..|ls|] + [] == ls;
  }

  lemma {:induction false} RestoreStops(done: seq<Line>, ls: seq<Line>)
    requires |ls| > 0 && IsPlus(ls[0]) && Atoi(ls[0][3..]) == None
    ensures Behind(done, Restored(ls)) == None
  {
  }

  lemma {:induction false} RestoreSkips(ls: seq<Line>, k: nat, n: nat)
    requires k < |ls| && IsPlus(ls[k]) && Atoi(ls[k][3..]) == Some(n)
    ensures var after := ls[..k] + Drop(ls[k..], n + 1);
            Restored(ls[k..]) == Restored(after[k..]) && after[..k] == ls[..k] && |after| < |ls|
  {
    var tail := Drop(ls[k..], n + 1);
    assert (ls[..k] + tail)[k..] == tail;
  }

  lemma {:induction false} RestoreKeeps(ls: seq<Line>, k: nat)
    requires k < |ls| && !IsPlus(ls[k])
    ensures var after := if IsMinus(ls[k]) then ls[k := Drop(ls[k], 4)] else ls;
            Behind(ls[..k], Restored(ls[k..])) == Behind(after[..k + 1], Restored(after[k + 1..]))
  {
    var l, tail := if IsMinus(ls[k]) then Drop(ls[k], 4) else ls[k], ls[k + 1..];
    var after := if IsMinus(ls[k]) then ls[k := Drop(ls[k], 4)] else ls;
    assert ls[k..] == [ls[k]] + tail;
    assert after[k + 1..] == tail && after[..k + 1] == ls[..k] + [l];
    if Restored(tail).Some? {
      OneLinePasses(ls[k], tail, Restored(tail).value);
      Assoc(ls[..k], [l], Restored(tail).value);
    } else {
      OneLineFails(ls[k], tail);
    }
    hide Restored, IsPlus, IsMinus, Drop;
  }

  lemma {:induction false} OneLineFails(l: Line, rest: seq<Line>)
    requires !IsPlus(l) && Restored(rest) == None
    ensures Restored([l] + rest) == None
  {
    assert ([l] + rest)[1..] == rest;
  }
}
