/**
 * What the syntax highlighter does to its instruction list after matching:
 * sort by start position, fill the gaps between instructions with the
 * default colour, turn each CR LF inside an instruction into a new-line
 * command, and drop instructions left with no text.
 */
module HighlightPost {
  import opened Wrappers
  import opened Text
  import opened HighlightScan

  /*** Sorting ***/

  /** sortInstructions: ordered by the start position alone. */
  predicate SortedByStart(l: seq<Instruction>) {
    forall i, j :: 0 <= i < j < |l| ==> l[i].start <= l[j].start
  }

  function InsertByStart(x: Instruction, l: seq<Instruction>): (r: seq<Instruction>)
    ensures |r| == |l| + 1
  {
    if l == [] || x.start <= l[0].start then [x] + l
    else [l[0]] + InsertByStart(x, l[1..])
  }

  /** Inserting into a sorted list keeps it sorted and adds exactly `x`. */
  lemma {:induction false} InsertByStartSorts(x: Instruction, l: seq<Instruction>)
    requires SortedByStart(l)
    ensures SortedByStart(InsertByStart(x, l))
    ensures multiset(InsertByStart(x, l)) == multiset(l) + multiset{x}
    ensures InsertByStart(x, l)[0] == x || (|l| > 0 && InsertByStart(x, l)[0] == l[0])
  {
    if l == [] || x.start <= l[0].start {
      forall y | y in l
        ensures x.start <= y.start
      {
        SortedFirst(l, y);
      }
      SortedCons(x, l);
    } else {
      var rest := InsertByStart(x, l[1..]);
      SortedTail(l);
      InsertByStartSorts(x, l[1..]);
      assert l == [l[0]] + l[1..];
      forall y | y in rest
        ensures l[0].start <= y.start
      {
        assert y in multiset(rest);
        if y != x {
          assert y in l[1..];
          SortedFirst(l, y);
        }
      }
      SortedCons(l[0], rest);
    }
  }

  lemma {:induction false} SortedFirst(l: seq<Instruction>, y: Instruction)
    requires SortedByStart(l) && y in l
    ensures l[0].start <= y.start
  {
    var k :| 0 <= k < |l| && l[k] == y;
    if k > 0 {
      assert l[0].start <= l[k].start;
    }
  }

  lemma {:induction false} SortedTail(l: seq<Instruction>)
    requires SortedByStart(l) && l != []
    ensures SortedByStart(l[1..])
  {
    var t := l[1..];
    forall i, j | 0 <= i < j < |t|
      ensures t[i].start <= t[j].start
    {
      assert t[i] == l[i + 1] && t[j] == l[j + 1];
    }
  }

  lemma {:induction false} SortedCons(a: Instruction, s: seq<Instruction>)
    requires SortedByStart(s) && forall y :: y in s ==> a.start <= y.start
    ensures SortedByStart([a] + s)
  {
    var r := [a] + s;
    forall i, j | 0 <= i < j < |r|
      ensures r[i].start <= r[j].start
    {
      assert r[j] == s[j - 1];
      if i > 0 {
        assert r[i] == s[i - 1];
      } else {
        assert s[j - 1] in s;
      }
    }
  }

  /**
   * std::sort with sortInstructions. The order among instructions with the
   * same start is not specified by std::sort; this one keeps them in
   * insertion order.
   */
  function SortByStart(l: seq<Instruction>): (r: seq<Instruction>)
    ensures |r| == |l|
  {
    if l == [] then [] else InsertByStart(l[0], SortByStart(l[1..]))
  }

  /** The sort is a permutation ordered by start. */
  lemma {:induction false} SortByStartSorts(l: seq<Instruction>)
    ensures SortedByStart(SortByStart(l)) && multiset(SortByStart(l)) == multiset(l)
  {
    if l != [] {
      SortByStartSorts(l[1..]);
      InsertByStartSorts(l[0], SortByStart(l[1..]));
      assert l == [l[0]] + l[1..];
    }
  }

  /*** Gaps ***/

  /** Every instruction ends inside a text of length `n`. */
  predicate InText(l: seq<Instruction>, n: nat) {
    forall ins :: ins in l ==> ins.end <= n
  }

  /** Every instruction runs forwards and ends inside a text of length `n`. */
  predicate Spans(l: seq<Instruction>, n: nat) {
    forall ins :: ins in l ==> ins.start <= ins.end <= n
  }

  /** Consecutive instructions do not overlap. */
  predicate Disjoint(l: seq<Instruction>) {
    forall i :: 0 <= i < |l| - 1 ==> l[i].end <= l[i + 1].start
  }

  /** Consecutive instructions meet. */
  predicate Adjacent(l: seq<Instruction>) {
    forall i :: 0 <= i < |l| - 1 ==> l[i].end == l[i + 1].start
  }

  /** The default-coloured instruction from `e` up to `s`; the count wraps like size_t. */
  function Gap(e: nat, s: nat, text: string, color: nat): Instruction
    requires e <= |text|
  {
    Instruction(e, s, color, Substr(text, e, SizeSub(s, e)))
  }

  /** The backward loop of fillGaps: a gap after each instruction that does not meet the next one. */
  function Between(l: seq<Instruction>, text: string, color: nat): (r: seq<Instruction>)
    requires Spans(l, |text|)
    ensures InText(r, |text|)
    ensures |l| > 0 ==> |r| > 0 && r[0] == l[0] && r[|r| - 1] == l[|l| - 1]
    decreases |l|
  {
    if |l| < 2 then l
    else
      assert l[1..][0] == l[1];
      [l[0]] + GapAfter(l[0], l[1], text, color) + Between(l[1..], text, color)
  }

  /** The gap fillGaps puts between `a` and the instruction `b` after it, if any. */
  function GapAfter(a: Instruction, b: Instruction, text: string, color: nat): (r: seq<Instruction>)
    requires a.end <= |text| && b.start <= |text|
    ensures InText(r, |text|) && |r| <= 1
  {
    if a.end != b.start then [Gap(a.end, b.start, text, color)] else []
  }

  /** fillGaps keeps every instruction it is given. */
  lemma {:induction false} BetweenKeeps(l: seq<Instruction>, text: string, color: nat)
    requires Spans(l, |text|)
    ensures forall ins :: ins in l ==> ins in Between(l, text, color)
    decreases |l|
  {
    if |l| >= 2 {
      BetweenKeeps(l[1..], text, color);
      assert forall ins :: ins in l ==> ins == l[0] || ins in l[1..];
    }
  }

  /** vector::insert of `x` before position `i`. */
  function InsertAt(s: seq<Instruction>, i: nat, x: Instruction): seq<Instruction>
    requires i <= |s|
  {
    s[..i] + [x] + s[i..]
  }

  /** One pass of the backward fillGaps loop at `i`: a gap after `cur[i]` when it does not meet `cur[i + 1]`. */
  function GapStep(cur: seq<Instruction>, i: nat, text: string, color: nat): seq<Instruction>
    requires i + 1 < |cur| && cur[i].end <= |text|
  {
    if cur[i].end != cur[i + 1].start then InsertAt(cur, i + 1, Gap(cur[i].end, cur[i + 1].start, text, color)) else cur
  }

  lemma {:induction false} BetweenUnfold(l: seq<Instruction>, i: nat, text: string, color: nat)
    requires Spans(l, |text|) && i + 1 < |l|
    ensures Between(l[i..], text, color) == [l[i]] + GapAfter(l[i], l[i + 1], text, color) + Between(l[i + 1..], text, color)
    ensures Between(l[i + 1..], text, color)[0] == l[i + 1]
  {
    assert l[i..][1..] == l[i + 1..] && l[i..][0] == l[i] && l[i..][1] == l[i + 1];
    assert l[i + 1..][0] == l[i + 1];
  }

  lemma {:induction false} InsertAfter(p: seq<Instruction>, rest: seq<Instruction>, g: Instruction)
    ensures InsertAt(p + rest, |p|, g) == p + [g] + rest
  {
    assert (p + rest)[..|p|] == p && (p + rest)[|p|..] == rest;
  }

  lemma {:induction false} BackStepShape(l: seq<Instruction>, i: nat, text: string, color: nat)
    requires Spans(l, |text|) && i + 1 < |l|
    ensures var cur := l[..i + 1] + Between(l[i + 1..], text, color);
      && i + 1 < |cur| && cur[i] == l[i] && cur[i + 1] == l[i + 1] && cur[i].end <= |text|
  {
    BetweenUnfold(l, i, text, color);
    assert l[i] in l;
  }

  lemma {:induction false} TakeOneMore(l: seq<Instruction>, i: nat)
    requires i < |l|
    ensures l[..i + 1] == l[..i] + [l[i]]
  {
  }

  lemma {:induction false} Regroup(p: seq<Instruction>, x: Instruction, g: seq<Instruction>, rest: seq<Instruction>)
    ensures p + [x] + g + rest == p + ([x] + g + rest)
  {
  }

  lemma {:induction false} BackStepGap(l: seq<Instruction>, i: nat, text: string, color: nat)
    requires Spans(l, |text|) && i + 1 < |l| && l[i].end != l[i + 1].start
    ensures var cur := l[..i + 1] + Between(l[i + 1..], text, color);
      InsertAt(cur, i + 1, Gap(l[i].end, l[i + 1].start, text, color)) == l[..i] + Between(l[i..], text, color)
  {
    var rest := Between(l[i + 1..], text, color);
    var g := Gap(l[i].end, l[i + 1].start, text, color);
    BetweenUnfold(l, i, text, color);
    assert l[i] in l && l[i + 1] in l;
    assert GapAfter(l[i], l[i + 1], text, color) == [g];
    TakeOneMore(l, i);
    InsertAfter(l[..i + 1], rest, g);
    Regroup(l[..i], l[i], [g], rest);
  }

  lemma {:induction false} BackStepMeet(l: seq<Instruction>, i: nat, text: string, color: nat)
    requires Spans(l, |text|) && i + 1 < |l| && l[i].end == l[i + 1].start
    ensures l[..i + 1] + Between(l[i + 1..], text, color) == l[..i] + Between(l[i..], text, color)
  {
    var rest := Between(l[i + 1..], text, color);
    BetweenUnfold(l, i, text, color);
    assert GapAfter(l[i], l[i + 1], text, color) == [];
    TakeOneMore(l, i);
    Regroup(l[..i], l[i], [], rest);
  }

  /** The backward loop, one index further down, is Between one instruction longer. */
  lemma {:induction false} BetweenBackStep(l: seq<Instruction>, i: nat, text: string, color: nat)
    requires Spans(l, |text|) && i + 1 < |l|
    ensures var cur := l[..i + 1] + Between(l[i + 1..], text, color);
      && i + 1 < |cur| && cur[i] == l[i] && cur[i + 1] == l[i + 1] && cur[i].end <= |text|
      && GapStep(cur, i, text, color) == l[..i] + Between(l[i..], text, color)
  {
    BackStepShape(l, i, text, color);
    if l[i].end != l[i + 1].start {
      BackStepGap(l, i, text, color);
    } else {
      BackStepMeet(l, i, text, color);
    }
  }

  /** The instructions once the backward loop of fillGaps has done every index above `i`. */
  function BackLoop(l: seq<Instruction>, i: int, text: string, color: nat): (r: seq<Instruction>)
    requires Spans(l, |text|) && -1 <= i <= |l| - 2
    ensures |r| >= |l| && r[..i + 2] == l[..i + 2]
    decreases |l| - i
  {
    if i == |l| - 2 then l
    else
      var cur := BackLoop(l, i + 1, text, color);
      assert cur[i + 1] == l[i + 1] && cur[i + 2] == l[i + 2] by {
        assert cur[..i + 3][i + 1] == cur[i + 1] && cur[..i + 3][i + 2] == cur[i + 2];
      }
      assert l[i + 1] in l;
      var r := GapStep(cur, i + 1, text, color);
      assert r[..i + 2] == cur[..i + 2];
      r
  }

  /** The backward loop builds Between from the back. */
  lemma {:induction false} BackLoopBuildsBetween(l: seq<Instruction>, i: int, text: string, color: nat)
    requires Spans(l, |text|) && -1 <= i <= |l| - 2
    ensures BackLoop(l, i, text, color) == l[..i + 1] + Between(l[i + 1..], text, color)
    decreases |l| - i
  {
    if i == |l| - 2 {
      BetweenBackStart(l, i, text, color);
    } else {
      BackLoopBuildsBetween(l, i + 1, text, color);
      BetweenBackStep(l, i + 1, text, color);
    }
  }

  lemma {:induction false} BetweenBackStart(l: seq<Instruction>, i: int, text: string, color: nat)
    requires Spans(l, |text|) && -1 <= i < |l| && |l| - 2 <= i
    ensures l[..i + 1] + Between(l[i + 1..], text, color) == l
  {
    assert l[..i + 1] + l[i + 1..] == l;
  }

  /** fillGaps before the first instruction, when it does not start at 0. */
  function WithFront(m: seq<Instruction>, text: string, color: nat): (f: seq<Instruction>)
    requires |m| > 0 ==> m[0].start <= |text|
    ensures |f| == 0 <==> |m| == 0
    ensures |m| > 0 ==> f[|f| - 1] == m[|m| - 1]
  {
    if |m| > 0 && m[0].start != 0 then [Instruction(0, m[0].start, color, Substr(text, 0, m[0].start))] + m else m
  }

  /** fillGaps after the last instruction, when it does not end the text; an empty list counts as ending it. */
  function WithBack(f: seq<Instruction>, text: string, color: nat): seq<Instruction>
    requires |f| > 0 ==> f[|f| - 1].end <= |text|
  {
    var lastEnd := if |f| > 0 then f[|f| - 1].end else |text|;
    if lastEnd != |text| then f + [Instruction(lastEnd, |text|, color, Substr(text, lastEnd, NPOS))] else f
  }

  /** fillGaps: the gaps between, then one before the first and one after the last instruction. */
  function FillGaps(l: seq<Instruction>, text: string, color: nat): seq<Instruction>
    requires Spans(l, |text|)
  {
    var m := Between(l, text, color);
    WithBack(WithFront(m, text, color), text, color)
  }

  /** An empty list stays empty: a text nothing matched is given no instruction at all. */
  lemma {:induction false} FillNothing(text: string, color: nat)
    ensures FillGaps([], text, color) == []
  {
  }

  lemma {:induction false} BetweenAdjacent(l: seq<Instruction>, text: string, color: nat)
    requires Spans(l, |text|) && Disjoint(l)
    ensures Adjacent(Between(l, text, color))
    decreases |l|
  {
    if |l| >= 2 {
      var tail := l[1..];
      DisjointTail(l);
      BetweenAdjacent(tail, text, color);
      var r, rest := Between(l, text, color), Between(tail, text, color);
      var gap := GapAfter(l[0], l[1], text, color);
      var head := [l[0]] + gap;
      assert r == head + rest;
      assert Adjacent(head) && head[|head| - 1].end == l[1].start;
      assert rest[0] == l[1];
      AdjacentAppend(head, rest);
    }
  }

  lemma {:induction false} DisjointTail(l: seq<Instruction>)
    requires Disjoint(l) && l != []
    ensures Disjoint(l[1..])
  {
    var tail := l[1..];
    forall i | 0 <= i < |tail| - 1
      ensures tail[i].end <= tail[i + 1].start
    {
      assert tail[i] == l[i + 1] && tail[i + 1] == l[i + 2];
    }
  }

  /** Two runs of meeting instructions meet as one when the first ends where the second starts. */
  lemma {:induction false} AdjacentAppend(a: seq<Instruction>, b: seq<Instruction>)
    requires Adjacent(a) && Adjacent(b) && a != [] && b != [] && a[|a| - 1].end == b[0].start
    ensures Adjacent(a + b)
  {
    var r := a + b;
    forall i | 0 <= i < |r| - 1
      ensures r[i].end == r[i + 1].start
    {
      if i + 1 < |a| {
        assert r[i] == a[i] && r[i + 1] == a[i + 1];
      } else if i + 1 == |a| {
        assert r[i] == a[|a| - 1] && r[i + 1] == b[0];
      } else {
        assert r[i] == b[i - |a|] && r[i + 1] == b[i + 1 - |a|];
      }
    }
  }

  /** A default-coloured instruction holding exactly the text it covers. */
  predicate IsGap(ins: Instruction, text: string, color: nat) {
    ins.color == color && ins.start <= ins.end <= |text| && ins.text == text[ins.start..ins.end]
  }

  lemma {:induction false} BetweenGaps(l: seq<Instruction>, text: string, color: nat)
    requires Spans(l, |text|) && Disjoint(l)
    ensures forall ins :: ins in Between(l, text, color) ==> ins in l || IsGap(ins, text, color)
    decreases |l|
  {
    if |l| >= 2 {
      var tail := l[1..];
      DisjointTail(l);
      BetweenGaps(tail, text, color);
      var rest := Between(tail, text, color);
      assert l[0].end <= l[1].start;
      var gap := GapAfter(l[0], l[1], text, color);
      assert Between(l, text, color) == [l[0]] + gap + rest;
      GapAfterIsGap(l[0], l[1], text, color);
      forall ins | ins in Between(l, text, color)
        ensures ins in l || IsGap(ins, text, color)
      {
        if ins in rest && !IsGap(ins, text, color) {
          assert ins in tail;
        }
      }
    }
  }

  /** The gap between two instructions that do not overlap is a default-coloured piece of the text. */
  lemma {:induction false} GapAfterIsGap(a: Instruction, b: Instruction, text: string, color: nat)
    requires a.end <= b.start <= |text|
    ensures forall g :: g in GapAfter(a, b, text, color) ==> IsGap(g, text, color)
  {
  }

  lemma {:induction false} WithFrontTiles(m: seq<Instruction>, text: string, color: nat)
    requires |m| > 0 && m[0].start <= |text| && Adjacent(m)
    ensures var f := WithFront(m, text, color);
      && |f| > 0 && f[0].start == 0 && f[|f| - 1] == m[|m| - 1] && Adjacent(f)
      && (forall ins :: ins in f ==> ins in m || IsGap(ins, text, color))
      && (forall ins :: ins in m ==> ins in f)
  {
    var f := WithFront(m, text, color);
    if m[0].start != 0 {
      forall i | 0 <= i < |f| - 1
        ensures f[i].end == f[i + 1].start
      {
        if i > 0 {
          assert f[i] == m[i - 1] && f[i + 1] == m[i];
        }
      }
    }
  }

  lemma {:induction false} WithBackTiles(f: seq<Instruction>, text: string, color: nat)
    requires |text| < NPOS && |f| > 0 && f[|f| - 1].end <= |text| && Adjacent(f)
    ensures var r := WithBack(f, text, color);
      && |r| > 0 && r[0] == f[0] && r[|r| - 1].end == |text| && Adjacent(r)
      && (forall ins :: ins in r ==> ins in f || IsGap(ins, text, color))
      && (forall ins :: ins in f ==> ins in r)
  {
    var r := WithBack(f, text, color);
    if f[|f| - 1].end != |text| {
      var g := Instruction(f[|f| - 1].end, |text|, color, Substr(text, f[|f| - 1].end, NPOS));
      assert r == f + [g];
      assert IsGap(g, text, color);
      assert forall ins :: ins in r ==> ins in f || ins == g;
      forall i | 0 <= i < |r| - 1
        ensures r[i].end == r[i + 1].start
      {
        if i < |f| - 1 {
          assert r[i] == f[i] && r[i + 1] == f[i + 1];
        }
      }
    }
  }

  /**
   * With no two instructions overlapping, fillGaps tiles the whole text:
   * from position 0 to the end, each instruction starting where the previous
   * one ends, every instruction it adds being a default-coloured piece of
   * the text, and every original instruction kept.
   */
  lemma {:induction false} FillGapsTiles(l: seq<Instruction>, text: string, color: nat)
    requires |text| < NPOS && |l| > 0 && Spans(l, |text|) && Disjoint(l)
    ensures var r := FillGaps(l, text, color);
      && |r| > 0 && r[0].start == 0 && r[|r| - 1].end == |text| && Adjacent(r)
      && (forall ins :: ins in r ==> ins in l || IsGap(ins, text, color))
      && (forall ins :: ins in l ==> ins in r)
  {
    var m := Between(l, text, color);
    BetweenAdjacent(l, text, color);
    BetweenGaps(l, text, color);
    BetweenKeeps(l, text, color);
    WithFrontTiles(m, text, color);
    WithBackTiles(WithFront(m, text, color), text, color);
  }

  /*** New lines ***/

  const CRLF: string := "\r\n"

  /** newLineCommand: {npos, 0, 0, ""}. */
  const NewLine: Instruction := Instruction(NPOS, 0, 0, "")

  /**
   * accountForNewLines on one instruction: an instruction that is exactly
   * CR LF becomes the new-line command; one that contains CR LF is cut
   * before it, followed by the new-line command and by the rest, which is
   * looked at in turn.
   */
  function Split(x: Instruction): (r: seq<Instruction>)
    ensures |r| > 0
    decreases |x.text|
  {
    if x.text == CRLF then [NewLine]
    else match Find(x.text, CRLF, 0)
      case None => [x]
      case Some(p) => [Before(x, p), NewLine] + Split(After(x, p))
  }

  /** The part of `x` before a CR LF at `p`. */
  function Before(x: Instruction, p: nat): Instruction
    requires p + 2 <= |x.text|
  {
    Instruction(x.start, x.start + p, x.color, x.text[..p])
  }

  /** The part of `x` after a CR LF at `p`. */
  function After(x: Instruction, p: nat): (r: Instruction)
    requires p + 2 <= |x.text|
    ensures |r.text| < |x.text|
  {
    Instruction(x.start + p + 2, x.end, x.color, x.text[p + 2..])
  }

  /** How many times the new-line counter goes up for one instruction. */
  function SplitCount(x: Instruction): nat
    decreases |x.text|
  {
    if x.text == CRLF then 1
    else match Find(x.text, CRLF, 0)
      case None => 0
      case Some(p) => 1 + SplitCount(After(x, p))
  }

  function SplitAll(l: seq<Instruction>): seq<Instruction>
  {
    if l == [] then [] else Split(l[0]) + SplitAll(l[1..])
  }

  lemma {:induction false} SplitAllCons(x: Instruction, t: seq<Instruction>)
    ensures SplitAll([x] + t) == Split(x) + SplitAll(t)
  {
    assert ([x] + t)[0] == x && ([x] + t)[1..] == t;
  }

  lemma {:induction false} SplitAllLength(l: seq<Instruction>)
    ensures |SplitAll(l)| >= |l|
  {
    if l != [] {
      SplitAllLength(l[1..]);
    }
  }

  function CountAll(l: seq<Instruction>): nat
  {
    if l == [] then 0 else SplitCount(l[0]) + CountAll(l[1..])
  }

  lemma {:induction false} CountCons(x: Instruction, t: seq<Instruction>)
    ensures CountAll([x] + t) == SplitCount(x) + CountAll(t)
  {
    assert ([x] + t)[0] == x && ([x] + t)[1..] == t;
  }

  /** The text an instruction list stands for: the new-line command stands for CR LF. */
  function Render(l: seq<Instruction>): string
  {
    if l == [] then [] else (if l[0] == NewLine then CRLF else l[0].text) + Render(l[1..])
  }

  lemma {:induction false} RenderAppend(a: seq<Instruction>, b: seq<Instruction>)
    ensures Render(a + b) == Render(a) + Render(b)
    decreases |a|
  {
    if a != [] {
      assert (a + b)[0] == a[0] && (a + b)[1..] == a[1..] + b;
      RenderAppend(a[1..], b);
    } else {
      assert a + b == b;
    }
  }

  /** The new-line command has no text, so it is left as it is. */
  lemma {:induction false} SplitNewLine()
    ensures Split(NewLine) == [NewLine] && SplitCount(NewLine) == 0
  {
  }

  /** An instruction whose positions stay below npos is never the new-line command. */
  predicate Ordinary(x: Instruction) {
    x.start + |x.text| < NPOS
  }

  /** The text around a CR LF at `p` is the text before it, CR LF, and the text after it. */
  lemma {:induction false} CutJoins(x: Instruction, p: nat)
    requires p + 2 <= |x.text| && MatchAt(x.text, CRLF, p)
    ensures x.text == Before(x, p).text + CRLF + After(x, p).text
  {
    assert x.text == x.text[..p] + x.text[p..p + 2] + x.text[p + 2..];
  }

  lemma {:induction false} RenderCut(head: Instruction, tail: seq<Instruction>)
    requires head != NewLine
    ensures Render([head, NewLine] + tail) == head.text + CRLF + Render(tail)
  {
    RenderAppend([head, NewLine], tail);
    assert [head, NewLine][1..] == [NewLine];
  }

  /** Splitting at each CR LF loses no text: rendering the pieces gives the text back. */
  lemma {:induction false} SplitRenders(x: Instruction)
    requires Ordinary(x)
    ensures Render(Split(x)) == x.text
    decreases |x.text|
  {
    if x.text != CRLF && Find(x.text, CRLF, 0).Some? {
      var p := Find(x.text, CRLF, 0).value;
      var head, rest := Before(x, p), After(x, p);
      SplitRenders(rest);
      RenderCut(head, Split(rest));
      CutJoins(x, p);
    }
  }

  /** Every piece other than the new-line command is free of CR LF. */
  lemma {:induction false} SplitLeavesNoCRLF(x: Instruction)
    requires Ordinary(x)
    ensures forall y :: y in Split(x) ==> y == NewLine || !Contains(y.text, CRLF)
    decreases |x.text|
  {
    if x.text != CRLF && Find(x.text, CRLF, 0).Some? {
      var p := Find(x.text, CRLF, 0).value;
      var head, rest := Before(x, p), After(x, p);
      SplitLeavesNoCRLF(rest);
      forall i: nat
        ensures !MatchAt(head.text, CRLF, i)
      {
        MatchInSlice(x.text, CRLF, 0, p, i);
      }
      NotContains(head.text, CRLF);
      assert Split(x) == [head, NewLine] + Split(rest);
    }
  }

  /** The counter goes up once for each new-line command the split produces. */
  lemma {:induction false} SplitCountsNewLines(x: Instruction)
    requires Ordinary(x)
    ensures SplitCount(x) == multiset(Split(x))[NewLine]
    decreases |x.text|
  {
    if x.text != CRLF && Find(x.text, CRLF, 0).Some? {
      var p := Find(x.text, CRLF, 0).value;
      var head, rest := Before(x, p), After(x, p);
      SplitCountsNewLines(rest);
      assert head != NewLine;
      assert Split(x) == [head, NewLine] + Split(rest);
      assert SplitCount(x) == 1 + SplitCount(rest);
    } else if x.text != CRLF {
      assert x != NewLine;
    }
  }

  /** Whether accountForNewLines counts a new line at an instruction. */
  function Splits(x: Instruction): bool {
    x.text == CRLF || Find(x.text, CRLF, 0).Some?
  }

  /** One pass of the accountForNewLines loop at index `i`, in the vector operations the source uses. */
  function NewLinePass(s: seq<Instruction>, i: nat): seq<Instruction>
    requires i < |s|
  {
    var x := s[i];
    if x.text == CRLF then s[i := NewLine]
    else match Find(x.text, CRLF, 0)
      case None => s
      case Some(p) => InsertAt(InsertAt(s[i := Before(x, p)], i + 1, NewLine), i + 2, After(x, p))
  }

  lemma {:induction false} Halves(a: seq<Instruction>, b: seq<Instruction>)
    ensures (a + b)[..|a|] == a && (a + b)[|a|..] == b
  {
  }

  lemma {:induction false} DropOne(s: seq<Instruction>, i: nat)
    requires i < |s|
    ensures s[i..] == [s[i]] + s[i + 1..] && s[..i + 1] == s[..i] + [s[i]]
  {
  }

  lemma {:induction false} UpdateAt(s: seq<Instruction>, i: nat, y: Instruction)
    requires i < |s|
    ensures s[i := y] == (s[..i] + [y]) + s[i + 1..]
  {
  }

  lemma {:induction false} InsertTwo(s: seq<Instruction>, i: nat, b: Instruction, n: Instruction, a: Instruction)
    requires i < |s|
    ensures InsertAt(InsertAt(s[i := b], i + 1, n), i + 2, a) == (s[..i] + [b]) + ([n] + ([a] + s[i + 1..]))
  {
    var u := s[i := b];
    UpdateAt(s, i, b);
    var v := InsertAt(u, i + 1, n);
    assert u[..i + 1] == s[..i] + [b] && u[i + 1..] == s[i + 1..];
    assert v == (s[..i] + [b]) + [n] + s[i + 1..];
    assert v[..i + 2] == (s[..i] + [b]) + [n] && v[i + 2..] == s[i + 1..];
  }

  /**
   * One pass keeps the loop's invariant: everything before the next index
   * is final, and the rest, split, completes it; the new-line count goes up
   * by one exactly where a CR LF was split off.
   */
  lemma {:induction false} NewLinePassKeeps(s: seq<Instruction>, i: nat)
    requires i < |s|
    ensures var r := NewLinePass(s, i);
      && i < |r| && r[..i + 1] + SplitAll(r[i + 1..]) == s[..i] + SplitAll(s[i..])
      && CountAll(r[i + 1..]) + (if Splits(s[i]) then 1 else 0) == CountAll(s[i..])
  {
    if s[i].text == CRLF {
      KeepsAtCRLF(s, i);
    } else if Find(s[i].text, CRLF, 0).Some? {
      KeepsAtFound(s, i, Find(s[i].text, CRLF, 0).value);
    } else {
      KeepsAtNone(s, i);
    }
  }

  lemma {:induction false} KeepsAtCRLF(s: seq<Instruction>, i: nat)
    requires i < |s| && s[i].text == CRLF
    ensures var r := s[i := NewLine];
      && i < |r| && r[..i + 1] + SplitAll(r[i + 1..]) == s[..i] + SplitAll(s[i..])
      && CountAll(r[i + 1..]) + 1 == CountAll(s[i..])
  {
    DropOne(s, i);
    SplitAllCons(s[i], s[i + 1..]);
    CountCons(s[i], s[i + 1..]);
    PassAtCRLF(s, i);
  }

  lemma {:induction false} KeepsAtFound(s: seq<Instruction>, i: nat, p: nat)
    requires i < |s| && s[i].text != CRLF && Find(s[i].text, CRLF, 0) == Some(p)
    ensures var r := InsertAt(InsertAt(s[i := Before(s[i], p)], i + 1, NewLine), i + 2, After(s[i], p));
      && i < |r| && r[..i + 1] + SplitAll(r[i + 1..]) == s[..i] + SplitAll(s[i..])
      && CountAll(r[i + 1..]) + 1 == CountAll(s[i..])
  {
    DropOne(s, i);
    SplitAllCons(s[i], s[i + 1..]);
    CountCons(s[i], s[i + 1..]);
    PassAtFound(s, i, p);
  }

  lemma {:induction false} KeepsAtNone(s: seq<Instruction>, i: nat)
    requires i < |s| && s[i].text != CRLF && Find(s[i].text, CRLF, 0).None?
    ensures s[..i + 1] + SplitAll(s[i + 1..]) == s[..i] + SplitAll(s[i..])
    ensures CountAll(s[i + 1..]) == CountAll(s[i..])
  {
    DropOne(s, i);
    SplitAllCons(s[i], s[i + 1..]);
    CountCons(s[i], s[i + 1..]);
    SplitNone(s[i]);
    assert s[..i] + ([s[i]] + SplitAll(s[i + 1..])) == (s[..i] + [s[i]]) + SplitAll(s[i + 1..]);
  }


  lemma {:induction false} SplitNone(x: Instruction)
    requires x.text != CRLF && Find(x.text, CRLF, 0).None?
    ensures Split(x) == [x] && SplitCount(x) == 0
  {
  }

  /** The pass at an instruction that is exactly CR LF. */
  lemma {:induction false} PassAtCRLF(s: seq<Instruction>, i: nat)
    requires i < |s| && s[i].text == CRLF
    ensures var r := s[i := NewLine];
      && r[..i + 1] == s[..i] + Split(s[i]) && r[i + 1..] == s[i + 1..] && SplitCount(s[i]) == 1
  {
    UpdateAt(s, i, NewLine);
    Halves(s[..i] + [NewLine], s[i + 1..]);
  }

  /** The pass at an instruction holding CR LF at `p`: before, the new line, after. */
  lemma {:induction false} PassAtFound(s: seq<Instruction>, i: nat, p: nat)
    requires i < |s| && s[i].text != CRLF && Find(s[i].text, CRLF, 0) == Some(p)
    ensures var r := InsertAt(InsertAt(s[i := Before(s[i], p)], i + 1, NewLine), i + 2, After(s[i], p));
      && i < |r| && r[..i + 1] + SplitAll(r[i + 1..]) == s[..i] + (Split(s[i]) + SplitAll(s[i + 1..]))
      && CountAll(r[i + 1..]) + 1 == SplitCount(s[i]) + CountAll(s[i + 1..])
  {
    var x, t := s[i], s[i + 1..];
    var b, a := Before(x, p), After(x, p);
    InsertTwo(s, i, b, NewLine, a);
    Halves(s[..i] + [b], [NewLine] + ([a] + t));
    SplitAtFound(x, p);
    SplitTail(a, t);
    Reassociate(s[..i], b, Split(a), SplitAll(t));
  }

  lemma {:induction false} SplitAtFound(x: Instruction, p: nat)
    requires x.text != CRLF && Find(x.text, CRLF, 0) == Some(p)
    ensures Split(x) == [Before(x, p), NewLine] + Split(After(x, p))
    ensures SplitCount(x) == 1 + SplitCount(After(x, p))
  {
  }

  /** The rest of the vector after the first piece: the new-line command, then the text after the CR LF. */
  lemma {:induction false} SplitTail(a: Instruction, t: seq<Instruction>)
    ensures SplitAll([NewLine] + ([a] + t)) == [NewLine] + (Split(a) + SplitAll(t))
    ensures CountAll([NewLine] + ([a] + t)) == SplitCount(a) + CountAll(t)
  {
    SplitAllCons(NewLine, [a] + t);
    SplitAllCons(a, t);
    SplitNewLine();
    CountCons(NewLine, [a] + t);
    CountCons(a, t);
  }

  lemma {:induction false} Reassociate(u: seq<Instruction>, b: Instruction, sa: seq<Instruction>, st: seq<Instruction>)
    ensures (u + [b]) + ([NewLine] + (sa + st)) == u + (([b, NewLine] + sa) + st)
  {
  }

  /*** Pruning ***/

  /** An instruction pruneEmptyInstructions removes: no text, and not the new-line command's npos start. */
  predicate Empty(x: Instruction) {
    x.text == [] && x.start != NPOS
  }

  function Keep(l: seq<Instruction>): (r: seq<Instruction>)
    ensures |r| <= |l|
  {
    if l == [] then [] else (if Empty(l[0]) then [] else [l[0]]) + Keep(l[1..])
  }

  /** pruneEmptyInstructions keeps exactly the instructions that are not empty. */
  lemma {:induction false} KeepMembers(l: seq<Instruction>)
    ensures forall x :: x in Keep(l) <==> x in l && !Empty(x)
  {
    if l != [] {
      KeepMembers(l[1..]);
      assert forall x :: x in l <==> x == l[0] || x in l[1..];
    }
  }

  /** One turn of pruneEmptyInstructions' backward loop: instruction `i` is erased exactly when it is empty. */
  lemma {:induction false} PruneStep(l: seq<Instruction>, i: nat, cur: seq<Instruction>)
    requires i < |l| && cur == l[..i + 1] + Keep(l[i + 1..])
    ensures i < |cur| && cur[i] == l[i]
    ensures (if Empty(l[i]) then cur[..i] + cur[i + 1..] else cur) == l[..i] + Keep(l[i..])
  {
    assert l[i..] == [l[i]] + l[i + 1..];
    assert l[..i + 1] == l[..i] + [l[i]];
    if Empty(l[i]) {
      assert cur[..i] == l[..i];
      assert cur[i + 1..] == Keep(l[i + 1..]);
    }
  }

  /** Pruning twice prunes nothing more. */
  lemma {:induction false} KeepIdempotent(l: seq<Instruction>)
    ensures Keep(Keep(l)) == Keep(l)
  {
    if l != [] {
      KeepIdempotent(l[1..]);
      KeepAppend(if Empty(l[0]) then [] else [l[0]], Keep(l[1..]));
    }
  }

  lemma {:induction false} KeepAppend(a: seq<Instruction>, b: seq<Instruction>)
    ensures Keep(a + b) == Keep(a) + Keep(b)
    decreases |a|
  {
    if a != [] {
      var pre := if Empty(a[0]) then [] else [a[0]];
      assert (a + b)[0] == a[0] && (a + b)[1..] == a[1..] + b;
      assert Keep(a + b) == pre + Keep(a[1..] + b);
      KeepAppend(a[1..], b);
      assert pre + (Keep(a[1..]) + Keep(b)) == (pre + Keep(a[1..])) + Keep(b);
    } else {
      assert a + b == b;
    }
  }
}
