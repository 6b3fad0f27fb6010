/**
 * The SyntaxHighlighter object: it loads the rules of a language, applies
 * them one after another to a working copy of the code, and turns what they
 * record into the list of drawing instructions, counting the new lines.
 */
module Highlighter {
  import opened Wrappers
  import opened Text
  import opened HighlightRules
  import opened HighlightScan
  import opened HighlightPost

  /** unsigned int, which numNewLines is. */
  const U32: nat := 0x1_0000_0000

  /** numNewLines++ on an unsigned int. */
  function Inc32(n: nat): (r: nat)
    requires n < U32
    ensures r < U32
  {
    if n + 1 == U32 then 0 else n + 1
  }

  /** The counter that started at `base` after `done` increments. */
  function Counted(base: nat, done: nat): (r: nat)
    requires base < U32
    ensures r < U32
  {
    if done == 0 then base else Inc32(Counted(base, done - 1))
  }

  /** Incrementing an unsigned 32-bit counter `done` times wraps the untruncated sum. */
  lemma {:induction false} CountedWraps(base: nat, done: nat)
    requires base < U32
    ensures Counted(base, done) == (base + done) % U32
  {
    if done == 0 {
      assert (base + done) % U32 == base;
    } else {
      CountedWraps(base, done - 1);
      CountedStep(base, done - 1);
    }
  }

  lemma {:induction false} CountedStep(base: nat, d: nat)
    requires base < U32 && Counted(base, d) == (base + d) % U32
    ensures Counted(base, d + 1) == (base + d + 1) % U32
  {
    var n := base + d;
    assert Counted(base, d + 1) == Inc32(n % U32);
    Inc32Wraps(n);
  }

  lemma {:induction false} Inc32Wraps(n: nat)
    ensures Inc32(n % U32) == (n + 1) % U32
  {
  }

  /** COLORREF(-1): the default colour argument that asks for white. */
  const AskWhite: nat := 0xFFFF_FFFF

  /** What generateHighlightingInstructions carries from rule to rule. */
  datatype Pass = Pass(raw: string, found: seq<Instruction>, defaultColor: nat)

  /**
   * The rules the model covers: a KEY keyword that is non-empty and holds no
   * NUL, and DELIM delimiters that are both non-empty. Outside these the loop
   * may run forever: an empty keyword is found at position 0 of a non-empty
   * text on every pass, a keyword of NULs is found again in the blanked copy,
   * and an empty closing delimiter after an opening that ends in a single
   * backslash is escaped at the same position again and again. Some such
   * rules do end (an empty keyword on an empty text, an empty opening
   * delimiter when the closing one never occurs); they are left out too.
   */
  predicate Terminating(r: Rule) {
    && (r.mode == "KEY" ==> r.param1 != [] && NUL !in r.param1)
    && (r.mode == "DELIM" ==> r.param1 != [] && r.param2 != [])
  }

  predicate AllTerminating(rs: seq<Rule>) {
    forall i :: 0 <= i < |rs| ==> Terminating(rs[i])
  }

  /**
   * One rule of generateHighlightingInstructions. KEY and DELIM append to
   * the instructions and blank the working copy; DEFAULT changes the default
   * colour; any other mode is ignored. None: colorMap.at threw out_of_range,
   * which ends the program.
   */
  function ApplyRule(p: Pass, r: Rule): (q: Option<Pass>)
    requires Terminating(r)
    ensures r.mode != "KEY" && r.mode != "DELIM" && r.mode != "DEFAULT" ==> q == Some(p)
    ensures q.None? ==> ColorOf(r.color).None?
    ensures r.mode == "DEFAULT" ==> q == (if ColorOf(r.color).None? then None else Some(p.(defaultColor := ColorOf(r.color).value)))
    ensures r.mode == "KEY" ==> (q.None? <==> ColorOf(r.color).None? && |p.raw| > |r.param1| && Contains(p.raw, r.param1))
    ensures q.Some? && r.mode != "DEFAULT" ==> q.value.defaultColor == p.defaultColor
  {
    if r.mode == "KEY" then
      match KeyScan(p.raw, r.param1, ColorOf(r.color), p.found)
      case None => None
      case Some(s) => Some(Pass(s.raw, s.found, p.defaultColor))
    else if r.mode == "DELIM" then
      match DelimScan(p.raw, r.param1, r.param2, ColorOf(r.color), 0, p.found)
      case None => None
      case Some(s) => Some(Pass(s.raw, s.found, p.defaultColor))
    else if r.mode == "DEFAULT" then
      match ColorOf(r.color)
      case None => None
      case Some(c) => Some(p.(defaultColor := c))
    else Some(p)
  }

  /** The rules in file order; None when one of them ends the program. */
  function ApplyRules(p: Pass, rs: seq<Rule>): Option<Pass>
    requires AllTerminating(rs)
    decreases |rs|
  {
    if rs == [] then Some(p)
    else match ApplyRule(p, rs[0])
      case None => None
      case Some(q) => ApplyRules(q, rs[1..])
  }

  /**
   * What every pass keeps about the text: the working copy is the text with
   * some characters blanked, and every instruction so far runs forwards
   * inside the text over blanked characters.
   */
  ghost predicate Sound(p: Pass, text: string) {
    && Agrees(p.raw, text)
    && Spans(p.found, |text|)
    && Blanked(p.raw, p.found)
  }

  lemma {:induction false} BlankedKept(raw: string, r: string, found: seq<Instruction>)
    requires Agrees(r, raw) && Blanked(raw, found)
    ensures Blanked(r, found)
  {
    forall ins, k | ins in found && ins.start <= k < ins.end
      ensures r[k] == NUL
    {
      assert raw[k] == NUL;
    }
  }

  lemma {:induction false} SpansAppend(a: seq<Instruction>, b: seq<Instruction>, n: nat)
    requires Spans(a, n) && Spans(b, n)
    ensures Spans(a + b, n)
  {
    forall i | 0 <= i < |a + b|
      ensures (a + b)[i].start <= (a + b)[i].end <= n
    {
      if i >= |a| {
        assert (a + b)[i] == b[i - |a|];
      }
    }
  }

  /** What a scan appended, together with what came before it. */
  lemma {:induction false} ScanKeeps(p: Pass, text: string, s: Scan)
    requires Sound(p, text) && Extends(s, p.found) && Agrees(s.raw, p.raw)
    requires Blanked(s.raw, Added(s, p.found).found)
    requires forall ins :: ins in Added(s, p.found).found ==> ins.start <= ins.end
    ensures Sound(Pass(s.raw, s.found, p.defaultColor), text)
  {
    var added := Added(s, p.found).found;
    AgreesTrans(s.raw, p.raw, text);
    BlankedKept(p.raw, s.raw, p.found);
    assert s.found == p.found + added;
    forall i | 0 <= i < |added|
      ensures added[i].start <= added[i].end <= |text|
    {
      assert added[i] in added;
    }
    SpansAppend(p.found, added, |text|);
    BlankedAppend(s.raw, p.found, added);
  }

  lemma {:induction false} BlankedAppend(r: string, a: seq<Instruction>, b: seq<Instruction>)
    requires Blanked(r, a) && Blanked(r, b)
    ensures Blanked(r, a + b)
  {
  }

  /** Every rule keeps the pass sound. */
  lemma {:induction false} ApplyRuleSound(p: Pass, r: Rule, text: string)
    requires Terminating(r) && Sound(p, text) && ApplyRule(p, r).Some?
    ensures Sound(ApplyRule(p, r).value, text)
  {
    if r.mode == "KEY" {
      var s := KeyScan(p.raw, r.param1, ColorOf(r.color), p.found).value;
      var added := Added(s, p.found).found;
      forall ins | ins in added
        ensures ins.start <= ins.end
      {
        assert ins.end == ins.start + |r.param1|;
      }
      ScanKeeps(p, text, s);
    } else if r.mode == "DELIM" {
      var s := DelimScan(p.raw, r.param1, r.param2, ColorOf(r.color), 0, p.found).value;
      ScanKeeps(p, text, s);
    }
  }

  /**
   * Whatever the rules, each instruction they record runs forwards inside
   * the text, which is what fillGaps needs of them.
   */
  lemma {:induction false} ApplyRulesSound(p: Pass, rs: seq<Rule>, text: string)
    requires AllTerminating(rs) && Sound(p, text) && ApplyRules(p, rs).Some?
    ensures Sound(ApplyRules(p, rs).value, text)
    decreases |rs|
  {
    if rs != [] {
      ApplyRuleSound(p, rs[0], text);
      ApplyRulesSound(ApplyRule(p, rs[0]).value, rs[1..], text);
    }
  }

  /** ApplyRules goes one rule at a time. */
  lemma {:induction false} ApplyRulesStep(p: Pass, rs: seq<Rule>, i: nat)
    requires AllTerminating(rs) && i < |rs|
    ensures ApplyRules(p, rs[i..]) == (match ApplyRule(p, rs[i]) case None => None case Some(q) => ApplyRules(q, rs[i + 1..]))
  {
    assert rs[i..][0] == rs[i] && rs[i..][1..] == rs[i + 1..];
  }

  /** The start of a pass over the code: nothing blanked, nothing recorded. */
  lemma {:induction false} StartSound(text: string, color: nat)
    ensures Sound(Pass(text, [], color), text)
  {
  }

  lemma {:induction false} SortSpans(l: seq<Instruction>, n: nat)
    requires Spans(l, n)
    ensures Spans(SortByStart(l), n)
  {
    var r := SortByStart(l);
    SortByStartSorts(l);
    forall i | 0 <= i < |r|
      ensures r[i].start <= r[i].end <= n
    {
      assert r[i] in multiset(l);
    }
  }

  /** What generateHighlightingInstructions leaves: the instructions, the default colour and the new lines counted. */
  datatype Outcome = Outcome(instructions: seq<Instruction>, defaultColor: nat, newLines: nat)

  /**
   * generateHighlightingInstructions on the code `text` from the default
   * colour `color`: the rules in order, then sortInstructions, fillGaps,
   * accountForNewLines and pruneEmptyInstructions. None: a rule ended the
   * program.
   */
  function Highlight(text: string, rs: seq<Rule>, color: nat): (r: Option<Outcome>)
    requires AllTerminating(rs)
    ensures r.None? <==> ApplyRules(Pass(text, [], color), rs).None?
    ensures r.Some? ==> r.value.defaultColor == ApplyRules(Pass(text, [], color), rs).value.defaultColor
  {
    match ApplyRules(Pass(text, [], color), rs)
    case None => None
    case Some(q) =>
      StartSound(text, color);
      ApplyRulesSound(Pass(text, [], color), rs, text);
      Some(Finish(q.found, text, q.defaultColor))
  }

  /** The steps after the rules: sort, fill the gaps, split at new lines, prune. */
  function Finish(found: seq<Instruction>, text: string, color: nat): (o: Outcome)
    requires Spans(found, |text|)
  {
    SortSpans(found, |text|);
    var filled := HighlightPost.FillGaps(SortByStart(found), text, color);
    Outcome(Keep(SplitAll(filled)), color, CountAll(filled))
  }

  /** When every rule goes through, the outcome is the post-processing of what they recorded. */
  lemma {:induction false} HighlightSome(text: string, rs: seq<Rule>, color: nat)
    requires AllTerminating(rs) && ApplyRules(Pass(text, [], color), rs).Some?
    ensures var p := ApplyRules(Pass(text, [], color), rs).value;
      && Spans(p.found, |text|)
      && Highlight(text, rs, color) == Some(Finish(p.found, text, p.defaultColor))
  {
    StartSound(text, color);
    ApplyRulesSound(Pass(text, [], color), rs, text);
  }

  class SyntaxHighlighter {
    const language: string
    const langID: string
    const plainText: string
    var defaultColor: nat
    var rules: seq<Rule>
    var instructions: seq<Instruction>
    var numNewLines: nat
    /** The error number of an int exception the constructor caught and reported. */
    var reported: Option<nat>
    /** std::terminate was called: an exception other than int left the noexcept constructor. */
    var terminated: bool

    /**
     * The state generateHighlightingInstructions leaves for the outcome `o`,
     * from a new-line count `base`: terminated when a rule ended the program,
     * otherwise the outcome's default colour, instructions and new lines
     * (added to `base` in 32 bits).
     */
    ghost predicate Holds(o: Option<Outcome>, base: nat)
      reads this
    {
      match o
      case None => terminated
      case Some(x) =>
        && !terminated && defaultColor == x.defaultColor
        && instructions == x.instructions && numNewLines == (base + x.newLines) % U32
    }

    /**
     * The constructor: the default colour (white for COLORREF(-1)), then the
     * rules file, then the instructions. An int thrown while loading is
     * reported and leaves no instructions.
     */
    constructor (language: string, langID: string, plainText: string, defColor: nat, file: RulesFile)
      requires LoadOutcomeOf(file).Loaded? ==> AllTerminating(LoadOutcomeOf(file).rules)
      ensures this.language == language && this.langID == langID && this.plainText == plainText
      ensures reported == (if LoadOutcomeOf(file).Thrown? then Some(LoadOutcomeOf(file).code) else None)
      ensures rules == (if LoadOutcomeOf(file).Loaded? then LoadOutcomeOf(file).rules else [])
      ensures var color := if defColor == AskWhite then White else defColor;
        if LoadOutcomeOf(file).Loaded? then Holds(Highlight(plainText, rules, color), 0)
        else
          && instructions == [] && numNewLines == 0 && defaultColor == color
          && (terminated <==> LoadOutcomeOf(file).Terminated?)
    {
      this.language := language;
      this.langID := langID;
      this.plainText := plainText;
      defaultColor := if defColor == AskWhite then White else defColor;
      rules := [];
      instructions := [];
      numNewLines := 0;
      reported := None;
      terminated := false;
      new;
      var outcome := LoadOutcomeOf(file);
      match outcome
      case Thrown(code) =>
        reported := Some(code);
      case Terminated =>
        terminated := true;
      case Loaded(rs) =>
        rules := rs;
        Generate();
    }

    /**
     * generateHighlightingInstructions: every rule in turn on a working
     * copy of the code, then sort, fill the gaps, split at new lines and
     * prune.
     */
    method Generate()
      requires AllTerminating(rules) && instructions == [] && !terminated && numNewLines < U32
      modifies this`defaultColor, this`instructions, this`numNewLines, this`terminated
      ensures Holds(Highlight(plainText, rules, old(defaultColor)), old(numNewLines))
    {
      var r := RunRules();
      if r.None? {
        terminated := true;
        return;
      }
      var p := r.value;
      HighlightSome(plainText, rules, defaultColor);
      defaultColor := p.defaultColor;
      instructions := p.found;
      PostProcess();
    }

    /** sortInstructions, fillGaps, accountForNewLines and pruneEmptyInstructions in turn. */
    method PostProcess()
      requires Spans(instructions, |plainText|) && numNewLines < U32
      modifies this`instructions, this`numNewLines
      ensures instructions == Finish(old(instructions), plainText, defaultColor).instructions
      ensures numNewLines == (old(numNewLines) + Finish(old(instructions), plainText, defaultColor).newLines) % U32
    {
      SortSpans(instructions, |plainText|);
      instructions := SortByStart(instructions);
      FillGaps();
      AccountForNewLines();
      PruneEmptyInstructions();
    }

    /** The loop over the rules of generateHighlightingInstructions, on a working copy of the code. */
    method RunRules() returns (r: Option<Pass>)
      requires AllTerminating(rules)
      ensures r == ApplyRules(Pass(plainText, [], defaultColor), rules)
    {
      var p := Pass(plainText, [], defaultColor);
      for i := 0 to |rules|
        invariant ApplyRules(Pass(plainText, [], defaultColor), rules) == ApplyRules(p, rules[i..])
      {
        ApplyRulesStep(p, rules, i);
        var q := ApplyRule(p, rules[i]);
        if q.None? {
          return None;
        }
        p := q.value;
      }
      assert rules[|rules|..] == [];
      return Some(p);
    }

    /** fillGaps: default-coloured instructions between, before and after the sorted ones. */
    method FillGaps()
      requires Spans(instructions, |plainText|)
      modifies this`instructions
      ensures instructions == HighlightPost.FillGaps(old(instructions), plainText, defaultColor)
    {
      FillGapsBetween();
      var firstStart := if |instructions| > 0 then instructions[0].start else 0;
      if firstStart != 0 {
        instructions := [Instruction(0, firstStart, defaultColor, Substr(plainText, 0, firstStart))] + instructions;
      }
      var lastEnd := if |instructions| > 0 then instructions[|instructions| - 1].end else |plainText|;
      if lastEnd != |plainText| {
        instructions := instructions + [Instruction(lastEnd, |plainText|, defaultColor, Substr(plainText, lastEnd, NPOS))];
      }
    }

    /** The backward loop of fillGaps: a gap wherever an instruction does not meet the next one. */
    method FillGapsBetween()
      requires Spans(instructions, |plainText|)
      modifies this`instructions
      ensures instructions == Between(old(instructions), plainText, defaultColor)
    {
      ghost var l := instructions;
      var index: int := |instructions| - 2;
      while index >= 0
        invariant -2 <= index <= |l| - 2
        invariant index == -2 ==> l == [] && instructions == []
        invariant index >= -1 ==> instructions == BackLoop(l, index, plainText, defaultColor)
        decreases index
      {
        assert instructions[index] == l[index] && instructions[index + 1] == l[index + 1] by {
          assert instructions[..index + 2][index] == instructions[index];
          assert instructions[..index + 2][index + 1] == instructions[index + 1];
        }
        var endFirst := instructions[index].end;
        var startSecond := instructions[index + 1].start;
        if endFirst != startSecond {
          var gap := Instruction(endFirst, startSecond, defaultColor, Substr(plainText, endFirst, SizeSub(startSecond, endFirst)));
          instructions := InsertAt(instructions, index + 1, gap);
        }
        index := index - 1;
      }
      if l != [] {
        BackLoopBuildsBetween(l, -1, plainText, defaultColor);
        assert l[..0] == [] && l[0..] == l;
      }
    }

    /** accountForNewLines: each CR LF becomes a new-line command, counted in numNewLines. */
    method AccountForNewLines()
      requires numNewLines < U32
      modifies this`instructions, this`numNewLines
      ensures instructions == SplitAll(old(instructions))
      ensures numNewLines == (old(numNewLines) + CountAll(old(instructions))) % U32
    {
      ghost var l := instructions;
      ghost var base: nat := numNewLines;
      ghost var done: nat := 0;
      var index := 0;
      while index < |instructions|
        invariant index <= |instructions|
        invariant instructions[..index] + SplitAll(instructions[index..]) == SplitAll(l)
        invariant done + CountAll(instructions[index..]) == CountAll(l)
        invariant numNewLines == Counted(base, done)
        decreases |SplitAll(l)| - index
      {
        ghost var s := instructions;
        NewLinePassKeeps(s, index);
        SplitAllLength(s[index..]);
        assert |s[..index]| == index;
        var counted := SplitNewLineAt(index);
        if counted {
          numNewLines := Inc32(numNewLines);
          done := done + 1;
        }
        index := index + 1;
      }
      assert instructions[index..] == [] && instructions[..index] == instructions;
      CountedWraps(base, done);
    }

    /** The body of accountForNewLines' loop at `index`, but for the count: whether it counted a new line. */
    method SplitNewLineAt(index: nat) returns (counted: bool)
      requires index < |instructions|
      modifies this`instructions
      ensures instructions == NewLinePass(old(instructions), index)
      ensures counted == Splits(old(instructions)[index])
    {
      var x := instructions[index];
      var found := Find(x.text, CRLF, 0);
      counted := true;
      if x.text == CRLF {
        instructions := instructions[index := NewLine];
      } else if found.Some? {
        var p := found.value;
        instructions := instructions[index := Before(x, p)];
        instructions := InsertAt(instructions, index + 1, NewLine);
        instructions := InsertAt(instructions, index + 2, After(x, p));
      } else {
        counted := false;
      }
    }

    /** pruneEmptyInstructions: from the back, erase each empty instruction that is not a new-line command. */
    method PruneEmptyInstructions()
      modifies this`instructions
      ensures instructions == Keep(old(instructions))
    {
      ghost var l := instructions;
      var index: int := |instructions| - 1;
      while index >= 0
        invariant -1 <= index < |l|
        invariant instructions == l[..index + 1] + Keep(l[index + 1..])
        decreases index
      {
        PruneStep(l, index, instructions);
        if instructions[index].text == [] && instructions[index].start != NPOS {
          instructions := instructions[..index] + instructions[index + 1..];
        }
        index := index - 1;
      }
      assert l[..0] == [] && l[0..] == l;
    }
  }
}
