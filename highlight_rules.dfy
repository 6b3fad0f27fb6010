/**
 * The rules file of the syntax highlighter (SYNTAX.txt in a language's
 * directory): one rule per line, four fields separated by "\t|=|\t".
 */
module HighlightRules {
  import opened Wrappers
  import opened Text

  const RuleDelim: string := "\t|=|\t"

  /** {mode, param1, param2, color}; mode is KEY, DELIM or DEFAULT, anything else is ignored. */
  datatype Rule = Rule(mode: string, param1: string, param2: string, color: string)

  /** The colour names a rule may use, as COLORREF values (0x00BBGGRR). */
  function ColorOf(name: string): (c: Option<nat>)
    ensures c.Some? ==> c.value <= 0xFF_FFFF
    ensures name == "white" ==> c == Some(White)
  {
    if name == "red" then Some(0x00_00FF)
    else if name == "yellow" then Some(0x00_FFFF)
    else if name == "green" then Some(0x00_FF00)
    else if name == "cyan" then Some(0xFF_FF00)
    else if name == "blue" then Some(0xFF_0000)
    else if name == "magenta" then Some(0xFF_00FF)
    else if name == "white" then Some(White)
    else None
  }

  const White: nat := 0xFF_FFFF

  /** The lines std::getline yields: split on '\n'; a final '\n' adds no empty line. */
  function GetLines(s: string): seq<string>
    decreases |s|
  {
    if s == [] then []
    else match Find(s, "\n", 0)
      case None => [s]
      case Some(i) => [s[..i]] + GetLines(s[i + 1..])
  }

  /** Positions of the three delimiters of a line. */
  datatype Cuts = Cuts(d1: nat, d2: nat, d3: nat)

  /**
   * The three delimiter searches; each starts one character after the
   * previous delimiter (so consecutive delimiters may share a tab).
   */
  function Delims(l: string): (c: Option<Cuts>)
    ensures c.Some? ==> c.value.d1 + 5 <= |l| && c.value.d2 + 5 <= |l| && c.value.d3 + 5 <= |l|
    ensures c.Some? ==> MatchAt(l, RuleDelim, c.value.d1) && MatchAt(l, RuleDelim, c.value.d2) && MatchAt(l, RuleDelim, c.value.d3)
  {
    match Find(l, RuleDelim, 0)
    case None => None
    case Some(d1) =>
      match Find(l, RuleDelim, d1 + 1)
      case None => None
      case Some(d2) =>
        match Find(l, RuleDelim, d2 + 1)
        case None => None
        case Some(d3) => Some(Cuts(d1, d2, d3))
  }

  /** The four fields; the lengths of the two parameters are size_t differences. */
  function Fields(l: string, c: Cuts): Rule
    requires c.d1 + 5 <= |l| && c.d2 + 5 <= |l| && c.d3 + 5 <= |l|
  {
    var n := |RuleDelim|;
    Rule(l[..c.d1], Substr(l, c.d1 + n, SizeSub(c.d2, c.d1 + n)), Substr(l, c.d2 + n, SizeSub(c.d3, c.d2 + n)), l[c.d3 + n..])
  }

  /** One trailing '\r' is removed from a non-empty line. */
  function StripCR(line: string): (l: string)
    requires line != []
    ensures l <= line && |line| - 1 <= |l|
  {
    if line[|line| - 1] == '\r' then line[..|line| - 1] else line
  }

  /** One non-empty line of the file: the rule it holds, or None when it has fewer than three delimiters. */
  function ParseRuleLine(line: string): (r: Option<Rule>)
    requires line != []
  {
    var l := StripCR(line);
    match Delims(l)
    case None => None
    case Some(c) => Some(Fields(l, c))
  }

  /** A line without the delimiter is skipped. */
  lemma {:induction false} NoDelimSkipped(line: string)
    requires line != [] && !Contains(line, RuleDelim)
    ensures ParseRuleLine(line).None?
  {
    var l := StripCR(line);
    if Find(l, RuleDelim, 0).Some? {
      var i := Find(l, RuleDelim, 0).value;
      assert line[i..i + |RuleDelim|] == l[i..i + |RuleDelim|];
      ContainsAt(line, RuleDelim, i);
    }
  }

  /** Every line of the file in order; an empty line makes line.at(length - 1) throw (None). */
  function RulesOf(lines: seq<string>): Option<seq<Rule>>
    decreases |lines|
  {
    if lines == [] then Some([])
    else if lines[0] == [] then None
    else match RulesOf(lines[1..])
      case None => None
      case Some(rest) => Some((match ParseRuleLine(lines[0]) case None => [] case Some(r) => [r]) + rest)
  }

  /** What opening the rules file gives: it is created empty when missing. */
  datatype RulesFile = CannotOpen | CannotRead | Contents(data: string)

  /**
   * LoadRules: `throw 0` / `throw 1` are caught by the constructor; the
   * out_of_range of an empty line escapes a noexcept constructor and ends
   * the program.
   */
  datatype LoadOutcome = Loaded(rules: seq<Rule>) | Thrown(code: nat) | Terminated

  function LoadOutcomeOf(file: RulesFile): LoadOutcome {
    match file
    case CannotOpen => Thrown(0)
    case CannotRead => Thrown(1)
    case Contents(data) =>
      match RulesOf(GetLines(data))
      case None => Terminated
      case Some(rs) => Loaded(rs)
  }

  /*** Writing a rules file, and reading it back ***/

  function RuleText(r: Rule): string {
    r.mode + RuleDelim + r.param1 + RuleDelim + r.param2 + RuleDelim + r.color
  }

  function RulesText(rs: seq<Rule>): string
    decreases |rs|
  {
    if rs == [] then [] else RuleText(rs[0]) + "\n" + RulesText(rs[1..])
  }

  /**
   * A rule its line can carry: no field holds a tab or a newline, no
   * parameter is "|=|" (which would join with its neighbours' tabs into a
   * delimiter), and the colour does not end in '\r'.
   */
  predicate Writable(r: Rule) {
    && '\t' !in r.mode && '\t' !in r.param1 && '\t' !in r.param2 && '\t' !in r.color
    && '\n' !in r.mode && '\n' !in r.param1 && '\n' !in r.param2 && '\n' !in r.color
    && r.param1 != "|=|" && r.param2 != "|=|"
    && (r.color == [] || r.color[|r.color| - 1] != '\r')
  }

  lemma {:induction false} NotDelimAt(l: string, j: nat, k: nat)
    requires j + 5 <= |l| && k < 5 && l[j + k] != RuleDelim[k]
    ensures !MatchAt(l, RuleDelim, j)
  {
    assert l[j..j + 5][k] == l[j + k];
  }

  lemma {:induction false} FirstDelim(l: string, x: string, y: string)
    requires l == x + RuleDelim + y && '\t' !in x
    ensures Find(l, RuleDelim, 0) == Some(|x|)
  {
    assert l[|x|..|x| + 5] == RuleDelim;
    forall j: nat | j < |x|
      ensures !MatchAt(l, RuleDelim, j)
    {
      assert l[j] == x[j];
      NotDelimAt(l, j, 0);
    }
    FindIs(l, RuleDelim, 0, |x|);
  }

  lemma {:induction false} NextDelim(l: string, x: string, p: string, y: string, k: nat, v: nat)
    requires l == x + RuleDelim + p + RuleDelim + y && '\t' !in p && p != "|=|" && k == |x| && v == k + 5 + |p|
    ensures Find(l, RuleDelim, k + 1) == Some(v)
  {
    assert l[v..v + 5] == RuleDelim;
    forall j: nat | |x| + 1 <= j < v
      ensures !MatchAt(l, RuleDelim, j)
    {
      if j < |x| + 4 {
        assert l[j] == RuleDelim[j - |x|];
        NotDelimAt(l, j, 0);
      } else if j == |x| + 4 {
        if |p| >= 4 {
          assert l[j + 4] == p[3];
          NotDelimAt(l, j, 4);
        } else if |p| == 3 {
          var k :| 0 <= k < 3 && p[k] != "|=|"[k];
          assert l[j + 1 + k] == p[k];
          NotDelimAt(l, j, k + 1);
        } else {
          assert l[j + 1 + |p|] == RuleDelim[0];
          NotDelimAt(l, j, 1 + |p|);
        }
      } else {
        assert l[j] == p[j - |x| - 5];
        NotDelimAt(l, j, 0);
      }
    }
    FindIs(l, RuleDelim, |x| + 1, v);
  }

  lemma {:induction false} RuleTextSlices(r: Rule)
    ensures var l, a := RuleText(r), |r.mode|;
      var b := a + 5 + |r.param1|;
      var c := b + 5 + |r.param2|;
      && |l| == c + 5 + |r.color|
      && l[..a] == r.mode && l[a + 5..b] == r.param1 && l[b + 5..c] == r.param2 && l[c + 5..] == r.color
  {
  }

  lemma {:induction false} RuleTextEnd(r: Rule)
    requires r.color == [] || r.color[|r.color| - 1] != '\r'
    ensures RuleText(r) != [] && RuleText(r)[|RuleText(r)| - 1] != '\r'
  {
    var l := RuleText(r);
    if r.color == [] {
      assert l[|l| - 1] == RuleDelim[4];
    } else {
      assert l[|l| - 1] == r.color[|r.color| - 1];
    }
  }

  lemma {:induction false} ParseRuleLineIs(line: string, c: Cuts)
    requires line != [] && line[|line| - 1] != '\r' && Delims(line) == Some(c)
    ensures ParseRuleLine(line) == Some(Fields(line, c))
  {
  }

  lemma {:induction false} FieldsOfRuleText(r: Rule, c: Cuts)
    requires c.d1 == |r.mode| && c.d2 == c.d1 + 5 + |r.param1| && c.d3 == c.d2 + 5 + |r.param2|
    ensures c.d3 + 5 <= |RuleText(r)| && Fields(RuleText(r), c) == r
  {
    RuleTextSlices(r);
  }

  lemma {:induction false} DelimsAt(l: string, d1: nat, d2: nat, d3: nat)
    requires Find(l, RuleDelim, 0) == Some(d1)
    requires Find(l, RuleDelim, d1 + 1) == Some(d2)
    requires Find(l, RuleDelim, d2 + 1) == Some(d3)
    ensures Delims(l) == Some(Cuts(d1, d2, d3))
  {
  }

  lemma {:induction false} RuleTextShapes(r: Rule)
    ensures RuleText(r) == r.mode + RuleDelim + (r.param1 + RuleDelim + r.param2 + RuleDelim + r.color)
    ensures RuleText(r) == r.mode + RuleDelim + r.param1 + RuleDelim + (r.param2 + RuleDelim + r.color)
    ensures RuleText(r) == (r.mode + RuleDelim + r.param1) + RuleDelim + r.param2 + RuleDelim + r.color
  {
  }

  /** A line written from a rule reads back as that rule. */
  lemma {:induction false} RuleLineRoundTrip(r: Rule)
    requires Writable(r)
    ensures RuleText(r) != [] && ParseRuleLine(RuleText(r)) == Some(r)
  {
    var l := RuleText(r);
    RuleTextEnd(r);
    var a := |r.mode|;
    var b := a + 5 + |r.param1|;
    var c := b + 5 + |r.param2|;
    RuleTextShapes(r);
    FirstDelim(l, r.mode, r.param1 + RuleDelim + r.param2 + RuleDelim + r.color);
    NextDelim(l, r.mode, r.param1, r.param2 + RuleDelim + r.color, a, b);
    NextDelim(l, r.mode + RuleDelim + r.param1, r.param2, r.color, b, c);
    DelimsAt(l, a, b, c);
    FieldsOfRuleText(r, Cuts(a, b, c));
    ParseRuleLineIs(l, Cuts(a, b, c));
  }

  lemma {:induction false} NewlineAt(x: string, y: string)
    requires '\n' !in x
    ensures Find(x + "\n" + y, "\n", 0) == Some(|x|)
  {
    var l := x + "\n" + y;
    assert l[|x|..|x| + 1] == "\n";
    forall j: nat | j < |x|
      ensures !MatchAt(l, "\n", j)
    {
      assert l[j..j + 1][0] == x[j];
    }
    FindIs(l, "\n", 0, |x|);
  }

  /** A file written from writable rules, one per line, loads as exactly those rules. */
  lemma {:induction false} RulesFileRoundTrip(rs: seq<Rule>)
    requires forall r :: r in rs ==> Writable(r)
    ensures LoadOutcomeOf(Contents(RulesText(rs))) == Loaded(rs)
    decreases |rs|
  {
    LinesOfRulesText(rs);
    RulesOfRuleTexts(rs);
  }

  function RuleTexts(rs: seq<Rule>): (ls: seq<string>)
    ensures |ls| == |rs|
    decreases |rs|
  {
    if rs == [] then [] else [RuleText(rs[0])] + RuleTexts(rs[1..])
  }

  lemma {:induction false} LinesOfRulesText(rs: seq<Rule>)
    requires forall r :: r in rs ==> Writable(r)
    ensures GetLines(RulesText(rs)) == RuleTexts(rs)
    decreases |rs|
  {
    if rs != [] {
      var l, rest := RuleText(rs[0]), RulesText(rs[1..]);
      assert rs[0] in rs;
      assert '\n' !in l by {
        var r := rs[0];
        assert '\n' !in RuleDelim;
        assert l == r.mode + RuleDelim + r.param1 + RuleDelim + r.param2 + RuleDelim + r.color;
      }
      NewlineAt(l, rest);
      var s := l + "\n" + rest;
      assert s[..|l|] == l && s[|l| + 1..] == rest;
      LinesOfRulesText(rs[1..]);
    }
  }

  lemma {:induction false} RulesOfRuleTexts(rs: seq<Rule>)
    requires forall r :: r in rs ==> Writable(r)
    ensures RulesOf(RuleTexts(rs)) == Some(rs)
  {
    var ls := RuleTexts(rs);
    forall i | 0 <= i < |rs|
      ensures ls[i] != [] && ParseRuleLine(ls[i]) == Some(rs[i])
    {
      RuleTextsAt(rs, i);
      assert rs[i] in rs;
      RuleLineRoundTrip(rs[i]);
    }
    RulesOfEach(ls, rs);
  }

  lemma {:induction false} RuleTextsAt(rs: seq<Rule>, i: nat)
    requires i < |rs|
    ensures RuleTexts(rs)[i] == RuleText(rs[i])
    decreases i
  {
    if i > 0 {
      RuleTextsAt(rs[1..], i - 1);
    }
  }

  /** Lines that are each non-empty and each hold one rule yield those rules in order. */
  lemma {:induction false} RulesOfEach(ls: seq<string>, rs: seq<Rule>)
    requires |ls| == |rs|
    requires forall i :: 0 <= i < |ls| ==> ls[i] != [] && ParseRuleLine(ls[i]) == Some(rs[i])
    ensures RulesOf(ls) == Some(rs)
    decreases |ls|
  {
    if ls != [] {
      RulesOfEach(ls[1..], rs[1..]);
      assert [rs[0]] + rs[1..] == rs;
    }
  }

  /** An empty line anywhere ends the program, whatever the other lines hold. */
  lemma {:induction false} EmptyLineTerminates(lines: seq<string>, k: nat)
    requires k < |lines| && lines[k] == []
    ensures RulesOf(lines).None?
    decreases k
  {
    if k > 0 {
      EmptyLineTerminates(lines[1..], k - 1);
    }
  }
}
