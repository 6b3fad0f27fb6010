/**
 * The lesson-file parser: the file text is split into lines at "\r\n", and
 * the lines are walked recursively, each line handed to the first keyword
 * handler whose keyword it contains. The handlers fill in a LessonData record.
 */
module LessonParser {
  import opened Wrappers
  import opened Text

  const CRLF: string := "\r\n"

  datatype Keyword = TITLE | LBOX | SCBOX | BIGBOX | CCBUTTON

  function KeywordText(k: Keyword): string {
    match k
    case TITLE => "TITLE"
    case LBOX => "LBOX"
    case SCBOX => "SCBOX"
    case BIGBOX => "BIGBOX"
    case CCBUTTON => "CCBUTTON"
  }

  datatype LessonData = LessonData(
    title: string,
    lBox: bool, lBoxData: string,
    scBox: bool, scBoxData: string, scLang: string, scLangID: string, scReadOnly: bool,
    bigBox: bool, bigBoxData: string,
    ccButton: bool, ccButtonData: seq<string>,
    rcButton: bool, rcButtonData: string)

  const EmptyLesson: LessonData :=
    LessonData("", false, "", false, "", "", "", false, false, "", false, [], false, "")

  /** An entry of the language list as the parser sees it: the language ID and its name. */
  datatype LangEntry = LangEntry(id: string, name: string)

  /**
   * How parsing can fail: an int thrown by the parser (2 empty file, 3 no
   * lines, 5 no END), std::out_of_range from substr on a line shorter than its
   * keyword, or an SCBOX line with no parameters, whose first parameter the
   * program reads out of an empty vector.
   */
  datatype Failure = Thrown(code: nat) | OutOfRange | MissingLanguage

  datatype Result<T> = Ok(value: T) | Err(failure: Failure)

  /** A handler's result: the next line to parse and the updated record. */
  datatype Step = Step(next: nat, data: LessonData)

  /*** Line splitting (LoadFile) ***/

  /** The lines LoadFile pushes from `offset` on. */
  function Lines(raw: string, offset: nat): seq<string>
    decreases |raw| - offset
  {
    if offset >= |raw| then []
    else match Find(raw, CRLF, offset)
      case None => [raw[offset..]]
      case Some(f) => [raw[offset..f]] + Lines(raw, f + 2)
  }

  /** LoadFile: empty text throws 2; otherwise the "\r\n"-separated lines. */
  function SplitLines(raw: string): Result<seq<string>> {
    if raw == [] then Err(Thrown(2)) else Ok(Lines(raw, 0))
  }

  /** The inverse of the splitting: the lines joined with "\r\n". */
  function JoinLines(ls: seq<string>): string
    decreases |ls|
  {
    if |ls| == 0 then "" else if |ls| == 1 then ls[0]
    else JoinLines(ls[..|ls| - 1]) + CRLF + ls[|ls| - 1]
  }

  lemma {:induction false} JoinLinesSnoc(ls: seq<string>, x: string)
    requires |ls| >= 1
    ensures JoinLines(ls + [x]) == JoinLines(ls) + CRLF + x
  {
    assert (ls + [x])[..|ls|] == ls;
  }

  lemma {:induction false} JoinLinesCons(x: string, ls: seq<string>)
    requires |ls| >= 1
    ensures JoinLines([x] + ls) == x + CRLF + JoinLines(ls)
    decreases |ls|
  {
    var xs := [x] + ls;
    if |ls| == 1 {
      assert xs[..1] == [x];
    } else {
      var init, last := ls[..|ls| - 1], ls[|ls| - 1];
      assert xs[..|xs| - 1] == [x] + init;
      assert JoinLines(xs) == JoinLines([x] + init) + CRLF + last;
      JoinLinesCons(x, init);
      assert JoinLines(ls) == JoinLines(init) + CRLF + last;
    }
  }

  predicate EndsWithCRLF(s: string) {
    |s| >= 2 && s[|s| - 2..] == CRLF
  }

  /** No line contains "\r\n". */
  lemma {:induction false} LinesHaveNoSeparator(raw: string, offset: nat)
    ensures forall l :: l in Lines(raw, offset) ==> !Contains(l, CRLF)
    decreases |raw| - offset
  {
    if offset < |raw| {
      match Find(raw, CRLF, offset)
      case None =>
        NoMatchSuffix(raw, offset);
      case Some(f) =>
        LinesHaveNoSeparator(raw, f + 2);
        NoMatchSlice(raw, offset, f);
    }
  }

  lemma {:induction false} NoMatchSuffix(raw: string, offset: nat)
    requires offset < |raw| && Find(raw, CRLF, offset).None?
    ensures !Contains(raw[offset..], CRLF)
  {
    assert raw[offset..] == raw[offset..|raw|];
    forall i: nat
      ensures !MatchAt(raw[offset..], CRLF, i)
    {
      MatchInSlice(raw, CRLF, offset, |raw|, i);
    }
    NotContains(raw[offset..], CRLF);
  }

  lemma {:induction false} NoMatchSlice(raw: string, offset: nat, f: nat)
    requires offset <= f && Find(raw, CRLF, offset) == Some(f)
    ensures !Contains(raw[offset..f], CRLF)
  {
    forall i: nat
      ensures !MatchAt(raw[offset..f], CRLF, i)
    {
      MatchInSlice(raw, CRLF, offset, f, i);
    }
    NotContains(raw[offset..f], CRLF);
  }

  /** Splitting and re-joining gives back the text, less one trailing "\r\n". */
  lemma {:induction false} LinesRoundTrip(raw: string, offset: nat)
    requires offset < |raw|
    ensures |Lines(raw, offset)| >= 1
    ensures raw[offset..] == JoinLines(Lines(raw, offset)) + (if EndsWithCRLF(raw[offset..]) then CRLF else "")
    decreases |raw| - offset, 1
  {
    var found := Find(raw, CRLF, offset);
    if found.None? {
      LastLine(raw, offset);
    } else {
      var f := found.value;
      FirstLine(raw, offset, f);
      if f + 2 < |raw| {
        SuffixStep(raw, offset, f);
      } else {
        var s := raw[offset..];
        assert Lines(raw, f + 2) == [];
        assert Lines(raw, offset) == [raw[offset..f]];
        assert s[|s| - 2..] == CRLF;
      }
    }
  }

  lemma {:induction false} LastLine(raw: string, offset: nat)
    requires offset < |raw| && Find(raw, CRLF, offset).None?
    ensures Lines(raw, offset) == [raw[offset..]]
    ensures !EndsWithCRLF(raw[offset..])
  {
    var s := raw[offset..];
    if |s| >= 2 {
      assert !MatchAt(raw, CRLF, |raw| - 2);
      assert s[|s| - 2..] == raw[|raw| - 2..|raw| - 2 + |CRLF|];
    }
  }

  lemma {:induction false} FirstLine(raw: string, offset: nat, f: nat)
    requires offset < |raw| && Find(raw, CRLF, offset) == Some(f)
    ensures offset <= f && f + 2 <= |raw|
    ensures Lines(raw, offset) == [raw[offset..f]] + Lines(raw, f + 2)
    ensures raw[offset..] == raw[offset..f] + CRLF + raw[f + 2..]
  {
    assert raw[f..f + 2] == CRLF;
  }

  lemma {:induction false} SuffixStep(raw: string, offset: nat, f: nat)
    requires offset <= f && f + 2 < |raw|
    requires Lines(raw, offset) == [raw[offset..f]] + Lines(raw, f + 2)
    requires raw[offset..] == raw[offset..f] + CRLF + raw[f + 2..]
    ensures |Lines(raw, offset)| >= 1
    ensures raw[offset..] == JoinLines(Lines(raw, offset)) + (if EndsWithCRLF(raw[offset..]) then CRLF else "")
    decreases |raw| - offset, 0
  {
    var l, t := raw[offset..f], raw[f + 2..];
    var rest := Lines(raw, f + 2);
    LinesRoundTrip(raw, f + 2);
    var tail := if EndsWithCRLF(t) then CRLF else "";
    JoinLinesCons(l, rest);
    SameEnding(l, t);
    Reassociate3(l, JoinLines(rest), tail);
  }

  lemma {:induction false} Reassociate3(l: string, m: string, tail: string)
    ensures l + CRLF + (m + tail) == (l + CRLF + m) + tail
  {
  }

  lemma {:induction false} SameEnding(l: string, t: string)
    requires t != []
    ensures EndsWithCRLF(l + CRLF + t) == EndsWithCRLF(t)
  {
    var s := l + CRLF + t;
    if |t| >= 2 {
      assert s[|s| - 2..] == t[|t| - 2..];
    } else {
      assert s[|s| - 2] == '\n';
    }
  }

  /** A separator found by LoadFile's loop lies inside the text. */
  lemma {:induction false} LoadFound(raw: string, offset: nat, f: nat)
    requires offset < |raw| && Find(raw, CRLF, offset) == Some(f)
    ensures offset <= f && f + |CRLF| <= |raw|
  {
  }

  /** One turn of LoadFile's loop: the line before the separator moves from the rest to the lines pushed. */
  lemma {:induction false} LoadStep(raw: string, offset: nat, f: nat, next: nat, lines: seq<string>, rest: seq<string>, all: seq<string>)
    returns (rest': seq<string>)
    requires offset < |raw| && Find(raw, CRLF, offset) == Some(f) && next == f + |CRLF|
    requires offset <= f && |lines| > 0 && lines[|lines| - 1] == raw[offset..f]
    requires rest == Lines(raw, offset) && lines[..|lines| - 1] + rest == all
    ensures rest' == Lines(raw, next) && lines + rest' == all
  {
    rest' := Lines(raw, next);
    assert rest == [raw[offset..f]] + rest';
    var before := lines[..|lines| - 1];
    assert lines == before + [raw[offset..f]];
    assert before + ([raw[offset..f]] + rest') == (before + [raw[offset..f]]) + rest';
  }

  /** The last turn of LoadFile's loop: no separator is left, the rest of the text is the last line. */
  lemma {:induction false} LoadLast(raw: string, offset: nat, lines: seq<string>, rest: seq<string>, all: seq<string>)
    requires offset < |raw| && Find(raw, CRLF, offset).None?
    requires rest == Lines(raw, offset) && lines + rest == all
    ensures lines + [raw[offset..]] == all
  {
    LastLine(raw, offset);
  }

  /** For non-empty text LoadFile yields at least one line, so parse never sees an empty file. */
  lemma {:induction false} SplitLinesRoundTrip(raw: string)
    requires raw != []
    ensures SplitLines(raw).Ok? && |SplitLines(raw).value| >= 1
    ensures raw == JoinLines(SplitLines(raw).value) + (if EndsWithCRLF(raw) then CRLF else "")
  {
    LinesRoundTrip(raw, 0);
    assert raw[0..] == raw;
  }

  /*** Keyword dispatch and the handlers ***/

  /** The first keyword, in map order, that occurs anywhere in the line. */
  function Dispatch(order: seq<Keyword>, line: string): (r: Option<Keyword>)
    ensures r.Some? ==> exists i :: 0 <= i < |order| && order[i] == r.value && Contains(line, KeywordText(r.value))
                          && forall j :: 0 <= j < i ==> !Contains(line, KeywordText(order[j]))
    ensures r.None? ==> forall j :: 0 <= j < |order| ==> !Contains(line, KeywordText(order[j]))
    decreases |order|
  {
    if order == [] then None
    else if Contains(line, KeywordText(order[0])) then Some(order[0])
    else
      var r := Dispatch(order[1..], line);
      assert forall j :: 1 <= j < |order| ==> order[j] == order[1..][j - 1];
      r
  }

  /** findEND: the first line after `cur` that begins with "END". */
  function FindEnd(lines: seq<string>, cur: nat): (r: Result<nat>)
    ensures r.Ok? ==> cur < r.value < |lines| && "END" <= lines[r.value]
                      && forall l :: cur < l < r.value ==> !("END" <= lines[l])
    ensures r.Err? ==> r.failure == Thrown(5) && forall l :: cur < l < |lines| ==> !("END" <= lines[l])
  {
    FindEndFrom(lines, cur, cur + 1)
  }

  function FindEndFrom(lines: seq<string>, cur: nat, from: nat): (r: Result<nat>)
    requires cur < from
    ensures r.Ok? ==> from <= r.value < |lines| && "END" <= lines[r.value]
                      && forall l :: from <= l < r.value ==> !("END" <= lines[l])
    ensures r.Err? ==> r.failure == Thrown(5) && forall l :: from <= l < |lines| ==> !("END" <= lines[l])
    decreases |lines| - from
  {
    if from >= |lines| then Err(Thrown(5))
    else if "END" <= lines[from] then Ok(from)
    else FindEndFrom(lines, cur, from + 1)
  }

  function TitleStep(lines: seq<string>, cur: nat, d: LessonData): Result<Step>
    requires cur < |lines|
  {
    if |lines[cur]| < 6 then Err(OutOfRange)
    else Ok(Step(cur + 1, d.(title := lines[cur][6..])))
  }

  function LBoxStep(lines: seq<string>, cur: nat, d: LessonData): Result<Step>
    requires cur < |lines|
  {
    match FindEnd(lines, cur)
    case Err(e) => Err(e)
    case Ok(end) =>
      if |lines[cur]| < 5 then Err(OutOfRange)
      else
        var text := JoinLines([lines[cur][5..]] + lines[cur + 1..end]);
        Ok(Step(end + 1, if d.bigBox then d else d.(lBox := true, lBoxData := text)))
  }

  function SCBoxStep(lines: seq<string>, langs: Option<seq<LangEntry>>, cur: nat, d: LessonData): Result<Step>
    requires cur < |lines|
  {
    match FindEnd(lines, cur)
    case Err(e) => Err(e)
    case Ok(end) =>
      if |lines[cur]| < 6 then Err(OutOfRange)
      else
        var params := Words(lines[cur][6..]);
        var content := JoinLines(lines[cur + 1..end]);
        if d.bigBox then Ok(Step(end + 1, d))
        else if params == [] then Err(MissingLanguage)
        else
          var id := if langs.None? then None else LookupLang(langs.value, params[0]);
          Ok(Step(end + 1, d.(scBox := true, scBoxData := content, scLang := params[0],
                              scLangID := if id.Some? then id.value else d.scLangID,
                              scReadOnly := |params| > 1 && params[1] == "READONLY")))
  }

  function BigBoxStep(lines: seq<string>, cur: nat, d: LessonData): Result<Step>
    requires cur < |lines|
  {
    match FindEnd(lines, cur)
    case Err(e) => Err(e)
    case Ok(end) =>
      if |lines[cur]| < 7 then Err(OutOfRange)
      else
        var text := JoinLines([lines[cur][7..]] + lines[cur + 1..end]);
        Ok(Step(end + 1, if !d.lBox && !d.scBox then d.(bigBox := true, bigBoxData := text) else d))
  }

  function CCButtonStep(lines: seq<string>, cur: nat, d: LessonData): Result<Step>
    requires cur < |lines|
  {
    if d.scBox && !d.scReadOnly then
      match FindEnd(lines, cur)
      case Err(e) => Err(e)
      case Ok(end) => Ok(Step(end + 1, d.(ccButton := true, ccButtonData := d.ccButtonData + lines[cur + 1..end])))
    else Ok(Step(cur + 1, d))
  }

  /** Every handler consumes at least the keyword line and never runs past the end. */
  function Handle(k: Keyword, lines: seq<string>, langs: Option<seq<LangEntry>>, cur: nat, d: LessonData): (r: Result<Step>)
    requires cur < |lines|
    ensures r.Ok? ==> cur < r.value.next <= |lines|
  {
    match k
    case TITLE => TitleStep(lines, cur, d)
    case LBOX => LBoxStep(lines, cur, d)
    case SCBOX => SCBoxStep(lines, langs, cur, d)
    case BIGBOX => BigBoxStep(lines, cur, d)
    case CCBUTTON => CCButtonStep(lines, cur, d)
  }

  /** One line of parse: a line with no keyword is skipped, any other goes to its keyword's handler. */
  function LineStep(lines: seq<string>, order: seq<Keyword>, langs: Option<seq<LangEntry>>, line: nat, d: LessonData): (r: Result<Step>)
    requires line < |lines|
    ensures r.Ok? ==> line < r.value.next <= |lines|
  {
    match Dispatch(order, lines[line])
    case None => Ok(Step(line + 1, d))
    case Some(k) => Handle(k, lines, langs, line, d)
  }

  /** parse(line): dispatch the line, then go on from the index the handler returned. */
  function ParseFrom(lines: seq<string>, order: seq<Keyword>, langs: Option<seq<LangEntry>>, line: nat, d: LessonData): Result<LessonData>
    requires line < |lines| || lines == []
    decreases |lines| - line
  {
    if lines == [] then Err(Thrown(3))
    else
      match LineStep(lines, order, langs, line, d)
      case Err(e) => Err(e)
      case Ok(s) => if s.next < |lines| then ParseFrom(lines, order, langs, s.next, s.data) else Ok(s.data)
  }

  /** parse stops at the first handler that fails. */
  lemma {:induction false} ParseFromErr(lines: seq<string>, order: seq<Keyword>, langs: Option<seq<LangEntry>>, line: nat, d: LessonData)
    requires line < |lines| && LineStep(lines, order, langs, line, d).Err?
    ensures ParseFrom(lines, order, langs, line, d) == Err(LineStep(lines, order, langs, line, d).failure)
  {
  }

  /** After a handler succeeds, parse goes on from the index it returned, or ends past the last line. */
  lemma {:induction false} ParseFromOk(lines: seq<string>, order: seq<Keyword>, langs: Option<seq<LangEntry>>, line: nat, d: LessonData)
    requires line < |lines| && LineStep(lines, order, langs, line, d).Ok?
    ensures var s := LineStep(lines, order, langs, line, d).value;
      ParseFrom(lines, order, langs, line, d) == if s.next < |lines| then ParseFrom(lines, order, langs, s.next, s.data) else Ok(s.data)
  {
  }

  /** A whole lesson file: LoadFile's failure is only reported, so empty text reaches parse as zero lines. */
  function ParseLesson(text: string, order: seq<Keyword>, langs: Option<seq<LangEntry>>): Result<LessonData> {
    var lines := if text == [] then [] else Lines(text, 0);
    if lines == [] then Err(Thrown(3)) else ParseFrom(lines, order, langs, 0, EmptyLesson)
  }

  /*** SCBOX parameters ***/

  /** The characters an input stream treats as whitespace. */
  predicate IsSpace(c: char) {
    c == ' ' || c == '\t' || c == '\n' || c == '\U{000B}' || c == '\U{000C}' || c == '\r'
  }

  predicate IsWord(w: string) {
    w != [] && forall i :: 0 <= i < |w| ==> !IsSpace(w[i])
  }

  function WordLength(s: string): (n: nat)
    ensures n <= |s| && forall i :: 0 <= i < n ==> !IsSpace(s[i])
    ensures n < |s| ==> IsSpace(s[n])
  {
    if s == [] || IsSpace(s[0]) then 0 else 1 + WordLength(s[1..])
  }

  /** What reading whitespace-separated strings from the text yields. */
  function Words(s: string): (ws: seq<string>)
    ensures forall i :: 0 <= i < |ws| ==> IsWord(ws[i])
    decreases |s|
  {
    if s == [] then []
    else if IsSpace(s[0]) then Words(s[1..])
    else
      var n := WordLength(s);
      [s[..n]] + Words(s[n..])
  }

  function JoinWords(ws: seq<string>): string {
    if |ws| == 0 then "" else if |ws| == 1 then ws[0] else ws[0] + " " + JoinWords(ws[1..])
  }

  lemma {:induction false} WordLengthOf(w: string, rest: string)
    requires IsWord(w) && (rest == [] || IsSpace(rest[0]))
    ensures WordLength(w + rest) == |w|
    decreases |w|
  {
    if |w| > 1 {
      assert (w + rest)[1..] == w[1..] + rest;
      WordLengthOf(w[1..], rest);
    }
  }

  /** Parameters written one space apart are read back as written. */
  lemma {:induction false} WordsOfJoinWords(ws: seq<string>)
    requires forall i :: 0 <= i < |ws| ==> IsWord(ws[i])
    ensures Words(JoinWords(ws)) == ws
    decreases |ws|
  {
    if |ws| == 1 {
      assert ws[0] + [] == ws[0];
      WordLengthOf(ws[0], []);
      assert Words(ws[0][|ws[0]|..]) == [];
    } else if |ws| > 1 {
      var rest := " " + JoinWords(ws[1..]);
      assert JoinWords(ws) == ws[0] + rest;
      WordLengthOf(ws[0], rest);
      var s := ws[0] + rest;
      assert s[..|ws[0]|] == ws[0];
      assert s[|ws[0]|..] == rest;
      assert rest[1..] == JoinWords(ws[1..]);
      WordsOfJoinWords(ws[1..]);
      assert ws == [ws[0]] + ws[1..];
    }
  }

  /** The ID of the first language in list order whose name is `name`. */
  function LookupLang(langs: seq<LangEntry>, name: string): (r: Option<string>)
    ensures r.Some? ==> exists i :: 0 <= i < |langs| && langs[i].name == name && langs[i].id == r.value
                          && forall j :: 0 <= j < i ==> langs[j].name != name
    ensures r.None? ==> forall j :: 0 <= j < |langs| ==> langs[j].name != name
    decreases |langs|
  {
    if langs == [] then None
    else if langs[0].name == name then Some(langs[0].id)
    else
      var r := LookupLang(langs[1..], name);
      assert forall j :: 1 <= j < |langs| ==> langs[j] == langs[1..][j - 1];
      r
  }

  /*** What every parse guarantees ***/

  /**
   * BigBox never shares a page with LBox or SCBox, a code-check button only
   * comes with a source box, and queries only come with the button.
   */
  predicate Consistent(d: LessonData) {
    && !(d.bigBox && (d.lBox || d.scBox))
    && (d.ccButton ==> d.scBox)
    && (d.ccButtonData != [] ==> d.ccButton)
  }

  lemma {:induction false} HandleKeepsConsistent(k: Keyword, lines: seq<string>, langs: Option<seq<LangEntry>>, cur: nat, d: LessonData)
    requires cur < |lines| && Consistent(d)
    ensures var r := Handle(k, lines, langs, cur, d); r.Ok? ==> Consistent(r.value.data)
  {
  }

  lemma {:induction false} ParseKeepsConsistent(lines: seq<string>, order: seq<Keyword>, langs: Option<seq<LangEntry>>, line: nat, d: LessonData)
    requires line < |lines| || lines == []
    requires Consistent(d)
    ensures var r := ParseFrom(lines, order, langs, line, d); r.Ok? ==> Consistent(r.value)
    decreases |lines| - line
  {
    if lines != [] {
      match Dispatch(order, lines[line])
      case None =>
        if line + 1 < |lines| {
          ParseKeepsConsistent(lines, order, langs, line + 1, d);
        }
      case Some(k) =>
        HandleKeepsConsistent(k, lines, langs, line, d);
        var step := Handle(k, lines, langs, line, d);
        if step.Ok? && step.value.next < |lines| {
          ParseKeepsConsistent(lines, order, langs, step.value.next, step.value.data);
        }
    }
  }

  lemma {:induction false} ParseLessonConsistent(text: string, order: seq<Keyword>, langs: Option<seq<LangEntry>>)
    ensures var r := ParseLesson(text, order, langs); r.Ok? ==> Consistent(r.value)
  {
    var lines := if text == [] then [] else Lines(text, 0);
    if lines != [] {
      ParseKeepsConsistent(lines, order, langs, 0, EmptyLesson);
    }
  }

  /** The only failure parse reports for an empty file, and never for a non-empty one. */
  lemma {:induction false} ParseLessonEmpty(text: string, order: seq<Keyword>, langs: Option<seq<LangEntry>>)
    ensures ParseLesson(text, order, langs) == Err(Thrown(3)) <== text == []
    ensures text != [] ==> ParseLesson(text, order, langs) != Err(Thrown(3))
  {
    if text != [] {
      LinesRoundTrip(text, 0);
      ParseNeverThrows3(Lines(text, 0), order, langs, 0, EmptyLesson);
    }
  }

  lemma {:induction false} ParseNeverThrows3(lines: seq<string>, order: seq<Keyword>, langs: Option<seq<LangEntry>>, line: nat, d: LessonData)
    requires line < |lines|
    ensures ParseFrom(lines, order, langs, line, d) != Err(Thrown(3))
    decreases |lines| - line
  {
    match Dispatch(order, lines[line])
    case None =>
      if line + 1 < |lines| {
        ParseNeverThrows3(lines, order, langs, line + 1, d);
      }
    case Some(k) =>
      var step := Handle(k, lines, langs, line, d);
      assert step.Err? ==> step.failure != Thrown(3) by {
        if step.Err? && k == CCBUTTON {
          assert step.failure == Thrown(5);
        }
      }
      if step.Ok? && step.value.next < |lines| {
        ParseNeverThrows3(lines, order, langs, step.value.next, step.value.data);
      }
  }

  /** A CCBUTTON block adds its body lines, in order, after the queries already collected. */
  lemma {:induction false} CCButtonAppends(lines: seq<string>, cur: nat, d: LessonData)
    requires cur < |lines| && d.scBox && !d.scReadOnly
    requires CCButtonStep(lines, cur, d).Ok?
    ensures var s := CCButtonStep(lines, cur, d).value;
      && s.data.ccButton && s.next - 1 < |lines| && "END" <= lines[s.next - 1]
      && s.data.ccButtonData == d.ccButtonData + lines[cur + 1..s.next - 1]
      && forall l :: cur < l < s.next - 1 ==> !("END" <= lines[l])
  {
  }

  /*** The parser object ***/

  predicate Performed(spec: Result<Step>, r: Result<nat>, d: LessonData) {
    && (spec.Ok? ==> r == Ok(spec.value.next) && d == spec.value.data)
    && (spec.Err? ==> r == Err(spec.failure))
  }

  class Parser {
    var fileLines: seq<string>
    const order: seq<Keyword>
    const langs: Option<seq<LangEntry>>
    var lessonData: LessonData

    /** Construction loads the file; a load failure is only reported, leaving no lines. */
    constructor (text: string, order: seq<Keyword>, langs: Option<seq<LangEntry>>)
      ensures fileLines == (if text == [] then [] else Lines(text, 0))
      ensures this.order == order && this.langs == langs && lessonData == EmptyLesson
    {
      fileLines := [];
      this.order := order;
      this.langs := langs;
      lessonData := EmptyLesson;
      new;
      var _ := LoadFile(text);
    }

    method LoadFile(rawData: string) returns (thrown: Option<nat>)
      requires fileLines == []
      modifies this`fileLines
      ensures rawData == [] ==> thrown == Some(2) && fileLines == []
      ensures rawData != [] ==> thrown == None && fileLines == Lines(rawData, 0)
    {
      if rawData == [] {
        return Some(2);
      }
      var lines: seq<string> := [];
      var offset: nat := 0;
      ghost var all := Lines(rawData, 0);
      ghost var rest := all;
      while offset < |rawData|
        invariant offset <= |rawData|
        invariant rest == Lines(rawData, offset)
        invariant lines + rest == all
        decreases |rawData| - offset
      {
        var foundIndex := Find(rawData, CRLF, offset);
        if foundIndex.None? {
          LoadLast(rawData, offset, lines, rest, all);
          lines := lines + [rawData[offset..]];
          break;
        }
        ghost var prev := offset;
        LoadFound(rawData, offset, foundIndex.value);
        lines := lines + [rawData[offset..foundIndex.value]];
        offset := foundIndex.value + |CRLF|;
        rest := LoadStep(rawData, prev, foundIndex.value, offset, lines, rest, all);
      }
      fileLines := lines;
      return None;
    }

    method FindEND(cur: nat) returns (r: Result<nat>)
      requires cur < |fileLines|
      ensures r == FindEnd(fileLines, cur)
    {
      for line := cur + 1 to |fileLines|
        invariant FindEndFrom(fileLines, cur, line) == FindEnd(fileLines, cur)
      {
        FindZeroIsPrefix(fileLines[line], "END");
        if Find(fileLines[line], "END", 0) == Some(0) {
          return Ok(line);
        }
      }
      return Err(Thrown(5));
    }

    method Title(cur: nat) returns (r: Result<nat>)
      requires cur < |fileLines|
      modifies this`lessonData
      ensures Performed(TitleStep(fileLines, cur, old(lessonData)), r, lessonData)
    {
      if |fileLines[cur]| < 6 {
        return Err(OutOfRange);
      }
      lessonData := lessonData.(title := fileLines[cur][6..]);
      return Ok(cur + 1);
    }

    /** The keyword line's remainder from `skip` on, then "\r\n" and each body line. */
    method Gather(cur: nat, skip: nat, endLine: nat) returns (text: string)
      requires cur < endLine <= |fileLines| && skip <= |fileLines[cur]|
      ensures text == JoinLines([fileLines[cur][skip..]] + fileLines[cur + 1..endLine])
    {
      text := fileLines[cur][skip..];
      assert [fileLines[cur][skip..]] + fileLines[cur + 1..cur + 1] == [text];
      for lineNo := cur + 1 to endLine
        invariant text == JoinLines([fileLines[cur][skip..]] + fileLines[cur + 1..lineNo])
      {
        var ls := [fileLines[cur][skip..]] + fileLines[cur + 1..lineNo];
        JoinLinesSnoc(ls, fileLines[lineNo]);
        assert ls + [fileLines[lineNo]] == [fileLines[cur][skip..]] + fileLines[cur + 1..lineNo + 1];
        text := text + CRLF + fileLines[lineNo];
      }
    }

    /** The body lines strictly between `cur` and `endLine`, joined with "\r\n". */
    method JoinBody(cur: nat, endLine: nat) returns (text: string)
      requires cur < endLine <= |fileLines|
      ensures text == JoinLines(fileLines[cur + 1..endLine])
    {
      text := "";
      for lineNo := cur + 1 to endLine
        invariant text == JoinLines(fileLines[cur + 1..lineNo])
      {
        var ls := fileLines[cur + 1..lineNo];
        assert ls + [fileLines[lineNo]] == fileLines[cur + 1..lineNo + 1];
        if lineNo > cur + 1 {
          JoinLinesSnoc(ls, fileLines[lineNo]);
          text := text + CRLF;
        }
        text := text + fileLines[lineNo];
      }
    }

    method LBox(cur: nat) returns (r: Result<nat>)
      requires cur < |fileLines|
      modifies this`lessonData
      ensures Performed(LBoxStep(fileLines, cur, old(lessonData)), r, lessonData)
    {
      var endLine := FindEND(cur);
      if endLine.Err? {
        return Err(endLine.failure);
      }
      if |fileLines[cur]| < 5 {
        return Err(OutOfRange);
      }
      var textContent := Gather(cur, 5, endLine.value);
      if !lessonData.bigBox {
        lessonData := lessonData.(lBox := true, lBoxData := textContent);
      }
      return Ok(endLine.value + 1);
    }

    method SCBox(cur: nat) returns (r: Result<nat>)
      requires cur < |fileLines|
      modifies this`lessonData
      ensures Performed(SCBoxStep(fileLines, langs, cur, old(lessonData)), r, lessonData)
    {
      var endLine := FindEND(cur);
      if endLine.Err? {
        return Err(endLine.failure);
      }
      if |fileLines[cur]| < 6 {
        return Err(OutOfRange);
      }
      var params := Words(fileLines[cur][6..]);
      var textContent := JoinBody(cur, endLine.value);
      if !lessonData.bigBox {
        if params == [] {
          return Err(MissingLanguage);
        }
        var found: Option<string> := None;
        if langs.Some? {
          var list := langs.value;
          for i := 0 to |list|
            invariant forall j :: 0 <= j < i ==> list[j].name != params[0]
            invariant lessonData == old(lessonData) && found.None?
          {
            if list[i].name == params[0] {
              found := Some(list[i].id);
              break;
            }
          }
          assert found == LookupLang(list, params[0]);
        }
        var langID := if found.Some? then found.value else lessonData.scLangID;
        lessonData := lessonData.(scBox := true, scBoxData := textContent, scLang := params[0], scLangID := langID,
                                  scReadOnly := |params| > 1 && params[1] == "READONLY");
      }
      return Ok(endLine.value + 1);
    }

    method BigBox(cur: nat) returns (r: Result<nat>)
      requires cur < |fileLines|
      modifies this`lessonData
      ensures Performed(BigBoxStep(fileLines, cur, old(lessonData)), r, lessonData)
    {
      var endLine := FindEND(cur);
      if endLine.Err? {
        return Err(endLine.failure);
      }
      if |fileLines[cur]| < 7 {
        return Err(OutOfRange);
      }
      var textContent := Gather(cur, 7, endLine.value);
      if !lessonData.lBox && !lessonData.scBox {
        lessonData := lessonData.(bigBox := true, bigBoxData := textContent);
      }
      return Ok(endLine.value + 1);
    }

    method CCButton(cur: nat) returns (r: Result<nat>)
      requires cur < |fileLines|
      modifies this`lessonData
      ensures Performed(CCButtonStep(fileLines, cur, old(lessonData)), r, lessonData)
    {
      if lessonData.scBox && !lessonData.scReadOnly {
        lessonData := lessonData.(ccButton := true);
        var endLine := FindEND(cur);
        if endLine.Err? {
          return Err(endLine.failure);
        }
        var queries := lessonData.ccButtonData;
        for lineNo := cur + 1 to endLine.value
          invariant queries == old(lessonData).ccButtonData + fileLines[cur + 1..lineNo]
        {
          assert fileLines[cur + 1..lineNo + 1] == fileLines[cur + 1..lineNo] + [fileLines[lineNo]];
          queries := queries + [fileLines[lineNo]];
        }
        lessonData := lessonData.(ccButtonData := queries);
        return Ok(endLine.value + 1);
      }
      return Ok(cur + 1);
    }

    method Run(k: Keyword, cur: nat) returns (r: Result<nat>)
      requires cur < |fileLines|
      modifies this`lessonData
      ensures Performed(Handle(k, fileLines, langs, cur, old(lessonData)), r, lessonData)
    {
      match k
      case TITLE => r := Title(cur);
      case LBOX => r := LBox(cur);
      case SCBOX => r := SCBox(cur);
      case BIGBOX => r := BigBox(cur);
      case CCBUTTON => r := CCButton(cur);
    }

    /** The command-map walk at the head of parse: the first keyword, in map order, that the line contains. */
    method FindCommand(text: string) returns (command: Option<Keyword>)
      ensures command == Dispatch(order, text)
    {
      command := None;
      for i := 0 to |order|
        invariant forall j :: 0 <= j < i ==> !Contains(text, KeywordText(order[j]))
        invariant command.None?
      {
        if Contains(text, KeywordText(order[i])) {
          command := Some(order[i]);
          DispatchAt(order, text, i);
          return;
        }
      }
      DispatchNone(order, text);
    }

    method Parse(line: nat) returns (failure: Option<Failure>)
      requires line < |fileLines| || fileLines == []
      modifies this`lessonData
      ensures var spec := ParseFrom(fileLines, order, langs, line, old(lessonData));
        && (spec.Ok? ==> failure.None? && lessonData == spec.value)
        && (spec.Err? ==> failure == Some(spec.failure))
      decreases |fileLines| - line
    {
      var nextLine := line + 1;
      if fileLines == [] {
        return Some(Thrown(3));
      }
      var command := FindCommand(fileLines[line]);
      ghost var step := LineStep(fileLines, order, langs, line, old(lessonData));
      if command.Some? {
        var r := Run(command.value, line);
        assert Performed(step, r, lessonData);
        if r.Err? {
          ParseFromErr(fileLines, order, langs, line, old(lessonData));
          return Some(r.failure);
        }
        nextLine := r.value;
      }
      assert step == Ok(Step(nextLine, lessonData));
      ParseFromOk(fileLines, order, langs, line, old(lessonData));
      if nextLine < |fileLines| {
        failure := Parse(nextLine);
      } else {
        failure := None;
      }
    }
  }

  /** The first keyword that occurs in the line, at index i of the order, is the one dispatched. */
  lemma {:induction false} DispatchAt(order: seq<Keyword>, line: string, i: nat)
    requires i < |order| && Contains(line, KeywordText(order[i]))
    requires forall j :: 0 <= j < i ==> !Contains(line, KeywordText(order[j]))
    ensures Dispatch(order, line) == Some(order[i])
    decreases i
  {
    if i > 0 {
      DispatchAt(order[1..], line, i - 1);
    }
  }

  lemma {:induction false} DispatchNone(order: seq<Keyword>, line: string)
    requires forall j :: 0 <= j < |order| ==> !Contains(line, KeywordText(order[j]))
    ensures Dispatch(order, line) == None
    decreases |order|
  {
    if order != [] {
      DispatchNone(order[1..], line);
    }
  }
}
