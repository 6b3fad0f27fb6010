/**
 * The lesson page: its title, which lesson elements it creates, and the
 * code-check driver that runs the checker module over the submitted code and
 * builds the feedback text shown under the code-check button.
 */
module LessonPage {
  import opened Wrappers
  import opened Text
  import opened CodeChecker
  import LessonParser

  function TitleStr(langName: string, lessonName: string): (t: string)
    ensures |t| == |langName| + 2 + |lessonName|
    ensures t[..|langName|] == langName && t[|langName|..|langName| + 2] == ": " && t[|langName| + 2..] == lessonName
  {
    langName + ": " + lessonName
  }

  /*** Which elements the page body creates ***/

  datatype Element = BigBoxElement | LBoxElement | SCBoxElement | CCButtonElement

  /** The elements in creation order: the big box alone, or else each of the others whose flag is set. */
  function PageElements(d: LessonParser.LessonData): (els: seq<Element>)
    ensures d.bigBox ==> els == [BigBoxElement]
    ensures !d.bigBox ==>
      && BigBoxElement !in els
      && (LBoxElement in els <==> d.lBox) && (SCBoxElement in els <==> d.scBox) && (CCButtonElement in els <==> d.ccButton)
  {
    if d.bigBox then [BigBoxElement]
    else
      (if d.lBox then [LBoxElement] else [])
      + (if d.scBox then [SCBoxElement] else [])
      + (if d.ccButton then [CCButtonElement] else [])
  }

  /** The page reports "No Lesson Elements To Create" when none of the three boxes is set. */
  predicate NoElementsWarning(d: LessonParser.LessonData) {
    !d.lBox && !d.scBox && !d.bigBox
  }

  /** For a record the parser produced, the warning is given exactly when nothing is created. */
  lemma {:induction false} WarningIffNothingCreated(d: LessonParser.LessonData)
    requires LessonParser.Consistent(d)
    ensures NoElementsWarning(d) <==> PageElements(d) == []
  {
    if !NoElementsWarning(d) {
      assert d.bigBox || d.lBox || d.scBox;
      assert d.bigBox ==> BigBoxElement in PageElements(d);
      assert d.lBox && !d.bigBox ==> LBoxElement in PageElements(d);
      assert d.scBox && !d.bigBox ==> SCBoxElement in PageElements(d);
    }
  }

  /*** The code check ***/

  const NoCodeMessage: string := "\n\t-No code was entered."
  const SuccessText: string := "SUCCESS"
  const SuccessMessage: string := "Success!  You may now advance to the next lesson."
  const FailurePrefix: string := "Your code contains error(s):"

  /** The line reporting a checker error: the enumerator's number in parentheses. */
  function ErrorLine(e: Error): string {
    "\n\t-CodeChecker Error (" + Decimal(Code(e)) + ")"
  }

  lemma {:induction false} ErrorLineInjective(a: Error, b: Error)
    requires ErrorLine(a) == ErrorLine(b)
    ensures a == b
  {
    var p := "\n\t-CodeChecker Error (";
    var la, lb := ErrorLine(a), ErrorLine(b);
    assert Decimal(Code(a)) == la[|p|..|la| - 1];
    assert Decimal(Code(b)) == lb[|p|..|lb| - 1];
    DecimalInjective(Code(a), Code(b));
    CodeInjective(a, b);
  }

  /**
   * The module's replies for this submission honour the buffer protocol,
   * whenever the checker gets as far as calling it.
   */
  predicate Conforms(library: Option<Module>, code: string, queries: seq<string>) {
    code != [] && library.Some? && Resolution(library.value) == ALLGOOD ==>
      var m := library.value;
      var n := m.respBufSize.value;
      && n >= 1
      && Honours(m.identifyReply, n + 1, n + 1)
      && Honours(m.checkSyntaxReply(code), n, n + 1)
      && forall q :: q in queries ==> Honours(m.queryReply(code, q), n + 1, n + 1)
  }

  /** The queries' part of the feedback: up to and including the first that does not succeed. */
  function QueryFeedback(m: Module, code: string, queries: seq<string>): string
    decreases |queries|
  {
    if queries == [] then ""
    else match Meaning(m.queryReply(code, queries[0]))
      case Fault(c) => ErrorLine(FailureState(c, QUERY))
      case Answer(t) => if t != SuccessText then "\n\t" + t else QueryFeedback(m, code, queries[1..])
  }

  /** The feedback CheckCode builds, step by step, stopping at the first checker error. */
  function Feedback(code: string, library: Option<Module>, queries: seq<string>): string {
    if code == [] then NoCodeMessage
    else if library.None? then ErrorLine(LOADLIBRARY)
    else if Resolution(library.value) != ALLGOOD then ErrorLine(Resolution(library.value))
    else CallFeedback(library.value, code, queries)
  }

  /** The part of the feedback produced by calling the module's three exports. */
  function CallFeedback(m: Module, code: string, queries: seq<string>): string {
    match Meaning(m.identifyReply)
    case Fault(c) => ErrorLine(FailureState(c, IDENTIFY))
    case Answer(_) =>
      match Meaning(m.checkSyntaxReply(code))
      case Fault(c) => ErrorLine(FailureState(c, CHECKSYNTAX))
      case Answer(cs) => (if cs == SuccessText then "" else "\n\t" + cs) + QueryFeedback(m, code, queries)
  }

  method CheckCode(code: string, library: Option<Module>, queries: seq<string>) returns (result: string)
    requires Conforms(library, code, queries)
    ensures result == Feedback(code, library, queries)
  {
    result := "";
    if code == [] {
      result := result + NoCodeMessage;
      return;
    }
    var cc := new Checker(code, library);
    cc.Init();
    var error := cc.errorState;
    if error != ALLGOOD {
      result := result + ErrorLine(error);
      return;
    }
    var calls := RunCalls(cc, queries);
    result := result + calls;
  }

  /** Identify, CheckSyntax and the queries, on a checker whose exports all resolved. */
  method RunCalls(cc: Checker, queries: seq<string>) returns (result: string)
    requires cc.Valid() && cc.errorState == ALLGOOD && cc.queryPtr
    requires Conforms(cc.library, cc.code, queries) && cc.code != []
    modifies cc`errorState
    ensures result == CallFeedback(cc.library.value, cc.code, queries)
  {
    result := "";
    var identMsg := cc.Identify();
    var error := cc.errorState;
    if error != ALLGOOD {
      result := result + ErrorLine(error);
      return;
    }
    var csMsg := cc.CheckSyntax();
    error := cc.errorState;
    if error != ALLGOOD {
      result := result + ErrorLine(error);
      return;
    }
    if csMsg != SuccessText {
      result := result + "\n\t" + csMsg;
    }
    var tail := RunQueries(cc, queries);
    result := result + tail;
  }

  /** The loop over the lesson's queries, on a checker whose three exports resolved. */
  method RunQueries(cc: Checker, queries: seq<string>) returns (result: string)
    requires cc.Valid() && cc.errorState == ALLGOOD && cc.queryPtr && cc.respBufSize >= 1
    requires forall q :: q in queries ==>
      Honours(cc.library.value.queryReply(cc.code, q), cc.respBufSize + 1, cc.respBufSize + 1)
    modifies cc`errorState
    ensures result == QueryFeedback(cc.library.value, cc.code, queries)
  {
    result := "";
    var i := 0;
    while i < |queries|
      invariant i <= |queries|
      invariant cc.Valid() && cc.errorState == ALLGOOD
      invariant result == "" && QueryFeedback(cc.library.value, cc.code, queries) == QueryFeedback(cc.library.value, cc.code, queries[i..])
    {
      ghost var rest := queries[i..];
      assert rest[0] == queries[i] && rest[1..] == queries[i + 1..];
      var qMsg := cc.Query(queries[i]);
      var error := cc.errorState;
      if error != ALLGOOD {
        result := result + ErrorLine(error);
        return;
      }
      if qMsg != SuccessText {
        result := result + "\n\t" + qMsg;
        return;
      }
      i := i + 1;
    }
  }

  /*** What the feedback means ***/

  /** Every step of the check went through and said "SUCCESS" (Identify only has to succeed). */
  predicate AllPass(code: string, library: Option<Module>, queries: seq<string>) {
    && code != [] && library.Some? && Resolution(library.value) == ALLGOOD
    && Meaning(library.value.identifyReply).Answer?
    && Meaning(library.value.checkSyntaxReply(code)) == Answer(SuccessText)
    && forall q :: q in queries ==> Meaning(library.value.queryReply(code, q)) == Answer(SuccessText)
  }

  lemma {:induction false} QueryFeedbackEmpty(m: Module, code: string, queries: seq<string>)
    ensures QueryFeedback(m, code, queries) == "" <==>
      forall q :: q in queries ==> Meaning(m.queryReply(code, q)) == Answer(SuccessText)
    decreases |queries|
  {
    if queries != [] {
      QueryFeedbackEmpty(m, code, queries[1..]);
      assert forall q :: q in queries <==> q == queries[0] || q in queries[1..];
    }
  }

  /** The check reports nothing exactly when every step passed. */
  lemma {:induction false} FeedbackEmptyIff(code: string, library: Option<Module>, queries: seq<string>)
    ensures Feedback(code, library, queries) == "" <==> AllPass(code, library, queries)
  {
    if code != [] && library.Some? && Resolution(library.value) == ALLGOOD {
      QueryFeedbackEmpty(library.value, code, queries);
    }
  }

  /**
   * The queries run in lesson order: when the first k succeed and the next
   * one answers something else, that answer is the whole query feedback.
   */
  lemma {:induction false} FirstFailingQuery(m: Module, code: string, queries: seq<string>, k: nat, t: string)
    requires k < |queries|
    requires forall j :: 0 <= j < k ==> Meaning(m.queryReply(code, queries[j])) == Answer(SuccessText)
    requires Meaning(m.queryReply(code, queries[k])) == Answer(t) && t != SuccessText
    ensures QueryFeedback(m, code, queries) == "\n\t" + t
    decreases k
  {
    if k > 0 {
      FirstFailingQuery(m, code, queries[1..], k - 1, t);
    }
  }

  /** The text Identify returns never reaches the feedback; only whether it failed matters. */
  lemma {:induction false} IdentifyTextUnused(code: string, m: Module, other: seq<char>, queries: seq<string>)
    requires Meaning(m.identifyReply).Answer? && Meaning(other).Answer?
    ensures Feedback(code, Some(m), queries) == Feedback(code, Some(m.(identifyReply := other)), queries)
  {
    assert forall q :: m.(identifyReply := other).queryReply(code, q) == m.queryReply(code, q);
    QueryFeedbackSameQueries(m, m.(identifyReply := other), code, queries);
  }

  lemma {:induction false} QueryFeedbackSameQueries(m: Module, m': Module, code: string, queries: seq<string>)
    requires m'.queryReply == m.queryReply
    ensures QueryFeedback(m, code, queries) == QueryFeedback(m', code, queries)
    decreases |queries|
  {
    if queries != [] {
      QueryFeedbackSameQueries(m, m', code, queries[1..]);
    }
  }

  /*** The message under the button ***/

  datatype Verdict = Verdict(message: string, correct: bool)

  function ButtonMessage(result: string): (v: Verdict)
    ensures v.correct <==> result == []
    ensures !v.correct ==> |v.message| >= |FailurePrefix| && v.message[|FailurePrefix|..] == result
  {
    if result == [] then Verdict(SuccessMessage, true) else Verdict(FailurePrefix + result, false)
  }

  /** The success message is shown exactly when every step of the check passed. */
  lemma {:induction false} SuccessShownIff(code: string, library: Option<Module>, queries: seq<string>)
    ensures ButtonMessage(Feedback(code, library, queries)).correct <==> AllPass(code, library, queries)
    ensures ButtonMessage(Feedback(code, library, queries)).correct ==> ButtonMessage(Feedback(code, library, queries)).message == SuccessMessage
  {
    FeedbackEmptyIff(code, library, queries);
  }
}
