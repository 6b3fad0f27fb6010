# Academy Scholars Project: a verified model of the application core

The Academy Scholars Project is a Win32 desktop application for learning
programming languages. A learner picks a profile on the start page. On the
dashboard they choose a lesson from per-language drop-down menus. A lesson
page shows text boxes, a code box with syntax highlighting and a "check code"
button. That button hands the code to a per-language checker module
(CHECKER.dll). Around the Windows calls, the application is built from
string, sequence and record manipulation. This project models that logic in
Dafny and proves properties of it.

The model follows the source file by file:

- `code_checker.dfy`: the host of the checker module (`CodeChecker.cpp`). This is a
  class whose error state is sticky. It resolves the module's four exports in a
  fixed order and reads each reply out of a zeroed response buffer. A
  leading NUL marks an error, and the character after it holds the error code.
- `lesson_page.dfy`: the lesson page (`LessonPage.cpp`). It covers the title
  string, which elements the page creates, and the `CheckCode` driver. The
  driver runs Init, Identify, CheckSyntax and then each query in lesson
  order, and builds the feedback text.
- `lesson_parser.dfy`: the lesson-file parser (`LessonParser.cpp`). The file
  text is split into lines at CR LF. The lines are walked recursively through
  the TITLE, LBOX, SCBOX, BIGBOX and CCBUTTON handlers, which fill in a
  `LessonData` record.
- `highlight_rules.dfy`, `highlight_scan.dfy`, `highlight_post.dfy` and
  `highlighter.dfy`: the syntax highlighter (`SyntaxHighlighter.cpp`), in four
  parts:
  - the rules file and its split at `\t|=|\t`;
  - KEY and DELIM matching over a working copy of the code, where each
    claimed character is overwritten with NUL;
  - sorting, gap filling, new-line splitting and pruning of the instruction
    list;
  - the `SyntaxHighlighter` object that ties these together.
- `profiles.dfy`: the profile store (`Profiles.cpp`). It covers name
  validation, loading the records of profiles.bin, and creating a profile
  under the limit of five. The two counters of data.bin are included.
- `start_page.dfy`: the start page (`StartPage.cpp`). It covers the keys of the
  profile rows, the NewProfilesAllowed flag, the New Profile button's row,
  and deleting a profile.
- `gui.dfy`: the GUI bookkeeping (`GUI.cpp`). It covers reserved lesson file
  names and splitting directory and file names into IDs and names. It also
  covers the lesson title, loading the catalogue of languages, and the
  visibility flags and back-navigation history of the pages.
- `dashboard.dfy`: the dashboard's drop-down menus (`Dashboard.cpp`).
  Expanding a lesson group inserts its lesson rows and pushes the rows below
  it down. Collapsing the group removes those rows and pulls the rest back
  up. The file also covers the scroll range, the scroll height, and the split
  of a lesson row's key when it is clicked.
- `text.dfy` and `wrappers.dfy`: the std::wstring operations the application
  uses (find with npos, substr, to_wstring) and an Option type.

What the source changes in place is modelled as classes with `modifies`
clauses:

- the checker host;
- the parser's LessonData;
- the highlighter;
- the profile list and the profile store;
- the window data of a page, whose children are a map;
- the history.

Each of their methods is proved against a specification function. The
properties the source relies on are then proved about those functions as
lemmas, for example:

- the lesson-file round trips;
- the tiling of the highlighting instructions;
- collapsing a just-expanded group restoring the menu.

Files, the checker DLL, the directory listings and the AppData counters enter
the model as inputs. Where the source throws a C++ exception that nothing
catches, the model returns a failure outcome instead.

## Model

| member | source | states |
|---|---|---|
| Text.Find | src/LessonParser.cpp:75 | the result is the leftmost occurrence at or after the start position, and None (npos) means there is no occurrence there |
| Text.FindChar | src/WProc.cpp:343-345 | finding one character from a start position returns exactly the first index at or after it that holds the character, and npos exactly when none does |
| Text.Decimal | src/CodeChecker.cpp:98 | to_wstring of an unsigned value is a non-empty string of decimal digits |
| Text.DecimalRoundTrip | src/CodeChecker.cpp:98 | the digits read back as the value they were printed from |
| Text.DecimalInjective | src/LessonPage.cpp:437 | distinct values print differently, so an error number can be read back from a feedback line |
| Text.UpToNul | src/CodeChecker.cpp:100 | building a string from the buffer keeps a prefix free of NUL that stops at the first NUL |
| CodeChecker.Code | src/CodeChecker.hpp:38-50 | each enumerator's underlying value is at most 9, and it is 0 exactly for ALLGOOD |
| CodeChecker.CodeInjective | src/CodeChecker.hpp:38-50 | distinct enumerators have distinct values, so the number in a feedback line names one error |
| CodeChecker.Resolution | src/CodeChecker.cpp:48-76 | resolving the exports ends in ALLGOOD exactly when all four are present; otherwise the error names the first missing export, in the order respBufSize, Identify, CheckSyntax, Query |
| CodeChecker.Filled | src/CodeChecker.cpp:92-93 | the zero-initialised reply buffer holds the reply at its start and NUL in every later slot |
| CodeChecker.UpToNulAt | src/CodeChecker.cpp:100 | when the first NUL is at index n, the text read back is exactly the first n characters |
| CodeChecker.UpToNulPadding | src/CodeChecker.cpp:92-100 | the zero padding after a reply does not change the text read back |
| CodeChecker.FailureState | src/CodeChecker.cpp:94-98 | a failure reply never leaves ALLGOOD; it becomes STRINGERROR exactly for the codes EINVAL, ERANGE and STRUNCATE, and the operation's own error otherwise |
| CodeChecker.Exchange | src/CodeChecker.cpp:92-100 | allocating the zeroed buffer, letting the module write, and reading it back gives a fault carrying the second slot when the first slot is NUL, and otherwise the text up to the first NUL |
| CodeChecker.CheckSyntaxLeavesTerminator | src/CodeChecker.cpp:106-107 | CheckSyntax announces one slot less than it allocates, so a reply that honours that capacity always leaves the last slot NUL |
| CodeChecker.Checker.constructor | src/CodeChecker.cpp:31-41 | a checker whose library failed to load starts in LOADLIBRARY, otherwise in ALLGOOD, with no exports resolved |
| CodeChecker.Checker.Init | src/CodeChecker.cpp:48-76 | Init does nothing unless the state is ALLGOOD; otherwise the new state is the resolution of the exports, and exactly the exports before the first missing one are set |
| CodeChecker.Checker.GetRespBufSize | src/CodeChecker.cpp:78-82 | the size is 0 in state GETRESPBUFSIZE, and is the module's exported size once Identify has resolved |
| CodeChecker.Checker.Identify | src/CodeChecker.cpp:89-101 | Identify returns the error string unchanged unless the state is ALLGOOD; otherwise it returns the module's reply, or on a fault the failure text and the failure state |
| CodeChecker.Checker.CheckSyntax | src/CodeChecker.cpp:103-115 | same as Identify, for the reply the module gives to the submitted code |
| CodeChecker.Checker.Query | src/CodeChecker.cpp:117-129 | Query short-circuits only in state GETQUERY; otherwise it returns the module's reply to the code and command, keeping the old state on an answer and moving to the failure state on a fault |
| LessonPage.TitleStr | src/LessonPage.cpp:41-44 | the title is the language name, then ": ", then the lesson name |
| LessonPage.PageElements | src/LessonPage.cpp:91-99 | a big-box lesson creates only the big box; otherwise each of LBox, SCBox and CCButton is created exactly when its flag is set |
| LessonPage.WarningIffNothingCreated | src/LessonPage.cpp:76-99 | for any record the parser produces, the "no elements" warning is given exactly when the page creates no element |
| LessonPage.ErrorLineInjective | src/LessonPage.cpp:437 | two checker-error lines are equal only for the same error |
| LessonPage.CheckCode | src/LessonPage.cpp:415-471 | the feedback text equals Feedback: the no-code line for empty code, the first checker error's line, or the CheckSyntax message followed by the first query that does not succeed |
| LessonPage.RunCalls | src/LessonPage.cpp:440-470 | calling Identify, CheckSyntax and the queries on a resolved checker yields CallFeedback |
| LessonPage.RunQueries | src/LessonPage.cpp:455-469 | the query loop yields QueryFeedback, stopping at the first error or the first answer that is not SUCCESS |
| LessonPage.QueryFeedbackEmpty | src/LessonPage.cpp:455-469 | the query part of the feedback is empty exactly when every query answers SUCCESS |
| LessonPage.FeedbackEmptyIff | src/LessonPage.cpp:415-471 | CheckCode reports nothing exactly when the code is non-empty, every export resolves, Identify answers, and CheckSyntax and every query answer SUCCESS |
| LessonPage.FirstFailingQuery | src/LessonPage.cpp:455-469 | queries run in lesson order: when the first k succeed and the next answers t, the query feedback is exactly t on its own line |
| LessonPage.IdentifyTextUnused | src/LessonPage.cpp:440-446 | the text Identify returns never reaches the feedback; only whether it failed matters |
| LessonPage.QueryFeedbackSameQueries | src/LessonPage.cpp:455-469 | the query feedback depends only on the module's query replies |
| LessonPage.ButtonMessage | src/LessonPage.cpp:517-522 | the verdict is correct exactly for empty feedback, and a failure message is the fixed prefix followed by the feedback |
| LessonPage.SuccessShownIff | src/LessonPage.cpp:517-522 | the success message is shown exactly when every step of the check passed |
| LessonParser.LinesHaveNoSeparator | src/LessonParser.cpp:70-86 | no line LoadFile pushes contains "\r\n" |
| LessonParser.LinesRoundTrip | src/LessonParser.cpp:70-86 | the lines from any offset, joined with "\r\n", give back the rest of the text, except one trailing "\r\n" |
| LessonParser.SplitLinesRoundTrip | src/LessonParser.cpp:69-86 | non-empty file text splits into at least one line, and joining the lines gives the text back, except one trailing "\r\n" |
| LessonParser.JoinLinesSnoc | src/LessonParser.cpp:148 | appending a line to a joined block puts one "\r\n" before it |
| LessonParser.Dispatch | src/LessonParser.cpp:95-101 | the line goes to the first keyword in map order that it contains; None means it contains no keyword |
| LessonParser.DispatchAt | src/LessonParser.cpp:95-101 | when keyword i is the first in map order that the line contains, the line goes to keyword i |
| LessonParser.DispatchNone | src/LessonParser.cpp:95-98 | a line that contains no keyword is not handled |
| LessonParser.FindEnd | src/LessonParser.cpp:129-136 | the result is the first line after the current one that starts with "END"; if there is none, the parser throws 5 |
| LessonParser.Handle | src/LessonParser.cpp:138-213 | every keyword handler that succeeds consumes at least the keyword line and never runs past the last line |
| LessonParser.LineStep | src/LessonParser.cpp:93-101 | one step of parse moves strictly forward and stays within the file |
| LessonParser.ParseFromErr | src/LessonParser.cpp:95-102 | parse stops at the first handler that fails, with that failure |
| LessonParser.ParseFromOk | src/LessonParser.cpp:99-102 | after a handler succeeds, parse goes on from the index it returned, or ends past the last line |
| LessonParser.Words | src/LessonParser.cpp:160-162 | splitting the SCBOX parameters on whitespace yields non-empty words without whitespace |
| LessonParser.WordLength | src/LessonParser.cpp:161-162 | a word runs up to the first whitespace character |
| LessonParser.WordsOfJoinWords | src/LessonParser.cpp:160-162 | words joined with single spaces split back into the same words |
| LessonParser.LookupLang | src/LessonParser.cpp:174-184 | the language ID is that of the first language in list order whose name matches; None means no language has that name |
| LessonParser.HandleKeepsConsistent | src/LessonParser.cpp:149-212 | every handler keeps the record consistent: BigBox never shares a page with LBox or SCBox, the button needs a source box, and queries need the button |
| LessonParser.ParseKeepsConsistent | src/LessonParser.cpp:91-103 | a successful parse from any line keeps the record consistent |
| LessonParser.ParseLessonConsistent | src/LessonParser.cpp:91-103 | every record a lesson file parses to is consistent |
| LessonParser.ParseLessonEmpty | src/LessonParser.cpp:94 | parse throws 3 exactly when the file gave no lines |
| LessonParser.ParseNeverThrows3 | src/LessonParser.cpp:94 | once there are lines, parse never throws 3 |
| LessonParser.CCButtonAppends | src/LessonParser.cpp:203-213 | on an editable source box, CCBUTTON sets the button and appends the lines up to END, in order, after the queries already collected |
| LessonParser.Parser.constructor | src/LessonParser.cpp:35-52 | construction loads the file; a load failure is only reported, which leaves no lines |
| LessonParser.Parser.LoadFile | src/LessonParser.cpp:54-89 | empty text throws 2 and pushes nothing; otherwise the lines pushed are the "\r\n"-separated lines of the text |
| LessonParser.Parser.FindEND | src/LessonParser.cpp:129-136 | the loop finds FindEnd's line or throws 5 |
| LessonParser.Parser.Title | src/LessonParser.cpp:138-142 | the title becomes the line after its keyword ("TITLE "); a line too short for substr is out of range |
| LessonParser.Parser.Gather | src/LessonParser.cpp:147-148 | the text is the keyword line's rest followed by the body lines, joined with "\r\n" |
| LessonParser.Parser.JoinBody | src/LessonParser.cpp:163-168 | the text is the body lines joined with "\r\n" |
| LessonParser.Parser.LBox | src/LessonParser.cpp:144-155 | LBOX gathers its text up to END, sets it only when there is no big box, and returns the line after END |
| LessonParser.Parser.SCBox | src/LessonParser.cpp:157-188 | SCBOX takes its body up to END, its language from the first parameter, its ID from the first matching language, and READONLY from the second parameter, only when there is no big box |
| LessonParser.Parser.BigBox | src/LessonParser.cpp:190-201 | BIGBOX gathers its text up to END and sets it only when neither LBox nor SCBox is set |
| LessonParser.Parser.CCButton | src/LessonParser.cpp:203-213 | CCBUTTON, on an editable source box, appends its body lines as queries and skips past END; otherwise it skips only its own line |
| LessonParser.Parser.Run | src/LessonParser.cpp:99 | calling the handler through the command map performs that keyword's step |
| LessonParser.Parser.FindCommand | src/LessonParser.cpp:95-101 | the loop over the command map finds Dispatch's keyword |
| LessonParser.Parser.Parse | src/LessonParser.cpp:91-103 | the recursive parse ends in ParseFrom's record, or reports ParseFrom's failure |
| HighlightRules.ColorOf | src/SyntaxHighlighter.hpp:48-54 | the colour map knows seven names, each a 24-bit COLORREF, "white" among them |
| HighlightRules.Delims | src/SyntaxHighlighter.cpp:96-99 | when all three delimiter searches succeed, each found position holds the delimiter "\t\|=\|\t" |
| HighlightRules.StripCR | src/SyntaxHighlighter.cpp:95 | at most one trailing character is removed from the line |
| HighlightRules.NoDelimSkipped | src/SyntaxHighlighter.cpp:96-99 | a line without the delimiter is skipped |
| HighlightRules.RuleLineRoundTrip | src/SyntaxHighlighter.cpp:95-106 | a line written from a rule, with its four fields separated by the delimiter, reads back as that rule |
| HighlightRules.RulesFileRoundTrip | src/SyntaxHighlighter.cpp:74-114 | a rules file written one rule per line loads exactly those rules, in order |
| HighlightRules.LinesOfRulesText | src/SyntaxHighlighter.cpp:90-93 | reading that file line by line yields one line per rule |
| HighlightRules.RulesOfRuleTexts | src/SyntaxHighlighter.cpp:93-112 | those lines yield the rules in order |
| HighlightRules.RulesOfEach | src/SyntaxHighlighter.cpp:93-112 | lines that are each non-empty and each hold one rule yield those rules in order |
| HighlightRules.EmptyLineTerminates | src/SyntaxHighlighter.cpp:95 | an empty line anywhere in the file makes the load fail, whatever the other lines hold |
| HighlightScan.Blank | src/SyntaxHighlighter.cpp:140 | replacing a matched range with NUL keeps the length and changes exactly that range |
| HighlightScan.BlankMatchAddsNuls | src/SyntaxHighlighter.cpp:124-142 | blanking a keyword occurrence strictly increases the number of NULs, which is bounded by the length, so the KEY loop ends |
| HighlightScan.MatchBeforeBlanking | src/SyntaxHighlighter.cpp:140 | a match in the blanked working copy was already a match in the text before blanking |
| HighlightScan.KeyScan | src/SyntaxHighlighter.cpp:122-143 | a KEY rule appends occurrences of the keyword in ascending order, each the leftmost occurrence that no earlier one overlaps; the working copy is the text with exactly those occurrences blanked and holds no occurrence afterwards; it stops the program exactly when the text is longer than the keyword, the keyword occurs and its colour is unknown |
| HighlightScan.KeyScanWholeText | src/SyntaxHighlighter.cpp:125 | a text that is exactly the keyword gets no instruction, because the loop needs a longer text |
| HighlightScan.FindClose | src/SyntaxHighlighter.cpp:158-164 | a closing position the search returns is a match of the closing delimiter at or after where it started, and is not escaped |
| HighlightScan.FindCloseFirst | src/SyntaxHighlighter.cpp:158-164 | the search returns exactly the unescaped closing match that FirstClose describes: one that does not lie inside any escaped match of the chain the search visits (the leftmost match, and while it is escaped the leftmost match past it), with every earlier unescaped match lying inside one of them; it returns nothing exactly when every unescaped match from the start lies inside one of them |
| HighlightScan.FindCloseSingle | src/SyntaxHighlighter.cpp:158-164 | for a one-character closing delimiter: nothing is found if and only if every match from the start is escaped, and every match before the one found is escaped |
| HighlightScan.DelimNext | src/SyntaxHighlighter.cpp:147-181 | one pass of the DELIM loop stops, moves the offset strictly forward, or records a non-empty interior that an opening match precedes and a closing match follows |
| HighlightScan.DelimNextMoves | src/SyntaxHighlighter.cpp:147-181 | a Record's opening is the leftmost opening match from the offset and is not escaped, and its interior runs up to the closing match FindClose returns after it; a Skip steps past the leftmost opening match, which is escaped or closed at once; a Stop comes only when no opening fits, none is left, or the unescaped one found is never closed |
| HighlightScan.DelimRecordMove | src/SyntaxHighlighter.cpp:149-179 | the Record case of the pass: leftmost unescaped opening, interior up to the closing match FindClose returns |
| HighlightScan.DelimScan | src/SyntaxHighlighter.cpp:144-183 | a DELIM rule stops the program exactly when its colour is unknown and some pass would record; otherwise it appends exactly the interiors that iterating the pass records (DelimRecords) and leaves the working copy with exactly those blanked; each is a non-empty interior after an unescaped opening up to the closing match FindClose returns, in ascending order |
| HighlightScan.DelimRecordsStop | src/SyntaxHighlighter.cpp:150-165 | when a pass stops, nothing more is recorded and the working copy is left as it is |
| HighlightScan.DelimRecordsSkip | src/SyntaxHighlighter.cpp:151-174 | a skipping pass records nothing: the loop records what it records from the new offset |
| HighlightScan.DelimRecordsRecord | src/SyntaxHighlighter.cpp:175-179 | a recording pass records its interior, then whatever the loop records in the blanked copy from past the closing delimiter |
| HighlightScan.DelimEmptyPair | src/SyntaxHighlighter.cpp:170-174 | an unescaped opening followed at once by an unescaped closing match, such as an empty string "", is a Skip past the opening, so nothing is recorded for it |
| HighlightPost.InsertByStartSorts | src/SyntaxHighlighter.cpp:69-72 | inserting into a list sorted by start keeps it sorted and adds exactly the new instruction |
| HighlightPost.SortByStartSorts | src/SyntaxHighlighter.cpp:189 | the sort is a permutation ordered by start position |
| HighlightPost.Between | src/SyntaxHighlighter.cpp:229-238 | the backward gap loop keeps the first and the last instruction in place |
| HighlightPost.BetweenKeeps | src/SyntaxHighlighter.cpp:229-238 | filling gaps keeps every instruction it is given |
| HighlightPost.BackLoopBuildsBetween | src/SyntaxHighlighter.cpp:229-238 | after the backward loop has done every index above i, the list is the untouched front followed by the gap-filled rest |
| HighlightPost.FillNothing | src/SyntaxHighlighter.cpp:240-252 | a text nothing matched is given no instruction at all |
| HighlightPost.BetweenAdjacent | src/SyntaxHighlighter.cpp:229-238 | when no two instructions overlap, after the loop each instruction ends where the next one starts |
| HighlightPost.BetweenGaps | src/SyntaxHighlighter.cpp:229-238 | every instruction the loop adds is a default-coloured piece of the text |
| HighlightPost.FillGapsTiles | src/SyntaxHighlighter.cpp:227-253 | when no two instructions overlap, fillGaps tiles the whole text from 0 to its end; every added instruction is a default-coloured piece of the text, and every original is kept |
| HighlightPost.SplitRenders | src/SyntaxHighlighter.cpp:255-278 | splitting an instruction at each CR LF loses no text: rendering the pieces, with the new-line command standing for CR LF, gives the text back |
| HighlightPost.SplitLeavesNoCRLF | src/SyntaxHighlighter.cpp:255-278 | every piece other than the new-line command is free of CR LF |
| HighlightPost.SplitCountsNewLines | src/SyntaxHighlighter.cpp:264-275 | the new-line counter goes up once for each new-line command the split produces |
| HighlightPost.SplitNewLine | src/SyntaxHighlighter.cpp:66 | the new-line command has no text, so the pass leaves it as it is |
| HighlightPost.NewLinePassKeeps | src/SyntaxHighlighter.cpp:257-277 | one pass of accountForNewLines keeps the loop invariant: everything before the next index is final, the rest, split, completes it, and the count goes up exactly where a CR LF was split off |
| HighlightPost.KeepMembers | src/SyntaxHighlighter.cpp:280-287 | pruning keeps exactly the instructions that have text or are the new-line command |
| HighlightPost.PruneStep | src/SyntaxHighlighter.cpp:282-286 | one turn of the backward pruning loop erases instruction i exactly when it is empty |
| HighlightPost.KeepIdempotent | src/SyntaxHighlighter.cpp:280-287 | pruning twice removes nothing more |
| HighlightPost.KeepAppend | src/SyntaxHighlighter.cpp:280-287 | pruning works instruction by instruction: pruning a concatenation prunes each part |
| Highlighter.Inc32 | src/SyntaxHighlighter.cpp:265 | incrementing the unsigned int counter stays below 2^32 |
| Highlighter.CountedWraps | src/SyntaxHighlighter.cpp:257-277 | incrementing the 32-bit counter n times wraps the untruncated sum |
| Highlighter.Inc32Wraps | src/SyntaxHighlighter.cpp:265 | one increment wraps at 2^32 |
| Highlighter.ApplyRule | src/SyntaxHighlighter.cpp:119-188 | an unknown mode is ignored; DEFAULT sets the default colour or fails on an unknown colour; a KEY rule fails exactly when its keyword occurs in a longer text and its colour is unknown; only DEFAULT changes the default colour |
| Highlighter.ApplyRuleSound | src/SyntaxHighlighter.cpp:119-188 | every rule keeps the working copy a blanked version of the code, with every instruction running forwards inside the code over blanked characters |
| Highlighter.ApplyRulesSound | src/SyntaxHighlighter.cpp:119-188 | whatever the rules, every instruction they record runs forwards inside the code, as fillGaps needs |
| Highlighter.ApplyRulesStep | src/SyntaxHighlighter.cpp:119 | the rules are applied one at a time, in file order |
| Highlighter.StartSound | src/SyntaxHighlighter.cpp:118 | the pass starts from an unblanked copy of the code, with no instructions |
| Highlighter.SortSpans | src/SyntaxHighlighter.cpp:189 | sorting keeps every instruction inside the code |
| Highlighter.Highlight | src/SyntaxHighlighter.cpp:116-197 | generating fails exactly when a rule fails, and otherwise ends with the default colour the rules left |
| Highlighter.HighlightSome | src/SyntaxHighlighter.cpp:189-196 | when every rule goes through, the result is the sort, fillGaps, accountForNewLines and pruning of what the rules recorded |
| Highlighter.SyntaxHighlighter.constructor | src/SyntaxHighlighter.cpp:39-55 | the default colour is white for COLORREF(-1); an int thrown while loading is reported and leaves no instructions; an empty line in the rules file ends the program; otherwise the state is what generating leaves |
| Highlighter.SyntaxHighlighter.Generate | src/SyntaxHighlighter.cpp:116-197 | the new state is Highlight's outcome, with the new lines added to the counter in 32 bits, or the program ended |
| Highlighter.SyntaxHighlighter.PostProcess | src/SyntaxHighlighter.cpp:189-196 | the instructions become the sorted, gap-filled, split and pruned list, and the counter goes up by the new lines counted |
| Highlighter.SyntaxHighlighter.RunRules | src/SyntaxHighlighter.cpp:119-188 | the loop over the rules gives ApplyRules' result |
| Highlighter.SyntaxHighlighter.FillGaps | src/SyntaxHighlighter.cpp:227-253 | the instructions become the gap-filled list |
| Highlighter.SyntaxHighlighter.FillGapsBetween | src/SyntaxHighlighter.cpp:229-238 | the backward loop inserts a gap after each instruction that does not meet the next one |
| Highlighter.SyntaxHighlighter.AccountForNewLines | src/SyntaxHighlighter.cpp:255-278 | the instructions become their splits at CR LF, in order, and the counter goes up, in 32 bits, by the new lines split off |
| Highlighter.SyntaxHighlighter.SplitNewLineAt | src/SyntaxHighlighter.cpp:259-276 | one pass replaces a bare CR LF with the new-line command, or cuts the instruction at its first CR LF, and reports whether a new line was counted |
| Highlighter.SyntaxHighlighter.PruneEmptyInstructions | src/SyntaxHighlighter.cpp:280-287 | the instructions become those that are not empty, in order |
| Profiles.Wrap8 | src/Profiles.hpp:41-44 | storing a value in a char keeps it when it fits, and otherwise keeps its residue modulo 256 |
| Profiles.Inc8 | src/Profiles.cpp:84-85 | incrementing a char adds one, except that 127 wraps to -128 |
| Profiles.Dec8 | src/StartPage.cpp:249 | decrementing a char subtracts one, except that -128 wraps to 127 |
| Profiles.IncDecInverse | src/Profiles.cpp:84-85 | incrementing and decrementing a char undo each other |
| Profiles.Names | src/Profiles.cpp:140-147 | the names of the loaded profiles, one per record, in file order |
| Profiles.Loaded | src/Profiles.cpp:44-71 | the caller's vector ends up with all the records when every read succeeds, and otherwise stays empty |
| Profiles.MatchesAlnumIff | src/Profiles.cpp:132-133 | the name matches ([a-zA-Z0-9])+ as a whole, as its grammar reads (one class character, then the end or the group again), if and only if it is non-empty and made only of ASCII letters and digits |
| Profiles.ProfileFileName | src/Profiles.cpp:112 | the profile file is "profile_", then the ID, then ".bin" |
| Profiles.SignedDecimal | src/Profiles.cpp:112 | to_wstring of an int prints a '-' before the digits exactly for a negative value |
| Profiles.SignedDecimalSign | src/Profiles.cpp:112 | only a negative value prints a leading '-' |
| Profiles.SignedDecimalInjective | src/Profiles.cpp:112 | distinct ints print differently |
| Profiles.ProfileFileNameInjective | src/Profiles.cpp:112-113 | distinct profile IDs get distinct profile files |
| Profiles.ReadInto | src/AppData.cpp:39-57 | ReadData leaves the file's counters in the struct when it succeeds and leaves the struct as it was when it fails |
| Profiles.WriteData | src/AppData.cpp:59-74 | after WriteData, data.bin holds the new counters, keeps the old ones when it cannot be opened, or is empty (reading back as zeros) when the write after truncation fails |
| Profiles.ReadAfterWrite | src/AppData.cpp:39-74 | what a successful WriteData stores, a successful ReadData gives back |
| Profiles.Create | src/Profiles.cpp:73-123 | creating a profile either leaves the records as they were or appends exactly the new record built from the counters as read; a creation that returns false leaves data.bin and the profile files as they were |
| Profiles.NewRecord | src/Profiles.cpp:87-91 | the new record has the incremented profile counter as its ID, the given name, and 0 for language and lesson |
| Profiles.CreateRefusedAtLimit | src/Profiles.cpp:76-83 | when the counters as read are at MaxProfiles nothing is written and false is returned |
| Profiles.CreateSucceeds | src/Profiles.cpp:76-122 | when every step, data.bin's read and write included, succeeds, the record is appended, both counters go up by one (as chars), and the profile file is created |
| Profiles.CountersWrittenOnlyOnSuccess | src/Profiles.cpp:76-122 | with data.bin read and written, the counters change exactly when the limit is not reached and every step succeeds |
| Profiles.CreateFileFailureDiverges | src/Profiles.cpp:106-118 | when creating the profile file fails, the record is already appended but the counters are not raised, so they no longer match |
| Profiles.CreateReadFailureUsesHeld | src/Profiles.cpp:76-90 | when ReadData fails, the limit test, the new profile ID and the counters written back all come from whatever the uninitialised struct held |
| Profiles.CreateWriteFailureDiverges | src/Profiles.cpp:119-122 | when WriteData fails, CreateNewProfile still returns true with the record appended, and data.bin keeps the old counters or is left empty |
| Profiles.CreateKeepsConsistent | src/Profiles.cpp:73-149 | creating a name CheckName accepts, with every step succeeding, keeps the counters equal to the number of records, at most MaxProfiles, and the names distinct |
| Profiles.ProfileList.constructor | src/Profiles.cpp:138 | a caller's vector starts empty |
| Profiles.ProfileStore.constructor | src/Profiles.cpp:76-78 | the store holds the given records, counters and files |
| Profiles.ProfileStore.LoadProfiles | src/Profiles.cpp:44-71 | false for a null vector or a failed open or read, leaving the vector as it was; otherwise true, with every record in file order |
| Profiles.ProfileStore.CheckName | src/Profiles.cpp:125-149 | accepts exactly the non-empty alphanumeric names that are not a loaded profile's name |
| Profiles.ProfileStore.CreateNewProfile | src/Profiles.cpp:73-123 | the result and the new store are Create's, for every outcome of data.bin's read and write, so each step that succeeds leaves its mark and the first failure before the write stops it |
| StartPage.Flag.constructor | src/StartPage.cpp:48 | the NewProfilesAllowed flag holds the given value |
| StartPage.RowClass | src/StartPage.cpp:67 | odd rows are "Light Groutfit" and even rows "Groutfit" |
| StartPage.RowKeyInjective | src/StartPage.cpp:65-71 | distinct rows have distinct keys |
| StartPage.RowKeyIsRow | src/StartPage.cpp:103 | every row key contains "Groutfit", which is how UpdateStartBody finds the rows |
| StartPage.RowKeys | src/StartPage.cpp:65-71 | the keys of rows 0 to n-1, in order |
| StartPage.RowKeysDistinct | src/StartPage.cpp:65-75 | no two rows share a key, so no emplace is refused |
| StartPage.SetTexts | src/StartPage.cpp:82-86 | setting the row texts keeps the set of windows |
| StartPage.SetTextsAt | src/StartPage.cpp:82-86 | each named row shows its text and every other window is untouched |
| StartPage.RowsStep | src/StartPage.cpp:65-81 | each turn of the row loop emplaces row i under its key |
| StartPage.RowsAt | src/StartPage.cpp:65-81 | with distinct keys not present before, row i is the blank row i at y0 + i * height, with its placeholder buttons, and nothing else changes |
| StartPage.StartBodyRows | src/StartPage.cpp:48-91 | after CreateStartBody the page holds its old windows plus the five rows; row i sits at y0 + i * height and shows name i or nothing |
| StartPage.BlankRowsAt | src/StartPage.cpp:65-81 | the first loop adds the five blank rows and changes nothing else |
| StartPage.NamedRowsAt | src/StartPage.cpp:82-86 | the naming loop puts the loaded names in the first rows and leaves every other window untouched |
| StartPage.RowYMonotone | src/StartPage.cpp:80 | lower rows are further down |
| StartPage.AddRows | src/StartPage.cpp:65-81 | the row loop emplaces the five rows, one row height apart |
| StartPage.LabelRows | src/StartPage.cpp:82-86 | the naming loop sets the text of each listed row |
| StartPage.CreateStartBody | src/StartPage.cpp:48-92 | only on the start page: asks for the window to be destroyed exactly when loading fails, creates the rows with the loaded names, and clears NewProfilesAllowed exactly when MaxProfiles profiles exist; with more records than rows it reports the out-of-range handles[5] as an overrun, after the first five names are shown |
| StartPage.Shown | src/StartPage.cpp:83-86 | the names that have a row: all of them up to MaxProfiles, otherwise the first MaxProfiles |
| StartPage.StartBodyRowYs | src/StartPage.cpp:65-81 | after CreateStartBody, row i sits i row heights below the first, and the rows are the only windows whose keys contain "Groutfit" |
| StartPage.StartBodyRowOrder | src/StartPage.cpp:99-108 | after CreateStartBody with a positive row height, collecting the "Groutfit" windows and sorting them by top gives rows 0 to 4 |
| StartPage.BlankedAsWritten | src/StartPage.cpp:121-126 | the loop as written blanks the indices from the number of profiles up to MaxProfiles inclusive |
| StartPage.AsWrittenBlanksPastRows | src/StartPage.cpp:121-126 | as written, the loop always reaches index MaxProfiles, one past the five rows |
| StartPage.Blanked | src/StartPage.cpp:121-126 | the corrected loop blanks the indices from the number of profiles up to MaxProfiles, exclusive |
| StartPage.BlankedCoversRest | src/StartPage.cpp:121-126 | with the bound corrected, every blanked index is a row, and each row without a name is blanked |
| StartPage.RowTexts | src/StartPage.cpp:116-126 | the rows in order get the loaded names, then empty texts |
| StartPage.ShowRowTexts | src/StartPage.cpp:116-126 | the two SetWindowText loops give each row in order its name or nothing |
| StartPage.UpdateStartBody | src/StartPage.cpp:94-130 | only on the new-profile page: the rows in order show the loaded names and then nothing, and NewProfilesAllowed is set to true in both branches; with more records than rows it reports the out-of-range RelevantChildren[5] as an overrun, after the first five names are shown |
| StartPage.UpdateStartBodyTexts | src/StartPage.cpp:99-126 | each row in order shows its name or nothing, and windows that are not rows keep their text |
| StartPage.LastRowKeyIsLastRow | src/StartPage.cpp:196-204 | the key CreateNewProfileButton looks up, chosen by the parity of MaxProfiles - 1, is the last row's key "Groutfit4" |
| StartPage.NewProfileButtonBelowRows | src/StartPage.cpp:205-207 | under the rows of the start body, the New Profile button sits five row heights below the first row, plus the gap |
| StartPage.Rewritten | src/StartPage.cpp:235-243 | the rewrite writes back at most the records it was given |
| StartPage.Without | src/StartPage.cpp:235-237 | dropping a name never adds records |
| StartPage.WithoutKeeps | src/StartPage.cpp:235-237 | exactly the records of other names are kept |
| StartPage.WithoutAbsent | src/StartPage.cpp:235-237 | a name that no record holds drops nothing |
| StartPage.RewrittenWithout | src/StartPage.cpp:235-243 | when every write succeeds, the rewrite drops exactly the records with the selected name, in order |
| StartPage.WithoutUnique | src/StartPage.cpp:235-237 | deleting a name that only one record holds removes exactly that record |
| StartPage.Delete | src/StartPage.cpp:215-259 | deletion never touches the profile files, and leaves ProfileCounter as it was unless data.bin's read fails or its write fails after truncation |
| StartPage.DeleteReadFailureResetsCounters | src/StartPage.cpp:246-250 | when ReadData fails after the records are rewritten, the zero-initialised struct is decremented and written back: ProfileCounter 0 and NumProfiles -1 |
| StartPage.DeleteNeedsYes | src/StartPage.cpp:221-222 | only a YES changes anything |
| StartPage.DeleteDropsName | src/StartPage.cpp:222-250 | without failures, a YES drops exactly the records with that name, in order, and decrements NumProfiles once, however many were dropped |
| StartPage.DeleteKeepsConsistent | src/StartPage.cpp:222-250 | deleting an existing profile, with every step succeeding, keeps the counters equal to the record count and the names distinct |
| StartPage.DeleteProfile | src/StartPage.cpp:222-250 | the store update is Delete's for every outcome of the loads and writes: after a YES, load, truncate, write back every record not named the selected one (losing any whose write fails), then read data.bin into a zeroed struct, decrement NumProfiles and write it back |
| Gui.Window.constructor | src/misc.hpp:47-52 | a page's WindowData holds the given visibility, height and children |
| Gui.Hidden | src/GUI.cpp:119-123 | every direct child is kept, under the same key, with only its visible flag cleared |
| Gui.Shown | src/GUI.cpp:133-137 | every direct child is kept, under the same key, with only its visible flag set |
| Gui.RestoreUndoesClear | src/GUI.cpp:117-143 | restoring the children of a page whose children were all visible gives back exactly the children it had before clearing |
| Gui.ClearIdempotent | src/GUI.cpp:117-129 | clearing a page twice leaves it as clearing it once |
| Gui.ClearWindows | src/GUI.cpp:117-129 | every child is hidden, the page itself is hidden only when clearTopLevel is set, and its height is unchanged |
| Gui.RestoreWindows | src/GUI.cpp:131-143 | every child is shown, the page itself is shown only when restoreTopLevel is set, and its height is unchanged |
| Gui.DestroyWindows | src/GUI.cpp:145-156 | the child list is emptied in both branches and the page's own flags are untouched |
| Gui.History.constructor | src/GUI.cpp:158 | the back-navigation history starts empty |
| Gui.GoBack | src/GUI.cpp:158-164 | the page left is destroyed or cleared, the most recent page in the history has its children shown again, and that page is popped from the history |
| Gui.IsReserved | src/GUI.cpp:439-449 | a file name is reserved exactly when it is SYNTAX.txt or CHECKER.dll, or it has at least four characters and ends in .dll or .DLL |
| Gui.LanguageDir | src/GUI.cpp:465-472 | "." and ".." are skipped; any other directory name is the ID, an underscore and the name, with no underscore in the ID; with no underscore at all, both the ID and the name are the whole directory name |
| Gui.LanguageDirRoundTrip | src/GUI.cpp:470-472 | a directory named from an ID without an underscore, then an underscore and a name, splits back into that ID and that name |
| Gui.LessonGroupDir | src/GUI.cpp:500-504 | a group directory is kept exactly when it is not ".", "..", at most four characters or a reserved name, and it holds a space; the ID is what comes before the first space and the name what comes after it |
| Gui.LessonGroupDirRoundTrip | src/GUI.cpp:501-504 | a kept group directory named from a space-free ID, a space and a name splits back into that ID and that name |
| Gui.LessonFile | src/GUI.cpp:529-533 | a lesson file is kept exactly when it is not skipped and holds an underscore; its ID is the (at most) three characters after the first underscore |
| Gui.TitleStart | src/GUI.cpp:551 | with a "TITLE " in the text the start lies within the text; without one it is npos + 6 wrapped, that is 5 |
| Gui.LessonTitle | src/GUI.cpp:550-554 | the lesson name is the text from the title start up to, and not including, the first CR LF after it, or to the end; it fails (out_of_range) exactly when the start lies past the end of the text |
| Gui.LessonTitleOfFile | src/GUI.cpp:550-554 | a lesson file that begins with "TITLE ", a title without a line break, and a CR LF is read back with that title as its lesson name |
| Gui.BufferAsWritten | src/GUI.cpp:541-544 | the buffer has FileSize / 2 + 1 wide characters, only FileSize + 1 bytes of which are zeroed |
| Gui.AsWrittenBufferUnterminated | src/GUI.cpp:541-550 | for a file without NUL characters, the buffer as written holds no NUL when the byte left over in the heap is not zero |
| Gui.BufferCorrected | src/GUI.cpp:541-544 | the buffer has FileSize / 2 + 1 wide characters and ends in a NUL |
| Gui.CorrectedBufferReadsFileText | src/GUI.cpp:541-550 | the fully zeroed buffer is terminated, and std::wstring reads from it exactly the file text up to its first NUL |
| Gui.FileText | src/GUI.cpp:540-550 | the text read is a prefix of the file's contents and fits in the 32-bit size the file listing reports |
| Gui.Emplace | src/GUI.cpp:555 | emplace adds the key; a key already present keeps its value and every other entry is unchanged |
| Gui.LessonsFrom | src/GUI.cpp:527-558 | the lessons found so far are all kept with their names, and the only lessons added are those with the IDs of kept lesson files |
| Gui.LoadLessons | src/GUI.cpp:517-561 | an unlistable group directory fails; otherwise the group holds the lessons the scan of its files finds, or the scan throws when a title cannot be read |
| Gui.GroupsFrom | src/GUI.cpp:497-512 | the lesson groups found so far are all kept |
| Gui.LoadLessonGroups | src/GUI.cpp:484-515 | an unlistable language directory fails; otherwise the language holds the lesson groups the scan of its directories finds, or the scan throws |
| Gui.LanguagesFrom | src/GUI.cpp:465-480 | the languages found so far are all kept, and every language is stored under its own ID |
| Gui.LangList.constructor | src/misc.hpp:120 | a new language list is empty |
| Gui.LoadLanguages | src/GUI.cpp:451-482 | nothing changes when the list is null, already filled or the Languages directory cannot be listed; otherwise the list becomes the languages the scan finds, each under its own ID, and the result says whether the scan threw |
| Dashboard.LessonKey | src/Dashboard.cpp:190 | a lesson row's key starts with the pattern "lesson_" + group that collapsing searches for |
| Dashboard.LessonKeyInjective | src/Dashboard.cpp:190 | two lessons of the same group never share a row key |
| Dashboard.LessonKeyMatches | src/Dashboard.cpp:217 | every lesson row of a group is found by the search collapsing that group makes |
| Dashboard.GroupKeyKept | src/Dashboard.cpp:217 | the group's own row never contains the pattern of its lesson rows, so collapsing keeps it |
| Dashboard.LessonKeyIsMenuRow | src/Dashboard.cpp:201 | every lesson row is counted in the scroll range |
| Dashboard.Bumped | src/Dashboard.cpp:235-257 | every child is kept under the same key |
| Dashboard.BumpRoundTrip | src/Dashboard.cpp:235-257 | pushing the rows at or below a point down and then pulling the rows at or below the new point back up restores the menu, when every window move succeeds |
| Dashboard.BumpBelowMenuItems | src/Dashboard.cpp:235-252 | every child at or below oldTopY whose window moved is shifted by newTopY - oldTopY, in whatever order the map is visited; every other child is unchanged |
| Dashboard.LessIrreflexive | src/Dashboard.cpp:184 | no lesson ID sorts before itself, so the IDs of a std::map traversal are distinct |
| Dashboard.LessonKeysHas | src/Dashboard.cpp:184-193 | the lesson rows' keys are exactly the keys built from the listed IDs |
| Dashboard.LessonKeysSize | src/Dashboard.cpp:184-193 | distinct IDs give one key per lesson |
| Dashboard.LessonRows | src/Dashboard.cpp:184-193 | the menu keeps its keys and gains one key per listed lesson |
| Dashboard.LessonRowsAt | src/Dashboard.cpp:184-193 | the row of the i-th lesson in ID order is at the i-th row position and shows the lesson's name; the children already there are unchanged |
| Dashboard.InsertLessonMenuItems | src/Dashboard.cpp:168-209 | the menu becomes the rows below the group pushed down by one row per lesson plus the new lesson rows, and the scroll range is the number of lesson group and lesson rows in the menu |
| Dashboard.EmplaceLessonRows | src/Dashboard.cpp:184-193 | the loop emplaces the lesson rows in ID order, each a row height below the last |
| Dashboard.CountMenuRows | src/Dashboard.cpp:198-203 | the count is the number of children whose key contains "lessongroup_" or "lesson_", in whatever order the map is visited |
| Dashboard.InsertedLayout | src/Dashboard.cpp:168-193 | expanding adds exactly the lesson rows; each sits beside the group's arrow, as tall as the group row, (i + 1) row heights below the group row's top, in ID order, and shows its lesson's name |
| Dashboard.InsertedShift | src/Dashboard.cpp:177-181 | every row already in the menu ends where pushing down the rows under the group row by one row per lesson put it |
| Dashboard.InsertedCount | src/Dashboard.cpp:168-204 | expanding a collapsed group raises the scroll range by the number of its lessons |
| Dashboard.InsertedHeights | src/Dashboard.cpp:168-193 | expanding keeps every row's height, and each lesson row is as tall as the group row |
| Dashboard.HeightSumPick | src/Dashboard.cpp:314-321 | the sum of row heights does not depend on the order the map is visited |
| Dashboard.HeightSumUnion | src/Dashboard.cpp:314-321 | the heights of two disjoint sets of rows add up |
| Dashboard.MenuScrollHeight | src/Dashboard.cpp:307-326 | the total height is the unsigned 32-bit sum of the heights of the lesson group and lesson rows of the scrolled menu, or 0 when no menu was scrolled |
| Dashboard.AddUnsigned | src/Dashboard.cpp:319 | adding to an unsigned 32-bit total wraps like the untruncated sum |
| Dashboard.InsertedHeight | src/Dashboard.cpp:168-193 | expanding a collapsed group adds one group-row height per lesson to the scroll height |
| Dashboard.Erased | src/Dashboard.cpp:224-227 | exactly the children whose key contains the group's lesson pattern are gone |
| Dashboard.MaxYIsBottom | src/Dashboard.cpp:214-223 | bottomY ends at or below every erased row's y, never negative, and equal to 0 or to one of those rows' y |
| Dashboard.BottomIsMaxY | src/Dashboard.cpp:214-223 | that bound is unique, whatever order the rows are visited in |
| Dashboard.RemoveLessonMenuItems | src/Dashboard.cpp:211-233 | the group's lesson rows are erased; then, when the group row exists, the rows below the lowest erased one are pulled up to the group row; when it is missing the function throws after erasing |
| Dashboard.CollectMatching | src/Dashboard.cpp:213-223 | the first loop collects exactly the keys containing the group's lesson pattern and the largest y among them (the row lowest on screen), or 0 when every y is smaller |
| Dashboard.EraseAll | src/Dashboard.cpp:224-227 | the second loop removes exactly the collected keys |
| Dashboard.RemovedClosesGap | src/Dashboard.cpp:228-232 | the row right below the last erased one ends right under the group row |
| Dashboard.InsertThenRemove | src/Dashboard.cpp:168-257 | collapsing a group that was just expanded restores the menu exactly, when every window move succeeds |
| Dashboard.InsertedErased | src/Dashboard.cpp:168-227 | on a menu without the group's lesson rows, collapsing after expanding erases exactly the rows expanding added |
| Dashboard.InsertedBottom | src/Dashboard.cpp:214-223 | the lowest of the rows expanding added is the row of the last lesson |
| Dashboard.LessonGroupClick | src/Dashboard.cpp:439-492 | a group without lessons reports "Lesson Group <id> has no installed lessons." and changes nothing; otherwise an arrow rotated but not rendered ends the program through the bare `throw;` (std::terminate), an arrow not loaded or not rotated changes nothing, and a rendered one collapses an expanded group and expands a collapsed one |
| Dashboard.Next | src/WProc.cpp:344-345 | one past a position, with npos + 1 wrapping to 0 |
| Dashboard.ClickedLesson | src/WProc.cpp:343-352 | a key without '_' yields the whole key as language, group and lesson, by the wrap-around of npos + 1 |
| Dashboard.ClickedLessonAt | src/WProc.cpp:343-352 | the language is what follows the menu key's first '_', the group lies between the row key's first and second '_', and the lesson follows the second |
| Dashboard.ClickedLessonRoundTrip | src/WProc.cpp:343-352 | clicking the row created for a lesson of a group without '_', in the menu of a language without '_', opens that language, group and lesson |

## Left out

- Window procedures and message dispatch (`WProc.cpp`, `main.cpp`, `WClass.cpp`) and the Home, About and New Profile pages are not part of this model. The one exception is the split of a lesson row's key at `WProc.cpp:343-352` (Dashboard.ClickedLesson).
- Painting and scrolling are not modelled: every `WM_Paint`, `WM_VScroll`/`WM_HScroll` with their `double` pixel ratios, and the arrow images. The image loader (WIC/COM calls) is a foreign call. How far the arrow image got (loaded, rotated, rendered), and which way it points, are inputs of Dashboard.LessonGroupClick (`image`, `expanded`).
- `SCEdit.cpp`, the RichEdit control, is not part of this model. The highlighter's `std::thread` in the lesson page is concurrency and is left out. MessageBox and console output are left out.
- File, directory and DLL access are inputs:
  - the lesson file's text;
  - the rules file (`RulesFile`: cannot open, cannot read, or its contents);
  - the directory listings of the catalogue;
  - profiles.bin as a sequence of records, with a `LoadFault` for failed opens and reads;
  - the data.bin counters as a record, with a `DataAccess` for a failed ReadData and a WriteData that cannot open the file or fails after truncating it; when the read fails, what CreateNewProfile's uninitialised struct held is an input (`held`);
  - the checker module as a `Module` value (which exports resolve, and its replies as arbitrary text).
  The byte layout of the files, the conversion between UTF-8 and wide characters, and the Win32 handles are not modelled.
- Text: each Dafny `char` stands for one wchar_t code unit, so only text in the Basic Multilingual Plane without lone surrogates is modelled. A character outside it is a surrogate pair of two code units in the source but one `char` here, and a lone surrogate cannot be written at all. For such text the model diverges from the source in four places: `Dashboard.Less` may order lesson IDs differently from std::wstring's `operator<` (for example U+1F600 against U+FFFD), so `Dashboard.InsertLessonMenuItems` may lay the rows out in another order; `Gui.FileSizeLow` counts half the bytes; `Gui.Units` yields values that are not wchar_t; and the KEY and DELIM instruction positions count one unit where the source counts two.
- CodeChecker.Checker.constructor: the message box that ErrorExit shows when the module does not load is left out. ErrorExit does not end the process, so the constructor records LOADLIBRARY and returns, as modelled.
- LessonPage.CheckCode requires that the checker module keeps to its calling convention, through its `Conforms` precondition: it writes at most the capacity it is given and leaves a NUL in the buffer. It also requires that the module reports a response buffer size of at least 1, since `buffer[1]` is read. A module that breaks this would make the source read past its buffer, which the model cannot express.
- LessonParser: `commandMap` is an unordered_map, so the order in which keywords are tried is an input (`order`, any permutation of the five keywords). The model does not fix one order.
- LessonParser.Parser.SCBox: a line "SCBOX" with no parameters reads an element of an empty vector in the source, which is undefined behaviour. It is modelled as the failure `MissingLanguage`.
- LessonParser.Parser.LoadFile: the source reads the file into a buffer without a terminator. The model takes the file's text as its input.
- Highlighter: the KEY and DELIM scans of one rule are recursive functions (`HighlightScan.KeyScan`, `HighlightScan.DelimScan`) that the class's rule loop calls. The class does not hold them as inner `while` loops over its own fields.
- Highlighter: a KEY rule with an empty keyword or a NUL in it, and a DELIM rule with an empty delimiter, are excluded by the precondition `Terminating`. In the source such a rule may loop forever, for example an empty keyword on a non-empty text, a keyword made only of NULs, or an empty closing delimiter after an opening that ends in a single backslash. Some of them end (an empty keyword on an empty text, a keyword with a NUL beside other characters, an empty opening delimiter whose closing one never occurs); the model leaves those out as well.
- HighlightPost.SortByStart: std::sort leaves the order of instructions with equal starts unspecified. The model keeps their order of insertion.
- The colour names of `colorMap` are kept as numbers. An unknown colour name is the failure `colorMap.at` throws.
- Dashboard: the children of a menu are an unordered_map, so each loop over them picks any key it has not visited yet. The contracts hold for every visiting order. Whether a window move succeeds is an input (`moved`).
- Dashboard: the creation of the dashboard body (container, headers, drop-down menus and their first rows) is layout code on `double` ratios of the window size and is not modelled. The scroll page size set after an insertion is not modelled either.
- Gui: the raw `parent` pointers of WindowData, and the aliasing of pages held by reference in the history, are modelled only as far as Gui.GoBack's contract states it: the page returned to may be the page left.
- StartPage: `UpdateSelectedProfileButtons` and the calls DeleteButtonWM_LButtonUp makes to redraw the page after a deletion are not modelled. The texts of the start page's other windows are not modelled.
- StartPage.CreateStartBody: with more than MaxProfiles records in profiles.bin the source indexes past its five row handles, which is undefined behaviour. The model reports this as `overrun`, shows the first five names and states nothing about NewProfilesAllowed then.
- StartPage.UpdateStartBody: with more than MaxProfiles records the source indexes past its five relevant children, which is undefined behaviour. The model reports `overrun` and sets the texts of the five rows to the first five names.
- StartPage.CreateStartBody: the row heights and gaps are `double` ratios of the window size in the source. The model takes them as a given geometry.

## Findings

| source | as written | input that shows it | evidently intended | confidence | as-written member | corrected member |
|---|---|---|---|---|---|---|
| src/StartPage.cpp:121-126 | the loop that blanks the rows without a profile runs `i <= MaxProfiles`, so it indexes `RelevantChildren[5]`, but only the five rows 0 to 4 exist | any number of existing profiles, for example none: the last index visited is 5 | blank the rows from the number of profiles up to MaxProfiles, exclusive | high, not executed | StartPage.AsWrittenBlanksPastRows | StartPage.BlankedCoversRest |
| src/GUI.cpp:541-550 | the lesson buffer holds FileSize / 2 + 1 wide characters (FileSize + 2 bytes), but only FileSize + 1 bytes are zeroed, so the terminator's high byte keeps whatever the heap held, and `std::wstring(FileBuffer)` can read past the buffer | a lesson file without NUL characters, for example "TITLE A\r\n", with a non-zero byte left in the heap after the buffer's last zeroed byte | zero all FileSize + 2 bytes, so the text ends at the terminator | medium, not executed | Gui.AsWrittenBufferUnterminated | Gui.CorrectedBufferReadsFileText |
