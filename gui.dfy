/**
 * The GUI bookkeeping of the application: which file names in a lesson
 * directory are reserved, how language, lesson-group and lesson directory
 * entries are split into an ID and a name, the lesson title, loading the
 * catalogue of languages, and the visibility flags and back-navigation
 * history of the pages.
 *
 * A page is a `Window` object whose field `children` is the ChildList; the
 * child windows themselves are values (`Node`) owned by that map, as the
 * unique_ptr entries are owned by their parent.
 */
module Gui {
  import opened Wrappers
  import opened Text

  /*** Windows ***/

  /** A child window's WindowData: the Win32 handle and colour are not modelled. */
  datatype Node = Node(visible: bool, x: int, y: int, width: int, height: int, text: string, children: map<string, Node>)

  /** A page's WindowData, updated in place. */
  class Window {
    var visible: bool
    var height: int
    var children: map<string, Node>

    constructor (visible: bool, height: int, children: map<string, Node>)
      ensures this.visible == visible && this.height == height && this.children == children
    {
      this.visible := visible;
      this.height := height;
      this.children := children;
    }
  }

  function Hidden(c: map<string, Node>): (r: map<string, Node>)
    ensures r.Keys == c.Keys
    ensures forall k :: k in r ==> !r[k].visible && r[k] == c[k].(visible := false)
  {
    map k | k in c :: c[k].(visible := false)
  }

  function Shown(c: map<string, Node>): (r: map<string, Node>)
    ensures r.Keys == c.Keys
    ensures forall k :: k in r ==> r[k].visible && r[k] == c[k].(visible := true)
  {
    map k | k in c :: c[k].(visible := true)
  }

  /** Hiding and showing change nothing but the flag of each direct child, so restoring undoes clearing. */
  lemma {:induction false} RestoreUndoesClear(c: map<string, Node>)
    requires forall k :: k in c ==> c[k].visible
    ensures Shown(Hidden(c)) == c
  {
    assert forall k :: k in c ==> c[k].(visible := true) == c[k];
  }

  /** Clearing twice is clearing once. */
  lemma {:induction false} ClearIdempotent(c: map<string, Node>)
    ensures Hidden(Hidden(c)) == Hidden(c)
  {
  }

  /** ClearWindows: every direct child hidden; the page itself only when asked. */
  method ClearWindows(data: Window, clearTopLevel: bool)
    modifies data
    ensures data.children == Hidden(old(data.children))
    ensures data.visible == (if clearTopLevel then false else old(data.visible))
    ensures data.height == old(data.height)
  {
    ghost var c0 := data.children;
    var keys := data.children.Keys;
    while keys != {}
      invariant keys <= data.children.Keys == c0.Keys
      invariant forall k :: k in data.children ==> data.children[k] == if k in keys then c0[k] else c0[k].(visible := false)
      invariant data.visible == old(data.visible) && data.height == old(data.height)
      decreases keys
    {
      var k :| k in keys;
      data.children := data.children[k := data.children[k].(visible := false)];
      keys := keys - {k};
    }
    if clearTopLevel {
      data.visible := false;
    }
  }

  /** RestoreWindows: every direct child shown; the page itself only when asked. */
  method RestoreWindows(data: Window, restoreTopLevel: bool)
    modifies data
    ensures data.children == Shown(old(data.children))
    ensures data.visible == (if restoreTopLevel then true else old(data.visible))
    ensures data.height == old(data.height)
  {
    ghost var c0 := data.children;
    var keys := data.children.Keys;
    while keys != {}
      invariant keys <= data.children.Keys == c0.Keys
      invariant forall k :: k in data.children ==> data.children[k] == if k in keys then c0[k] else c0[k].(visible := true)
      invariant data.visible == old(data.visible) && data.height == old(data.height)
      decreases keys
    {
      var k :| k in keys;
      data.children := data.children[k := data.children[k].(visible := true)];
      keys := keys - {k};
    }
    if restoreTopLevel {
      data.visible := true;
    }
  }

  /** DestroyWindows: the children map is emptied whether or not the page's own window goes. */
  method DestroyWindows(data: Window, destroyTopLevel: bool)
    modifies data
    ensures data.children == map[]
    ensures data.visible == old(data.visible) && data.height == old(data.height)
  {
    data.children := map[];
  }

  /** The pages visited before the current one, most recent last. */
  class History {
    var pages: seq<Window>

    constructor ()
      ensures pages == []
    {
      pages := [];
    }
  }

  /** The children a page keeps when it is left: none when destroyed, otherwise all hidden. */
  function Left(c: map<string, Node>, destroy: bool): map<string, Node> {
    if destroy then map[] else Hidden(c)
  }

  /**
   * GoBack: leave the current page (destroy or clear it), show the children
   * of the most recent page in the history and pop it. The page returned to
   * may be the current page itself; its children are then the left ones,
   * shown again.
   */
  method GoBack(data: Window, history: History, destroy: bool)
    requires |history.pages| > 0
    modifies data, history, history.pages[|history.pages| - 1]
    ensures history.pages == old(history.pages[..|history.pages| - 1])
    ensures var back := old(history.pages[|history.pages| - 1]);
      && back.children == Shown(if back == data then Left(old(data.children), destroy) else old(back.children))
      && back.visible == old(back.visible)
    ensures var back := old(history.pages[|history.pages| - 1]);
      back != data ==> data.children == Left(old(data.children), destroy) && data.visible == old(data.visible)
  {
    if destroy {
      DestroyWindows(data, false);
    } else {
      ClearWindows(data, false);
    }
    var back := history.pages[|history.pages| - 1];
    RestoreWindows(back, false);
    history.pages := history.pages[..|history.pages| - 1];
  }

  /*** Lesson directory entries ***/

  const ReservedLessonFileNames: seq<string> := ["SYNTAX.txt", "CHECKER.dll"]

  predicate EndsWith(s: string, suffix: string) {
    |suffix| <= |s| && s[|s| - |suffix|..] == suffix
  }

  /** CheckIfReservedLessonFilename: the highlighting rules, the checker module, or any DLL. */
  function IsReserved(filename: string): (r: bool)
    ensures r <==> (|| filename == "SYNTAX.txt" || filename == "CHECKER.dll"
                    || (|filename| >= 4 && (EndsWith(filename, ".dll") || EndsWith(filename, ".DLL"))))
  {
    var isReserved := filename in ReservedLessonFileNames;
    var isDll := if |filename| >= 4 then
        var ext := Substr(filename, |filename| - 4, NPOS);
        ext == ".dll" || ext == ".DLL"
      else false;
    isReserved || isDll
  }

  lemma {:induction false} SplitAt(s: string, p: nat)
    requires p < |s|
    ensures s == s[..p] + [s[p]] + s[p + 1..]
  {
  }

  /** Splitting at the first occurrence of `c` has only one answer. */
  lemma {:induction false} SplitUnique(d: string, c: char, a: string, b: string, a': string, b': string)
    requires d == a + [c] + b && c !in a
    requires d == a' + [c] + b' && c !in a'
    ensures a == a' && b == b'
  {
    assert d[|a|] == c && d[|a'|] == c;
    assert forall i :: 0 <= i < |a| ==> d[i] == a[i];
    assert forall i :: 0 <= i < |a'| ==> d[i] == a'[i];
    assert |a| == |a'|;
    assert a == d[..|a|] && a' == d[..|a'|];
    assert b == d[|a| + 1..] && b' == d[|a'| + 1..];
  }

  /** A language directory's ID and name. */
  datatype Named = Named(id: string, name: string)

  /**
   * The language directory `dirName` as LoadLanguages splits it at the first
   * '_'. With no '_' the position is npos: the ID is the whole name, and so
   * is the name, because npos + 1 wraps to 0. None: "." or "..", skipped.
   */
  function LanguageDir(dirName: string): (r: Option<Named>)
    requires |dirName| < NPOS // std::wstring::max_size is below npos
    ensures r.None? <==> dirName == "." || dirName == ".."
    ensures r.Some? && '_' in dirName ==> r.value.id + "_" + r.value.name == dirName && '_' !in r.value.id
    ensures r.Some? && '_' !in dirName ==> r.value.id == dirName && r.value.name == dirName
  {
    if dirName == "." || dirName == ".." then None
    else
      FindChar(dirName, '_', 0);
      var found := Find(dirName, "_", 0);
      var pos := if found.Some? then found.value else NPOS;
      var from := if found.Some? then found.value + 1 else (NPOS + 1) % (NPOS + 1);
      var id := Substr(dirName, 0, pos);
      var name := Substr(dirName, from, NPOS);
      assert found.Some? ==> id == dirName[..pos] && name == dirName[pos + 1..] by {
        if found.Some? {
          assert id == dirName[0..pos];
        }
      }
      assert found.None? ==> id == dirName && name == dirName by {
        if found.None? {
          assert dirName[0..|dirName|] == dirName;
        }
      }
      assert found.Some? ==> dirName == id + "_" + name by {
        if found.Some? {
          SplitAt(dirName, pos);
        }
      }
      Some(Named(id, name))
  }

  /** A directory named from an ID without '_' splits back into that ID and name. */
  lemma {:induction false} LanguageDirRoundTrip(id: string, name: string)
    requires '_' !in id && |id| + 1 + |name| < NPOS
    ensures LanguageDir(id + "_" + name) == Some(Named(id, name))
  {
    var d := id + "_" + name;
    assert d[|id|] == '_';
    var r := LanguageDir(d).value;
    SplitUnique(d, '_', id, name, r.id, r.name);
  }

  /** The entry is one that the group and lesson scans skip: "." or "..", at most four characters, or reserved. */
  predicate Skipped(fileName: string) {
    fileName == "." || fileName == ".." || |fileName| <= 4 || IsReserved(fileName)
  }

  /**
   * A lesson-group directory entry, kept when it is not skipped and holds a
   * space: the ID before the first space and the name after it.
   */
  function LessonGroupDir(fileName: string): (r: Option<Named>)
    requires |fileName| < NPOS
    ensures r.Some? <==> !Skipped(fileName) && ' ' in fileName
    ensures r.Some? ==> r.value.id + " " + r.value.name == fileName && ' ' !in r.value.id
  {
    FindChar(fileName, ' ', 0);
    var found := Find(fileName, " ", 0);
    if fileName == "." || fileName == ".." || |fileName| <= 4 || found.None? || IsReserved(fileName) then None
    else
      var pos := found.value;
      SplitAt(fileName, pos);
      Some(Named(Substr(fileName, 0, pos), Substr(fileName, pos + 1, NPOS)))
  }

  /** A group directory "<id> <name>" with a space-free ID splits back into them. */
  lemma {:induction false} LessonGroupDirRoundTrip(id: string, name: string)
    requires ' ' !in id && !Skipped(id + " " + name) && |id| + 1 + |name| < NPOS
    ensures LessonGroupDir(id + " " + name) == Some(Named(id, name))
  {
    var d := id + " " + name;
    assert d[|id|] == ' ';
    var r := LessonGroupDir(d).value;
    SplitUnique(d, ' ', id, name, r.id, r.name);
  }

  /**
   * A lesson file entry, kept under the same rule with '_' for the space:
   * its ID is the (at most) three characters after the first '_'.
   */
  function LessonFile(fileName: string): (r: Option<string>)
    ensures r.Some? <==> !Skipped(fileName) && '_' in fileName
    ensures r.Some? ==> exists p :: (&& 0 <= p < |fileName| && fileName[p] == '_' && '_' !in fileName[..p]
                                     && r.value == fileName[p + 1..if p + 4 <= |fileName| then p + 4 else |fileName|])
  {
    FindChar(fileName, '_', 0);
    var found := Find(fileName, "_", 0);
    if fileName == "." || fileName == ".." || |fileName| <= 4 || found.None? || IsReserved(fileName) then None
    else
      var pos := found.value;
      Some(Substr(fileName, pos + 1, 3))
  }

  /*** Lesson titles ***/

  const TitleKeyword := "TITLE "

  /** Where the title starts: after the first "TITLE ", or at npos + 6, which wraps to 5. */
  function TitleStart(text: string): (s: nat)
    ensures Contains(text, TitleKeyword) ==> s <= |text|
    ensures !Contains(text, TitleKeyword) ==> s == 5
  {
    match Find(text, TitleKeyword, 0)
    case Some(p) => p + 6
    case None => (NPOS + 6) % (NPOS + 1)
  }

  /**
   * The lesson name LoadLanguagesLessons reads from a lesson file's text:
   * from the title start up to the next CR LF or the end. None:
   * std::out_of_range, which substr throws when the text has no "TITLE "
   * and fewer than five characters.
   */
  function LessonTitle(text: string): (r: Option<string>)
    requires |text| < NPOS
    ensures r.None? <==> TitleStart(text) > |text|
    ensures r.Some? ==> var s := TitleStart(text);
      && s + |r.value| <= |text| && r.value == text[s..s + |r.value|]
      && (forall j :: s <= j < s + |r.value| ==> !MatchAt(text, "\r\n", j))
      && (s + |r.value| == |text| || MatchAt(text, "\r\n", s + |r.value|))
  {
    var startPos := TitleStart(text);
    if startPos > |text| then None
    else
      var endPos := Find(text, "\r\n", startPos);
      var width := match endPos case None => NPOS case Some(e) => e - startPos;
      Some(Substr(text, startPos, width))
  }

  /** The title a lesson file starts with, up to its line break, is read back as the lesson's name. */
  lemma {:induction false} LessonTitleOfFile(title: string, rest: string)
    requires |TitleKeyword + title + "\r\n" + rest| < NPOS
    requires forall j :: 0 <= j < |title| ==> !MatchAt(title + "\r\n", "\r\n", j)
    ensures LessonTitle(TitleKeyword + title + "\r\n" + rest) == Some(title)
  {
    var text := TitleKeyword + title + "\r\n" + rest;
    assert text[0..6] == TitleKeyword;
    FindIs(text, TitleKeyword, 0, 0);
    var e := 6 + |title|;
    assert text[e..e + 2] == "\r\n";
    forall j | 6 <= j < e
      ensures !MatchAt(text, "\r\n", j)
    {
      assert text[j..j + 2] == (title + "\r\n")[j - 6..j - 4];
      assert !MatchAt(title + "\r\n", "\r\n", j - 6);
    }
    FindIs(text, "\r\n", 6, e);
    assert text[6..e] == title;
  }

  /*** Reading a lesson file ***/

  /** nFileSizeLow: the low 32 bits of the size in bytes of a file of wchar_t code units, one per char (two bytes each). */
  function FileSizeLow(contents: string): nat {
    (2 * |contents|) % 0x1_0000_0000
  }

  /** The chars as the wchar_t code units the buffer holds, one unit per char. */
  function Units(s: string): (u: seq<nat>)
    ensures |u| == |s| && forall i :: 0 <= i < |s| ==> u[i] == s[i] as nat
  {
    seq(|s|, i requires 0 <= i < |s| => s[i] as nat)
  }

  /** std::wstring(buffer) stops at a NUL; without one inside the buffer it reads past its end. */
  predicate Terminated(buffer: seq<nat>) {
    exists i :: 0 <= i < |buffer| && buffer[i] == 0
  }

  /**
   * The lesson file buffer as written: FileSize / 2 + 1 wide characters, of
   * which only FileSize + 1 bytes are zeroed before ReadFile fills the first
   * FileSize. The terminator's high byte keeps whatever `highByte` the heap
   * held (little-endian wchar_t).
   */
  function BufferAsWritten(contents: string, highByte: nat): (b: seq<nat>)
    requires highByte < 256
    ensures |b| == FileSizeLow(contents) / 2 + 1
  {
    Units(contents[..FileSizeLow(contents) / 2]) + [highByte * 256]
  }

  /** A file without NUL characters leaves the buffer unterminated whenever the stale byte is not zero. */
  lemma {:induction false} AsWrittenBufferUnterminated(contents: string, highByte: nat)
    requires 0 < highByte < 256 && '\0' !in contents
    ensures !Terminated(BufferAsWritten(contents, highByte))
  {
    var n := FileSizeLow(contents) / 2;
    var b := BufferAsWritten(contents, highByte);
    forall i | 0 <= i < |b|
      ensures b[i] != 0
    {
      if i < n {
        assert b[i] == contents[..n][i] as nat;
        assert contents[..n][i] == contents[i];
      }
    }
  }

  /** The buffer with all FileSize + 2 bytes zeroed: the terminator is a NUL. */
  function BufferCorrected(contents: string): (b: seq<nat>)
    ensures |b| == FileSizeLow(contents) / 2 + 1
  {
    Units(contents[..FileSizeLow(contents) / 2]) + [0]
  }

  /** With the whole buffer zeroed, the buffer is terminated and reads back as FileText. */
  lemma {:induction false} CorrectedBufferReadsFileText(contents: string)
    ensures Terminated(BufferCorrected(contents))
    ensures var b := BufferCorrected(contents); var t := FileText(contents);
      && |t| < |b| && b[|t|] == 0 && b[..|t|] == Units(t)
      && forall i :: 0 <= i < |t| ==> b[i] != 0
  {
    var n := FileSizeLow(contents) / 2;
    var b := BufferCorrected(contents);
    var t := FileText(contents);
    assert b[n] == 0;
    var prefix := contents[..n];
    assert t <= prefix;
    forall i | 0 <= i < |t|
      ensures b[i] == t[i] as nat && b[i] != 0
    {
      assert b[i] == prefix[i] as nat;
      assert t[i] != '\0';
    }
    if |t| < n {
      assert prefix[|t|] == '\0';
      assert b[|t|] == prefix[|t|] as nat;
    }
  }

  /**
   * The text of a lesson file, read from a buffer whose terminator is zeroed
   * (see BufferCorrected): the first nFileSizeLow / 2 characters are read,
   * and the text ends at the first NUL.
   */
  function FileText(contents: string): (r: string)
    ensures |r| < 0x8000_0000 && r <= contents
  {
    UpToNul(contents[..FileSizeLow(contents) / 2])
  }

  /*** Loading the catalogue ***/

  /** WIN32_FIND_DATA's cFileName: at most MAX_PATH (260) characters with its terminator. */
  type FileName = s: string | |s| < 260

  /** A file in a lesson-group directory; `contents` is None when it cannot be opened or read. */
  datatype LessonEntry = LessonEntry(fileName: FileName, contents: Option<string>)
  /** An entry of a language directory; `lessons` is None when the directory cannot be listed. */
  datatype GroupEntry = GroupEntry(fileName: FileName, lessons: Option<seq<LessonEntry>>)
  /** An entry of the Languages directory. */
  datatype LangEntry = LangEntry(dirName: FileName, groups: Option<seq<GroupEntry>>)

  datatype LessonGroup = LessonGroup(name: string, lessons: map<string, string>)
  datatype Language = Language(name: string, langID: string, lessonGroups: map<string, LessonGroup>)

  /** A directory scan: Listed (the directory could be listed), Unlisted, or Thrown (std::out_of_range escaped). */
  datatype Scan<T> = Listed(value: T) | Unlisted | Thrown

  /** std::map / std::unordered_map emplace: an existing key keeps its value. */
  function Emplace<V>(m: map<string, V>, k: string, v: V): (r: map<string, V>)
    ensures r.Keys == m.Keys + {k}
    ensures k in m ==> r == m
    ensures k !in m ==> r[k] == v && forall j :: j in m ==> r[j] == m[j]
  {
    if k in m then m else m[k := v]
  }

  /** One pass of LoadLanguagesLessons' loop. None: the title threw. */
  function LessonStep(e: LessonEntry, acc: map<string, string>): Option<map<string, string>> {
    match LessonFile(e.fileName)
    case None => Some(acc)
    case Some(id) =>
      match e.contents
      case None => Some(acc)
      case Some(contents) =>
        match LessonTitle(FileText(contents))
        case None => None
        case Some(title) => Some(Emplace(acc, id, title))
  }

  /** The IDs of the lesson files the scan keeps. */
  function LessonIDs(es: seq<LessonEntry>): set<string>
    decreases |es|
  {
    if es == [] then {}
    else (match LessonFile(es[0].fileName) case None => {} case Some(id) => {id}) + LessonIDs(es[1..])
  }

  /**
   * The rest of LoadLanguagesLessons' loop from the entries `es`, with the
   * lessons `acc` so far: only kept lesson files add lessons, and an ID
   * already present keeps its first name.
   */
  function LessonsFrom(es: seq<LessonEntry>, acc: map<string, string>): (r: Option<map<string, string>>)
    ensures r.Some? ==> acc.Keys <= r.value.Keys <= acc.Keys + LessonIDs(es)
    ensures r.Some? ==> forall k :: k in acc ==> r.value[k] == acc[k]
    decreases |es|
  {
    if es == [] then Some(acc)
    else
      match LessonStep(es[0], acc)
      case None => None
      case Some(next) => LessonsFrom(es[1..], next)
  }

  lemma {:induction false} FoldStep<T>(es: seq<T>, i: nat)
    requires i < |es|
    ensures es[i..][0] == es[i] && es[i..][1..] == es[i + 1..]
  {
  }

  /** LoadLanguagesLessons: the lessons of one group directory, keyed by ID and named by their titles. */
  method LoadLessons(listing: Option<seq<LessonEntry>>, group: LessonGroup) returns (r: Scan<LessonGroup>)
    ensures listing.None? ==> r == Unlisted
    ensures listing.Some? ==> match LessonsFrom(listing.value, group.lessons)
      case None => r == Thrown
      case Some(ls) => r == Listed(group.(lessons := ls))
  {
    if listing.None? {
      return Unlisted;
    }
    var es := listing.value;
    var lessons := group.lessons;
    for i := 0 to |es|
      invariant LessonsFrom(es, group.lessons) == LessonsFrom(es[i..], lessons)
    {
      FoldStep(es, i);
      var e := es[i];
      var id := LessonFile(e.fileName);
      if id.Some? && e.contents.Some? {
        var title := LessonTitle(FileText(e.contents.value));
        if title.None? {
          return Thrown;
        }
        lessons := Emplace(lessons, id.value, title.value);
      }
    }
    assert es[|es|..] == [];
    return Listed(group.(lessons := lessons));
  }

  /** One pass of LoadLanguagesLessonGroups' loop. None: a title threw. */
  function GroupStep(g: GroupEntry, acc: map<string, LessonGroup>): Option<map<string, LessonGroup>> {
    match LessonGroupDir(g.fileName)
    case None => Some(acc)
    case Some(n) =>
      match g.lessons
      case None => Some(acc)
      case Some(es) =>
        match LessonsFrom(es, map[])
        case None => None
        case Some(ls) => Some(Emplace(acc, n.id, LessonGroup(n.name, ls)))
  }

  function GroupsFrom(gs: seq<GroupEntry>, acc: map<string, LessonGroup>): (r: Option<map<string, LessonGroup>>)
    ensures r.Some? ==> acc.Keys <= r.value.Keys
    decreases |gs|
  {
    if gs == [] then Some(acc)
    else
      match GroupStep(gs[0], acc)
      case None => None
      case Some(next) => GroupsFrom(gs[1..], next)
  }

  /** LoadLanguagesLessonGroups: the lesson groups of one language directory. */
  method LoadLessonGroups(listing: Option<seq<GroupEntry>>, lang: Language) returns (r: Scan<Language>)
    ensures listing.None? ==> r == Unlisted
    ensures listing.Some? ==> match GroupsFrom(listing.value, lang.lessonGroups)
      case None => r == Thrown
      case Some(gs) => r == Listed(lang.(lessonGroups := gs))
  {
    if listing.None? {
      return Unlisted;
    }
    var gs := listing.value;
    var groups := lang.lessonGroups;
    for i := 0 to |gs|
      invariant GroupsFrom(gs, lang.lessonGroups) == GroupsFrom(gs[i..], groups)
    {
      FoldStep(gs, i);
      var g := gs[i];
      var n := LessonGroupDir(g.fileName);
      if n.Some? {
        var loaded := LoadLessons(g.lessons, LessonGroup(n.value.name, map[]));
        if loaded.Thrown? {
          return Thrown;
        }
        if loaded.Listed? {
          groups := Emplace(groups, n.value.id, loaded.value);
        }
      }
    }
    assert gs[|gs|..] == [];
    return Listed(lang.(lessonGroups := groups));
  }

  /** The languages loaded, and whether a std::out_of_range escaped. */
  datatype Catalogue = Catalogue(langs: map<string, Language>, thrown: bool)

  /** One pass of LoadLanguages' loop. None: a title threw. */
  function LanguageStep(l: LangEntry, acc: map<string, Language>): Option<map<string, Language>> {
    match LanguageDir(l.dirName)
    case None => Some(acc)
    case Some(n) =>
      match l.groups
      case None => Some(acc)
      case Some(gs) =>
        match GroupsFrom(gs, map[])
        case None => None
        case Some(groups) => Some(Emplace(acc, n.id, Language(n.name, n.id, groups)))
  }

  /** The rest of LoadLanguages' loop: every language added is keyed by its own ID. */
  function LanguagesFrom(ls: seq<LangEntry>, acc: map<string, Language>): (r: Catalogue)
    requires forall k :: k in acc ==> acc[k].langID == k
    ensures acc.Keys <= r.langs.Keys && forall k :: k in r.langs ==> r.langs[k].langID == k
    decreases |ls|
  {
    if ls == [] then Catalogue(acc, false)
    else
      match LanguageStep(ls[0], acc)
      case None => Catalogue(acc, true)
      case Some(next) => LanguagesFrom(ls[1..], next)
  }

  /** The language list LoadLanguages fills in place. */
  class LangList {
    var langs: map<string, Language>

    constructor ()
      ensures langs == map[]
    {
      langs := map[];
    }
  }

  /**
   * LoadLanguages: nothing happens when the list is null or already holds
   * languages, or when the Languages directory cannot be listed. Otherwise
   * every language directory whose groups could be listed is added.
   * Returns true when a std::out_of_range escaped; the languages added up to
   * then stay in the list.
   */
  method LoadLanguages(langs: LangList?, listing: Option<seq<LangEntry>>) returns (thrown: bool)
    modifies langs
    ensures langs == null || old(langs.langs) != map[] || listing.None? ==> !thrown && (langs != null ==> langs.langs == old(langs.langs))
    ensures langs != null && old(langs.langs) == map[] && listing.Some? ==>
      Catalogue(langs.langs, thrown) == LanguagesFrom(listing.value, map[])
  {
    if langs == null || langs.langs != map[] {
      return false;
    }
    if listing.None? {
      return false;
    }
    var ls := listing.value;
    for i := 0 to |ls|
      invariant forall k :: k in langs.langs ==> langs.langs[k].langID == k
      invariant LanguagesFrom(ls, map[]) == LanguagesFrom(ls[i..], langs.langs)
    {
      FoldStep(ls, i);
      var l := ls[i];
      var n := LanguageDir(l.dirName);
      if n.Some? {
        var loaded := LoadLessonGroups(l.groups, Language(n.value.name, n.value.id, map[]));
        if loaded.Thrown? {
          return true;
        }
        if loaded.Listed? {
          langs.langs := Emplace(langs.langs, n.value.id, Language(n.value.name, n.value.id, loaded.value.lessonGroups));
        }
      }
    }
    assert ls[|ls|..] == [];
    return false;
  }
}
