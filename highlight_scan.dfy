/**
 * The matching pass of the syntax highlighter. Rules run in file order over
 * a working copy of the code; every character a rule claims is overwritten
 * with NUL, so positions stay those of the code and no later rule can claim
 * it again as a keyword.
 */
module HighlightScan {
  import opened Wrappers
  import opened Text
  import opened HighlightRules

  const NUL: char := '\0'

  /** {beginPos, endPos, color, text}: color the code from beginPos up to endPos. */
  datatype Instruction = Instruction(start: nat, end: nat, color: nat, text: string)

  /** The working copy after blanking `n` characters from `i`. */
  function Blank(raw: string, i: nat, n: nat): (r: string)
    requires i + n <= |raw|
    ensures |r| == |raw|
    ensures forall k :: 0 <= k < |r| ==> r[k] == (if i <= k < i + n then NUL else raw[k])
  {
    raw[..i] + seq(n, _ => NUL) + raw[i + n..]
  }

  /** `r` is `raw` with some characters blanked. */
  ghost predicate Agrees(r: string, raw: string) {
    |r| == |raw| && forall k :: 0 <= k < |r| ==> r[k] == raw[k] || r[k] == NUL
  }

  /** The instructions are in ascending order and no two overlap. */
  ghost predicate Ascending(found: seq<Instruction>) {
    forall a, b :: 0 <= a < b < |found| ==> found[a].end <= found[b].start
  }

  /** Every character an instruction covers is blank in `raw`. */
  ghost predicate Blanked(raw: string, found: seq<Instruction>) {
    forall ins :: ins in found ==> ins.end <= |raw| && forall k :: ins.start <= k < ins.end ==> raw[k] == NUL
  }

  /** Every blank of `r` was already blank in `raw` or lies under an instruction. */
  ghost predicate OnlyCovered(r: string, raw: string, found: seq<Instruction>) {
    forall k :: 0 <= k < |r| && k < |raw| && r[k] == NUL ==> raw[k] == NUL || exists ins :: ins in found && ins.start <= k < ins.end
  }

  /** Blanking the first instruction's range in front of the rest keeps OnlyCovered. */
  lemma {:induction false} OnlyCoveredCons(r: string, b: string, raw: string, found: seq<Instruction>)
    requires |found| > 0 && found[0].start <= found[0].end <= |raw|
    requires b == Blank(raw, found[0].start, found[0].end - found[0].start)
    requires OnlyCovered(r, b, found[1..])
    ensures OnlyCovered(r, raw, found)
  {
    forall k | 0 <= k < |r| && k < |raw| && r[k] == NUL
      ensures raw[k] == NUL || exists ins :: ins in found && ins.start <= k < ins.end
    {
      if b[k] == NUL && raw[k] != NUL {
        assert found[0] in found;
      } else if b[k] != NUL {
        var ins :| ins in found[1..] && ins.start <= k < ins.end;
        assert ins in found;
      }
    }
  }

  /** The working copy and the instructions vector after a rule. */
  datatype Scan = Scan(raw: string, found: seq<Instruction>)

  /** The instructions of `s` begin with `found`. */
  predicate Extends(s: Scan, found: seq<Instruction>) {
    |found| <= |s.found| && s.found[..|found|] == found
  }

  /** What `s` holds beyond `found`. */
  function Added(s: Scan, found: seq<Instruction>): (r: Scan)
    requires |found| <= |s.found|
    ensures r.raw == s.raw && |r.found| == |s.found| - |found|
  {
    Scan(s.raw, s.found[|found|..])
  }

  lemma {:induction false} AddedOneMore(s: Scan, found: seq<Instruction>, ins: Instruction)
    requires Extends(s, found + [ins])
    ensures Extends(s, found) && |Added(s, found).found| > 0
    ensures Added(s, found).found[0] == ins && Added(s, found).found[1..] == Added(s, found + [ins]).found
  {
    assert s.found[..|found|] == (s.found[..|found| + 1])[..|found|];
    assert s.found[|found|] == (s.found[..|found| + 1])[|found|];
  }

  /*** Blanking ***/

  lemma {:induction false} NulRun(n: nat)
    ensures multiset(seq(n, _ => NUL))[NUL] == n
  {
    if n > 0 {
      assert seq(n, _ => NUL) == seq(n - 1, _ => NUL) + [NUL];
      NulRun(n - 1);
    }
  }

  /** Blanking a NUL-free match adds NULs, so the KEY loop ends. */
  lemma {:induction false} BlankMatchAddsNuls(raw: string, key: string, i: nat)
    requires key != [] && NUL !in key && MatchAt(raw, key, i)
    ensures multiset(Blank(raw, i, |key|))[NUL] > multiset(raw)[NUL]
    ensures multiset(Blank(raw, i, |key|))[NUL] <= |raw|
  {
    var n := |key|;
    assert raw == raw[..i] + raw[i..i + n] + raw[i + n..];
    assert multiset(raw[i..i + n])[NUL] == 0;
    NulRun(n);
    assert Blank(raw, i, n) == raw[..i] + seq(n, _ => NUL) + raw[i + n..];
  }

  lemma {:induction false} NulCountBound(s: string)
    ensures multiset(s)[NUL] <= |s|
  {
  }

  lemma {:induction false} AgreesTrans(a: string, b: string, c: string)
    requires Agrees(a, b) && Agrees(b, c)
    ensures Agrees(a, c)
  {
  }

  /** A NUL-free match survives in the unblanked text. */
  lemma {:induction false} MatchBeforeBlanking(r: string, raw: string, pat: string, j: nat)
    requires Agrees(r, raw) && NUL !in pat && MatchAt(r, pat, j)
    ensures MatchAt(raw, pat, j)
  {
    var u, v := r[j..j + |pat|], raw[j..j + |pat|];
    forall k | 0 <= k < |pat|
      ensures u[k] == v[k]
    {
      assert u[k] == pat[k] && pat[k] != NUL;
    }
    assert u == v;
  }

  /** A NUL-free pattern never matches over a blank character. */
  lemma {:induction false} NoMatchOverNul(raw: string, pat: string, j: nat, q: nat)
    requires NUL !in pat && j <= q < j + |pat| && q < |raw| && raw[q] == NUL
    ensures !MatchAt(raw, pat, j)
  {
    if j + |pat| <= |raw| {
      assert raw[j..j + |pat|][q - j] == NUL;
    }
  }

  /** Text past a blanked range is untouched. */
  lemma {:induction false} PastBlank(raw: string, i: nat, n: nat, pat: string, j: nat)
    requires i + n <= |raw| && i + n <= j
    ensures MatchAt(Blank(raw, i, n), pat, j) <==> MatchAt(raw, pat, j)
  {
    var b := Blank(raw, i, n);
    if j + |pat| <= |raw| {
      assert b[j..j + |pat|] == raw[j..j + |pat|];
    }
  }

  /*** KEY ***/

  /** Each recorded instruction is an occurrence of the keyword in `raw`. */
  ghost predicate KeyFound(raw: string, key: string, found: seq<Instruction>) {
    forall ins :: ins in found ==> ins.end == ins.start + |key| && MatchAt(raw, key, ins.start) && ins.text == key
  }

  /**
   * Each occurrence is the leftmost one in `raw` that no earlier occurrence
   * overlaps: an occurrence further left runs into the one before.
   */
  ghost predicate Leftmost(raw: string, key: string, found: seq<Instruction>) {
    forall j: nat, p: nat :: j < |found| && p < found[j].start && MatchAt(raw, key, p) ==> j > 0 && p < found[j - 1].end
  }

  /**
   * What a KEY rule leaves: the occurrences it recorded, leftmost first and
   * disjoint; the working copy is `raw` with exactly those blanked; and no
   * occurrence is left in it.
   */
  ghost predicate KeyFacts(raw: string, key: string, s: Scan) {
    && Agrees(s.raw, raw)
    && KeyFound(raw, key, s.found)
    && Ascending(s.found)
    && Leftmost(raw, key, s.found)
    && Blanked(s.raw, s.found)
    && OnlyCovered(s.raw, raw, s.found)
    && (|raw| > |key| ==> !Contains(s.raw, key))
  }

  /**
   * A KEY rule, `found` being the instructions recorded before it: while the
   * text is longer than the keyword, the leftmost occurrence in the working
   * copy is recorded and blanked. The colour is looked up at each occurrence;
   * an unknown name throws out_of_range (None). What it appends are
   * occurrences of the keyword, leftmost first, none overlapping, each
   * blanked, and no occurrence is left in the working copy. It stops the
   * program exactly when the keyword occurs and its colour is unknown.
   */
  function KeyScan(raw: string, key: string, color: Option<nat>, found: seq<Instruction>): (r: Option<Scan>)
    requires key != [] && NUL !in key
    ensures r.None? <==> color.None? && |raw| > |key| && Contains(raw, key)
    ensures r.Some? ==> Extends(r.value, found) && KeyFacts(raw, key, Added(r.value, found))
    decreases |raw| - multiset(raw)[NUL]
  {
    if |raw| <= |key| then Some(Scan(raw, found))
    else match Find(raw, key, 0)
      case None => Some(Scan(raw, found))
      case Some(i) =>
        if color.None? then None
        else
          BlankMatchAddsNuls(raw, key, i);
          NulCountBound(raw);
          var ins := Instruction(i, i + |key|, color.value, raw[i..i + |key|]);
          match KeyScan(Blank(raw, i, |key|), key, color, found + [ins])
          case None => None
          case Some(s) =>
            KeyRecordFacts(raw, key, i, found, ins, s);
            Some(s)
  }

  /** Recording one occurrence in front of what the rest of the rule records keeps the facts. */
  lemma {:induction false} KeyRecordFacts(raw: string, key: string, i: nat, found: seq<Instruction>, ins: Instruction, s: Scan)
    requires key != [] && NUL !in key && |raw| > |key| && Find(raw, key, 0) == Some(i)
    requires ins.start == i && ins.end == i + |key| && ins.text == raw[i..i + |key|]
    requires Extends(s, found + [ins]) && KeyFacts(Blank(raw, i, |key|), key, Added(s, found + [ins]))
    ensures Extends(s, found) && KeyFacts(raw, key, Added(s, found))
  {
    var b := Blank(raw, i, |key|);
    AddedOneMore(s, found, ins);
    var tail := Added(s, found).found;
    assert Agrees(b, raw);
    AgreesTrans(s.raw, b, raw);
    KeyStepFound(raw, key, i, b, tail);
    AscendingCons(tail);
    KeyLeftmostCons(raw, key, i, b, tail);
    BlankedCons(s.raw, b, tail);
    OnlyCoveredCons(s.raw, b, raw, tail);
  }

  lemma {:induction false} KeyLeftmostCons(raw: string, key: string, i: nat, b: string, found: seq<Instruction>)
    requires key != [] && Find(raw, key, 0) == Some(i) && b == Blank(raw, i, |key|)
    requires |found| > 0 && found[0].start == i && found[0].end == i + |key|
    requires KeyFound(raw, key, found) && Ascending(found) && Leftmost(b, key, found[1..])
    ensures Leftmost(raw, key, found)
  {
    forall j: nat, p: nat | j < |found| && p < found[j].start && MatchAt(raw, key, p)
      ensures j > 0 && p < found[j - 1].end
    {
      if j > 0 {
        if p >= i + |key| {
          PastBlank(raw, i, |key|, key, p);
          assert found[1..][j - 1] == found[j];
          if j > 1 {
            assert found[1..][j - 2] == found[j - 1];
          }
        } else if j > 1 {
          assert found[j - 1] in found;
        }
      }
    }
  }

  /** After blanking the leftmost match, nothing matches before its end. */
  lemma {:induction false} NoMatchBefore(raw: string, key: string, i: nat)
    requires NUL !in key && Find(raw, key, 0) == Some(i)
    ensures forall j: nat :: j < i + |key| ==> !MatchAt(Blank(raw, i, |key|), key, j)
  {
    var b := Blank(raw, i, |key|);
    forall j: nat | j < i + |key|
      ensures !MatchAt(b, key, j)
    {
      if j + |key| <= i {
        var u, v := b[j..j + |key|], raw[j..j + |key|];
        forall k | 0 <= k < |key|
          ensures u[k] == v[k]
        {
          assert u[k] == b[j + k];
        }
        assert u == v;
        assert !MatchAt(raw, key, j);
      } else if j < i {
        NoMatchOverNul(b, key, j, i);
      } else {
        NoMatchOverNul(b, key, j, j);
      }
    }
  }

  lemma {:induction false} KeyStepFound(raw: string, key: string, i: nat, b: string, found: seq<Instruction>)
    requires key != [] && NUL !in key && Find(raw, key, 0) == Some(i)
    requires b == Blank(raw, i, |key|) && |found| > 0 && KeyFound(b, key, found[1..])
    requires found[0].start == i && found[0].end == i + |key| && found[0].text == raw[i..i + |key|]
    ensures KeyFound(raw, key, found)
    ensures forall ins :: ins in found[1..] ==> found[0].end <= ins.start
  {
    assert Agrees(b, raw);
    NoMatchBefore(raw, key, i);
    forall ins | ins in found
      ensures ins.end == ins.start + |key| && MatchAt(raw, key, ins.start) && ins.text == key
    {
      if ins != found[0] {
        assert ins in found[1..];
        MatchBeforeBlanking(b, raw, key, ins.start);
      }
    }
    forall ins | ins in found[1..]
      ensures found[0].end <= ins.start
    {
      assert MatchAt(b, key, ins.start);
    }
  }

  lemma {:induction false} AscendingCons(found: seq<Instruction>)
    requires |found| > 0 && Ascending(found[1..])
    requires forall ins :: ins in found[1..] ==> found[0].end <= ins.start
    ensures Ascending(found)
  {
    var rest := found[1..];
    forall x, y | 0 <= x < y < |found|
      ensures found[x].end <= found[y].start
    {
      assert found[y] == rest[y - 1];
      if x > 0 {
        assert found[x] == rest[x - 1];
      } else {
        assert found[y] in rest;
      }
    }
  }

  lemma {:induction false} BlankedCons(r: string, b: string, found: seq<Instruction>)
    requires |found| > 0 && Blanked(r, found[1..]) && Agrees(r, b) && found[0].end <= |b|
    requires forall k :: found[0].start <= k < found[0].end ==> b[k] == NUL
    ensures Blanked(r, found)
  {
    forall ins | ins in found
      ensures ins.end <= |r| && forall k :: ins.start <= k < ins.end ==> r[k] == NUL
    {
      if ins != found[0] {
        assert ins in found[1..];
      } else {
        forall k | ins.start <= k < ins.end
          ensures r[k] == NUL
        {
          assert b[k] == NUL;
          assert r[k] == b[k] || r[k] == NUL;
        }
      }
    }
  }


  /** The whole text being exactly the keyword is not highlighted: the loop needs a longer text. */
  lemma {:induction false} KeyScanWholeText(key: string, color: Option<nat>, found: seq<Instruction>)
    requires key != [] && NUL !in key
    ensures KeyScan(key, key, color, found) == Some(Scan(key, found))
  {
  }


  /*** DELIM ***/

  /** A position preceded by one backslash, but not by two. */
  predicate Escaped(raw: string, pos: nat)
    requires pos <= |raw|
  {
    pos > 0 && raw[pos - 1] == '\\' && !(pos > 1 && raw[pos - 2] == '\\')
  }

  /**
   * Position `q` lies strictly inside one of the escaped closing matches that
   * the search from `from` visits: the leftmost match from `from` when it is
   * escaped, then the leftmost match past that one when it is escaped too,
   * and so on. The search resumes after each of them, so it never looks at `q`.
   */
  ghost predicate SteppedOver(raw: string, close: string, from: nat, q: nat)
    decreases |raw| - from
  {
    if close == [] || from > |raw| then false
    else
      match Find(raw, close, from)
      case None => false
      case Some(p) =>
        && Escaped(raw, p)
        && (p < q < p + |close| || (p + |close| <= q && SteppedOver(raw, close, p + |close|, q)))
  }

  /**
   * The closing delimiter the search from `from` settles on: it looks for
   * the leftmost match and, while that one is escaped, resumes after it. A
   * match that overlaps an escaped one it resumed after is never looked at
   * (FirstClose).
   */
  function FindClose(raw: string, close: string, from: nat): (r: Option<nat>)
    requires close != [] && from <= |raw|
    ensures r.Some? ==> from <= r.value && MatchAt(raw, close, r.value) && !Escaped(raw, r.value)
    decreases |raw| - from
  {
    match Find(raw, close, from)
    case None => None
    case Some(e) => if Escaped(raw, e) then FindClose(raw, close, e + |close|) else Some(e)
  }

  /**
   * `e` is the first unescaped closing delimiter from `from` that a search
   * stepping over escaped matches meets: it is not stepped over itself, and
   * every unescaped match before it is.
   */
  ghost predicate FirstClose(raw: string, close: string, from: nat, e: nat) {
    && from <= e && MatchAt(raw, close, e) && !Escaped(raw, e) && !SteppedOver(raw, close, from, e)
    && forall q: nat :: from <= q < e && MatchAt(raw, close, q) && !Escaped(raw, q) ==> SteppedOver(raw, close, from, q)
  }

  /**
   * FindClose returns exactly the position FirstClose describes, and returns
   * nothing exactly when every unescaped match from `from` is stepped over.
   */
  lemma {:induction false} FindCloseFirst(raw: string, close: string, from: nat)
    requires close != [] && from <= |raw|
    ensures forall e: nat :: FindClose(raw, close, from) == Some(e) <==> FirstClose(raw, close, from, e)
    ensures FindClose(raw, close, from).None? <==>
      forall q: nat :: from <= q && MatchAt(raw, close, q) && !Escaped(raw, q) ==> SteppedOver(raw, close, from, q)
  {
    var r := FindClose(raw, close, from);
    FindCloseChain(raw, close, from);
    forall e: nat | FirstClose(raw, close, from, e)
      ensures r == Some(e)
    {
      assert r.None? ==> SteppedOver(raw, close, from, e);
      assert forall v: nat :: r == Some(v) && v < e ==> SteppedOver(raw, close, from, v);
      assert forall v: nat :: r == Some(v) && e < v ==> SteppedOver(raw, close, from, e);
    }
  }

  /** What FindClose returns is FirstClose's position; when it returns nothing, every unescaped match is stepped over. */
  lemma {:induction false} FindCloseChain(raw: string, close: string, from: nat)
    requires close != [] && from <= |raw|
    ensures FindClose(raw, close, from).Some? ==> FirstClose(raw, close, from, FindClose(raw, close, from).value)
    ensures FindClose(raw, close, from).None? ==>
      forall q: nat :: from <= q && MatchAt(raw, close, q) && !Escaped(raw, q) ==> SteppedOver(raw, close, from, q)
  {
    FindCloseChainFrom(raw, close, from, FindClose(raw, close, from));
  }

  /** FindClose's result `r` from `from` is FirstClose's position, or nothing when every unescaped match is stepped over. */
  ghost predicate ChainResult(raw: string, close: string, from: nat, r: Option<nat>) {
    && (r.Some? ==> FirstClose(raw, close, from, r.value))
    && (r.None? ==> forall q: nat :: from <= q && MatchAt(raw, close, q) && !Escaped(raw, q) ==> SteppedOver(raw, close, from, q))
  }

  lemma {:induction false} FindCloseChainFrom(raw: string, close: string, from: nat, r: Option<nat>)
    requires close != [] && from <= |raw| && r == FindClose(raw, close, from)
    ensures ChainResult(raw, close, from, r)
    decreases |raw| - from, 1
  {
    var f := Find(raw, close, from);
    if f.None? {
      FindCloseNone(raw, close, from);
    } else if Escaped(raw, f.value) {
      FindCloseChainEscaped(raw, close, from, f.value, r);
    } else {
      FindCloseAt(raw, close, from, f.value);
      SteppedOverAt(raw, close, from, f.value, f.value);
    }
  }

  /** The chain from `from` when its leftmost closing match `e` is escaped. */
  lemma {:induction false} FindCloseChainEscaped(raw: string, close: string, from: nat, e: nat, r: Option<nat>)
    requires close != [] && from <= |raw| && Find(raw, close, from) == Some(e) && Escaped(raw, e)
    requires r == FindClose(raw, close, from)
    ensures ChainResult(raw, close, from, r)
    decreases |raw| - from, 0
  {
    FindCloseAt(raw, close, from, e);
    FindCloseChainFrom(raw, close, e + |close|, r);
    FindCloseStep(raw, close, from, e, r);
  }

  lemma {:induction false} FindCloseIsFirst(raw: string, close: string, from: nat, e: nat)
    requires close != [] && from <= |raw| && FindClose(raw, close, from) == Some(e)
    ensures FirstClose(raw, close, from, e)
  {
    FindCloseChain(raw, close, from);
  }

  lemma {:induction false} FindCloseNone(raw: string, close: string, from: nat)
    requires close != [] && from <= |raw| && Find(raw, close, from) == None
    ensures FindClose(raw, close, from) == None
    ensures forall q: nat :: from <= q ==> !MatchAt(raw, close, q)
  {
  }

  lemma {:induction false} FindCloseAt(raw: string, close: string, from: nat, e: nat)
    requires close != [] && from <= |raw| && Find(raw, close, from) == Some(e)
    ensures FindClose(raw, close, from) == if Escaped(raw, e) then FindClose(raw, close, e + |close|) else Some(e)
    ensures forall q: nat :: from <= q < e ==> !MatchAt(raw, close, q)
  {
  }

  /** Past an escaped leftmost match `e`, what FindClose returns from past `e` is what it returns from `from`. */
  lemma {:induction false} FindCloseStep(raw: string, close: string, from: nat, e: nat, r: Option<nat>)
    requires close != [] && from <= |raw| && Find(raw, close, from) == Some(e) && Escaped(raw, e)
    requires ChainResult(raw, close, e + |close|, r)
    ensures ChainResult(raw, close, from, r)
  {
    forall q: nat | from <= q && MatchAt(raw, close, q) && !Escaped(raw, q) && (r.None? || q < r.value)
      ensures SteppedOver(raw, close, from, q)
    {
      SteppedOverAt(raw, close, from, e, q);
    }
    if r.Some? {
      SteppedOverAt(raw, close, from, e, r.value);
    }
  }

  /** A blanked range two characters before `from` changes no closing search from there. */
  lemma {:induction false} FirstClosePastBlank(raw: string, i: nat, n: nat, close: string, from: nat, e: nat)
    requires i + n + 2 <= from && i + n <= |raw|
    requires FirstClose(Blank(raw, i, n), close, from, e)
    ensures FirstClose(raw, close, from, e)
  {
    PastBlank(raw, i, n, close, e);
    EscapedPastBlankIff(raw, i, n, e);
    SteppedOverPastBlank(raw, i, n, close, from, e);
    forall q: nat | from <= q < e && MatchAt(raw, close, q) && !Escaped(raw, q)
      ensures SteppedOver(raw, close, from, q)
    {
      PastBlank(raw, i, n, close, q);
      EscapedPastBlankIff(raw, i, n, q);
      SteppedOverPastBlank(raw, i, n, close, from, q);
    }
  }

  /** The escaped matches a search visits from two characters past a blanked range are those of the text itself. */
  lemma {:induction false} SteppedOverPastBlank(raw: string, i: nat, n: nat, close: string, from: nat, q: nat)
    requires i + n + 2 <= from && i + n <= |raw|
    ensures SteppedOver(Blank(raw, i, n), close, from, q) == SteppedOver(raw, close, from, q)
  {
    var b := Blank(raw, i, n);
    forall y: nat | from <= y
      ensures SearchAgrees(b, raw, close, y)
    {
      FindPastBlank(raw, i, n, close, y);
      if y <= |raw| {
        EscapedPastBlankIff(raw, i, n, y);
      }
    }
    SteppedOverSame(b, raw, close, from, q);
  }

  /** At `y`, the two texts find the same match and agree on whether `y` is escaped. */
  ghost predicate SearchAgrees(s: string, t: string, close: string, y: nat) {
    && Find(s, close, y) == Find(t, close, y)
    && (y <= |s| && y <= |t| ==> Escaped(s, y) == Escaped(t, y))
  }

  /** The two texts agree on whether the search from `from` steps over `q`. */
  ghost predicate SameSteps(s: string, t: string, close: string, from: nat, q: nat) {
    SteppedOver(s, close, from, q) == SteppedOver(t, close, from, q)
  }

  /** Two texts of one length whose searches and escapes agree from `from` on step over the same positions. */
  lemma {:induction false} SteppedOverSame(s: string, t: string, close: string, from: nat, q: nat)
    requires |s| == |t|
    requires forall y: nat :: from <= y ==> SearchAgrees(s, t, close, y)
    ensures SameSteps(s, t, close, from, q)
    decreases |s| - from, 1
  {
    if close != [] && from <= |s| && Find(t, close, from).Some? {
      SteppedOverSameAt(s, t, close, from, Find(t, close, from).value, q);
    } else {
      assert SearchAgrees(s, t, close, from);
      SameStepsNone(s, t, close, from, q);
    }
  }

  /** SteppedOverSame when the search from `from` finds `p`. */
  lemma {:induction false} SteppedOverSameAt(s: string, t: string, close: string, from: nat, p: nat, q: nat)
    requires |s| == |t| && close != [] && from <= |s| && Find(t, close, from) == Some(p)
    requires forall y: nat :: from <= y ==> SearchAgrees(s, t, close, y)
    ensures SameSteps(s, t, close, from, q)
    decreases |s| - from, 0
  {
    assert SearchAgrees(s, t, close, from);
    assert SearchAgrees(s, t, close, p);
    SteppedOverSame(s, t, close, p + |close|, q);
    SameStepsAt(s, t, close, from, p, q);
  }

  lemma {:induction false} SameStepsAt(s: string, t: string, close: string, from: nat, p: nat, q: nat)
    requires close != [] && from <= |s| == |t|
    requires Find(s, close, from) == Some(p) && Find(t, close, from) == Some(p) && Escaped(s, p) == Escaped(t, p)
    requires SameSteps(s, t, close, p + |close|, q)
    ensures SameSteps(s, t, close, from, q)
  {
    SteppedOverAt(s, close, from, p, q);
    SteppedOverAt(t, close, from, p, q);
  }

  lemma {:induction false} SameStepsNone(s: string, t: string, close: string, from: nat, q: nat)
    requires close == [] || from > |s| || Find(s, close, from).None?
    requires close == [] || from > |t| || Find(t, close, from).None?
    ensures SameSteps(s, t, close, from, q)
  {
    SteppedOverNone(s, close, from, q);
    SteppedOverNone(t, close, from, q);
  }

  /** A search that finds no match, or cannot run, steps over nothing. */
  lemma {:induction false} SteppedOverNone(raw: string, close: string, from: nat, q: nat)
    requires close == [] || from > |raw| || Find(raw, close, from).None?
    ensures !SteppedOver(raw, close, from, q)
  {
  }

  /** One step of the visited chain, for any text. */
  lemma {:induction false} SteppedOverAt(raw: string, close: string, from: nat, p: nat, q: nat)
    requires close != [] && from <= |raw| && Find(raw, close, from) == Some(p)
    ensures SteppedOver(raw, close, from, q)
        <==> Escaped(raw, p) && (p < q < p + |close| || (p + |close| <= q && SteppedOver(raw, close, p + |close|, q)))
  {
  }

  /** A search from past a blanked range finds what it finds in the text itself. */
  lemma {:induction false} FindPastBlank(raw: string, i: nat, n: nat, pat: string, x: nat)
    requires i + n <= x && i + n <= |raw|
    ensures Find(Blank(raw, i, n), pat, x) == Find(raw, pat, x)
  {
    var b := Blank(raw, i, n);
    forall j: nat | x <= j
      ensures MatchAt(b, pat, j) == MatchAt(raw, pat, j)
    {
      PastBlank(raw, i, n, pat, j);
    }
    FindSame(b, raw, pat, x);
  }

  /** Two texts with the same matches from `x` on give the same search from `x`. */
  lemma {:induction false} FindSame(s: string, t: string, pat: string, x: nat)
    requires forall j: nat :: x <= j ==> MatchAt(s, pat, j) == MatchAt(t, pat, j)
    ensures Find(s, pat, x) == Find(t, pat, x)
  {
    var r1 := Find(s, pat, x);
    var r2 := Find(t, pat, x);
    assert forall v: nat :: r1 == Some(v) ==> MatchAt(t, pat, v);
    assert forall v: nat :: r2 == Some(v) ==> MatchAt(s, pat, v);
  }

  /** Escapes two characters past a blanked range read the text itself. */
  lemma {:induction false} EscapedPastBlankIff(raw: string, i: nat, n: nat, pos: nat)
    requires i + n + 2 <= pos <= |raw|
    ensures Escaped(Blank(raw, i, n), pos) == Escaped(raw, pos)
  {
  }

  /**
   * For a one-character closing delimiter nothing is stepped over: the
   * search finds the first unescaped closing, and fails exactly when every
   * closing from `from` on is escaped.
   */
  lemma {:induction false} FindCloseSingle(raw: string, close: string, from: nat)
    requires |close| == 1 && from <= |raw|
    ensures FindClose(raw, close, from).None? <==> forall q: nat :: from <= q && MatchAt(raw, close, q) ==> Escaped(raw, q)
    ensures FindClose(raw, close, from).Some? ==>
      forall q: nat :: from <= q < FindClose(raw, close, from).value && MatchAt(raw, close, q) ==> Escaped(raw, q)
  {
    var r := FindClose(raw, close, from);
    FindCloseChain(raw, close, from);
    forall q: nat | from <= q && (r.None? || q < r.value) && MatchAt(raw, close, q)
      ensures Escaped(raw, q)
    {
      NothingSteppedOver(raw, close, from, q);
    }
    if r.Some? {
      assert !Escaped(raw, r.value);
    }
  }

  /** No position lies strictly inside a one-character match. */
  lemma {:induction false} NothingSteppedOver(raw: string, close: string, from: nat, q: nat)
    requires |close| == 1
    ensures !SteppedOver(raw, close, from, q)
    decreases |raw| - from
  {
    if from <= |raw| {
      var f := Find(raw, close, from);
      if f.Some? {
        NothingSteppedOver(raw, close, f.value + 1, q);
      }
    }
  }

  /** What one pass of the DELIM loop does from `offset`. */
  datatype DelimMove = Stop | Skip(next: nat) | Record(start: nat, end: nat)

  /**
   * One pass of the DELIM loop. The loop runs while an opening delimiter
   * still fits before the end (when it cannot fit at all the source's size_t
   * bound wraps around, and the first search fails instead, to the same
   * effect). An escaped opening is stepped over; an unterminated one ends the
   * rule; an empty interior moves the offset to the closing delimiter;
   * otherwise the interior is recorded.
   */
  function DelimNext(raw: string, open: string, close: string, offset: nat): (r: DelimMove)
    requires open != [] && close != [] && offset <= |raw|
    ensures r.Skip? ==> offset < r.next <= |raw|
    ensures r.Record? ==>
      && offset + |open| <= r.start < r.end && r.end + |close| <= |raw|
      && MatchAt(raw, open, r.start - |open|) && MatchAt(raw, close, r.end)
  {
    if offset + |open| >= |raw| then Stop
    else match Find(raw, open, offset)
      case None => Stop
      case Some(s0) =>
        if Escaped(raw, s0) then Skip(s0 + |open|)
        else match FindClose(raw, close, s0 + |open|)
          case None => Stop
          case Some(e) => if s0 + |open| == e then Skip(e) else Record(s0 + |open|, e)
  }

  /**
   * What each pass of the DELIM loop decides. A Record's opening delimiter
   * is the leftmost match from `offset` and is not escaped, and its interior
   * runs up to the closing delimiter FindClose returns after it. A Skip steps
   * over the leftmost opening match, which is either escaped or closed at
   * once. A Stop comes when no opening fits, none is left, or the one found
   * is never closed.
   */
  lemma {:induction false} DelimNextMoves(raw: string, open: string, close: string, offset: nat)
    requires open != [] && close != [] && offset <= |raw|
    ensures var m := DelimNext(raw, open, close, offset);
      && (m.Record? ==>
          && Find(raw, open, offset) == Some(m.start - |open|) && !Escaped(raw, m.start - |open|)
          && FindClose(raw, close, m.start) == Some(m.end) && FirstClose(raw, close, m.start, m.end))
      && (m.Skip? ==>
          && Find(raw, open, offset) == Some(m.next - |open|)
          && (Escaped(raw, m.next - |open|) || FindClose(raw, close, m.next) == Some(m.next)))
      && (m.Stop? ==>
          || offset + |open| >= |raw| || Find(raw, open, offset).None?
          || (!Escaped(raw, Find(raw, open, offset).value) && FindClose(raw, close, Find(raw, open, offset).value + |open|).None?))
  {
    var m := DelimNext(raw, open, close, offset);
    if m.Record? {
      DelimRecordMove(raw, open, close, offset, m.start, m.end);
    }
  }

  /** The Record part of DelimNextMoves. */
  lemma {:induction false} DelimRecordMove(raw: string, open: string, close: string, offset: nat, start: nat, e: nat)
    requires open != [] && close != [] && offset <= |raw| && DelimNext(raw, open, close, offset) == Record(start, e)
    ensures Find(raw, open, offset) == Some(start - |open|) && !Escaped(raw, start - |open|)
    ensures FindClose(raw, close, start) == Some(e) && FirstClose(raw, close, start, e)
  {
    var c := FindClose(raw, close, start);
    assert c == Some(e);
    FindCloseIsFirst(raw, close, start, e);
  }

  /**
   * Each recorded instruction is a non-empty interior of `raw`, past
   * `offset`, after an unescaped opening delimiter and up to the closing
   * delimiter FindClose returns.
   */
  ghost predicate DelimFound(raw: string, open: string, close: string, offset: nat, found: seq<Instruction>) {
    forall ins :: ins in found ==> offset + |open| <= ins.start && Interior(raw, open, close, ins)
  }

  /**
   * `ins` covers a non-empty interior of `raw` after an unescaped opening
   * delimiter and up to the closing delimiter FindClose returns (FirstClose),
   * with its text.
   */
  ghost predicate Interior(raw: string, open: string, close: string, ins: Instruction) {
    && |open| <= ins.start < ins.end && ins.end + |close| <= |raw|
    && MatchAt(raw, open, ins.start - |open|) && MatchAt(raw, close, ins.end)
    && !Escaped(raw, ins.start - |open|) && FirstClose(raw, close, ins.start, ins.end)
    && ins.text == raw[ins.start..ins.end]
  }

  /** An interior past a blanked range, with room for escapes, is one of the text itself. */
  lemma {:induction false} InteriorPastBlank(raw: string, i: nat, n: nat, open: string, close: string, ins: Instruction)
    requires i + n <= |raw| && i + n + |close| + |open| <= ins.start && close != [] && open != []
    requires Interior(Blank(raw, i, n), open, close, ins)
    ensures Interior(raw, open, close, ins)
  {
    PastBlank(raw, i, n, open, ins.start - |open|);
    PastBlank(raw, i, n, close, ins.end);
    SlicePastBlank(raw, i, n, ins.start, ins.end);
    EscapedPastBlank(raw, i, n, ins.start - |open|);
    FirstClosePastBlank(raw, i, n, close, ins.start, ins.end);
  }

  /** Where iterating the DELIM loop from `offset` first records an interior (Record), or Stop. */
  ghost function FirstRecord(raw: string, open: string, close: string, offset: nat): (r: DelimMove)
    requires open != [] && close != [] && offset <= |raw|
    ensures !r.Skip?
    ensures r.Record? ==> offset + |open| <= r.start < r.end && r.end + |close| <= |raw|
    decreases |raw| - offset
  {
    match DelimNext(raw, open, close, offset)
    case Skip(next) => FirstRecord(raw, open, close, next)
    case m => m
  }

  /**
   * The interiors the DELIM loop records from `offset`, coloured `c`, with
   * the working copy at the end: iterating DelimNext, each Record is
   * recorded and blanked and the search goes on after its closing delimiter.
   */
  ghost function DelimRecords(raw: string, open: string, close: string, c: nat, offset: nat): (s: Scan)
    requires open != [] && close != [] && offset <= |raw|
    decreases |raw| - offset, 1
  {
    DelimPass(raw, open, close, c, offset)
  }

  /** One pass of the DELIM loop at `offset`, and the passes after it. */
  ghost function DelimPass(raw: string, open: string, close: string, c: nat, offset: nat): (s: Scan)
    requires open != [] && close != [] && offset <= |raw|
    decreases |raw| - offset, 0
  {
    match DelimNext(raw, open, close, offset)
    case Stop => Scan(raw, [])
    case Skip(next) => DelimRecords(raw, open, close, c, next)
    case Record(start, e) => DelimRecordsAfter(raw, open, close, c, start, e)
  }

  /** The interior from `start` to `e` recorded and blanked, then the loop resumed after its closing delimiter. */
  ghost function DelimRecordsAfter(raw: string, open: string, close: string, c: nat, start: nat, e: nat): (s: Scan)
    requires open != [] && close != [] && start <= e && e + |close| <= |raw|
    decreases |raw| - e, 2
  {
    var rest := DelimRecords(Blank(raw, start, e - start), open, close, c, e + |close|);
    Scan(rest.raw, [Instruction(start, e, c, raw[start..e])] + rest.found)
  }

  /**
   * What a DELIM rule leaves: every interior the loop meets, recorded in
   * order, each sound; the working copy is `raw` with exactly those blanked.
   */
  ghost predicate DelimFacts(raw: string, open: string, close: string, offset: nat, s: Scan)
    requires open != [] && close != [] && offset <= |raw|
  {
    && Agrees(s.raw, raw)
    && DelimFound(raw, open, close, offset, s.found)
    && Ascending(s.found)
    && Blanked(s.raw, s.found)
    && OnlyCovered(s.raw, raw, s.found)
  }

  /**
   * A DELIM rule from `offset`, `found` being the instructions recorded
   * before: each recorded interior is looked up in the colour map (an unknown
   * name throws out_of_range: None), recorded with the text of the working
   * copy and blanked, and the search goes on after the closing delimiter.
   * What it appends are the non-empty interiors between an opening delimiter
   * and its closing one, in order and disjoint; each is blanked. Only an
   * unknown colour stops the program.
   */
  function DelimScan(raw: string, open: string, close: string, color: Option<nat>, offset: nat, found: seq<Instruction>): (r: Option<Scan>)
    requires open != [] && close != [] && offset <= |raw|
    ensures r.None? <==> color.None? && FirstRecord(raw, open, close, offset).Record?
    ensures color.Some? ==>
      var d := DelimRecords(raw, open, close, color.value, offset);
      r == Some(Scan(d.raw, found + d.found))
    ensures r.Some? ==> Extends(r.value, found) && DelimFacts(raw, open, close, offset, Added(r.value, found))
    decreases |raw| - offset
  {
    match DelimNext(raw, open, close, offset)
    case Stop =>
      DelimStopFacts(raw, open, close, offset, found);
      DelimRecordsStop(raw, open, close, if color.Some? then color.value else 0, offset, found);
      Some(Scan(raw, found))
    case Skip(next) =>
      var r := DelimScan(raw, open, close, color, next, found);
      DelimSkipFacts(raw, open, close, offset, next, found, r);
      DelimRecordsSkip(raw, open, close, if color.Some? then color.value else 0, offset, next);
      r
    case Record(start, e) =>
      if color.None? then None
      else
        var ins := Instruction(start, e, color.value, raw[start..e]);
        match DelimScan(Blank(raw, start, e - start), open, close, color, e + |close|, found + [ins])
        case None => None
        case Some(s) =>
          DelimRecordFacts(raw, open, close, offset, start, e, found, ins, s);
          DelimRecordsAppend(raw, open, close, offset, start, e, color.value, found, s);
          Some(s)
  }

  /** At a Stop the loop records nothing more and leaves the working copy as it is. */
  lemma {:induction false} DelimRecordsStop(raw: string, open: string, close: string, c: nat, offset: nat, found: seq<Instruction>)
    requires open != [] && close != [] && offset <= |raw| && DelimNext(raw, open, close, offset) == Stop
    ensures var d := DelimRecords(raw, open, close, c, offset); d.raw == raw && found + d.found == found
  {
    assert DelimPass(raw, open, close, c, offset) == Scan(raw, []);
  }

  /** A Skip records nothing: the loop goes on from past the skipped opening. */
  lemma {:induction false} DelimRecordsSkip(raw: string, open: string, close: string, c: nat, offset: nat, next: nat)
    requires open != [] && close != [] && offset <= |raw| && DelimNext(raw, open, close, offset) == Skip(next)
    ensures DelimRecords(raw, open, close, c, offset) == DelimRecords(raw, open, close, c, next)
  {
    assert DelimPass(raw, open, close, c, offset) == DelimRecords(raw, open, close, c, next);
  }

  /** After a Record, DelimRecords is that interior followed by what the loop records from past its closing delimiter. */
  lemma {:induction false} DelimRecordsRecord(raw: string, open: string, close: string, c: nat, offset: nat,
                                              start: nat, e: nat, rest: Scan)
    requires open != [] && close != [] && offset <= |raw| && DelimNext(raw, open, close, offset) == Record(start, e)
    requires rest == DelimRecords(Blank(raw, start, e - start), open, close, c, e + |close|)
    ensures DelimRecords(raw, open, close, c, offset) == Scan(rest.raw, [Instruction(start, e, c, raw[start..e])] + rest.found)
  {
    assert DelimRecordsAfter(raw, open, close, c, start, e) == Scan(rest.raw, [Instruction(start, e, c, raw[start..e])] + rest.found);
  }

  lemma {:induction false} DelimStopFacts(raw: string, open: string, close: string, offset: nat, found: seq<Instruction>)
    requires open != [] && close != [] && offset <= |raw| && DelimNext(raw, open, close, offset) == Stop
    ensures FirstRecord(raw, open, close, offset) == Stop
    ensures DelimFacts(raw, open, close, offset, Added(Scan(raw, found), found))
  {
    assert Added(Scan(raw, found), found).found == [];
  }

  /** A skipped delimiter changes neither where the rule records first nor what it leaves. */
  lemma {:induction false} DelimSkipFacts(raw: string, open: string, close: string, offset: nat, next: nat,
                                          found: seq<Instruction>, r: Option<Scan>)
    requires open != [] && close != [] && offset <= |raw| && DelimNext(raw, open, close, offset) == Skip(next)
    requires r.Some? ==> Extends(r.value, found) && DelimFacts(raw, open, close, next, Added(r.value, found))
    ensures FirstRecord(raw, open, close, offset) == FirstRecord(raw, open, close, next)
    ensures r.Some? ==> Extends(r.value, found) && DelimFacts(raw, open, close, offset, Added(r.value, found))
  {
    FirstRecordSkip(raw, open, close, offset, next);
    if r.Some? {
      var a := Added(r.value, found);
      DelimFoundEarlier(raw, open, close, offset, next, a.found);
    }
  }

  lemma {:induction false} FirstRecordSkip(raw: string, open: string, close: string, offset: nat, next: nat)
    requires open != [] && close != [] && offset <= |raw| && DelimNext(raw, open, close, offset) == Skip(next)
    ensures FirstRecord(raw, open, close, offset) == FirstRecord(raw, open, close, next)
  {
  }

  lemma {:induction false} DelimFoundEarlier(raw: string, open: string, close: string, offset: nat, next: nat, found: seq<Instruction>)
    requires close != [] && offset <= next && DelimFound(raw, open, close, next, found)
    ensures DelimFound(raw, open, close, offset, found)
  {
  }

  /** What the loop records from a Record pass on, after what it had recorded before. */
  lemma {:induction false} DelimRecordsAppend(raw: string, open: string, close: string, offset: nat, start: nat, e: nat,
                                              c: nat, found: seq<Instruction>, s: Scan)
    requires open != [] && close != [] && offset <= |raw| && DelimNext(raw, open, close, offset) == Record(start, e)
    requires var rest := DelimRecords(Blank(raw, start, e - start), open, close, c, e + |close|);
      s == Scan(rest.raw, found + [Instruction(start, e, c, raw[start..e])] + rest.found)
    ensures var d := DelimRecords(raw, open, close, c, offset); s == Scan(d.raw, found + d.found)
  {
    var ins := Instruction(start, e, c, raw[start..e]);
    var rest := DelimRecords(Blank(raw, start, e - start), open, close, c, e + |close|);
    DelimRecordsRecord(raw, open, close, c, offset, start, e, rest);
    assert found + [ins] + rest.found == found + ([ins] + rest.found);
  }

  /** Recording one interior in front of what the rest of the rule records keeps the facts. */
  lemma {:induction false} DelimRecordFacts(raw: string, open: string, close: string, offset: nat, start: nat, e: nat,
                         found: seq<Instruction>, ins: Instruction, s: Scan)
    requires open != [] && close != [] && offset <= |raw| && DelimNext(raw, open, close, offset) == Record(start, e)
    requires ins.start == start && ins.end == e && ins.text == raw[start..e]
    requires Extends(s, found + [ins]) && DelimFacts(Blank(raw, start, e - start), open, close, e + |close|, Added(s, found + [ins]))
    ensures Extends(s, found) && DelimFacts(raw, open, close, offset, Added(s, found))
  {
    var b := Blank(raw, start, e - start);
    AddedOneMore(s, found, ins);
    var tail := Added(s, found).found;
    assert Agrees(b, raw);
    AgreesTrans(s.raw, b, raw);
    DelimNextMoves(raw, open, close, offset);
    assert Interior(raw, open, close, tail[0]);
    DelimStepFound(raw, open, close, offset, start, e, b, tail);
    AscendingCons(tail);
    BlankedCons(s.raw, b, tail);
    OnlyCoveredCons(s.raw, b, raw, tail);
  }

  lemma {:induction false} DelimStepFound(raw: string, open: string, close: string, offset: nat, start: nat, e: nat, b: string, found: seq<Instruction>)
    requires open != [] && close != [] && offset + |open| <= start < e && e + |close| <= |raw|
    requires b == Blank(raw, start, e - start)
    requires |found| > 0 && DelimFound(b, open, close, e + |close|, found[1..])
    requires found[0].start == start && found[0].end == e && Interior(raw, open, close, found[0])
    ensures DelimFound(raw, open, close, offset, found)
    ensures forall ins :: ins in found[1..] ==> found[0].end <= ins.start
  {
    forall ins | ins in found
      ensures offset + |open| <= ins.start && Interior(raw, open, close, ins)
    {
      if ins != found[0] {
        assert ins in found[1..];
        InteriorPastBlank(raw, start, e - start, open, close, ins);
      }
    }
  }

  /** A position escaped in `raw` just past a blanked range is escaped after blanking too. */
  lemma {:induction false} EscapedPastBlank(raw: string, i: nat, n: nat, pos: nat)
    requires i + n < pos <= |raw|
    ensures Escaped(raw, pos) ==> Escaped(Blank(raw, i, n), pos)
  {
  }

  lemma {:induction false} SlicePastBlank(raw: string, i: nat, n: nat, x: nat, y: nat)
    requires i + n <= x <= y <= |raw|
    ensures Blank(raw, i, n)[x..y] == raw[x..y]
  {
    var b := Blank(raw, i, n);
    assert forall k :: x <= k < y ==> b[k] == raw[k];
  }



  /**
   * An unescaped opening delimiter followed at once by an unescaped closing
   * one, such as the pair "" of a string rule, is a Skip past the opening,
   * so (DelimRecordsSkip, FirstRecordSkip) nothing is recorded for it.
   */
  lemma {:induction false} DelimEmptyPair(raw: string, open: string, close: string, offset: nat, s0: nat)
    requires open != [] && close != [] && offset + |open| < |raw|
    requires Find(raw, open, offset) == Some(s0) && !Escaped(raw, s0)
    requires MatchAt(raw, close, s0 + |open|) && !Escaped(raw, s0 + |open|)
    ensures DelimNext(raw, open, close, offset) == Skip(s0 + |open|)
  {
    assert Find(raw, close, s0 + |open|) == Some(s0 + |open|);
  }


}
