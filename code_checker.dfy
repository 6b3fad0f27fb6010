/**
 * The host side of the per-language checker module (CHECKER.dll): a small
 * state machine over the error enumeration that resolves the library's exports
 * and reads each reply out of a zeroed response buffer.
 */
module CodeChecker {
  import opened Wrappers
  import opened Text

  datatype Error =
    | ALLGOOD | LOADLIBRARY | GETRESPBUFSIZE | GETIDENTIFY | GETCHECKSYNTAX
    | GETQUERY | STRINGERROR | IDENTIFY | CHECKSYNTAX | QUERY

  /** The enumerator's underlying unsigned value. */
  function Code(e: Error): (n: nat)
    ensures n <= 9
    ensures n == 0 <==> e == ALLGOOD
  {
    match e
    case ALLGOOD => 0 case LOADLIBRARY => 1 case GETRESPBUFSIZE => 2
    case GETIDENTIFY => 3 case GETCHECKSYNTAX => 4 case GETQUERY => 5
    case STRINGERROR => 6 case IDENTIFY => 7 case CHECKSYNTAX => 8 case QUERY => 9
  }

  /** Distinct enumerators have distinct numbers. */
  lemma {:induction false} CodeInjective(a: Error, b: Error)
    requires Code(a) == Code(b)
    ensures a == b
  {
  }

  /** errno values of the Microsoft C runtime that signal a string-copy failure. */
  const EINVAL: nat := 22
  const ERANGE: nat := 34
  const STRUNCATE: nat := 80

  const ErrStr: string := "!ERROR!"

  /**
   * A loaded checker library: the exports GetProcAddress can find, and the
   * replies its functions write (CheckSyntax's is keyed by the submitted code,
   * Query's by the code and the query command).
   */
  datatype Module = Module(
    respBufSize: Option<nat>,
    hasIdentify: bool,
    hasCheckSyntax: bool,
    hasQuery: bool,
    identifyReply: seq<char>,
    checkSyntaxReply: string -> seq<char>,
    queryReply: (string, string) -> seq<char>)

  /** The error state that resolving the exports of `m` ends in: the first missing export names it. */
  function Resolution(m: Module): (e: Error)
    ensures e == ALLGOOD <==> m.respBufSize.Some? && m.hasIdentify && m.hasCheckSyntax && m.hasQuery
    ensures e == GETRESPBUFSIZE <==> m.respBufSize.None?
    ensures e == GETIDENTIFY <==> m.respBufSize.Some? && !m.hasIdentify
    ensures e == GETCHECKSYNTAX <==> m.respBufSize.Some? && m.hasIdentify && !m.hasCheckSyntax
    ensures e == GETQUERY <==> m.respBufSize.Some? && m.hasIdentify && m.hasCheckSyntax && !m.hasQuery
  {
    if m.respBufSize.None? then GETRESPBUFSIZE
    else if !m.hasIdentify then GETIDENTIFY
    else if !m.hasCheckSyntax then GETCHECKSYNTAX
    else if !m.hasQuery then GETQUERY
    else ALLGOOD
  }

  /** The `size`-slot zeroed buffer after the module has written `reply` at its start. */
  function Filled(size: nat, reply: seq<char>): (b: seq<char>)
    requires |reply| <= size
    ensures |b| == size && b[..|reply|] == reply
    ensures forall i :: |reply| <= i < size ==> b[i] == '\0'
  {
    reply + seq(size - |reply|, _ => '\0')
  }

  /**
   * The library's side of the protocol: told capacity `cap` for a buffer of
   * `size` slots, it writes at most `cap` characters and leaves a NUL in the buffer.
   */
  predicate Honours(reply: seq<char>, cap: nat, size: nat) {
    |reply| <= cap <= size && (|reply| < size || '\0' in reply)
  }

  lemma {:induction false} UpToNulAt(s: seq<char>, n: nat)
    requires n < |s| && s[n] == '\0' && '\0' !in s[..n]
    ensures UpToNul(s) == s[..n]
  {
    if n > 0 {
      assert s[0] in s[..n];
      assert s[1..][..n - 1] == s[1..n];
      UpToNulAt(s[1..], n - 1);
    }
  }

  /** Zero padding after a reply does not change the text read from it. */
  lemma {:induction false} UpToNulPadding(reply: seq<char>, size: nat)
    requires |reply| <= size
    ensures UpToNul(Filled(size, reply)) == UpToNul(reply)
    decreases |reply|
  {
    var b := Filled(size, reply);
    if reply == [] {
      assert b == [] || b[0] == '\0';
    } else if reply[0] != '\0' {
      assert b[1..] == Filled(size - 1, reply[1..]);
      UpToNulPadding(reply[1..], size - 1);
    }
  }

  /** The position of some NUL in `s`. */
  ghost function NulIndex(s: seq<char>): (i: nat)
    requires '\0' in s
    ensures i < |s| && s[i] == '\0'
  {
    var i :| 0 <= i < |s| && s[i] == '\0'; i
  }

  datatype Reply = Answer(text: string) | Fault(code: nat)

  /** What a reply means: a leading NUL, or no reply at all, is a failure whose code is the second character. */
  function Meaning(reply: seq<char>): Reply {
    if reply == [] || reply[0] == '\0' then Fault(if |reply| >= 2 then reply[1] as nat else 0)
    else Answer(UpToNul(reply))
  }

  /** The error state a failure code leads to, for the operation whose own error is `op`. */
  function FailureState(code: nat, op: Error): (e: Error)
    requires op in {IDENTIFY, CHECKSYNTAX, QUERY}
    ensures e != ALLGOOD
    ensures e == STRINGERROR <==> code in {EINVAL, ERANGE, STRUNCATE}
  {
    if code == EINVAL || code == ERANGE || code == STRUNCATE then STRINGERROR else op
  }

  function FailureText(code: nat): string {
    ErrStr + " - !" + Decimal(code) + "!"
  }

  /**
   * One exchange with the library: a zeroed buffer of `size` slots is allocated,
   * the module writes `reply` into it, and the host reads it back.
   */
  method Exchange(size: nat, reply: seq<char>) returns (rep: Reply)
    requires 2 <= size && Honours(reply, size, size)
    ensures rep == Meaning(reply)
  {
    var buffer := new char[size](_ => '\0');
    // the library's write
    for i := 0 to |reply|
      invariant forall j :: 0 <= j < i ==> buffer[j] == reply[j]
      invariant forall j :: i <= j < size ==> buffer[j] == '\0'
    {
      buffer[i] := reply[i];
    }
    ghost var b := Filled(size, reply);
    assert buffer[..] == b by {
      assert forall j :: 0 <= j < size ==> buffer[j] == b[j];
    }
    if buffer[0] == '\0' {
      return Fault(buffer[1] as nat);
    }
    ghost var z: nat := if |reply| < size then |reply| else NulIndex(reply);
    assert buffer[z] == '\0';
    var n := 0;
    while buffer[n] != '\0'
      invariant n <= z
      invariant forall j :: 0 <= j < n ==> buffer[j] != '\0'
      decreases z - n
    {
      n := n + 1;
    }
    UpToNulAt(buffer[..], n);
    UpToNulPadding(reply, size);
    rep := Answer(buffer[..n]);
  }

  /** The capacity CheckSyntax announces leaves the last slot of the buffer NUL. */
  lemma {:induction false} CheckSyntaxLeavesTerminator(n: nat, reply: seq<char>)
    requires |reply| <= n
    ensures Honours(reply, n, n + 1) && Filled(n + 1, reply)[n] == '\0'
  {
  }

  /** A checker for one submission of `code`; `library` is None when the module failed to load. */
  class Checker {
    const code: string
    const library: Option<Module>
    var errorState: Error
    var respBufSize: nat
    var identifyPtr: bool
    var checkSyntaxPtr: bool
    var queryPtr: bool

    ghost predicate Valid()
      reads this
    {
      && (library.None? ==> errorState == LOADLIBRARY && !identifyPtr)
      && (identifyPtr ==> library.Some? && library.value.hasIdentify && library.value.respBufSize == Some(respBufSize))
      && (checkSyntaxPtr ==> identifyPtr && library.value.hasCheckSyntax)
      && (queryPtr ==> checkSyntaxPtr && library.value.hasQuery)
      && (library.Some? && library.value.respBufSize.None? ==> respBufSize == 0)
      && (errorState == GETRESPBUFSIZE ==> library.Some? && library.value.respBufSize.None?)
    }

    constructor (code: string, library: Option<Module>)
      ensures Valid() && this.code == code && this.library == library
      ensures errorState == if library.None? then LOADLIBRARY else ALLGOOD
      ensures respBufSize == 0 && !identifyPtr && !checkSyntaxPtr && !queryPtr
    {
      this.code := code;
      this.library := library;
      respBufSize := 0;
      identifyPtr, checkSyntaxPtr, queryPtr := false, false, false;
      errorState := ALLGOOD;
      if library.None? {
        errorState := LOADLIBRARY;
      }
    }

    method Init()
      requires Valid()
      modifies this
      ensures Valid()
      ensures old(errorState) != ALLGOOD ==>
        && errorState == old(errorState) && respBufSize == old(respBufSize)
        && identifyPtr == old(identifyPtr) && checkSyntaxPtr == old(checkSyntaxPtr) && queryPtr == old(queryPtr)
      ensures old(errorState) == ALLGOOD ==>
        && library.Some? && errorState == Resolution(library.value)
        && respBufSize == (if library.value.respBufSize.Some? then library.value.respBufSize.value else old(respBufSize))
        && identifyPtr == (library.value.respBufSize.Some? && library.value.hasIdentify)
        && checkSyntaxPtr == (identifyPtr && library.value.hasCheckSyntax)
        && queryPtr == (checkSyntaxPtr && library.value.hasQuery)
    {
      if errorState != ALLGOOD {
        return;
      }
      var m := library.value;
      if m.respBufSize.None? {
        errorState := GETRESPBUFSIZE;
        identifyPtr, checkSyntaxPtr, queryPtr := false, false, false;
        return;
      }
      respBufSize := m.respBufSize.value;
      identifyPtr, checkSyntaxPtr, queryPtr := m.hasIdentify, false, false;
      if !identifyPtr {
        errorState := GETIDENTIFY;
        return;
      }
      checkSyntaxPtr := m.hasCheckSyntax;
      if !checkSyntaxPtr {
        errorState := GETCHECKSYNTAX;
        return;
      }
      queryPtr := m.hasQuery;
      if !queryPtr {
        errorState := GETQUERY;
        return;
      }
    }

    function GetRespBufSize(): (n: nat)
      reads this
      requires Valid()
      ensures errorState == GETRESPBUFSIZE ==> n == 0
      ensures identifyPtr ==> library.value.respBufSize == Some(n)
    {
      if errorState != GETRESPBUFSIZE then respBufSize else 0
    }

    method Identify() returns (r: string)
      requires Valid()
      requires errorState == ALLGOOD ==>
        identifyPtr && respBufSize >= 1 && Honours(library.value.identifyReply, respBufSize + 1, respBufSize + 1)
      modifies this`errorState
      ensures Valid()
      ensures old(errorState) != ALLGOOD ==> r == ErrStr && errorState == old(errorState)
      ensures old(errorState) == ALLGOOD ==>
        match Meaning(library.value.identifyReply)
        case Answer(t) => r == t && errorState == ALLGOOD
        case Fault(c) => r == FailureText(c) && errorState == FailureState(c, IDENTIFY)
    {
      if errorState != ALLGOOD {
        return ErrStr;
      }
      var rep := Exchange(respBufSize + 1, library.value.identifyReply);
      match rep
      case Answer(t) => r := t;
      case Fault(c) =>
        errorState := FailureState(c, IDENTIFY);
        r := FailureText(c);
    }

    method CheckSyntax() returns (r: string)
      requires Valid()
      requires errorState == ALLGOOD ==>
        checkSyntaxPtr && respBufSize >= 1 && Honours(library.value.checkSyntaxReply(code), respBufSize, respBufSize + 1)
      modifies this`errorState
      ensures Valid()
      ensures old(errorState) != ALLGOOD ==> r == ErrStr && errorState == old(errorState)
      ensures old(errorState) == ALLGOOD ==>
        match Meaning(library.value.checkSyntaxReply(code))
        case Answer(t) => r == t && errorState == ALLGOOD
        case Fault(c) => r == FailureText(c) && errorState == FailureState(c, CHECKSYNTAX)
    {
      if errorState != ALLGOOD {
        return ErrStr;
      }
      var rep := Exchange(respBufSize + 1, library.value.checkSyntaxReply(code));
      match rep
      case Answer(t) => r := t;
      case Fault(c) =>
        errorState := FailureState(c, CHECKSYNTAX);
        r := FailureText(c);
    }

    /** Unlike the other two, Query only short-circuits when the Query export itself was missing. */
    method Query(command: string) returns (r: string)
      requires Valid()
      requires errorState != GETQUERY ==>
        queryPtr && respBufSize >= 1 && Honours(library.value.queryReply(code, command), respBufSize + 1, respBufSize + 1)
      modifies this`errorState
      ensures Valid()
      ensures old(errorState) == GETQUERY ==> r == ErrStr && errorState == GETQUERY
      ensures old(errorState) != GETQUERY ==>
        match Meaning(library.value.queryReply(code, command))
        case Answer(t) => r == t && errorState == old(errorState)
        case Fault(c) => r == FailureText(c) && errorState == FailureState(c, QUERY)
    {
      if errorState == GETQUERY {
        return ErrStr;
      }
      var rep := Exchange(respBufSize + 1, library.value.queryReply(code, command));
      match rep
      case Answer(t) => r := t;
      case Fault(c) =>
        errorState := FailureState(c, QUERY);
        r := FailureText(c);
    }
  }
}
