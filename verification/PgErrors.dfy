/** Classification of database errors: which ones the transaction wrapper may retry. */
module PgErrors {
  import opened Wrappers

  const VERSION_CONFLICT := "VERSION_CONFLICT"
  const TIMEOUT := "TIMEOUT"
  const INTERNAL_ERROR := "INTERNAL_ERROR"
  const DUPLICATE_REFERENCE := "DUPLICATE_REFERENCE"
  const INVALID_REQUEST := "INVALID_REQUEST"

  /** A server error: SQLSTATE and message. */
  datatype PgError = PgError(code: string, message: string)

  /** `domain.Error`, without its HTTP status. */
  datatype DomainError = DomainError(code: string, detail: string) {
    predicate IsRetriable() {
      code == VERSION_CONFLICT
    }
  }

  /** What an error chain contains, as errors.As and errors.Is find it. */
  datatype GoError = GoError(domain: Option<DomainError>, deadline: bool, canceled: bool, pg: Option<PgError>)

  function IndexByte(s: string, c: char): (i: int)
    ensures -1 <= i < |s|
    ensures i >= 0 ==> s[i] == c && c !in s[..i]
    ensures i < 0 ==> c !in s
  {
    if s == [] then -1
    else if s[0] == c then 0
    else
      var i := IndexByte(s[1..], c);
      if i < 0 then -1 else
        assert s[..i + 1] == [s[0]] + s[1..][..i];
        i + 1
  }

  /** unicode.IsSpace. */
  predicate IsSpace(c: char) {
    || c in "\t\n\U{0B}\U{0C}\r \U{85}\U{A0}\U{1680}\U{2028}\U{2029}\U{202F}\U{205F}\U{3000}"
    || '\U{2000}' <= c <= '\U{200A}'
  }

  function TrimLeft(s: string): string {
    if s != [] && IsSpace(s[0]) then TrimLeft(s[1..]) else s
  }

  function TrimRight(s: string): string {
    if s != [] && IsSpace(s[|s| - 1]) then TrimRight(s[..|s| - 1]) else s
  }

  function TrimSpace(s: string): string {
    TrimRight(TrimLeft(s))
  }

  /** `parseSPMessage`: the token before the first colon is the code; without a colon the whole
      message is, untrimmed. */
  function ParseSpMessage(msg: string): (string, string) {
    var i := IndexByte(msg, ':');
    if i < 0 then (msg, "") else (TrimSpace(msg[..i]), TrimSpace(msg[i + 1..]))
  }

  predicate HasPrefix(s: string, prefix: string) {
    |prefix| <= |s| && s[..|prefix|] == prefix
  }

  function Internal(): DomainError {
    DomainError(INTERNAL_ERROR, "internal server error")
  }

  function MapPgError(e: GoError): DomainError {
    if e.domain.Some? then e.domain.value
    else if e.deadline then DomainError(TIMEOUT, "request deadline exceeded")
    else if e.canceled then DomainError(TIMEOUT, "request canceled by client")
    else if e.pg.None? then Internal()
    else MapServerError(e.pg.value)
  }

  function MapServerError(pg: PgError): DomainError {
    var (code, detail) := ParseSpMessage(pg.message);
    if pg.code == "40001" then DomainError(VERSION_CONFLICT, "version conflict: " + detail)
    else if pg.code == "40P01" then DomainError(VERSION_CONFLICT, "deadlock detected: " + detail)
    else if pg.code == "55P03" then DomainError(TIMEOUT, "lock timeout: " + detail)
    else if pg.code == "57014" then DomainError(TIMEOUT, "statement timeout: " + detail)
    else if pg.code == "23505" then DomainError(DUPLICATE_REFERENCE, "duplicate reference: " + detail)
    else if pg.code == "23503" then DomainError(INVALID_REQUEST, "foreign key violation: " + detail)
    else if pg.code == "23514" then DomainError(INVALID_REQUEST, "check violation: " + detail)
    else if code == "" || !HasPrefix(pg.code, "P0") then Internal()
    else DomainError(code, detail)
  }

  /** SQLSTATEs after which the server has certainly rolled the transaction back: serialization
      failure, deadlock, and errors raised by PL/pgSQL. */
  predicate DefiniteAbort(pg: PgError) {
    pg.code == "40001" || pg.code == "40P01" || HasPrefix(pg.code, "P0")
  }

  // ----- What a message says ---------------------------------------------------------------

  predicate AllSpace(s: string) {
    forall i :: 0 <= i < |s| ==> IsSpace(s[i])
  }

  /** The white space characters by code point. */
  lemma IsSpaceExactly(c: char)
    ensures IsSpace(c)
            <==> var n := c as int;
                 || 9 <= n <= 13 || n == 32 || n == 0x85 || n == 0xA0 || n == 0x1680 || 0x2000 <= n <= 0x200A
                 || n == 0x2028 || n == 0x2029 || n == 0x202F || n == 0x205F || n == 0x3000
  {
  }

  /** `t` is `s` without the white space at its ends. */
  ghost predicate Trimmed(s: string, t: string) {
    && (t == "" || (!IsSpace(t[0]) && !IsSpace(t[|t| - 1])))
    && exists a, b :: s == a + t + b && AllSpace(a) && AllSpace(b)
  }

  lemma {:induction false} LeftEnd(s: string) returns (a: string)
    ensures s == a + TrimLeft(s) && AllSpace(a)
    ensures TrimLeft(s) == "" || !IsSpace(TrimLeft(s)[0])
  {
    hide IsSpace;
    if s != [] && IsSpace(s[0]) {
      a := LeftEnd(s[1..]);
      a := [s[0]] + a;
      assert s == [s[0]] + s[1..];
    } else {
      a := "";
    }
  }

  lemma {:induction false} RightEnd(s: string) returns (b: string)
    ensures s == TrimRight(s) + b && AllSpace(b)
    ensures TrimRight(s) == "" || !IsSpace(TrimRight(s)[|TrimRight(s)| - 1])
  {
    hide IsSpace;
    if s != [] && IsSpace(s[|s| - 1]) {
      b := RightEnd(s[..|s| - 1]);
      b := b + [s[|s| - 1]];
      assert s == s[..|s| - 1] + [s[|s| - 1]];
    } else {
      b := "";
    }
  }

  lemma {:induction false} DropLeft(a: string, s: string)
    requires AllSpace(a)
    ensures TrimLeft(a + s) == TrimLeft(s)
  {
    hide IsSpace;
    if a == "" {
      assert a + s == s;
    } else {
      assert (a + s)[1..] == a[1..] + s;
      DropLeft(a[1..], s);
    }
  }

  lemma {:induction false} DropRight(s: string, b: string)
    requires AllSpace(b)
    ensures TrimRight(s + b) == TrimRight(s)
  {
    hide IsSpace;
    if b == "" {
      assert s + b == s;
    } else {
      assert (s + b)[..|s + b| - 1] == s + b[..|b| - 1];
      DropRight(s, b[..|b| - 1]);
    }
  }

  /** TrimSpace removes all the white space at both ends and nothing else. */
  lemma TrimSpaceExactly(s: string, t: string)
    ensures TrimSpace(s) == t <==> Trimmed(s, t)
  {
    hide IsSpace;
    hide TrimLeft;
    hide TrimRight;
    var a := LeftEnd(s);
    var b := RightEnd(TrimLeft(s));
    var u := TrimSpace(s);
    assert s == a + u + b;
    if u != "" {
      assert TrimLeft(s)[0] == u[0];
    }
    assert Trimmed(s, u);
    if Trimmed(s, t) {
      var a', b' :| s == a' + t + b' && AllSpace(a') && AllSpace(b');
      BetweenSpaces(a', t, b');
    }
  }

  lemma BetweenSpaces(a: string, t: string, b: string)
    requires AllSpace(a) && AllSpace(b) && (t == "" || (!IsSpace(t[0]) && !IsSpace(t[|t| - 1])))
    ensures TrimSpace(a + t + b) == t
  {
    hide IsSpace;
    assert a + t + b == a + (t + b);
    DropLeft(a, t + b);
    if t == "" {
      DropLeft(b, "");
      assert t + b == b + "";
    } else {
      DropRight(t, b);
    }
  }

  /** The code and the detail of a server message: what stands before and after its first colon,
      trimmed; without a colon all of it is the code, as it is. */
  ghost predicate Parsed(msg: string, code: string, detail: string) {
    || (':' !in msg && code == msg && detail == "")
    || exists head, tail :: msg == head + ":" + tail && ':' !in head && Trimmed(head, code) && Trimmed(tail, detail)
  }

  lemma ParsedExactly(msg: string, code: string, detail: string)
    ensures ParseSpMessage(msg) == (code, detail) <==> Parsed(msg, code, detail)
  {
    var i := IndexByte(msg, ':');
    if i >= 0 {
      assert msg == msg[..i] + ":" + msg[i + 1..];
      TrimSpaceExactly(msg[..i], code);
      TrimSpaceExactly(msg[i + 1..], detail);
      forall head, tail | msg == head + ":" + tail && ':' !in head ensures head == msg[..i] && tail == msg[i + 1..] {
        FirstColon(head, tail);
        assert (head + ":" + tail)[|head| + 1..] == tail;
      }
    } else {
      forall head, tail ensures ':' in head + ":" + tail {
        assert (head + ":" + tail)[|head|] == ':';
      }
    }
  }

  /** Every server error and what it becomes: code and detail, by SQLSTATE. A code raised by
      PL/pgSQL is passed on, unless it is empty. */
  lemma ServerErrorTable(pg: PgError, code: string, detail: string)
    requires Parsed(pg.message, code, detail)
    ensures MapServerError(pg)
            == match pg.code
               case "40001" => DomainError("VERSION_CONFLICT", "version conflict: " + detail)
               case "40P01" => DomainError("VERSION_CONFLICT", "deadlock detected: " + detail)
               case "55P03" => DomainError("TIMEOUT", "lock timeout: " + detail)
               case "57014" => DomainError("TIMEOUT", "statement timeout: " + detail)
               case "23505" => DomainError("DUPLICATE_REFERENCE", "duplicate reference: " + detail)
               case "23503" => DomainError("INVALID_REQUEST", "foreign key violation: " + detail)
               case "23514" => DomainError("INVALID_REQUEST", "check violation: " + detail)
               case _ =>
                 if |pg.code| >= 2 && pg.code[..2] == "P0" && code != "" then DomainError(code, detail)
                 else DomainError("INTERNAL_ERROR", "internal server error")
  {
    ParsedExactly(pg.message, code, detail);
  }

  /** What every other error becomes: a domain error is passed through first, then the context's
      own errors count, and without a server error nothing is told. */
  lemma OtherErrorsTable(e: GoError)
    ensures e.domain.Some? ==> MapPgError(e) == e.domain.value
    ensures e.domain.None? && e.deadline ==> MapPgError(e) == DomainError("TIMEOUT", "request deadline exceeded")
    ensures e.domain.None? && !e.deadline && e.canceled ==>
              MapPgError(e) == DomainError("TIMEOUT", "request canceled by client")
    ensures e.domain.None? && !e.deadline && !e.canceled ==>
              MapPgError(e) == if e.pg.Some? then MapServerError(e.pg.value)
                               else DomainError("INTERNAL_ERROR", "internal server error")
  {
  }

  /** The message names VERSION_CONFLICT: alone, or before the first colon up to white space. */
  ghost predicate NamesVersionConflict(msg: string) {
    || msg == "VERSION_CONFLICT"
    || exists head, tail :: msg == head + ":" + tail && ':' !in head && Trimmed(head, "VERSION_CONFLICT")
  }

  lemma {:induction false} FirstColon(head: string, tail: string)
    requires ':' !in head
    ensures IndexByte(head + ":" + tail, ':') == |head|
  {
    if head == "" {
      assert ("" + ":" + tail)[0] == ':';
    } else {
      FirstColon(head[1..], tail);
      assert (head + ":" + tail)[1..] == head[1..] + ":" + tail;
    }
  }

  lemma NoColonInCode()
    ensures ':' !in VERSION_CONFLICT
  {
  }

  lemma ParsedVersionConflict(msg: string)
    ensures ParseSpMessage(msg).0 == VERSION_CONFLICT <==> NamesVersionConflict(msg)
  {
    NoColonInCode();
    var i := IndexByte(msg, ':');
    if i >= 0 {
      assert msg == msg[..i] + ":" + msg[i + 1..];
      TrimSpaceExactly(msg[..i], VERSION_CONFLICT);
      forall head, tail | msg == head + ":" + tail && ':' !in head ensures head == msg[..i] {
        FirstColon(head, tail);
      }
    } else {
      forall head, tail ensures ':' in head + ":" + tail {
        assert (head + ":" + tail)[|head|] == ':';
      }
    }
  }

  lemma CodesDiffer()
    ensures TIMEOUT != VERSION_CONFLICT && INTERNAL_ERROR != VERSION_CONFLICT
    ensures DUPLICATE_REFERENCE != VERSION_CONFLICT && INVALID_REQUEST != VERSION_CONFLICT
  {
    assert |TIMEOUT| == 7 && |INTERNAL_ERROR| == 14 && |DUPLICATE_REFERENCE| == 19 && |INVALID_REQUEST| == 15;
    assert |VERSION_CONFLICT| == 16;
  }

  const LISTED: seq<string> := ["55P03", "57014", "23505", "23503", "23514"]

  lemma ListedCodesAreNotRaised(code: string)
    requires code in LISTED
    ensures !HasPrefix(code, "P0") && code != "40001" && code != "40P01"
  {
    assert code[0] != 'P' && code[0] != '4';
  }

  lemma ServerErrorRetriable(pg: PgError)
    ensures MapServerError(pg).code == VERSION_CONFLICT
            <==> pg.code == "40001" || pg.code == "40P01"
                 || (HasPrefix(pg.code, "P0") && ParseSpMessage(pg.message).0 == VERSION_CONFLICT)
  {
    CodesDiffer();
    if pg.code in LISTED {
      ListedCodesAreNotRaised(pg.code);
    }
  }

  /** Exactly which errors are retried: a domain VERSION_CONFLICT from the callback, or a server
      error that is no timeout and is 40001, 40P01, or a raised P0 error naming VERSION_CONFLICT. */
  lemma RetriableExactly(e: GoError)
    ensures MapPgError(e).IsRetriable()
            <==> if e.domain.Some? then e.domain.value.code == "VERSION_CONFLICT"
                 else !e.deadline && !e.canceled && e.pg.Some?
                      && (e.pg.value.code == "40001" || e.pg.value.code == "40P01"
                          || (|e.pg.value.code| >= 2 && e.pg.value.code[..2] == "P0"
                              && NamesVersionConflict(e.pg.value.message)))
  {
    hide ParseSpMessage;
    hide NamesVersionConflict;
    hide MapServerError;
    CodesDiffer();
    if e.pg.Some? {
      ServerErrorRetriable(e.pg.value);
      ParsedVersionConflict(e.pg.value.message);
    }
  }

  /** An error after which a call may be run again, and what its answer to the caller is. */
  ghost predicate IsConflict(e: GoError) {
    if e.domain.Some? then e.domain.value.code == "VERSION_CONFLICT"
    else
      && !e.deadline && !e.canceled && e.pg.Some?
      && (e.pg.value.code == "40001" || e.pg.value.code == "40P01"
          || (|e.pg.value.code| >= 2 && e.pg.value.code[..2] == "P0" && NamesVersionConflict(e.pg.value.message)))
  }

  /** The public code of an error, from the error alone. */
  ghost predicate HasCode(e: GoError, code: string) {
    if e.domain.Some? then code == e.domain.value.code
    else if e.deadline || e.canceled then code == "TIMEOUT"
    else if e.pg.None? then code == "INTERNAL_ERROR"
    else match e.pg.value.code
      case "40001" => code == "VERSION_CONFLICT"
      case "40P01" => code == "VERSION_CONFLICT"
      case "55P03" => code == "TIMEOUT"
      case "57014" => code == "TIMEOUT"
      case "23505" => code == "DUPLICATE_REFERENCE"
      case "23503" => code == "INVALID_REQUEST"
      case "23514" => code == "INVALID_REQUEST"
      case _ =>
        exists raised, detail :: Parsed(e.pg.value.message, raised, detail)
          && code == if |e.pg.value.code| >= 2 && e.pg.value.code[..2] == "P0" && raised != "" then raised
                     else "INTERNAL_ERROR"
  }

  /** The mapped error carries the code of the error it was made from. */
  lemma CodeExactly(e: GoError, code: string)
    ensures MapPgError(e).code == code <==> HasCode(e, code)
  {
    OtherErrorsTable(e);
    if e.pg.Some? {
      var (raised, detail) := ParseSpMessage(e.pg.value.message);
      ParsedExactly(e.pg.value.message, raised, detail);
      ServerErrorTable(e.pg.value, raised, detail);
      forall c, d | Parsed(e.pg.value.message, c, d) ensures c == raised {
        ParsedExactly(e.pg.value.message, c, d);
      }
    }
  }

  /** A server error that is retried has definitely been rolled back. */
  lemma RetriableServerErrorsAborted(e: GoError)
    requires e.domain.None? && MapPgError(e).IsRetriable()
    ensures e.pg.Some? && DefiniteAbort(e.pg.value)
  {
    RetriableExactly(e);
  }

  /** No leak: outside the listed SQLSTATEs and the P0 class the result does not depend on the
      server's text. */
  lemma ForeignErrorsAreOpaque(pg: PgError)
    requires pg.code !in LISTED && pg.code != "40001" && pg.code != "40P01"
    requires !HasPrefix(pg.code, "P0")
    ensures MapServerError(pg) == Internal()
  {
  }
}
