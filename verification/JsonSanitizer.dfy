/**
 Repair of JSON text whose string values contain unescaped double quotes. A quote inside a string closes it
 only if the next non-blank character could follow a string; any other unescaped quote gets a backslash.
 */
module JsonSanitizer {
  import opened Sequences

  /** The code points with the Unicode White_Space property. */
  predicate IsWhitespace(c: char) {
    var n := c as int;
    || 0x9 <= n <= 0xD || n == 0x20 || n == 0x85 || n == 0xA0 || n == 0x1680 || 0x2000 <= n <= 0x200A
    || n == 0x2028 || n == 0x2029 || n == 0x202F || n == 0x205F || n == 0x3000
  }

  /** The four blanks of section 2 of RFC 8259 are blank, printable ASCII characters are not. */
  lemma JsonBlanks(c: char)
    ensures c == ' ' || c == '\t' || c == '\n' || c == '\r' ==> IsWhitespace(c)
    ensures '!' <= c <= '~' ==> !IsWhitespace(c)
  {
  }

  /** After optional blanks comes `:`, `,`, `}` or the end of the input. */
  predicate Closes(rest: string) {
    rest == [] || (if IsWhitespace(rest[0]) then Closes(rest[1..]) else rest[0] == ':' || rest[0] == ',' || rest[0] == '}')
  }

  /** From `start` on there are only blanks, or only blanks before a `:`, `,` or `}`. */
  ghost predicate EndsString(s: string, start: nat) {
    || AllBlank(s, start, |s|)
    || exists i: nat :: AllBlank(s, start, i) && start <= i < |s| && (s[i] == ':' || s[i] == ',' || s[i] == '}')
  }

  ghost predicate AllBlank(s: string, start: nat, end: nat) {
    forall j :: start <= j < end && j < |s| ==> IsWhitespace(s[j])
  }

  lemma {:induction false} ClosesIff(s: string, start: nat)
    requires start <= |s|
    ensures Closes(s[start..]) <==> EndsString(s, start)
    decreases |s| - start
  {
    if start < |s| {
      assert s[start..][0] == s[start] && s[start..][1..] == s[start + 1..];
      ClosesIff(s, start + 1);
      if IsWhitespace(s[start]) {
        BlankSkipped(s, start);
      } else {
        NonBlankDecides(s, start);
      }
    }
  }

  lemma BlankSkipped(s: string, start: nat)
    requires start < |s| && IsWhitespace(s[start])
    ensures EndsString(s, start) <==> EndsString(s, start + 1)
  {
    assert forall end: nat :: AllBlank(s, start, end) <==> AllBlank(s, start + 1, end);
    if i: nat :| AllBlank(s, start, i) && start <= i < |s| && (s[i] == ':' || s[i] == ',' || s[i] == '}') {
      assert i != start;
    }
    if i: nat :| AllBlank(s, start + 1, i) && start + 1 <= i < |s| && (s[i] == ':' || s[i] == ',' || s[i] == '}') {
      assert AllBlank(s, start, i);
    }
  }

  lemma NonBlankDecides(s: string, start: nat)
    requires start < |s| && !IsWhitespace(s[start])
    ensures EndsString(s, start) <==> s[start] == ':' || s[start] == ',' || s[start] == '}'
  {
    assert AllBlank(s, start, start);
    if i: nat :| AllBlank(s, start, i) && start <= i < |s| && (s[i] == ':' || s[i] == ',' || s[i] == '}') {
      assert i == start;
    }
  }

  /** `odd` says that an odd number of backslashes directly precedes. */
  function Sanitize(s: string, inString: bool, odd: bool): string {
    if s == [] then []
    else if !inString then [s[0]] + (if s[0] == '"' then Sanitize(s[1..], true, false) else Sanitize(s[1..], false, odd))
    else if s[0] == '\\' then ['\\'] + Sanitize(s[1..], true, !odd)
    else if s[0] != '"' then [s[0]] + Sanitize(s[1..], true, false)
    else if odd then ['"'] + Sanitize(s[1..], true, false)
    else if Closes(s[1..]) then ['"'] + Sanitize(s[1..], false, false)
    else ['\\', '"'] + Sanitize(s[1..], true, false)
  }

  /**
   Strings are read as in section 7 of RFC 8259: an unescaped quote ends a string. Such a quote must be
   followed by something that can follow a string.
   */
  ghost predicate WellDelimited(s: string, inString: bool, odd: bool) {
    if s == [] then true
    else if !inString then (if s[0] == '"' then WellDelimited(s[1..], true, false) else WellDelimited(s[1..], false, odd))
    else if s[0] == '\\' then WellDelimited(s[1..], true, !odd)
    else if s[0] == '"' && !odd then EndsString(s, 1) && WellDelimited(s[1..], false, false)
    else WellDelimited(s[1..], true, false)
  }

  /** `t` is `s` with single backslashes inserted, each directly before a double quote of `s`. */
  ghost predicate QuotesEscaped(s: string, t: string) {
    if s == [] then t == []
    else
      || (t != [] && t[0] == s[0] && QuotesEscaped(s[1..], t[1..]))
      || (|t| >= 2 && t[0] == '\\' && t[1] == '"' && s[0] == '"' && QuotesEscaped(s[1..], t[2..]))
  }

  lemma {:induction false} OnlyQuotesEscaped(s: string, inString: bool, odd: bool)
    ensures QuotesEscaped(s, Sanitize(s, inString, odd))
  {
    if s != [] {
      var t := Sanitize(s, inString, odd);
      OnlyQuotesEscaped(s[1..], true, false);
      OnlyQuotesEscaped(s[1..], true, !odd);
      OnlyQuotesEscaped(s[1..], false, false);
      OnlyQuotesEscaped(s[1..], false, odd);
      if inString && s[0] == '"' && !odd && !Closes(s[1..]) {
        assert t[2..] == Sanitize(s[1..], true, false);
      } else {
        assert t[0] == s[0];
      }
    }
  }

  /** Outside a string the text up to the next quote is copied, so the lookahead sees the same. */
  lemma {:induction false} ClosesIsKept(s: string, odd: bool)
    requires Closes(s)
    ensures Closes(Sanitize(s, false, odd))
  {
    if s != [] && IsWhitespace(s[0]) {
      ClosesIsKept(s[1..], odd);
      assert Sanitize(s, false, odd)[1..] == Sanitize(s[1..], false, odd);
    }
  }

  lemma {:induction false} ResultIsWellDelimited(s: string, inString: bool, odd: bool)
    ensures WellDelimited(Sanitize(s, inString, odd), inString, odd)
  {
    if s != [] {
      var t := Sanitize(s, inString, odd);
      if inString && s[0] == '"' && !odd && !Closes(s[1..]) {
        ResultIsWellDelimited(s[1..], true, false);
        assert t[1..][1..] == Sanitize(s[1..], true, false);
      } else if inString && s[0] == '"' && !odd {
        ResultIsWellDelimited(s[1..], false, false);
        ClosesIsKept(s[1..], false);
        assert t[1..] == Sanitize(s[1..], false, false);
        ClosesIff(t, 1);
      } else if !inString && s[0] != '"' {
        ResultIsWellDelimited(s[1..], false, odd);
        assert t[1..] == Sanitize(s[1..], false, odd);
      } else if inString && s[0] == '\\' {
        ResultIsWellDelimited(s[1..], true, !odd);
        assert t[1..] == Sanitize(s[1..], true, !odd);
      } else {
        ResultIsWellDelimited(s[1..], true, false);
        assert t[1..] == Sanitize(s[1..], true, false);
      }
    }
  }

  lemma {:induction false} NeverShorter(s: string, inString: bool, odd: bool)
    ensures |Sanitize(s, inString, odd)| >= |s|
  {
    if s != [] {
      NeverShorter(s[1..], true, false);
      NeverShorter(s[1..], true, !odd);
      NeverShorter(s[1..], false, false);
      NeverShorter(s[1..], false, odd);
    }
  }

  /** The repair leaves a text alone exactly when it is well delimited. */
  lemma {:induction false} UnchangedIff(s: string, inString: bool, odd: bool)
    ensures Sanitize(s, inString, odd) == s <==> WellDelimited(s, inString, odd)
  {
    if s != [] {
      var rest := s[1..];
      assert s == [s[0]] + rest;
      UnchangedIff(rest, true, false);
      UnchangedIff(rest, true, !odd);
      UnchangedIff(rest, false, false);
      UnchangedIff(rest, false, odd);
      NeverShorter(rest, true, false);
      ClosesIff(s, 1);
      var t := Sanitize(s, inString, odd);
      if inString && s[0] == '"' && !odd && !Closes(rest) {
        assert |t| > |s|;
      } else {
        assert t == [s[0]] + t[1..];
      }
    }
  }

  /** Repairing twice is repairing once. */
  lemma Idempotent(s: string)
    ensures Sanitize(Sanitize(s, false, false), false, false) == Sanitize(s, false, false)
  {
    ResultIsWellDelimited(s, false, false);
    UnchangedIff(Sanitize(s, false, false), false, false);
  }

  /** Looks ahead from `start`: skips blanks and tests the character after them. */
  method ClosesAhead(s: string, start: nat) returns (closes: bool)
    requires start <= |s|
    ensures closes == Closes(s[start..])
    ensures closes <==> EndsString(s, start)
  {
    closes := PeekAfterBlanks(s, start);
    ClosesIff(s, start);
  }

  method PeekAfterBlanks(s: string, start: nat) returns (closes: bool)
    requires start <= |s|
    ensures closes == Closes(s[start..])
  {
    var i := start;
    while i < |s| && IsWhitespace(s[i])
      invariant start <= i <= |s|
      invariant Closes(s[i..]) == Closes(s[start..])
    {
      assert s[i..][1..] == s[i + 1..];
      i := i + 1;
    }
    if i < |s| {
      return s[i] == ':' || s[i] == ',' || s[i] == '}';
    }
    return true;
  }

  /** The scanning loop, with the state of the automaton in `inString` and `backslashCount`. */
  method SanitizeJsonString(s: string) returns (result: string)
    ensures result == Sanitize(s, false, false)
    ensures QuotesEscaped(s, result) && WellDelimited(result, false, false)
  {
    result := [];
    var inString := false;
    var backslashCount: nat := 0;
    for i := 0 to |s|
      invariant Sanitize(s, false, false) == result + Sanitize(s[i..], inString, backslashCount % 2 == 1)
    {
      var c := s[i];
      var pushed := [c];
      ghost var rest := s[i..];
      assert rest[0] == c && rest[1..] == s[i + 1..];
      ghost var owed := Sanitize(rest, inString, backslashCount % 2 == 1);
      if !inString {
        if c == '"' {
          inString := true;
          backslashCount := 0;
        }
      } else if c == '\\' {
        backslashCount := backslashCount + 1;
      } else if c == '"' {
        if backslashCount % 2 == 0 {
          var closes := ClosesAhead(s, i + 1);
          if closes {
            inString := false;
          } else {
            pushed := ['\\', '"'];
          }
        }
        backslashCount := 0;
      } else {
        backslashCount := 0;
      }
      assert owed == pushed + Sanitize(s[i + 1..], inString, backslashCount % 2 == 1);
      ConcatAssociative(result, pushed, Sanitize(s[i + 1..], inString, backslashCount % 2 == 1));
      result := result + pushed;
    }
    OnlyQuotesEscaped(s, false, false);
    ResultIsWellDelimited(s, false, false);
  }
}
