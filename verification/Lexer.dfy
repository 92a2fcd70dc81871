// Tokens of the SQL text. Every function reads a prefix of its argument and
// returns the value read with the text that is left.

module Lexer {
  import opened Common

  datatype Parsed<+T> = Parsed(value: T, rest: string)

  const INT64_MAX: int := 0x7FFF_FFFF_FFFF_FFFF

  // ---- Character classes of the C locale ----

  predicate IsSpace(c: char) { c == ' ' || '\t' <= c <= '\r' }

  predicate IsDigit(c: char) { '0' <= c <= '9' }

  predicate IsAlpha(c: char) { 'a' <= c <= 'z' || 'A' <= c <= 'Z' }

  predicate IsWordChar(c: char) { IsAlpha(c) || IsDigit(c) || c == '_' }

  predicate IsAscii(c: char) { Code(c) <= 127 }

  function UpperChar(c: char): char {
    if 'a' <= c <= 'z' then (c as int - 32) as char else c
  }

  function Upper(s: string): (r: string)
    ensures |r| == |s|
  {
    seq(|s|, i requires 0 <= i < |s| => UpperChar(s[i]))
  }

  const SMALL := "abcdefghijklmnopqrstuvwxyz"

  const LARGE := "ABCDEFGHIJKLMNOPQRSTUVWXYZ"

  lemma Letters(i: nat)
    requires i < 26
    ensures SMALL[i] as int == 'a' as int + i && LARGE[i] as int == 'A' as int + i
  {
  }

  lemma SmallLetters(c: char)
    ensures c in SMALL <==> 'a' <= c <= 'z'
  {
    if c in SMALL {
      var i :| 0 <= i < 26 && SMALL[i] == c;
      Letters(i);
    } else if 'a' <= c <= 'z' {
      Letters(c as int - 'a' as int);
    }
  }

  lemma LargeLetters(c: char)
    ensures c in LARGE <==> 'A' <= c <= 'Z'
  {
    if c in LARGE {
      var i :| 0 <= i < 26 && LARGE[i] == c;
      Letters(i);
    } else if 'A' <= c <= 'Z' {
      Letters(c as int - 'A' as int);
    }
  }

  /** The classes, character by character, and what toupper makes of each. */
  lemma CharacterClasses(c: char)
    ensures IsSpace(c) <==> c in [' ', '\t', '\n', '\U{000B}', '\U{000C}', '\r']
    ensures IsDigit(c) <==> c in "0123456789"
    ensures IsAlpha(c) <==> c in SMALL || c in LARGE
    ensures IsWordChar(c) <==> c in SMALL || c in LARGE || c in "0123456789" || c == '_'
    ensures c !in SMALL ==> UpperChar(c) == c
  {
    SmallLetters(c);
    LargeLetters(c);
    if IsDigit(c) {
      assert "0123456789"[c as int - '0' as int] == c;
    }
  }

  lemma ToUpper(i: nat)
    requires i < 26
    ensures UpperChar(SMALL[i]) == LARGE[i]
  {
    Letters(i);
  }

  // ---- White space and words ----

  function SkipSpaces(s: string): (r: string)
    ensures |r| <= |s|
    ensures r != "" ==> !IsSpace(r[0])
    ensures s != "" && !IsSpace(s[0]) ==> r == s
  {
    if s != "" && IsSpace(s[0]) then SkipSpaces(s[1..]) else s
  }

  /** Length of the longest prefix of letters, digits and underscores. */
  function WordLength(s: string): (n: nat)
    ensures n <= |s|
    ensures forall i :: 0 <= i < n ==> IsWordChar(s[i])
    ensures n < |s| ==> !IsWordChar(s[n])
  {
    if s == "" || !IsWordChar(s[0]) then 0 else 1 + WordLength(s[1..])
  }

  predicate StartsIdent(s: string) { s != "" && (IsAlpha(s[0]) || s[0] == '_') }

  predicate IsIdent(s: string) { StartsIdent(s) && forall i :: 0 <= i < |s| ==> IsWordChar(s[i]) }

  /** One identifier, or two joined by a dot. */
  predicate IsName(s: string) {
    IsIdent(AliasPart(s)) && (Qualified(s) ==> IsIdent(BareName(s)))
  }

  /** Whether the next word is the keyword in any case; a failed attempt leaves the
      text just past white space. */
  function TryKeyword(kw: string, s: string): (r: Parsed<bool>)
    ensures |r.rest| <= |s|
    ensures r.value && kw != "" ==> |r.rest| < |s|
  {
    var t := SkipSpaces(s);
    if Upper(t[..WordLength(t)]) == kw then Parsed(true, t[WordLength(t)..]) else Parsed(false, t)
  }

  function ExpectKeyword(kw: string, s: string): (r: Result<string>)
    ensures r.Ok? ==> |r.value| <= |s| && (kw != "" ==> |r.value| < |s|)
  {
    var k := TryKeyword(kw, s);
    if k.value then Ok(k.rest) else Err(SyntaxError)
  }

  function ExpectChar(c: char, s: string): (r: Result<string>)
    ensures r.Ok? ==> |r.value| < |s|
  {
    var t := SkipSpaces(s);
    if t != "" && t[0] == c then Ok(t[1..]) else Err(SyntaxError)
  }

  function ReadIdent(s: string): (r: Result<Parsed<string>>)
    ensures r.Ok? ==> |r.value.rest| < |s|
    ensures r.Err? ==> r.error == SyntaxError
  {
    var t := SkipSpaces(s);
    if StartsIdent(t) then Ok(Parsed(t[..WordLength(t)], t[WordLength(t)..])) else Err(SyntaxError)
  }

  /** The optional dot and second identifier. */
  function ReadQualifier(first: string, s: string): (r: Result<Parsed<string>>)
    ensures r.Ok? ==> |r.value.rest| <= |s|
  {
    var t := SkipSpaces(s);
    if t == "" || t[0] != '.' then Ok(Parsed(first, t))
    else
      var second := ReadIdent(t[1..]);
      if second.Err? then second else Ok(Parsed(first + "." + second.value.value, second.value.rest))
  }

  function ReadName(s: string): (r: Result<Parsed<string>>)
    ensures r.Ok? ==> |r.value.rest| < |s|
  {
    var first := ReadIdent(s);
    if first.Err? then first else ReadQualifier(first.value.value, first.value.rest)
  }

  // ---- Integers ----

  function DigitsLength(s: string): (n: nat)
    ensures n <= |s|
    ensures forall i :: 0 <= i < n ==> IsDigit(s[i])
    ensures n < |s| ==> !IsDigit(s[n])
  {
    if s == "" || !IsDigit(s[0]) then 0 else 1 + DigitsLength(s[1..])
  }

  predicate AllDigits(s: string) { forall i :: 0 <= i < |s| ==> IsDigit(s[i]) }

  /** The decimal value of a digit string. */
  function DigitsValue(s: string): nat
    requires AllDigits(s)
  {
    if s == "" then 0 else 10 * DigitsValue(s[..|s| - 1]) + (s[|s| - 1] as int - '0' as int)
  }

  function InInt64(v: int, rest: string): Result<Parsed<int>> {
    if -INT64_MAX <= v <= INT64_MAX then Ok(Parsed(v, rest)) else Err(IntegerOverflow)
  }

  /** Digits are accumulated without a sign in 64 bits, so a magnitude beyond
      2^63 - 1 overflows even when the signed value would fit. */
  function ReadDigits(neg: bool, s: string): (r: Result<Parsed<int>>)
    ensures r.Ok? ==> |r.value.rest| < |s|
    ensures r.Ok? ==> -INT64_MAX <= r.value.value <= INT64_MAX
  {
    var n := DigitsLength(s);
    if n == 0 then Err(SyntaxError)
    else
      var v: int := DigitsValue(s[..n]);
      InInt64(if neg then -v else v, s[n..])
  }

  function ReadInt(s: string): (r: Result<Parsed<int>>)
    ensures r.Ok? ==> |r.value.rest| < |s|
    ensures r.Ok? ==> -INT64_MAX <= r.value.value <= INT64_MAX
  {
    var t := SkipSpaces(s);
    if t != "" && t[0] == '-' then ReadDigits(true, t[1..]) else ReadDigits(false, t)
  }

  // ---- String literals ----

  function PushFront(c: char, r: Result<Parsed<string>>): Result<Parsed<string>> {
    if r.Err? then r else Ok(Parsed([c] + r.value.value, r.value.rest))
  }

  /** The text after an opening quote, up to the closing one. */
  function ReadQuoted(s: string): (r: Result<Parsed<string>>)
    ensures r.Ok? ==> |r.value.rest| < |s|
  {
    if s == "" then Err(SyntaxError)
    else if s[0] == '\'' then
      if |s| > 1 && s[1] == '\'' then PushFront('\'', ReadQuoted(s[2..])) else Ok(Parsed("", s[1..]))
    else if !IsAscii(s[0]) then Err(SyntaxError)
    else PushFront(s[0], ReadQuoted(s[1..]))
  }

  function ReadString(s: string): (r: Result<Parsed<string>>)
    ensures r.Ok? ==> |r.value.rest| < |s|
  {
    var t := SkipSpaces(s);
    if t == "" || t[0] != '\'' then Err(SyntaxError) else ReadQuoted(t[1..])
  }

  // ---- What reading undoes ----

  lemma {:induction false} SkipOneSpace(s: string)
    ensures SkipSpaces(" " + s) == SkipSpaces(s)
  {
    assert (" " + s)[1..] == s;
  }

  predicate EndsWord(rest: string) { rest == "" || !IsWordChar(rest[0]) }

  lemma WordRead(w: string, rest: string)
    requires (forall i :: 0 <= i < |w| ==> IsWordChar(w[i])) && EndsWord(rest)
    ensures WordLength(w + rest) == |w|
    ensures (w + rest)[..|w|] == w && (w + rest)[|w|..] == rest
  {
  }

  lemma IdentRead(w: string, rest: string)
    requires IsIdent(w) && EndsWord(rest)
    ensures ReadIdent(w + rest) == Ok(Parsed(w, rest))
  {
    WordRead(w, rest);
    assert (w + rest)[0] == w[0];
  }

  lemma Regroup(a: string, b: string, c: string, d: string)
    ensures a + b + c + d == a + (b + c + d)
  {
  }

  lemma QualifierRead(first: string, bare: string, rest: string)
    requires IsIdent(bare) && EndsWord(rest)
    ensures ReadQualifier(first, "." + bare + rest) == Ok(Parsed(first + "." + bare, rest))
  {
    var dotted := "." + bare + rest;
    assert dotted[1..] == bare + rest;
    IdentRead(bare, rest);
  }

  lemma TwoIdentsRead(alias: string, bare: string, rest: string)
    requires IsIdent(alias) && IsIdent(bare) && EndsWord(rest)
    ensures ReadName(alias + ("." + bare + rest)) == Ok(Parsed(alias + "." + bare, rest))
  {
    IdentRead(alias, "." + bare + rest);
    QualifierRead(alias, bare, rest);
  }

  /** A name reads back as itself, when what follows neither continues the word nor,
      after white space, starts with a dot. */
  lemma NameRead(name: string, rest: string)
    requires IsName(name) && EndsWord(rest)
    requires var t := SkipSpaces(rest); t == "" || t[0] != '.'
    ensures ReadName(name + rest) == Ok(Parsed(name, if Qualified(name) then rest else SkipSpaces(rest)))
  {
    if Qualified(name) {
      var alias, bare := AliasPart(name), BareName(name);
      TwoIdentsRead(alias, bare, rest);
      DottedName(name);
      Regroup(alias, ".", bare, rest);
    } else {
      assert AliasPart(name) == name;
      IdentRead(name, rest);
    }
  }

  function Digit(d: nat): char
    requires d < 10
  {
    ('0' as int + d) as char
  }

  /** std::to_string of a natural number. */
  function Decimal(n: nat): (s: string)
    ensures s != "" && AllDigits(s)
  {
    if n < 10 then [Digit(n)] else Decimal(n / 10) + [Digit(n % 10)]
  }

  function IntText(v: int): string { if v < 0 then "-" + Decimal(-v) else Decimal(v) }

  lemma {:induction false} DecimalValue(n: nat)
    ensures DigitsValue(Decimal(n)) == n
  {
    if n >= 10 {
      DecimalValue(n / 10);
      assert Decimal(n)[..|Decimal(n)| - 1] == Decimal(n / 10);
    } else {
      assert Decimal(n)[..0] == "";
    }
  }

  lemma DigitsRead(w: string, rest: string)
    requires AllDigits(w) && (rest == "" || !IsDigit(rest[0]))
    ensures DigitsLength(w + rest) == |w|
    ensures (w + rest)[..|w|] == w && (w + rest)[|w|..] == rest
  {
  }

  lemma MagnitudeRead(neg: bool, digits: string, rest: string)
    requires digits != "" && AllDigits(digits) && (rest == "" || !IsDigit(rest[0]))
    ensures ReadDigits(neg, digits + rest) ==
      InInt64(if neg then -(DigitsValue(digits) as int) else DigitsValue(digits), rest)
  {
    DigitsRead(digits, rest);
  }

  lemma SignedRead(neg: bool, digits: string, rest: string)
    requires digits != "" && AllDigits(digits)
    ensures ReadInt((if neg then "-" else "") + digits + rest) == ReadDigits(neg, digits + rest)
  {
    var text := (if neg then "-" else "") + digits + rest;
    if neg {
      assert text[1..] == digits + rest;
    } else {
      assert text == digits + rest && text[0] == digits[0];
    }
  }

  /** A printed integer reads back as itself exactly when its magnitude is at most
      2^63 - 1; INT64_MIN is printed but cannot be read. */
  lemma IntRead(v: int, rest: string)
    requires rest == "" || !IsDigit(rest[0])
    ensures ReadInt(IntText(v) + rest) ==
      if -INT64_MAX <= v <= INT64_MAX then Ok(Parsed(v, rest)) else Err(IntegerOverflow)
  {
    var n: nat := if v < 0 then -v else v;
    var digits := Decimal(n);
    DecimalValue(n);
    SignedRead(v < 0, digits, rest);
    MagnitudeRead(v < 0, digits, rest);
    assert IntText(v) == (if v < 0 then "-" else "") + digits;
  }

  function DoubleQuotes(s: string): string {
    if s == "" then ""
    else (if s[0] == '\'' then "''" else [s[0]]) + DoubleQuotes(s[1..])
  }

  predicate AllAscii(s: string) { forall i :: 0 <= i < |s| ==> IsAscii(s[i]) }

  /** Reading a string literal undoes quote doubling, for every ASCII string that is
      not followed by another quote. */
  lemma {:induction false} QuotedRead(s: string, rest: string)
    requires AllAscii(s) && (rest == "" || rest[0] != '\'')
    ensures ReadQuoted(DoubleQuotes(s) + "'" + rest) == Ok(Parsed(s, rest))
  {
    var text := DoubleQuotes(s) + "'" + rest;
    if s == "" {
      assert text == "'" + rest;
      assert text[1..] == rest;
    } else {
      QuotedRead(s[1..], rest);
      var tail := DoubleQuotes(s[1..]) + "'" + rest;
      assert s == [s[0]] + s[1..];
      if s[0] == '\'' {
        assert text == "''" + tail && text[2..] == tail;
      } else {
        assert text == [s[0]] + tail && text[1..] == tail;
      }
    }
  }

  // ---- Quotes ----

  function Quotes(s: string): nat {
    if s == "" then 0 else (if s[0] == '\'' then 1 else 0) + Quotes(s[1..])
  }

  lemma {:induction false} QuotesConcat(a: string, b: string)
    ensures Quotes(a + b) == Quotes(a) + Quotes(b)
  {
    if a == "" {
      assert a + b == b;
    } else {
      QuotesConcat(a[1..], b);
      assert (a + b)[1..] == a[1..] + b;
    }
  }

  lemma {:induction false} NoQuotesIn(s: string)
    ensures Quotes(s) == 0 <==> '\'' !in s
  {
    if s != "" {
      NoQuotesIn(s[1..]);
      assert s == [s[0]] + s[1..];
    }
  }

  lemma QuotesSplit(s: string, k: nat)
    requires k <= |s|
    ensures Quotes(s) == Quotes(s[..k]) + Quotes(s[k..])
  {
    QuotesConcat(s[..k], s[k..]);
    assert s == s[..k] + s[k..];
  }

  lemma {:induction false} WithoutQuotes(s: string)
    requires '\'' !in s
    ensures DoubleQuotes(s) == s
  {
    if s != "" {
      WithoutQuotes(s[1..]);
      assert s == [s[0]] + s[1..];
    }
  }
}
