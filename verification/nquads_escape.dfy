/** Reading back what Escape wrote (turtle/escape.go:15-40 against nquads/reader.go:222-235, 316-329, 336-384). */
module NQuadsEscape {
  import opened Options
  import opened Bits
  import opened NQuads
  import opened NQuadsReader
  import Turtle

  // ---------------------------------------------------------------- the digits of an escape sequence

  lemma BitOrDouble(a: nat, b: nat)
    ensures BitOr(2 * a, 2 * b) == 2 * BitOr(a, b)
  {
  }

  lemma BitOrStep(a: nat, b: nat)
    ensures BitOr(2 * a, b) == 2 * BitOr(a, b / 2) + b % 2
  {
  }

  lemma BitOrScaled(a: nat, b: nat)
    ensures BitOr(16 * a, 8 * b) == 16 * BitOr(a, b / 2) + 8 * (b % 2)
  {
    BitOrDouble(8 * a, 4 * b);
    BitOrDouble(4 * a, 2 * b);
    BitOrDouble(2 * a, b);
    BitOrStep(a, b);
    assert 2 * (8 * a) == 16 * a && 2 * (4 * b) == 8 * b;
    assert BitOr(16 * a, 8 * b) == 8 * BitOr(2 * a, b);
  }

  /** The character read back from `\u` and the four digits of `c`. */
  function Mangled(c: char): char
    requires c < '\U{80}'
  {
    ToRune(BitOr(16 * (c as nat / 16), 8 * (c as nat % 16)))
  }

  lemma HexOfAscii(c: char)
    requires c < '\U{80}'
    ensures Turtle.Hex(c as nat, 4) == ['0', '0', Turtle.LowerHexDigit(c as nat / 16), Turtle.LowerHexDigit(c as nat % 16)]
  {
    var n := c as nat;
    assert Turtle.Hex(0, 1) == ['0'];
    assert Turtle.Hex(0, 2) == ['0', '0'];
    assert Turtle.Hex(n / 16, 3) == ['0', '0'] + [Turtle.LowerHexDigit(n / 16)];
    assert Turtle.Hex(n, 4) == Turtle.Hex(n / 16, 3) + [Turtle.LowerHexDigit(n % 16)];
  }

  lemma DigitOfHex(n: nat)
    requires n < 16
    ensures Turtle.LowerHexDigit(n) < '\U{80}' && DigitValue(Turtle.LowerHexDigit(n)) == n
  {
  }

  lemma DigitStep(d: nat, s: string, i: nat, acc: nat)
    requires d < 16 && i < 4
    ensures ReadDigits([Turtle.LowerHexDigit(d)] + s, i, 4, acc) == ReadDigits(s, i + 1, 4, BitOr(acc, d * Pow(2, 3 - i) * 8))
  {
    DigitOfHex(d);
    assert ([Turtle.LowerHexDigit(d)] + s)[1..] == s;
  }

  lemma LeadingZeros(s: string)
    ensures ReadDigits([Turtle.LowerHexDigit(0)] + ([Turtle.LowerHexDigit(0)] + s), 0, 4, 0) == ReadDigits(s, 2, 4, 0)
  {
    BitOrZero(0);
    DigitStep(0, [Turtle.LowerHexDigit(0)] + s, 0, 0);
    DigitStep(0, s, 1, 0);
    assert 0 * Pow(2, 3) * 8 == 0 && 0 * Pow(2, 2) * 8 == 0;
  }

  lemma ThirdDigit(d: nat, s: string)
    requires d < 16
    ensures ReadDigits([Turtle.LowerHexDigit(d)] + s, 2, 4, 0) == ReadDigits(s, 3, 4, 16 * d)
  {
    DigitStep(d, s, 2, 0);
    assert Pow(2, 0) == 1 && Pow(2, 1) == 2;
    assert d * 2 * 8 == 16 * d;
    BitOrZero(16 * d);
  }

  lemma FourthDigit(d: nat, s: string, acc: nat)
    requires d < 16
    ensures ReadDigits([Turtle.LowerHexDigit(d)] + s, 3, 4, acc) == Got(BitOr(acc, 8 * d), s)
  {
    DigitStep(d, s, 3, acc);
    assert Pow(2, 0) == 1;
    assert d * 1 * 8 == 8 * d;
  }

  lemma LastDigits(a: nat, b: nat, rest: string)
    requires a < 16 && b < 16
    ensures ReadDigits([Turtle.LowerHexDigit(a)] + ([Turtle.LowerHexDigit(b)] + rest), 2, 4, 0) == Got(BitOr(16 * a, 8 * b), rest)
  {
    ThirdDigit(a, [Turtle.LowerHexDigit(b)] + rest);
    FourthDigit(b, rest, 16 * a);
  }

  /** The four printed digits, read by the source's accumulation loop. */
  lemma DigitsRead(c: char, rest: string)
    requires c < '\U{80}'
    ensures ReadDigits(Turtle.Hex(c as nat, 4) + rest, 0, 4, 0) == Got(BitOr(16 * (c as nat / 16), 8 * (c as nat % 16)), rest)
  {
    var a, b := c as nat / 16, c as nat % 16;
    HexOfAscii(c);
    var s2 := [Turtle.LowerHexDigit(a)] + ([Turtle.LowerHexDigit(b)] + rest);
    assert Turtle.Hex(c as nat, 4) + rest == [Turtle.LowerHexDigit(0)] + ([Turtle.LowerHexDigit(0)] + s2);
    LeadingZeros(s2);
    LastDigits(a, b, rest);
  }

  /** A character survives the digits exactly when its low four bits are zero. */
  lemma MangledSame(c: char)
    requires c < '\U{80}'
    ensures Mangled(c) == c <==> c as nat % 16 == 0
  {
    var a, b := c as nat / 16, c as nat % 16;
    BitOrScaled(a, b);
    var x := BitOr(a, b / 2);
    assert Pow(2, 3) == 8;
    BitOrSmall(a, b / 2, 3);
    assert Mangled(c) == (16 * x + 8 * (b % 2)) as char;
    if b == 0 {
      BitOrZero(a);
    }
    SameLowBits(x, a, b);
  }

  lemma SameLowBits(x: nat, a: nat, b: nat)
    requires b < 16
    ensures 16 * x + 8 * (b % 2) == 16 * a + b ==> b == 0
  {
  }

  lemma {:induction false} BitOrSmall(a: nat, b: nat, k: nat)
    requires a < Pow(2, k) && b < Pow(2, k)
    ensures BitOr(a, b) < Pow(2, k)
  {
    if k > 0 && (a > 0 || b > 0) {
      BitOrSmall(a / 2, b / 2, k - 1);
    }
  }

  // ---------------------------------------------------------------- escaped characters

  /** Characters that are written as `\u` and four digits. */
  predicate ByDigits(c: char, chars: string) {
    c in chars && c !in "\\\t\U{08}\n\r\U{0C}\"'"
  }

  function BackChar(c: char, chars: string): char {
    if ByDigits(c, chars) && c < '\U{80}' then Mangled(c) else c
  }

  /** What is read back for a written text. */
  function Back(s: string, chars: string): string {
    if s == [] then [] else [BackChar(s[0], chars)] + Back(s[1..], chars)
  }

  ghost predicate Ascii(chars: string) {
    forall i :: 0 <= i < |chars| ==> chars[i] < '\U{80}'
  }

  /** The reader's step over one escape sequence. */
  lemma EscapeStep(seqText: string, c: char, rest: string, close: char)
    requires close != '\\' && ReadEscape(seqText + rest) == Got(c, rest)
    ensures match ReadUntil(rest, close)
            case Failed(e) => ReadUntil("\\" + seqText + rest, close) == Failed(e)
            case Got(more, rest') => ReadUntil("\\" + seqText + rest, close) == Got([c] + more, rest')
  {
    assert ("\\" + seqText + rest)[1..] == seqText + rest;
  }

  lemma ShortEscape(c: char, letter: char, rest: string)
    requires (letter, c) in [('\\', '\\'), ('t', '\t'), ('b', '\U{08}'), ('n', '\n'), ('r', '\r'), ('f', '\U{0C}'), ('\"', '\"'), ('\'', '\'')]
    ensures ReadEscape([letter] + rest) == Got(c, rest)
  {
    assert ([letter] + rest)[1..] == rest;
  }

  lemma DigitsEscape(c: char, rest: string)
    requires c < '\U{80}'
    ensures ReadEscape("u" + Turtle.Hex(c as nat, 4) + rest) == Got(Mangled(c), rest)
  {
    DigitsRead(c, rest);
    assert ("u" + Turtle.Hex(c as nat, 4) + rest)[1..] == Turtle.Hex(c as nat, 4) + rest;
  }

  function Letter(c: char): char {
    match c
    case '\t' => 't'
    case '\U{08}' => 'b'
    case '\n' => 'n'
    case '\r' => 'r'
    case '\U{0C}' => 'f'
    case _ => c
  }

  lemma EscapeCharForm(c: char, chars: string)
    ensures c != '\\' && c !in chars ==> Turtle.EscapeChar(c, chars) == [c]
    ensures ByDigits(c, chars) ==> Turtle.EscapeChar(c, chars) == "\\" + ("u" + Turtle.Hex(c as nat, 4))
    ensures (c == '\\' || c in chars) && !ByDigits(c, chars) ==> Turtle.EscapeChar(c, chars) == "\\" + [Letter(c)]
  {
  }

  lemma EscapeCharReads(c: char, chars: string, close: char, rest: string)
    requires Ascii(chars) && close in chars && close != '\\'
    ensures match ReadUntil(rest, close)
            case Failed(e) => ReadUntil(Turtle.EscapeChar(c, chars) + rest, close) == Failed(e)
            case Got(more, rest') => ReadUntil(Turtle.EscapeChar(c, chars) + rest, close) == Got([BackChar(c, chars)] + more, rest')
  {
    EscapeCharForm(c, chars);
    if c != '\\' && c !in chars {
      assert ([c] + rest)[1..] == rest;
    } else if ByDigits(c, chars) {
      DigitsEscape(c, rest);
      EscapeStep("u" + Turtle.Hex(c as nat, 4), Mangled(c), rest, close);
    } else {
      ShortEscape(c, Letter(c), rest);
      EscapeStep([Letter(c)], c, rest, close);
    }
  }

  lemma Regroup(a: string, b: string, c: string, d: string)
    ensures (a + b) + c + d == a + (b + c + d)
  {
  }

  /** Whatever follows, the reader of an escaped text stops exactly at the closing delimiter. */
  lemma {:induction false} EscapedReads(s: string, chars: string, close: char, rest: string)
    requires Ascii(chars) && close in chars && close != '\\'
    ensures ReadUntil(Turtle.Escaped(s, chars) + [close] + rest, close) == Got(Back(s, chars), rest)
  {
    if s == [] {
      assert Turtle.Escaped(s, chars) + [close] + rest == [close] + rest;
      assert ([close] + rest)[1..] == rest;
    } else {
      var e := Turtle.EscapeChar(s[0], chars);
      var more := Turtle.Escaped(s[1..], chars);
      EscapedReads(s[1..], chars, close, rest);
      EscapeCharReads(s[0], chars, close, more + [close] + rest);
      Regroup(e, more, [close], rest);
    }
  }

  /** Characters that do not survive being written and read. */
  predicate Lossy(c: char, chars: string) {
    ByDigits(c, chars) && c as nat % 16 != 0
  }

  ghost predicate Lossless(s: string, chars: string) {
    forall i :: 0 <= i < |s| ==> !Lossy(s[i], chars)
  }

  lemma {:induction false} BackSame(s: string, chars: string)
    requires Ascii(chars)
    ensures |Back(s, chars)| == |s|
    ensures Back(s, chars) == s <==> Lossless(s, chars)
  {
    if s != [] {
      BackSame(s[1..], chars);
      if ByDigits(s[0], chars) {
        MangledSame(s[0]);
      }
      assert s == [s[0]] + s[1..];
      assert Back(s, chars)[0] == BackChar(s[0], chars) && Back(s, chars)[1..] == Back(s[1..], chars);
      assert Lossless(s, chars) <==> !Lossy(s[0], chars) && Lossless(s[1..], chars) by {
        if !Lossy(s[0], chars) && Lossless(s[1..], chars) {
          forall i | 0 <= i < |s| ensures !Lossy(s[i], chars) {
            assert i > 0 ==> s[i] == s[1..][i - 1];
          }
        }
        assert forall i :: 0 <= i < |s[1..]| ==> s[1..][i] == s[i + 1];
      }
    }
  }

  lemma IriCharsAscii()
    ensures Ascii(Turtle.ESCAPE_IRI_CHARS) && '>' in Turtle.ESCAPE_IRI_CHARS
  {
    assert Turtle.ESCAPE_IRI_CHARS[1] == '>';
  }

  lemma StringCharsAscii()
    ensures Ascii(Turtle.ESCAPE_STRING_MORE_CHARS) && '\"' in Turtle.ESCAPE_STRING_MORE_CHARS
  {
    assert Turtle.ESCAPE_STRING_MORE_CHARS[0] == '\"';
  }

  /** An IRI written by EncodeIri is read back as itself exactly when none of its characters is lossy:
      `<`, `>`, `{`, `}`, `|`, `^`, and the control characters other than \t \b \n \r \f, U+0000 and U+0010. */
  ghost predicate SafeIri(iri: string) {
    Lossless(iri, Turtle.ESCAPE_IRI_CHARS)
  }

  function BackIri(iri: string): string {
    Back(iri, Turtle.ESCAPE_IRI_CHARS)
  }

  lemma DelimitedReads(iri: string, chars: string, rest: string)
    requires Ascii(chars) && '>' in chars
    ensures ReadIri("<" + Turtle.Escaped(iri, chars) + ">" + rest) == Got(Some(Back(iri, chars)), rest)
  {
    hide Turtle.Escaped, ReadUntil, Back, Ascii;
    EscapedReads(iri, chars, '>', rest);
    var text := "<" + Turtle.Escaped(iri, chars) + ">" + rest;
    assert text[1..] == Turtle.Escaped(iri, chars) + ['>'] + rest;
    assert SkipSpaces(text, false) == Some(text);
  }

  lemma IriReads(iri: string, rest: string)
    ensures ReadIri(EncodeIri(iri) + rest) == Got(Some(BackIri(iri)), rest)
    ensures BackIri(iri) == iri <==> SafeIri(iri)
  {
    IriCharsAscii();
    DelimitedReads(iri, Turtle.ESCAPE_IRI_CHARS, rest);
    BackSame(iri, Turtle.ESCAPE_IRI_CHARS);
  }

  /** The content of a string literal is read back for every string. */
  lemma StringReads(s: string, rest: string)
    ensures (EncodeString(s) + rest)[0] == '\"'
    ensures ReadUntil((EncodeString(s) + rest)[1..], '\"') == Got(s, rest)
  {
    hide Turtle.Escaped, Turtle.ESCAPE_STRING_MORE_CHARS, ReadUntil, Back, ByDigits;
    StringCharsAscii();
    EscapedReads(s, Turtle.ESCAPE_STRING_MORE_CHARS, '\"', rest);
    assert (EncodeString(s) + rest)[1..] == Turtle.Escaped(s, Turtle.ESCAPE_STRING_MORE_CHARS) + ['\"'] + rest;
    BackSame(s, Turtle.ESCAPE_STRING_MORE_CHARS);
    forall i | 0 <= i < |s|
      ensures !Lossy(s[i], Turtle.ESCAPE_STRING_MORE_CHARS)
    {
      StringCharsByDigits(s[i]);
    }
  }

  lemma StringCharsByDigits(c: char)
    ensures ByDigits(c, Turtle.ESCAPE_STRING_MORE_CHARS) ==> c == '\U{00}'
  {
  }

  lemma BraceIsByDigits()
    ensures Lossy('{', Turtle.ESCAPE_IRI_CHARS)
  {
    assert Turtle.ESCAPE_IRI_CHARS[3] == '{';
  }

  /** A brace does not survive: it is read back as another character. */
  lemma BraceIsLossy()
    ensures !SafeIri("a{b") && ReadIri(EncodeIri("a{b")) != Got(Some("a{b"), "")
  {
    hide EncodeIri, ReadIri, Lossy;
    BraceIsByDigits();
    IriReads("a{b", "");
    assert EncodeIri("a{b") + "" == EncodeIri("a{b");
    assert "a{b"[1] == '{';
  }
}
