/** Escaping of Turtle texts (turtle/escape.go). */
module Turtle {

  function LowerHexDigit(n: nat): char
    requires n < 16
  {
    "0123456789abcdef"[n]
  }

  /** The hexadecimal digits of `n`, padded with zeros to `width` digits. */
  function Hex(n: nat, width: nat): string
    decreases n + width
  {
    if n < 16 && width <= 1 then [LowerHexDigit(n)]
    else Hex(n / 16, if width > 0 then width - 1 else 0) + [LowerHexDigit(n % 16)]
  }

  const ESCAPE_IRI_CHARS := "<>\"{}|^`\\" +
    "\U{00}\U{01}\U{02}\U{03}\U{04}\U{05}\U{06}\U{07}\U{08}\U{09}\U{0A}\U{0B}\U{0C}\U{0D}\U{0E}\U{0F}" +
    "\U{10}\U{11}\U{12}\U{13}\U{14}\U{15}\U{16}\U{17}\U{18}\U{19}\U{1A}\U{1B}\U{1C}\U{1D}\U{1E}\U{1F}\U{20}"

  const ESCAPE_STRING_MORE_CHARS := "\"'\r\n\\\t\U{08}\U{0C}\U{00}"

  /** What one character is written as. */
  function EscapeChar(c: char, charsToEscape: string): string {
    if c == '\\' then "\\\\"
    else if c in charsToEscape then
      match c
      case '\t' => "\\t"
      case '\U{08}' => "\\b"
      case '\n' => "\\n"
      case '\r' => "\\r"
      case '\U{0C}' => "\\f"
      case '\"' => "\\\""
      case '\'' => "\\'"
      case _ => "\\u" + Hex(c as nat, 4)
    else [c]
  }

  function Escaped(s: string, charsToEscape: string): string {
    if s == [] then [] else EscapeChar(s[0], charsToEscape) + Escaped(s[1..], charsToEscape)
  }

  lemma {:induction false} EscapedAppend(s: string, c: char, charsToEscape: string)
    ensures Escaped(s + [c], charsToEscape) == Escaped(s, charsToEscape) + EscapeChar(c, charsToEscape)
  {
    if s == [] {
      assert ([] + [c])[1..] == [];
    } else {
      assert (s + [c])[1..] == s[1..] + [c];
      EscapedAppend(s[1..], c, charsToEscape);
    }
  }

  lemma EscapedNothing(charsToEscape: string)
    ensures Escaped("", charsToEscape) == ""
  {
  }

  method Escape(str: string, charsToEscape: string) returns (res: string)
    ensures res == Escaped(str, charsToEscape)
  {
    hide Escaped, Hex;
    res := "";
    EscapedNothing(charsToEscape);
    for i := 0 to |str|
      invariant res == Escaped(str[..i], charsToEscape) && str[..0] == ""
    {
      var r := str[i];
      EscapedAppend(str[..i], r, charsToEscape);
      assert str[..i + 1] == str[..i] + [r];
      if r == '\\' {
        res := res + "\\\\";
      } else if r in charsToEscape {
        match r {
          case '\t' => res := res + "\\t";
          case '\U{08}' => res := res + "\\b";
          case '\n' => res := res + "\\n";
          case '\r' => res := res + "\\r";
          case '\U{0C}' => res := res + "\\f";
          case '\"' => res := res + "\\\"";
          case '\'' => res := res + "\\'";
          case _ => res := res + "\\u" + Hex(r as nat, 4);
        }
      } else {
        res := res + [r];
      }
    }
    assert str[..|str|] == str;
  }
}
