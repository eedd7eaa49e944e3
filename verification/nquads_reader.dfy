/** The N-Quads reader (nquads/reader.go), as functions of the text still to be read and as the methods that
    consume it.

    The input is a sequence of Unicode characters. The source reads escape digits and language tags byte by
    byte; where it would read the first byte of a character outside ASCII there, the model stops with
    ByteOfRune. */
module NQuadsReader {
  import opened Options
  import opened Texts
  import opened Bits
  import opened NQuads

  datatype Error =
    | Eof
    | ExpectedStatement
    | UnexpectedEscapeSequence
    | ExpectedPredicate
    | ExpectedObject
    | ExpectedLiteralType
    | InvalidCharacterInLanguageTag
    | ExpectedFinalDot
    | ByteOfRune

  /** A value and the text that follows it, or the error that ended the reading. */
  datatype Read<+T> = Got(value: T, rest: string) | Failed(error: Error)

  /** The text after spaces and comments; the end of the text is an error. */
  function SkipSpaces(s: string, inComment: bool): (r: Option<string>)
    ensures r.Some? ==> 0 < |r.value| <= |s|
  {
    if s == [] then None
    else if inComment then SkipSpaces(s[1..], s[0] != '\r' && s[0] != '\n')
    else if s[0] == '#' then SkipSpaces(s[1..], true)
    else if IsBlank(s[0]) then SkipSpaces(s[1..], false)
    else Some(s)
  }

  /** The digit the source computes for a byte: every byte that is neither a decimal nor a lower-case digit
      is taken as an upper-case one, modulo 256. */
  function DigitValue(c: char): nat
    requires c < '\U{80}'
  {
    if '0' <= c <= '9' then c as nat - '0' as nat
    else if 'a' <= c <= 'f' then c as nat - 'a' as nat + 10
    else (c as int - 'A' as int + 10) % 256
  }

  /** The digits of an escape sequence: digit number `i` of `n` is shifted left by `n-1-i`, then multiplied
      by 8, as the operators of the source associate. */
  function ReadDigits(s: string, i: nat, n: nat, acc: nat): (r: Read<nat>)
    ensures r.Got? ==> |r.rest| <= |s|
    decreases n - i
  {
    if i >= n then Got(acc, s)
    else if s == [] then Failed(Eof)
    else if s[0] >= '\U{80}' then Failed(ByteOfRune)
    else ReadDigits(s[1..], i + 1, n, BitOr(acc, DigitValue(s[0]) * Pow(2, n - 1 - i) * 8))
  }

  /** The character of a code point; anything that is not one becomes the replacement character. */
  function ToRune(n: nat): char {
    if n < 0xD800 || 0xE000 <= n < 0x11_0000 then n as char else '\U{FFFD}'
  }

  /** An escape sequence after its backslash. */
  function ReadEscape(s: string): (r: Read<char>)
    ensures r.Got? ==> |r.rest| < |s|
  {
    if s == [] then Failed(Eof)
    else match s[0]
      case 't' => Got('\t', s[1..])
      case 'b' => Got('\U{08}', s[1..])
      case 'n' => Got('\n', s[1..])
      case 'r' => Got('\r', s[1..])
      case 'f' => Got('\U{0C}', s[1..])
      case '\"' => Got('\"', s[1..])
      case '\'' => Got('\'', s[1..])
      case '\\' => Got('\\', s[1..])
      case _ =>
        if s[0] == 'u' || s[0] == 'U' then
          match ReadDigits(s[1..], 0, if s[0] == 'u' then 4 else 8, 0)
          case Failed(e) => Failed(e)
          case Got(n, rest) => Got(ToRune(n), rest)
        else Failed(UnexpectedEscapeSequence)
  }

  /** Characters and escape sequences up to a closing delimiter, which is consumed. */
  function ReadUntil(s: string, close: char): (r: Read<string>)
    ensures r.Got? ==> |r.rest| < |s|
    decreases |s|
  {
    if s == [] then Failed(Eof)
    else if s[0] == close then Got("", s[1..])
    else if s[0] == '\\' then
      match ReadEscape(s[1..])
      case Failed(e) => Failed(e)
      case Got(c, rest) =>
        match ReadUntil(rest, close)
        case Failed(e) => Failed(e)
        case Got(more, rest') => Got([c] + more, rest')
    else
      match ReadUntil(s[1..], close)
      case Failed(e) => Failed(e)
      case Got(more, rest') => Got([s[0]] + more, rest')
  }

  /** An IRI, or None when the next character opens none. */
  function ReadIri(s: string): (r: Read<Option<string>>)
    ensures r.Got? ==> |r.rest| <= |s|
  {
    match SkipSpaces(s, false)
    case None => Failed(Eof)
    case Some(t) =>
      if t[0] != '<' then Got(None, t)
      else match ReadUntil(t[1..], '>')
        case Failed(e) => Failed(e)
        case Got(iri, rest) => Got(Some(iri), rest)
  }

  function ReadName(s: string): (r: Read<string>)
    ensures r.Got? ==> |r.rest| <= |s|
  {
    if s == [] then Failed(Eof)
    else if IsBlank(s[0]) then Got("", s)
    else match ReadName(s[1..])
      case Failed(e) => Failed(e)
      case Got(more, rest) => Got([s[0]] + more, rest)
  }

  /** Whether two more bytes can be peeked: a character outside ASCII takes at least two. */
  predicate TwoBytes(s: string) {
    |s| >= 2 || (|s| == 1 && s[0] >= '\U{80}')
  }

  function ReadBlank(s: string): (r: Read<Option<string>>)
    ensures r.Got? ==> |r.rest| <= |s|
  {
    match SkipSpaces(s, false)
    case None => Failed(Eof)
    case Some(t) =>
      if !TwoBytes(t) then Failed(Eof)
      else if !("_:" <= t) then Got(None, t)
      else match ReadName(t[2..])
        case Failed(e) => Failed(e)
        case Got(name, rest) => Got(Some(name), rest)
  }

  function ReadSubject(s: string): (r: Read<Option<Node>>)
    ensures r.Got? ==> |r.rest| <= |s|
  {
    match SkipSpaces(s, false)
    case None => Failed(Eof)
    case Some(t) =>
      match ReadIri(t)
      case Failed(e) => Failed(e)
      case Got(Some(iri), rest) => Got(Some(IriNode(iri)), rest)
      case Got(None, t') =>
        match ReadBlank(t')
        case Failed(e) => Failed(e)
        case Got(None, rest) => Got(None, rest)
        case Got(Some(name), rest) => Got(Some(BlankNode(name)), rest)
  }

  predicate IsTagChar(c: char) {
    'A' <= c <= 'Z' || 'a' <= c <= 'z' || '0' <= c <= '9'
  }

  /** A language tag: letters and digits are passed over without being kept, hyphens are kept, and the
      character that ends the tag is consumed. */
  function ReadTag(s: string, tag: string): (r: Read<string>)
    ensures r.Got? ==> |r.rest| <= |s|
    decreases |s|
  {
    if s == [] then Failed(Eof)
    else if s[0] >= '\U{80}' then Failed(ByteOfRune)
    else if IsTagChar(s[0]) then ReadTag(s[1..], tag)
    else if s[0] == '-' then ReadTag(s[1..], tag + "-")
    else if tag == "" || tag[|tag| - 1] == '-' then Failed(InvalidCharacterInLanguageTag)
    else Got(tag, s[1..])
  }

  /** What follows the closing quote of a literal; neither "^^" nor "@" is consumed before its operand is read. */
  function ReadSuffix(s: string, text: string): (r: Read<Node>)
    ensures r.Got? ==> |r.rest| <= |s|
  {
    match SkipSpaces(s, false)
    case None => Failed(Eof)
    case Some(t) =>
      if !TwoBytes(t) then Failed(Eof)
      else if "^^" <= t then
        match ReadIri(t)
        case Failed(e) => Failed(e)
        case Got(None, _) => Failed(ExpectedLiteralType)
        case Got(Some(iri), rest) => Got(LiteralNode(text, "", iri), rest)
      else if t[0] == '@' then
        match ReadTag(t, "")
        case Failed(e) => Failed(e)
        case Got(tag, rest) => Got(LiteralNode(text, tag, XSD_STRING), rest)
      else Got(LiteralNode(text, "", XSD_STRING), t)
  }

  function ReadLiteral(s: string): (r: Read<Option<Node>>)
    ensures r.Got? ==> |r.rest| <= |s|
  {
    match SkipSpaces(s, false)
    case None => Failed(Eof)
    case Some(t) =>
      if t[0] != '\"' then Got(None, t)
      else match ReadUntil(t[1..], '\"')
        case Failed(e) => Failed(e)
        case Got(text, rest) =>
          match ReadSuffix(rest, text)
          case Failed(e) => Failed(e)
          case Got(node, rest') => Got(Some(node), rest')
  }

  function ReadObject(s: string): (r: Read<Option<Node>>)
    ensures r.Got? ==> |r.rest| <= |s|
  {
    match ReadSubject(s)
    case Failed(e) => Failed(e)
    case Got(Some(node), rest) => Got(Some(node), rest)
    case Got(None, rest) => ReadLiteral(rest)
  }

  /** The final dot. */
  function ReadDot(s: string, st: Statement): (r: Read<Statement>)
    ensures r.Got? ==> |r.rest| < |s|
  {
    match SkipSpaces(s, false)
    case None => Failed(Eof)
    case Some(t) => if t[0] == '.' then Got(st, t[1..]) else Failed(ExpectedFinalDot)
  }

  /** Everything of a statement after its subject. */
  function ReadRest(s: string, subject: Node): (r: Read<Statement>)
    ensures r.Got? ==> |r.rest| < |s|
  {
    match ReadIri(s)
    case Failed(e) => Failed(e)
    case Got(None, _) => Failed(ExpectedPredicate)
    case Got(Some(verb), s1) =>
      match ReadObject(s1)
      case Failed(e) => Failed(e)
      case Got(None, _) => Failed(ExpectedObject)
      case Got(Some(obj), s2) =>
        match ReadIri(s2)
        case Failed(e) => Failed(e)
        case Got(graph, s3) => ReadDot(s3, Statement(subject, verb, obj, graph))
  }

  /** One statement, or None at the end of the input; an end of input inside the subject counts as the end. */
  function ReadStatement(s: string): (r: Read<Option<Statement>>)
    ensures r.Got? && r.value.Some? ==> |r.rest| < |s|
  {
    match ReadSubject(s)
    case Failed(e) => if e == Eof then Got(None, "") else Failed(e)
    case Got(None, _) => Failed(ExpectedStatement)
    case Got(Some(subject), rest) =>
      match ReadRest(rest, subject)
      case Failed(e) => Failed(e)
      case Got(st, rest') => Got(Some(st), rest')
  }

  /** All the statements of a text, up to its end or to the first error. */
  function ReadAll(s: string): (seq<Statement>, Option<Error>)
    decreases |s|
  {
    match ReadStatement(s)
    case Failed(e) => ([], Some(e))
    case Got(None, _) => ([], None)
    case Got(Some(st), rest) => var (more, end) := ReadAll(rest); ([st] + more, end)
  }

  lemma ReadAllStep(s: string)
    ensures match ReadStatement(s)
            case Failed(e) => ReadAll(s) == ([], Some(e))
            case Got(None, _) => ReadAll(s) == ([], None)
            case Got(Some(st), rest) => |rest| < |s| && ReadAll(s) == ([st] + ReadAll(rest).0, ReadAll(rest).1)
  {
    hide ReadStatement;
  }

  // ---------------------------------------------------------------- the object that consumes the input

  datatype Outcome<+T> = Value(value: T) | Fault(error: Error)

  class Reader {
    const input: string
    var pos: nat
    var eofIsError: bool

    ghost predicate Valid()
      reads this
    {
      pos <= |input|
    }

    /** The text still to be read. */
    ghost function Rest(): string
      requires Valid()
      reads this
    {
      input[pos..]
    }

    /** A method's outcome is what the function of the text says, and the text is consumed up to its rest. */
    ghost predicate Follows<T>(r: Outcome<T>, f: Read<T>)
      requires Valid()
      reads this
    {
      match f
      case Failed(e) => r == Fault(e)
      case Got(v, rest) => r == Value(v) && Rest() == rest
    }

    constructor (text: string)
      ensures Valid() && input == text && Rest() == text && !eofIsError
    {
      input, pos, eofIsError := text, 0, false;
    }

    /** Consumes the next character. */
    method ReadRune() returns (c: char)
      requires Valid() && Rest() != ""
      modifies this`pos
      ensures Valid() && c == old(Rest())[0] && Rest() == old(Rest())[1..]
    {
      c := input[pos];
      pos := pos + 1;
    }

    method ReadSpaces() returns (r: Outcome<()>)
      requires Valid()
      modifies this`pos
      ensures Valid()
      ensures match SkipSpaces(old(Rest()), false)
              case None => r == Fault(Eof)
              case Some(t) => r == Value(()) && Rest() == t
    {
      var inComment := false;
      while true
        invariant Valid()
        invariant SkipSpaces(old(Rest()), false) == SkipSpaces(Rest(), inComment)
        decreases |input| - pos
      {
        if pos == |input| {
          return Fault(Eof);
        }
        var c := input[pos];
        if inComment {
          inComment := c != '\r' && c != '\n';
        } else if c == '#' {
          inComment := true;
        } else if !IsBlank(c) {
          return Value(());
        }
        pos := pos + 1;
      }
    }

    method ReadEscapeSeq() returns (r: Outcome<char>)
      requires Valid()
      modifies this`pos
      ensures Valid() && Follows(r, ReadEscape(old(Rest()))) && pos >= old(pos)
    {
      if pos == |input| {
        return Fault(Eof);
      }
      var c := ReadRune();
      match c {
        case 't' => r := Value('\t');
        case 'b' => r := Value('\U{08}');
        case 'n' => r := Value('\n');
        case 'r' => r := Value('\r');
        case 'f' => r := Value('\U{0C}');
        case '\"' => r := Value('\"');
        case '\'' => r := Value('\'');
        case '\\' => r := Value('\\');
        case _ =>
          if c != 'u' && c != 'U' {
            return Fault(UnexpectedEscapeSequence);
          }
          var digits := ReadHexDigits(if c == 'u' then 4 else 8);
          if digits.Fault? {
            return Fault(digits.error);
          }
          r := Value(ToRune(digits.value));
      }
    }

    method ReadHexDigits(numDigits: nat) returns (r: Outcome<nat>)
      requires Valid()
      modifies this`pos
      ensures Valid() && Follows(r, ReadDigits(old(Rest()), 0, numDigits, 0)) && pos >= old(pos)
    {
      var res := 0;
      for i := 0 to numDigits
        invariant Valid() && pos >= old(pos)
        invariant ReadDigits(old(Rest()), 0, numDigits, 0) == ReadDigits(Rest(), i, numDigits, res)
      {
        if pos == |input| {
          return Fault(Eof);
        }
        var c := input[pos];
        if c >= '\U{80}' {
          return Fault(ByteOfRune);
        }
        res := BitOr(res, DigitValue(c) * Pow(2, numDigits - 1 - i) * 8);
        pos := pos + 1;
      }
      r := Value(res);
    }

    /** The loop shared by IRIs and literals: the content up to the closing delimiter. */
    method ReadContent(close: char) returns (r: Outcome<string>)
      requires Valid()
      modifies this`pos
      ensures Valid() && Follows(r, ReadUntil(old(Rest()), close)) && pos >= old(pos)
    {
      var content := "";
      assert forall more: string :: content + more == more;
      while true
        invariant Valid() && pos >= old(pos)
        invariant match ReadUntil(Rest(), close)
                  case Failed(e) => ReadUntil(old(Rest()), close) == Failed(e)
                  case Got(more, rest) => ReadUntil(old(Rest()), close) == Got(content + more, rest)
        decreases |input| - pos
      {
        if pos == |input| {
          return Fault(Eof);
        }
        var c := ReadRune();
        if c == close {
          assert content + "" == content;
          return Value(content);
        }
        if c == '\\' {
          var e := ReadEscapeSeq();
          if e.Fault? {
            return Fault(e.error);
          }
          c := e.value;
        }
        assert forall more: string :: content + ([c] + more) == (content + [c]) + more;
        content := content + [c];
      }
    }

    method ReadIriNode() returns (r: Outcome<Option<string>>)
      requires Valid()
      modifies this`pos
      ensures Valid() && Follows(r, ReadIri(old(Rest())))
    {
      var spaces := ReadSpaces();
      if spaces.Fault? {
        return Fault(spaces.error);
      }
      if input[pos] != '<' {
        return Value(None);
      }
      var _ := ReadRune();
      var content := ReadContent('>');
      r := if content.Fault? then Fault(content.error) else Value(Some(content.value));
    }

    method ReadBlankNode() returns (r: Outcome<Option<string>>)
      requires Valid()
      modifies this`pos
      ensures Valid() && Follows(r, ReadBlank(old(Rest())))
    {
      var spaces := ReadSpaces();
      if spaces.Fault? {
        return Fault(spaces.error);
      }
      if !TwoBytes(input[pos..]) {
        return Fault(Eof);
      }
      if !("_:" <= input[pos..]) {
        return Value(None);
      }
      pos := pos + 2;
      ghost var s := Rest();
      var res := "";
      assert forall more: string :: res + more == more;
      while true
        invariant Valid()
        invariant match ReadName(Rest())
                  case Failed(e) => ReadName(s) == Failed(e)
                  case Got(more, rest) => ReadName(s) == Got(res + more, rest)
        decreases |input| - pos
      {
        if pos == |input| {
          return Fault(Eof);
        }
        var c := input[pos];
        if IsBlank(c) {
          assert res + "" == res;
          return Value(Some(res));
        }
        assert forall more: string :: res + ([c] + more) == (res + [c]) + more;
        res := res + [c];
        pos := pos + 1;
      }
    }

    method ReadSubjectNode() returns (r: Outcome<Option<Node>>)
      requires Valid()
      modifies this`pos
      ensures Valid() && Follows(r, ReadSubject(old(Rest())))
    {
      var spaces := ReadSpaces();
      if spaces.Fault? {
        return Fault(spaces.error);
      }
      var iri := ReadIriNode();
      if iri.Fault? {
        return Fault(iri.error);
      }
      if iri.value.Some? {
        return Value(Some(IriNode(iri.value.value)));
      }
      var blank := ReadBlankNode();
      if blank.Fault? {
        return Fault(blank.error);
      }
      r := if blank.value.Some? then Value(Some(BlankNode(blank.value.value))) else Value(None);
    }

    method ReadLanguageTag() returns (r: Outcome<string>)
      requires Valid()
      modifies this`pos
      ensures Valid() && Follows(r, ReadTag(old(Rest()), ""))
    {
      var langTag := "";
      while true
        invariant Valid()
        invariant ReadTag(old(Rest()), "") == ReadTag(Rest(), langTag)
        decreases |input| - pos
      {
        if pos == |input| {
          return Fault(Eof);
        }
        if input[pos] >= '\U{80}' {
          return Fault(ByteOfRune);
        }
        var c := ReadRune();
        if IsTagChar(c) {
        } else if c == '-' {
          langTag := langTag + "-";
        } else if langTag == "" || langTag[|langTag| - 1] == '-' {
          return Fault(InvalidCharacterInLanguageTag);
        } else {
          return Value(langTag);
        }
      }
    }

    method ReadLiteralSuffix(text: string) returns (r: Outcome<Node>)
      requires Valid()
      modifies this`pos
      ensures Valid() && Follows(r, ReadSuffix(old(Rest()), text))
    {
      var spaces := ReadSpaces();
      if spaces.Fault? {
        return Fault(spaces.error);
      }
      if !TwoBytes(input[pos..]) {
        return Fault(Eof);
      }
      if "^^" <= input[pos..] {
        var iri := ReadIriNode();
        if iri.Fault? {
          return Fault(iri.error);
        }
        if iri.value.None? {
          return Fault(ExpectedLiteralType);
        }
        return Value(LiteralNode(text, "", iri.value.value));
      }
      if input[pos] == '@' {
        var tag := ReadLanguageTag();
        r := if tag.Fault? then Fault(tag.error) else Value(LiteralNode(text, tag.value, XSD_STRING));
      } else {
        r := Value(LiteralNode(text, "", XSD_STRING));
      }
    }

    method ReadLiteralNode() returns (r: Outcome<Option<Node>>)
      requires Valid()
      modifies this`pos
      ensures Valid() && Follows(r, ReadLiteral(old(Rest())))
    {
      var spaces := ReadSpaces();
      if spaces.Fault? {
        return Fault(spaces.error);
      }
      if input[pos] != '\"' {
        return Value(None);
      }
      var _ := ReadRune();
      var content := ReadContent('\"');
      if content.Fault? {
        return Fault(content.error);
      }
      var node := ReadLiteralSuffix(content.value);
      r := if node.Fault? then Fault(node.error) else Value(Some(node.value));
    }

    method ReadObjectNode() returns (r: Outcome<Option<Node>>)
      requires Valid()
      modifies this`pos
      ensures Valid() && Follows(r, ReadObject(old(Rest())))
    {
      r := ReadSubjectNode();
      if r.Value? && r.value.None? {
        r := ReadLiteralNode();
      }
    }

    method ReadTail(subject: Node) returns (r: Outcome<Statement>)
      requires Valid()
      modifies this`pos
      ensures Valid() && Follows(r, ReadRest(old(Rest()), subject))
    {
      var verb := ReadIriNode();
      if verb.Fault? {
        return Fault(verb.error);
      }
      if verb.value.None? {
        return Fault(ExpectedPredicate);
      }
      var obj := ReadObjectNode();
      if obj.Fault? {
        return Fault(obj.error);
      }
      if obj.value.None? {
        return Fault(ExpectedObject);
      }
      var graph := ReadIriNode();
      if graph.Fault? {
        return Fault(graph.error);
      }
      var spaces := ReadSpaces();
      if spaces.Fault? {
        return Fault(spaces.error);
      }
      var c := ReadRune();
      if c != '.' {
        return Fault(ExpectedFinalDot);
      }
      r := Value(Statement(subject, verb.value.value, obj.value.value, graph.value));
    }

    /** One statement, or None at the end; `eofIsError` tells an end inside a statement from one before it. */
    method NextStatement() returns (r: Outcome<Option<Statement>>)
      requires Valid()
      modifies this
      ensures Valid()
      ensures match ReadStatement(old(Rest()))
              case Failed(e) => r == Fault(e)
              case Got(None, _) => r == Value(None)
              case Got(Some(st), rest) => r == Value(Some(st)) && Rest() == rest && !eofIsError
    {
      eofIsError := false;
      var subject := ReadSubjectNode();
      if subject.Fault? {
        return if subject.error == Eof && !eofIsError then Value(None) else Fault(subject.error);
      }
      if subject.value.None? {
        return Fault(ExpectedStatement);
      }
      eofIsError := true;
      var st := ReadTail(subject.value.value);
      if st.Fault? {
        return if st.error == Eof && !eofIsError then Value(None) else Fault(st.error);
      }
      eofIsError := false;
      r := Value(Some(st.value));
    }

    /** Repeated reading to the end or to the first error. */
    method ReadStatements() returns (sts: seq<Statement>, end: Option<Error>)
      requires Valid()
      modifies this
      ensures (sts, end) == ReadAll(old(Rest()))
    {
      hide ReadStatement, ReadAll, Rest;
      sts, end := [], None;
      assert sts + ReadAll(Rest()).0 == ReadAll(Rest()).0;
      while true
        invariant Valid()
        invariant ReadAll(old(Rest())) == (sts + ReadAll(Rest()).0, ReadAll(Rest()).1)
        decreases |Rest()|
      {
        ReadAllStep(Rest());
        var r := NextStatement();
        assert sts + [] == sts;
        if r.Fault? {
          return sts, Some(r.error);
        }
        if r.value.None? {
          return;
        }
        assert sts + ([r.value.value] + ReadAll(Rest()).0) == (sts + [r.value.value]) + ReadAll(Rest()).0;
        sts := sts + [r.value.value];
      }
    }
  }
}
