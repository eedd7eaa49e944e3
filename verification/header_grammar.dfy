/** The grammar of the Authorization header (server/headerparse.peg), rule by rule: where a rule ends, the parse
    tree it builds, and what its actions mean. */
module HeaderGrammar {
  import opened Options

  /** The mark that stands for the end of the input. */
  const END: char := '\U{04}'

  datatype Rule =
    | RuleStart
    | RuleHeader
    | RuleChallengeCred
    | RuleAuthParams
    | RuleAuthParamVal
    | RuleQuotedString
    | RuleWsOrComma
    | RuleAuthScheme
    | RuleAuthSingleParam
    | RuleAuthParamKey
    | RuleAuthParamSval
    | RuleAuthParamTval
    | RuleQuotedStrBegin
    | RuleQuotedStrChar
    | RuleToken
    | RuleToken68
    | RuleWs
    | RulePegText
    | RuleAction0
    | RuleAction1
    | RuleAction2
    | RuleAction3
    | RuleAction4
    | RuleAction5
    | RuleAction6

  /** A node of the parse tree: a rule, the input it covers, and its parts. */
  datatype Tree = Node(rule: Rule, begin: nat, end: nat, kids: seq<Tree>)

  /** An entry of the token list: the depth is that of the node in the tree. */
  datatype Token = Token(rule: Rule, begin: int, end: int, depth: int)

  /** The token list of a forest: every node after its parts. */
  function Flatten(forest: seq<Tree>, depth: nat): seq<Token> {
    if forest == [] then []
    else
      Flatten(forest[0].kids, depth + 1) + [Token(forest[0].rule, forest[0].begin, forest[0].end, depth)]
      + Flatten(forest[1..], depth)
  }

  lemma {:induction false} FlattenConcat(a: seq<Tree>, b: seq<Tree>, depth: nat)
    ensures Flatten(a + b, depth) == Flatten(a, depth) + Flatten(b, depth)
    decreases |a|
  {
    if a == [] {
      assert a + b == b;
    } else {
      assert (a + b)[1..] == a[1..] + b;
      FlattenConcat(a[1..], b, depth);
      var head := Flatten(a[0].kids, depth + 1) + [Token(a[0].rule, a[0].begin, a[0].end, depth)];
      assert head + (Flatten(a[1..], depth) + Flatten(b, depth)) == (head + Flatten(a[1..], depth)) + Flatten(b, depth);
    }
  }

  lemma FlattenNode(rule: Rule, begin: nat, end: nat, kids: seq<Tree>, depth: nat)
    ensures Flatten([Node(rule, begin, end, kids)], depth) == Flatten(kids, depth + 1) + [Token(rule, begin, end, depth)]
  {
    var forest := [Node(rule, begin, end, kids)];
    assert forest[1..] == [] && Flatten(forest[1..], depth) == [];
  }

  /** The credentials of one challenge: a scheme with parameters, or a lone token68. */
  datatype Param = Param(key: string, value: string)
  datatype Cred = Scheme(name: string, params: seq<Param>) | Single(text: string)

  /** A rule matched: where it ends, the nodes it adds, and what it means. */
  datatype Hit<+M> = Hit(end: nat, forest: seq<Tree>, value: M)

  // ---------------------------------------------------------------- the buffer

  /** An end mark stands at or after the position. */
  ghost predicate Open(b: string, i: nat) {
    i < |b| && exists k :: i <= k < |b| && b[k] == END
  }

  lemma OpenNext(b: string, i: nat)
    requires Open(b, i) && b[i] != END
    ensures Open(b, i + 1)
  {
    var k :| i <= k < |b| && b[k] == END;
    assert i + 1 <= k;
  }

  /** The input between two positions, none of it an end mark. */
  ghost predicate Passed(b: string, i: nat, e: nat) {
    i <= e <= |b| && forall k :: i <= k < e ==> b[k] != END
  }

  // ---------------------------------------------------------------- lexical rules

  predicate IsAlphaNum(c: char) {
    'A' <= c <= 'Z' || 'a' <= c <= 'z' || '0' <= c <= '9'
  }

  predicate IsTokenChar(c: char) {
    IsAlphaNum(c) || c in "!#$%&'*+-.^_`|~"
  }

  predicate IsToken68Char(c: char) {
    IsAlphaNum(c) || c in "-._~+/"
  }

  predicate IsWs(c: char) {
    c == '\t' || c == ' '
  }

  /** The end of a run of token characters. */
  function TokenEnd(b: string, i: nat): (e: nat)
    requires Open(b, i)
    ensures Passed(b, i, e) && Open(b, e) && !IsTokenChar(b[e])
    ensures forall k :: i <= k < e ==> IsTokenChar(b[k])
    decreases |b| - i
  {
    if IsTokenChar(b[i]) then OpenNext(b, i); TokenEnd(b, i + 1) else i
  }

  function Token68End(b: string, i: nat): (e: nat)
    requires Open(b, i)
    ensures Passed(b, i, e) && Open(b, e)
    decreases |b| - i
  {
    if IsToken68Char(b[i]) then OpenNext(b, i); Token68End(b, i + 1) else i
  }

  function EqualsEnd(b: string, i: nat): (e: nat)
    requires Open(b, i)
    ensures Passed(b, i, e) && Open(b, e)
    decreases |b| - i
  {
    if b[i] == '=' then OpenNext(b, i); EqualsEnd(b, i + 1) else i
  }

  /** A hit that starts at `i` stays before the end mark. */
  ghost predicate Inside<M>(b: string, i: nat, h: Option<Hit<M>>) {
    h.Some? ==> Passed(b, i, h.value.end) && Open(b, h.value.end)
  }

  /** ws <- [\t ] */
  function Ws(b: string, i: nat): (r: Option<Hit<()>>)
    requires Open(b, i)
    ensures Inside(b, i, r) && (r.Some? ==> r.value.end > i)
  {
    if IsWs(b[i]) then OpenNext(b, i); Some(Hit(i + 1, [Node(RuleWs, i, i + 1, [])], ())) else None
  }

  /** ws* */
  function WsStar(b: string, i: nat): (h: Hit<()>)
    requires Open(b, i)
    ensures Passed(b, i, h.end) && Open(b, h.end)
    decreases |b| - i
  {
    match Ws(b, i)
    case None => Hit(i, [], ())
    case Some(w) => var rest := WsStar(b, w.end); Hit(rest.end, w.forest + rest.forest, ())
  }

  /** token <- tokenchar+ */
  function TokenRule(b: string, i: nat): (r: Option<Hit<string>>)
    requires Open(b, i)
    ensures Inside(b, i, r) && (r.Some? ==> r.value.end > i)
    ensures r.Some? ==> r.value.value == b[i..r.value.end] && END !in r.value.value
  {
    var e := TokenEnd(b, i);
    if e == i then None else Some(Hit(e, [Node(RuleToken, i, e, [])], b[i..e]))
  }

  /** token68 <- token68char+ '='* */
  function Token68Rule(b: string, i: nat): (r: Option<Hit<string>>)
    requires Open(b, i)
    ensures Inside(b, i, r) && (r.Some? ==> r.value.end > i)
    ensures r.Some? ==> r.value.value == b[i..r.value.end] && END !in r.value.value
  {
    var m := Token68End(b, i);
    if m == i then None
    else var e := EqualsEnd(b, m); Some(Hit(e, [Node(RuleToken68, i, e, [])], b[i..e]))
  }

  /** `< x > { action }`: a captured text and the action that follows it. */
  function Captured(i: nat, e: nat, kids: seq<Tree>, action: Rule): seq<Tree> {
    [Node(RulePegText, i, e, kids), Node(action, e, e, [])]
  }

  /** auth_scheme <- <token> { addAuthScheme } */
  function AuthScheme(b: string, i: nat): (r: Option<Hit<string>>)
    requires Open(b, i)
    ensures Inside(b, i, r) && (r.Some? ==> r.value.end > i)
  {
    match TokenRule(b, i)
    case None => None
    case Some(t) => Some(Hit(t.end, [Node(RuleAuthScheme, i, t.end, Captured(i, t.end, t.forest, RuleAction0))], t.value))
  }

  /** auth_singleparam <- <token68> { setB64Param } */
  function AuthSingleParam(b: string, i: nat): (r: Option<Hit<string>>)
    requires Open(b, i)
    ensures Inside(b, i, r) && (r.Some? ==> r.value.end > i && END !in r.value.value)
  {
    match Token68Rule(b, i)
    case None => None
    case Some(t) => Some(Hit(t.end, [Node(RuleAuthSingleParam, i, t.end, Captured(i, t.end, t.forest, RuleAction1))], t.value))
  }

  /** auth_param_key <- <token> { param_name = text } */
  function AuthParamKey(b: string, i: nat): (r: Option<Hit<string>>)
    requires Open(b, i)
    ensures Inside(b, i, r) && (r.Some? ==> r.value.end > i)
  {
    match TokenRule(b, i)
    case None => None
    case Some(t) => Some(Hit(t.end, [Node(RuleAuthParamKey, i, t.end, Captured(i, t.end, t.forest, RuleAction2))], t.value))
  }

  /** auth_param_tval <- <token> { setParam(param_name, text) } */
  function AuthParamTval(b: string, i: nat): (r: Option<Hit<string>>)
    requires Open(b, i)
    ensures Inside(b, i, r) && (r.Some? ==> END !in r.value.value)
  {
    match TokenRule(b, i)
    case None => None
    case Some(t) => Some(Hit(t.end, [Node(RuleAuthParamTval, i, t.end, Captured(i, t.end, t.forest, RuleAction4))], t.value))
  }

  /** quoted_str_char <- <.> { last_value += text } */
  function QuotedStrChar(b: string, i: nat): (r: Option<Hit<char>>)
    requires Open(b, i)
    ensures Inside(b, i, r) && (r.Some? ==> r.value.end == i + 1 && r.value.value == b[i] && b[i] != END)
  {
    if b[i] == END then None
    else
      OpenNext(b, i);
      Some(Hit(i + 1, [Node(RuleQuotedStrChar, i, i + 1, Captured(i, i + 1, [], RuleAction6))], b[i]))
  }

  /** One round of (!'"' !'\\' quoted_str_char / '\\' quoted_str_char). */
  function QuotedItem(b: string, i: nat): (r: Option<Hit<char>>)
    requires Open(b, i)
    ensures Inside(b, i, r) && (r.Some? ==> r.value.end > i && r.value.value != END)
  {
    if b[i] != '\"' && b[i] != '\\' then QuotedStrChar(b, i)
    else if b[i] == '\\' then OpenNext(b, i); QuotedStrChar(b, i + 1)
    else None
  }

  function QuotedItems(b: string, i: nat): (h: Hit<string>)
    requires Open(b, i)
    ensures Passed(b, i, h.end) && Open(b, h.end) && END !in h.value
    decreases |b| - i
  {
    match QuotedItem(b, i)
    case None => Hit(i, [], "")
    case Some(c) => var rest := QuotedItems(b, c.end); Hit(rest.end, c.forest + rest.forest, [c.value] + rest.value)
  }

  /** quoted_string <- quoted_str_begin '"' items '"' */
  function QuotedString(b: string, i: nat): (r: Option<Hit<string>>)
    requires Open(b, i)
    ensures Inside(b, i, r) && (r.Some? ==> END !in r.value.value)
  {
    if b[i] != '\"' then None
    else
      OpenNext(b, i);
      var items := QuotedItems(b, i + 1);
      if b[items.end] != '\"' then None
      else
        OpenNext(b, items.end);
        var begin := [Node(RuleQuotedStrBegin, i, i, [Node(RuleAction5, i, i, [])])];
        Some(Hit(items.end + 1, [Node(RuleQuotedString, i, items.end + 1, begin + items.forest)], items.value))
  }

  /** auth_param_sval <- <quoted_string> { setParam(param_name, last_value) } */
  function AuthParamSval(b: string, i: nat): (r: Option<Hit<string>>)
    requires Open(b, i)
    ensures Inside(b, i, r) && (r.Some? ==> END !in r.value.value)
  {
    match QuotedString(b, i)
    case None => None
    case Some(t) => Some(Hit(t.end, [Node(RuleAuthParamSval, i, t.end, Captured(i, t.end, t.forest, RuleAction3))], t.value))
  }

  /** auth_param_val <- auth_param_sval / auth_param_tval */
  function AuthParamVal(b: string, i: nat): (r: Option<Hit<string>>)
    requires Open(b, i)
    ensures Inside(b, i, r) && (r.Some? ==> END !in r.value.value)
  {
    match (if AuthParamSval(b, i).Some? then AuthParamSval(b, i) else AuthParamTval(b, i))
    case None => None
    case Some(v) => Some(Hit(v.end, [Node(RuleAuthParamVal, i, v.end, v.forest)], v.value))
  }

  /** ws* c ws* */
  function Around(b: string, i: nat, c: char): (r: Option<Hit<()>>)
    requires Open(b, i) && c != END
    ensures Inside(b, i, r) && (r.Some? ==> r.value.end > i)
  {
    var before := WsStar(b, i);
    if b[before.end] != c then None
    else
      OpenNext(b, before.end);
      var after := WsStar(b, before.end + 1);
      Some(Hit(after.end, before.forest + after.forest, ()))
  }

  /** ws_or_comma <- ws+ / ws* "," ws* */
  function WsOrComma(b: string, i: nat): (r: Option<Hit<()>>)
    requires Open(b, i)
    ensures Inside(b, i, r) && (r.Some? ==> r.value.end > i)
  {
    if Ws(b, i).Some? then
      var w := Ws(b, i).value;
      var rest := WsStar(b, w.end);
      Some(Hit(rest.end, [Node(RuleWsOrComma, i, rest.end, w.forest + rest.forest)], ()))
    else
      match Around(b, i, ',')
      case None => None
      case Some(sep) => Some(Hit(sep.end, [Node(RuleWsOrComma, i, sep.end, sep.forest)], ()))
  }

  /** ws_or_comma auth_param_key ws* "=" ws*: a parameter up to its value, which means its name. */
  function ParamHead(b: string, i: nat): (r: Option<Hit<string>>)
    requires Open(b, i)
    ensures Inside(b, i, r) && (r.Some? ==> r.value.end >= i + 3)
  {
    match WsOrComma(b, i)
    case None => None
    case Some(sep) =>
      match AuthParamKey(b, sep.end)
      case None => None
      case Some(key) =>
        match Around(b, key.end, '=')
        case None => None
        case Some(eq) => Some(Hit(eq.end, sep.forest + key.forest + eq.forest, key.value))
  }

  /** auth_params <- ws_or_comma auth_param_key ws* "=" ws* auth_param_val auth_params* */
  function AuthParams(b: string, i: nat): (r: Option<Hit<seq<Param>>>)
    requires Open(b, i)
    ensures Inside(b, i, r) && (r.Some? ==> r.value.end > i)
    ensures r.Some? ==> forall k :: 0 <= k < |r.value.value| ==> END !in r.value.value[k].value
    decreases |b| - i, 1
  {
    match ParamHead(b, i)
    case None => None
    case Some(head) =>
      match AuthParamVal(b, head.end)
      case None => None
      case Some(val) =>
        var more := AuthParamsStar(b, val.end);
        Some(Hit(more.end, [Node(RuleAuthParams, i, more.end, head.forest + val.forest + more.forest)],
                 [Param(head.value, val.value)] + more.value))
  }

  /** auth_params* */
  function AuthParamsStar(b: string, i: nat): (h: Hit<seq<Param>>)
    requires Open(b, i)
    ensures Passed(b, i, h.end) && Open(b, h.end)
    ensures forall k :: 0 <= k < |h.value| ==> END !in h.value[k].value
    decreases |b| - i, 2
  {
    match AuthParams(b, i)
    case None => Hit(i, [], [])
    case Some(p) => var rest := AuthParamsStar(b, p.end); Hit(rest.end, p.forest + rest.forest, p.value + rest.value)
  }

  /** Captured values never contain the end mark. */
  ghost predicate CleanCred(c: Cred) {
    match c
    case Scheme(_, params) => forall k :: 0 <= k < |params| ==> END !in params[k].value
    case Single(text) => END !in text
  }

  /** challenge_cred <- auth_scheme auth_params / auth_singleparam */
  function ChallengeCred(b: string, i: nat): (r: Option<Hit<Cred>>)
    requires Open(b, i)
    ensures Inside(b, i, r)
    ensures r.Some? ==> CleanCred(r.value.value)
  {
    match SchemeWithParams(b, i)
    case Some(h) => Some(Hit(h.end, [Node(RuleChallengeCred, i, h.end, h.forest)], h.value))
    case None =>
      match AuthSingleParam(b, i)
      case None => None
      case Some(t) => Some(Hit(t.end, [Node(RuleChallengeCred, i, t.end, t.forest)], Single(t.value)))
  }

  function SchemeWithParams(b: string, i: nat): (r: Option<Hit<Cred>>)
    requires Open(b, i)
    ensures Inside(b, i, r) && (r.Some? ==> CleanCred(r.value.value))
  {
    match AuthScheme(b, i)
    case None => None
    case Some(s) =>
      match AuthParams(b, s.end)
      case None => None
      case Some(p) => Some(Hit(p.end, s.forest + p.forest, Scheme(s.value, p.value)))
  }

  /** ws* "," ws* challenge_cred */
  function SecondCred(b: string, i: nat): (r: Option<Hit<Cred>>)
    requires Open(b, i)
    ensures Inside(b, i, r) && (r.Some? ==> CleanCred(r.value.value))
  {
    match Around(b, i, ',')
    case None => None
    case Some(sep) =>
      match ChallengeCred(b, sep.end)
      case None => None
      case Some(c) => Some(Hit(c.end, sep.forest + c.forest, c.value))
  }

  /** header <- ws* challenge_cred (ws* "," ws* challenge_cred)? ws* */
  function Header(b: string, i: nat): (r: Option<Hit<seq<Cred>>>)
    requires Open(b, i)
    ensures Inside(b, i, r) && (r.Some? ==> 1 <= |r.value.value| <= 2)
    ensures r.Some? ==> forall k :: 0 <= k < |r.value.value| ==> CleanCred(r.value.value[k])
  {
    var before := WsStar(b, i);
    match ChallengeCred(b, before.end)
    case None => None
    case Some(first) =>
      var second := SecondCred(b, first.end);
      var middle := if second.Some? then second.value.end else first.end;
      var after := WsStar(b, middle);
      Some(Hit(after.end,
               [Node(RuleHeader, i, after.end,
                     before.forest + first.forest + (if second.Some? then second.value.forest else []) + after.forest)],
               [first.value] + if second.Some? then [second.value.value] else []))
  }

  /** start <- header !. */
  function Start(b: string, i: nat): (r: Option<Hit<seq<Cred>>>)
    requires Open(b, i)
    ensures Inside(b, i, r) && (r.Some? ==> b[r.value.end] == END && 1 <= |r.value.value| <= 2)
    ensures r.Some? ==> forall k :: 0 <= k < |r.value.value| ==> CleanCred(r.value.value[k])
  {
    match Header(b, i)
    case None => None
    case Some(h) => if b[h.end] != END then None else Some(Hit(h.end, [Node(RuleStart, i, h.end, h.forest)], h.value))
  }

  /** The buffer made from a header: the header, and an end mark unless it already ends with one. */
  function Buffer(header: string): (b: string)
    ensures Open(b, 0)
  {
    var b := if header == "" || header[|header| - 1] != END then header + [END] else header;
    assert b[|b| - 1] == END;
    b
  }
}
