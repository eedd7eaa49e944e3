/** The actions of the header parser, run over the token list (server/headerparse.go, server/headerparse.peg.go:714-740),
    against what the grammar says a header means. */
module HeaderActions {
  import opened Options
  import opened HeaderGrammar

  datatype Method = Method(name: string, params: map<string, string>)

  /** The fields the actions update; `begin` and `end` delimit the last captured text. */
  datatype Exec = Exec(methods: seq<Method>, paramName: string, lastValue: string, begin: int, end: int)

  const FRESH := Exec([], "", "", 0, 0)

  // ---------------------------------------------------------------- the actions, on values

  function AddAuthScheme(methods: seq<Method>, name: string): seq<Method> {
    methods + [Method(name, map[])]
  }

  /** Setting a parameter of the last method; without any method the index is out of range. */
  function SetParam(methods: seq<Method>, key: string, value: string): Option<seq<Method>> {
    if methods == [] then None
    else
      var last := methods[|methods| - 1];
      Some(methods[|methods| - 1 := Method(last.name, last.params[key := value])])
  }

  function WithMethods(st: Exec, methods: Option<seq<Method>>): Option<Exec> {
    match methods case None => None case Some(m) => Some(st.(methods := m))
  }

  /** One entry of the token list; None is an exception. */
  function ExecToken(h: string, st: Exec, t: Token): Option<Exec> {
    if t.rule == RulePegText then Some(st.(begin := t.begin, end := t.end))
    else if t.rule == RuleAction5 then Some(st.(lastValue := ""))
    else if t.rule == RuleAction3 then WithMethods(st, SetParam(st.methods, st.paramName, st.lastValue))
    else if t.rule !in {RuleAction0, RuleAction1, RuleAction2, RuleAction4, RuleAction6} then Some(st)
    else if !(0 <= st.begin <= st.end <= |h|) then None
    else
      var text := h[st.begin..st.end];
      match t.rule
      case RuleAction0 => Some(st.(methods := AddAuthScheme(st.methods, text)))
      case RuleAction1 => WithMethods(st, SetParam(st.methods, "base64", text))
      case RuleAction2 => Some(st.(paramName := text))
      case RuleAction4 => WithMethods(st, SetParam(st.methods, st.paramName, text))
      case _ => Some(st.(lastValue := st.lastValue + text))
  }

  function ExecTokens(h: string, st: Exec, tokens: seq<Token>): Option<Exec>
    decreases |tokens|
  {
    if tokens == [] then Some(st)
    else
      match ExecToken(h, st, tokens[0])
      case None => None
      case Some(st') => ExecTokens(h, st', tokens[1..])
  }

  lemma {:induction false} ExecConcat(h: string, st: Exec, a: seq<Token>, b: seq<Token>)
    ensures ExecTokens(h, st, a + b) == match ExecTokens(h, st, a) case None => None case Some(st') => ExecTokens(h, st', b)
    decreases |a|
  {
    if a == [] {
      assert a + b == b;
    } else {
      assert (a + b)[1..] == a[1..] + b;
      match ExecToken(h, st, a[0]) {
        case None =>
        case Some(st') => ExecConcat(h, st', a[1..], b);
      }
    }
  }

  // ---------------------------------------------------------------- what the grammar says a header means

  function SetParams(methods: seq<Method>, params: seq<Param>): Option<seq<Method>>
    decreases |params|
  {
    if params == [] then Some(methods)
    else
      match SetParam(methods, params[0].key, params[0].value)
      case None => None
      case Some(m) => SetParams(m, params[1..])
  }

  /** Credentials: a scheme opens a method with its parameters; a lone token68 goes to the method before it. */
  function ApplyCred(methods: seq<Method>, cred: Cred): Option<seq<Method>> {
    match cred
    case Scheme(name, params) => SetParams(AddAuthScheme(methods, name), params)
    case Single(text) => SetParam(methods, "base64", text)
  }

  function ApplyCreds(methods: seq<Method>, creds: seq<Cred>): Option<seq<Method>>
    decreases |creds|
  {
    if creds == [] then Some(methods)
    else
      match ApplyCred(methods, creds[0])
      case None => None
      case Some(m) => ApplyCreds(m, creds[1..])
  }

  lemma {:induction false} SetParamsConcat(methods: seq<Method>, a: seq<Param>, b: seq<Param>)
    ensures SetParams(methods, a + b) == match SetParams(methods, a) case None => None case Some(m) => SetParams(m, b)
    decreases |a|
  {
    if a == [] {
      assert a + b == b;
    } else {
      assert (a + b)[1..] == a[1..] + b;
      match SetParam(methods, a[0].key, a[0].value) {
        case None =>
        case Some(m) => SetParamsConcat(m, a[1..], b);
      }
    }
  }

  /** Setting parameters of a list that has a method never fails. */
  lemma {:induction false} SetParamsDefined(methods: seq<Method>, params: seq<Param>)
    requires methods != []
    ensures SetParams(methods, params).Some? && SetParams(methods, params).value != []
    decreases |params|
  {
    if params != [] {
      SetParamsDefined(SetParam(methods, params[0].key, params[0].value).value, params[1..]);
    }
  }

  // ---------------------------------------------------------------- the tokens of each rule do what the rule means

  /** The captured positions lie in the header, and the buffer shows the header there. */
  ghost predicate Shows(h: string, b: string, e: nat) {
    e <= |h| && e <= |b| && h[..e] == b[..e]
  }

  lemma ShowsSlice(h: string, b: string, i: nat, e: nat)
    requires Shows(h, b, e) && i <= e
    ensures h[i..e] == b[i..e] && Shows(h, b, i)
  {
    assert h[i..e] == h[..e][i..] && b[i..e] == b[..e][i..];
    assert h[..i] == h[..e][..i] && b[..i] == b[..e][..i];
  }

  predicate Inert(t: Token) {
    t.rule !in {RulePegText, RuleAction0, RuleAction1, RuleAction2, RuleAction3, RuleAction4, RuleAction5, RuleAction6}
  }

  lemma ExecOne(h: string, st: Exec, t: Token)
    ensures ExecTokens(h, st, [t]) == ExecToken(h, st, t)
  {
    assert [t][1..] == [];
  }

  /** A node whose own entry does nothing has the effect of its parts. */
  lemma ExecNode(h: string, st: Exec, rule: Rule, begin: nat, end: nat, kids: seq<Tree>, depth: nat)
    requires Inert(Token(rule, begin, end, depth))
    ensures ExecTokens(h, st, Flatten([Node(rule, begin, end, kids)], depth)) == ExecTokens(h, st, Flatten(kids, depth + 1))
  {
    FlattenNode(rule, begin, end, kids, depth);
    ExecConcat(h, st, Flatten(kids, depth + 1), [Token(rule, begin, end, depth)]);
    match ExecTokens(h, st, Flatten(kids, depth + 1)) {
      case None =>
      case Some(st') => ExecOne(h, st', Token(rule, begin, end, depth));
    }
  }

  lemma ExecNothing(h: string, st: Exec, depth: nat)
    ensures ExecTokens(h, st, Flatten([], depth)) == Some(st)
  {
  }

  lemma ExecForests(h: string, st: Exec, a: seq<Tree>, b: seq<Tree>, depth: nat)
    ensures ExecTokens(h, st, Flatten(a + b, depth)) ==
            match ExecTokens(h, st, Flatten(a, depth)) case None => None case Some(st') => ExecTokens(h, st', Flatten(b, depth))
  {
    FlattenConcat(a, b, depth);
    ExecConcat(h, st, Flatten(a, depth), Flatten(b, depth));
  }

  lemma {:induction false} ExecWsStar(h: string, st: Exec, b: string, i: nat, depth: nat)
    requires Open(b, i)
    ensures ExecTokens(h, st, Flatten(WsStar(b, i).forest, depth)) == Some(st)
    decreases |b| - i
  {
    if Ws(b, i).Some? {
      var w := Ws(b, i).value;
      ExecForests(h, st, w.forest, WsStar(b, w.end).forest, depth);
      ExecNode(h, st, RuleWs, i, i + 1, [], depth);
      ExecWsStar(h, st, b, w.end, depth);
    }
  }

  lemma ExecAround(h: string, st: Exec, b: string, i: nat, c: char, depth: nat)
    requires Open(b, i) && c != END && Around(b, i, c).Some?
    ensures ExecTokens(h, st, Flatten(Around(b, i, c).value.forest, depth)) == Some(st)
  {
    hide WsStar, ExecTokens, Flatten;
    var before := WsStar(b, i);
    OpenNext(b, before.end);
    ExecForests(h, st, before.forest, WsStar(b, before.end + 1).forest, depth);
    ExecWsStar(h, st, b, i, depth);
    ExecWsStar(h, st, b, before.end + 1, depth);
  }

  lemma ExecWsOrComma(h: string, st: Exec, b: string, i: nat, depth: nat)
    requires Open(b, i) && WsOrComma(b, i).Some?
    ensures ExecTokens(h, st, Flatten(WsOrComma(b, i).value.forest, depth)) == Some(st)
  {
    hide WsStar, Around, ExecToken;
    var w := WsOrComma(b, i).value;
    ExecNode(h, st, RuleWsOrComma, i, w.end, w.forest[0].kids, depth);
    if Ws(b, i).Some? {
      var first := Ws(b, i).value;
      ExecForests(h, st, first.forest, WsStar(b, first.end).forest, depth + 1);
      ExecNode(h, st, RuleWs, i, i + 1, [], depth + 1);
      ExecWsStar(h, st, b, first.end, depth + 1);
    } else {
      ExecAround(h, st, b, i, ',', depth + 1);
    }
  }

  /** A capture runs its action on the captured text, once the captured part has run. */
  lemma ExecCaptured(h: string, st: Exec, i: nat, e: nat, kids: seq<Tree>, action: Rule, depth: nat)
    ensures ExecTokens(h, st, Flatten(Captured(i, e, kids, action), depth)) ==
            match ExecTokens(h, st, Flatten(kids, depth + 1))
            case None => None
            case Some(st') => ExecToken(h, st'.(begin := i, end := e), Token(action, e, e, depth))
  {
    var text := Node(RulePegText, i, e, kids);
    var act := Node(action, e, e, []);
    assert Captured(i, e, kids, action) == [text] + [act];
    ExecForests(h, st, [text], [act], depth);
    FlattenNode(RulePegText, i, e, kids, depth);
    ExecConcat(h, st, Flatten(kids, depth + 1), [Token(RulePegText, i, e, depth)]);
    FlattenNode(action, e, e, [], depth);
    assert Flatten([act], depth) == [Token(action, e, e, depth)];
    match ExecTokens(h, st, Flatten(kids, depth + 1)) {
      case None =>
      case Some(st') =>
        ExecOne(h, st', Token(RulePegText, i, e, depth));
        ExecOne(h, st'.(begin := i, end := e), Token(action, e, e, depth));
    }
  }

  /** A captured token or token68, whose tree is a single inert leaf. */
  lemma ExecLeafCapture(h: string, st: Exec, i: nat, e: nat, leaf: Rule, action: Rule, wrapper: Rule, depth: nat)
    requires leaf in {RuleToken, RuleToken68} && Inert(Token(wrapper, i, e, depth))
    ensures ExecTokens(h, st, Flatten([Node(wrapper, i, e, Captured(i, e, [Node(leaf, i, e, [])], action))], depth)) ==
            ExecToken(h, st.(begin := i, end := e), Token(action, e, e, depth + 1))
  {
    ExecNode(h, st, wrapper, i, e, Captured(i, e, [Node(leaf, i, e, [])], action), depth);
    ExecCaptured(h, st, i, e, [Node(leaf, i, e, [])], action, depth + 1);
    ExecNode(h, st, leaf, i, e, [], depth + 2);
  }

  lemma ExecScheme(h: string, st: Exec, b: string, i: nat, depth: nat)
    requires Open(b, i) && AuthScheme(b, i).Some? && Shows(h, b, AuthScheme(b, i).value.end)
    ensures var s := AuthScheme(b, i).value;
            ExecTokens(h, st, Flatten(s.forest, depth)) ==
            Some(st.(begin := i, end := s.end, methods := AddAuthScheme(st.methods, s.value)))
  {
    var s := AuthScheme(b, i).value;
    ShowsSlice(h, b, i, s.end);
    ExecLeafCapture(h, st, i, s.end, RuleToken, RuleAction0, RuleAuthScheme, depth);
  }

  lemma ExecSingle(h: string, st: Exec, b: string, i: nat, depth: nat)
    requires Open(b, i) && AuthSingleParam(b, i).Some? && Shows(h, b, AuthSingleParam(b, i).value.end)
    ensures var s := AuthSingleParam(b, i).value;
            ExecTokens(h, st, Flatten(s.forest, depth)) ==
            WithMethods(st.(begin := i, end := s.end), SetParam(st.methods, "base64", s.value))
  {
    var s := AuthSingleParam(b, i).value;
    ShowsSlice(h, b, i, s.end);
    ExecLeafCapture(h, st, i, s.end, RuleToken68, RuleAction1, RuleAuthSingleParam, depth);
  }

  lemma ExecKey(h: string, st: Exec, b: string, i: nat, depth: nat)
    requires Open(b, i) && AuthParamKey(b, i).Some? && Shows(h, b, AuthParamKey(b, i).value.end)
    ensures var s := AuthParamKey(b, i).value;
            ExecTokens(h, st, Flatten(s.forest, depth)) == Some(st.(begin := i, end := s.end, paramName := s.value))
  {
    var s := AuthParamKey(b, i).value;
    ShowsSlice(h, b, i, s.end);
    ExecLeafCapture(h, st, i, s.end, RuleToken, RuleAction2, RuleAuthParamKey, depth);
  }

  lemma ExecChar(h: string, st: Exec, b: string, i: nat, depth: nat)
    requires Open(b, i) && QuotedStrChar(b, i).Some? && Shows(h, b, i + 1)
    ensures ExecTokens(h, st, Flatten(QuotedStrChar(b, i).value.forest, depth)) ==
            Some(st.(begin := i, end := i + 1, lastValue := st.lastValue + [b[i]]))
  {
    ShowsSlice(h, b, i, i + 1);
    ExecNode(h, st, RuleQuotedStrChar, i, i + 1, Captured(i, i + 1, [], RuleAction6), depth);
    ExecCaptured(h, st, i, i + 1, [], RuleAction6, depth + 1);
    assert b[i..i + 1] == [b[i]];
  }

  /** The characters of a quoted string are appended to the last value; nothing else changes but the capture. */
  lemma {:induction false} ExecItems(h: string, st: Exec, b: string, i: nat, depth: nat) returns (st': Exec)
    requires Open(b, i) && Shows(h, b, QuotedItems(b, i).end)
    ensures ExecTokens(h, st, Flatten(QuotedItems(b, i).forest, depth)) == Some(st')
    ensures st' == st.(begin := st'.begin, end := st'.end, lastValue := st.lastValue + QuotedItems(b, i).value)
    decreases |b| - i
  {
    hide ExecToken, ExecTokens, Flatten, QuotedStrChar;
    match QuotedItem(b, i) {
      case None =>
        st' := st;
        ExecNothing(h, st, depth);
        assert st.lastValue + "" == st.lastValue;
      case Some(c) =>
        var j := c.end - 1;
        var rest := QuotedItems(b, c.end);
        ShowsSlice(h, b, c.end, rest.end);
        if j > i {
          OpenNext(b, i);
        }
        ExecForests(h, st, c.forest, rest.forest, depth);
        ExecChar(h, st, b, j, depth);
        st' := ExecItems(h, st.(begin := j, end := j + 1, lastValue := st.lastValue + [c.value]), b, c.end, depth);
        assert st.lastValue + [c.value] + rest.value == st.lastValue + ([c.value] + rest.value);
    }
  }

  /** A quoted string leaves its unescaped content in the last value. */
  lemma ExecQuoted(h: string, st: Exec, b: string, i: nat, depth: nat) returns (st': Exec)
    requires Open(b, i) && QuotedString(b, i).Some? && Shows(h, b, QuotedString(b, i).value.end)
    ensures ExecTokens(h, st, Flatten(QuotedString(b, i).value.forest, depth)) == Some(st')
    ensures st' == st.(begin := st'.begin, end := st'.end, lastValue := QuotedString(b, i).value.value)
  {
    hide ExecTokens, QuotedItems;
    var q := QuotedString(b, i).value;
    OpenNext(b, i);
    var items := QuotedItems(b, i + 1);
    var opening := [Node(RuleQuotedStrBegin, i, i, [Node(RuleAction5, i, i, [])])];
    ShowsSlice(h, b, items.end, q.end);
    ExecNode(h, st, RuleQuotedString, i, q.end, opening + items.forest, depth);
    ExecForests(h, st, opening, items.forest, depth + 1);
    ExecNode(h, st, RuleQuotedStrBegin, i, i, [Node(RuleAction5, i, i, [])], depth + 1);
    FlattenNode(RuleAction5, i, i, [], depth + 2);
    assert Flatten([Node(RuleAction5, i, i, [])], depth + 2) == [Token(RuleAction5, i, i, depth + 2)];
    ExecOne(h, st, Token(RuleAction5, i, i, depth + 2));
    st' := ExecItems(h, st.(lastValue := ""), b, i + 1, depth + 1);
    assert "" + items.value == items.value;
  }

  lemma ExecSval(h: string, st: Exec, b: string, i: nat, depth: nat)
    requires Open(b, i) && AuthParamSval(b, i).Some? && Shows(h, b, AuthParamSval(b, i).value.end)
    ensures var r := ExecTokens(h, st, Flatten(AuthParamSval(b, i).value.forest, depth));
            match SetParam(st.methods, st.paramName, AuthParamSval(b, i).value.value)
            case None => r == None
            case Some(m) => r.Some? && r.value.methods == m
  {
    var q := QuotedString(b, i).value;
    ExecNode(h, st, RuleAuthParamSval, i, q.end, Captured(i, q.end, q.forest, RuleAction3), depth);
    ExecCaptured(h, st, i, q.end, q.forest, RuleAction3, depth + 1);
    var _ := ExecQuoted(h, st, b, i, depth + 2);
  }

  lemma ExecTval(h: string, st: Exec, b: string, i: nat, depth: nat)
    requires Open(b, i) && AuthParamTval(b, i).Some? && Shows(h, b, AuthParamTval(b, i).value.end)
    ensures ExecTokens(h, st, Flatten(AuthParamTval(b, i).value.forest, depth)) ==
            WithMethods(st.(begin := i, end := AuthParamTval(b, i).value.end),
                        SetParam(st.methods, st.paramName, AuthParamTval(b, i).value.value))
  {
    var s := AuthParamTval(b, i).value;
    ShowsSlice(h, b, i, s.end);
    ExecLeafCapture(h, st, i, s.end, RuleToken, RuleAction4, RuleAuthParamTval, depth);
  }

  lemma ExecVal(h: string, st: Exec, b: string, i: nat, depth: nat)
    requires Open(b, i) && AuthParamVal(b, i).Some? && Shows(h, b, AuthParamVal(b, i).value.end)
    ensures var r := ExecTokens(h, st, Flatten(AuthParamVal(b, i).value.forest, depth));
            match SetParam(st.methods, st.paramName, AuthParamVal(b, i).value.value)
            case None => r == None
            case Some(m) => r.Some? && r.value.methods == m
  {
    var v := AuthParamVal(b, i).value;
    ExecNode(h, st, RuleAuthParamVal, i, v.end, v.forest[0].kids, depth);
    if AuthParamSval(b, i).Some? {
      ExecSval(h, st, b, i, depth + 1);
    } else {
      ExecTval(h, st, b, i, depth + 1);
    }
  }

  /** What running a rule's tokens does to the methods. */
  ghost predicate Sets(r: Option<Exec>, methods: Option<seq<Method>>) {
    match methods
    case None => r == None
    case Some(m) => r.Some? && r.value.methods == m
  }

  /** Before its value, a parameter only records its name. */
  lemma ExecParamHead(h: string, st: Exec, b: string, i: nat, depth: nat) returns (st': Exec)
    requires Open(b, i) && ParamHead(b, i).Some? && Shows(h, b, ParamHead(b, i).value.end)
    ensures ExecTokens(h, st, Flatten(ParamHead(b, i).value.forest, depth)) == Some(st')
    ensures st'.methods == st.methods && st'.paramName == ParamHead(b, i).value.value
  {
    hide WsOrComma, AuthParamKey, Around, ExecToken;
    var sep := WsOrComma(b, i).value;
    var key := AuthParamKey(b, sep.end).value;
    var eq := Around(b, key.end, '=').value;
    ShowsSlice(h, b, key.end, eq.end);
    ExecForests(h, st, sep.forest + key.forest, eq.forest, depth);
    ExecForests(h, st, sep.forest, key.forest, depth);
    ExecWsOrComma(h, st, b, i, depth);
    ExecKey(h, st, b, sep.end, depth);
    st' := st.(begin := sep.end, end := key.end, paramName := key.value);
    ExecAround(h, st', b, key.end, '=', depth);
  }

  lemma {:induction false} ExecParams(h: string, st: Exec, b: string, i: nat, depth: nat)
    requires Open(b, i) && AuthParams(b, i).Some? && Shows(h, b, AuthParams(b, i).value.end)
    ensures Sets(ExecTokens(h, st, Flatten(AuthParams(b, i).value.forest, depth)), SetParams(st.methods, AuthParams(b, i).value.value))
    decreases |b| - i, 1
  {
    hide ParamHead, AuthParamVal, ExecToken, SetParam;
    var p := AuthParams(b, i).value;
    var head := ParamHead(b, i).value;
    var val := AuthParamVal(b, head.end).value;
    var more := AuthParamsStar(b, val.end);
    ExecNode(h, st, RuleAuthParams, i, p.end, head.forest + val.forest + more.forest, depth);
    ExecForests(h, st, head.forest + val.forest, more.forest, depth + 1);
    ExecForests(h, st, head.forest, val.forest, depth + 1);
    ShowsSlice(h, b, val.end, more.end);
    ShowsSlice(h, b, head.end, val.end);
    var st1 := ExecParamHead(h, st, b, i, depth + 1);
    ExecVal(h, st1, b, head.end, depth + 1);
    var set1 := SetParam(st.methods, head.value, val.value);
    assert p.value[0] == Param(head.value, val.value) && p.value[1..] == more.value;
    if set1.Some? {
      var st2 := ExecTokens(h, st1, Flatten(val.forest, depth + 1)).value;
      ExecParamsStar(h, st2, b, val.end, depth + 1);
    }
  }

  lemma {:induction false} ExecParamsStar(h: string, st: Exec, b: string, i: nat, depth: nat)
    requires Open(b, i) && Shows(h, b, AuthParamsStar(b, i).end)
    ensures Sets(ExecTokens(h, st, Flatten(AuthParamsStar(b, i).forest, depth)), SetParams(st.methods, AuthParamsStar(b, i).value))
    decreases |b| - i, 2
  {
    if AuthParams(b, i).Some? {
      var p := AuthParams(b, i).value;
      var rest := AuthParamsStar(b, p.end);
      ShowsSlice(h, b, p.end, rest.end);
      ExecForests(h, st, p.forest, rest.forest, depth);
      ExecParams(h, st, b, i, depth);
      SetParamsConcat(st.methods, p.value, rest.value);
      match ExecTokens(h, st, Flatten(p.forest, depth)) {
        case None =>
        case Some(st') => ExecParamsStar(h, st', b, p.end, depth);
      }
    }
  }

  lemma ExecCred(h: string, st: Exec, b: string, i: nat, depth: nat)
    requires Open(b, i) && ChallengeCred(b, i).Some? && Shows(h, b, ChallengeCred(b, i).value.end)
    ensures Sets(ExecTokens(h, st, Flatten(ChallengeCred(b, i).value.forest, depth)), ApplyCred(st.methods, ChallengeCred(b, i).value.value))
  {
    hide AuthScheme, AuthParams, AuthSingleParam, ExecToken;
    var c := ChallengeCred(b, i).value;
    ExecNode(h, st, RuleChallengeCred, i, c.end, c.forest[0].kids, depth);
    if SchemeWithParams(b, i).Some? {
      var s := AuthScheme(b, i).value;
      var p := AuthParams(b, s.end).value;
      ShowsSlice(h, b, s.end, p.end);
      ExecForests(h, st, s.forest, p.forest, depth + 1);
      ExecScheme(h, st, b, i, depth + 1);
      ExecParams(h, st.(begin := i, end := s.end, methods := AddAuthScheme(st.methods, s.value)), b, s.end, depth + 1);
    } else {
      ExecSingle(h, st, b, i, depth + 1);
    }
  }

  lemma ExecSecond(h: string, st: Exec, b: string, i: nat, depth: nat)
    requires Open(b, i) && SecondCred(b, i).Some? && Shows(h, b, SecondCred(b, i).value.end)
    ensures Sets(ExecTokens(h, st, Flatten(SecondCred(b, i).value.forest, depth)), ApplyCred(st.methods, SecondCred(b, i).value.value))
  {
    hide ChallengeCred, Around, ExecToken;
    var sep := Around(b, i, ',').value;
    var c := ChallengeCred(b, sep.end).value;
    ExecForests(h, st, sep.forest, c.forest, depth);
    ExecAround(h, st, b, i, ',', depth);
    ExecCred(h, st, b, sep.end, depth);
  }

  /** The header node's parts: the credentials in order, between blanks. */
  lemma ExecHeader(h: string, st: Exec, b: string, i: nat, depth: nat)
    requires Open(b, i) && Header(b, i).Some? && Shows(h, b, Header(b, i).value.end)
    ensures Sets(ExecTokens(h, st, Flatten(Header(b, i).value.forest, depth)), ApplyCreds(st.methods, Header(b, i).value.value))
  {
    hide ChallengeCred, SecondCred, WsStar, ExecToken, ApplyCred;
    var e := Header(b, i).value.end;
    var before := WsStar(b, i);
    var first := ChallengeCred(b, before.end).value;
    var second := SecondCred(b, first.end);
    var middle := if second.Some? then second.value.end else first.end;
    var after := WsStar(b, middle);
    var secondForest := if second.Some? then second.value.forest else [];
    var kids := before.forest + first.forest + secondForest + after.forest;
    ExecNode(h, st, RuleHeader, i, e, kids, depth);
    ExecForests(h, st, before.forest + first.forest + secondForest, after.forest, depth + 1);
    ExecForests(h, st, before.forest + first.forest, secondForest, depth + 1);
    ExecForests(h, st, before.forest, first.forest, depth + 1);
    ExecWsStar(h, st, b, i, depth + 1);
    ShowsSlice(h, b, middle, e);
    ShowsSlice(h, b, first.end, middle);
    ExecCred(h, st, b, before.end, depth + 1);
    ApplyTwo(st.methods, first.value, if second.Some? then [second.value.value] else []);
    match ExecTokens(h, st, Flatten(first.forest, depth + 1)) {
      case None =>
      case Some(st1) =>
        if second.Some? {
          ExecSecond(h, st1, b, first.end, depth + 1);
          match ExecTokens(h, st1, Flatten(secondForest, depth + 1)) {
            case None =>
            case Some(st2) => ExecWsStar(h, st2, b, middle, depth + 1);
          }
        } else {
          ExecWsStar(h, st1, b, middle, depth + 1);
        }
    }
  }

  lemma ApplyTwo(methods: seq<Method>, first: Cred, more: seq<Cred>)
    requires |more| <= 1
    ensures ApplyCreds(methods, [first] + more) ==
            match ApplyCred(methods, first)
            case None => None
            case Some(m) => if more == [] then Some(m) else ApplyCred(m, more[0])
  {
    hide ApplyCred;
    assert ([first] + more)[1..] == more;
    match ApplyCred(methods, first) {
      case None =>
      case Some(m) =>
        if more != [] {
          assert more[1..] == [];
          match ApplyCred(m, more[0]) {
            case None =>
            case Some(m') => assert ApplyCreds(m', more[1..]) == Some(m');
          }
        }
    }
  }

  /** What the buffer shows before its end mark is the header. */
  lemma BufferShows(h: string, e: nat)
    requires Passed(Buffer(h), 0, e) && Open(Buffer(h), e)
    ensures Shows(h, Buffer(h), e)
  {
    var b := Buffer(h);
    assert b[..|h|] == h;
    assert b[..e] == b[..|h|][..e];
  }

  /** On an accepted header, running the tokens yields what the grammar says the header means. */
  lemma ExecuteIsMeaning(h: string)
    requires Start(Buffer(h), 0).Some?
    ensures var s := Start(Buffer(h), 0).value;
            Sets(ExecTokens(h, FRESH, Flatten(s.forest, 0)), ApplyCreds([], s.value))
  {
    hide Header, Buffer, ExecToken, ApplyCreds;
    var b := Buffer(h);
    var s := Start(b, 0).value;
    BufferShows(h, s.end);
    ExecNode(h, FRESH, RuleStart, 0, s.end, s.forest[0].kids, 0);
    ExecHeader(h, FRESH, b, 0, 1);
  }

  /** Running the tokens fails exactly when the header opens with a lone token68, which no scheme precedes. */
  lemma ExecuteFails(h: string)
    requires Start(Buffer(h), 0).Some?
    ensures var s := Start(Buffer(h), 0).value;
            ExecTokens(h, FRESH, Flatten(s.forest, 0)) == None <==> s.value[0].Single?
  {
    hide Header, Buffer, ExecToken, ExecTokens, Flatten;
    ExecuteIsMeaning(h);
    var creds := Start(Buffer(h), 0).value.value;
    assert creds == [creds[0]] + creds[1..];
    ApplyTwo([], creds[0], creds[1..]);
    match creds[0] {
      case Single(_) =>
      case Scheme(name, params) =>
        SetParamsDefined(AddAuthScheme([], name), params);
        if |creds| > 1 && creds[1].Scheme? {
          SetParamsDefined(AddAuthScheme(SetParams(AddAuthScheme([], name), params).value, creds[1].name), creds[1].params);
        }
    }
  }

  /** What one header contributes: nothing when it is not in the grammar; None is an exception. */
  function Meaning(header: string): Option<seq<Method>> {
    match Start(Buffer(header), 0)
    case None => Some([])
    case Some(s) => ApplyCreds([], s.value)
  }

  /** The header is accepted and opens with a lone token68. */
  predicate OpensWithToken68(header: string) {
    Start(Buffer(header), 0).Some? && Start(Buffer(header), 0).value.value[0].Single?
  }

  /** A header is an exception if and only if it opens with a lone token68. */
  lemma MeaningFails(header: string)
    ensures Meaning(header) == None <==> OpensWithToken68(header)
  {
    hide Header, Buffer, ExecToken, ExecTokens, Flatten, ApplyCreds;
    if Start(Buffer(header), 0).Some? {
      ExecuteIsMeaning(header);
      ExecuteFails(header);
    }
  }

  lemma OneCred(b: string)
    requires b == ['a', END] && Open(b, 0) && Open(b, 1)
    ensures ChallengeCred(b, 0).Some? && ChallengeCred(b, 0).value.end == 1 && ChallengeCred(b, 0).value.value == Single("a")
    ensures SecondCred(b, 1) == None && WsStar(b, 0).end == 0 && WsStar(b, 1).end == 1
  {
  }

  /** The shortest such header. */
  lemma TokenAlone()
    ensures Start(Buffer("a"), 0).Some? && Start(Buffer("a"), 0).value.value == [Single("a")]
    ensures Meaning("a") == None
  {
    hide ChallengeCred, SecondCred, WsStar, Meaning;
    OneCred(Buffer("a"));
    MeaningFails("a");
  }

  ghost predicate CleanMethods(methods: seq<Method>) {
    forall k, key :: 0 <= k < |methods| && key in methods[k].params ==> END !in methods[k].params[key]
  }

  lemma {:induction false} SetParamsClean(methods: seq<Method>, params: seq<Param>)
    requires CleanMethods(methods) && (forall k :: 0 <= k < |params| ==> END !in params[k].value)
    ensures SetParams(methods, params).Some? ==> CleanMethods(SetParams(methods, params).value)
    decreases |params|
  {
    if params != [] && methods != [] {
      var m := SetParam(methods, params[0].key, params[0].value).value;
      assert forall k :: 0 <= k < |params[1..]| ==> params[1..][k] == params[k + 1];
      SetParamsClean(m, params[1..]);
    }
  }

  lemma {:induction false} ApplyClean(methods: seq<Method>, creds: seq<Cred>)
    requires CleanMethods(methods) && (forall k :: 0 <= k < |creds| ==> CleanCred(creds[k]))
    ensures ApplyCreds(methods, creds).Some? ==> CleanMethods(ApplyCreds(methods, creds).value)
    decreases |creds|
  {
    if creds != [] {
      match creds[0] {
        case Scheme(name, params) => SetParamsClean(AddAuthScheme(methods, name), params);
        case Single(text) =>
      }
      match ApplyCred(methods, creds[0]) {
        case None =>
        case Some(m) =>
          assert forall k :: 0 <= k < |creds[1..]| ==> creds[1..][k] == creds[k + 1];
          ApplyClean(m, creds[1..]);
      }
    }
  }

  /** Whatever the header, no parameter value recovered from it contains the end mark. */
  lemma MeaningIsClean(header: string)
    ensures Meaning(header).Some? ==> CleanMethods(Meaning(header).value)
  {
    hide Start, Buffer, ApplyCreds;
    match Start(Buffer(header), 0) {
      case None =>
      case Some(s) => ApplyClean([], s.value);
    }
  }

  /** The methods of all headers, in order. */
  function Meanings(headers: seq<string>): Option<seq<Method>> {
    if headers == [] then Some([])
    else
      match Meanings(headers[..|headers| - 1])
      case None => None
      case Some(methods) =>
        match Meaning(headers[|headers| - 1])
        case None => None
        case Some(more) => Some(methods + more)
  }

  /** The headers are an exception if and only if one of them opens with a lone token68. */
  lemma {:induction false} MeaningsFail(headers: seq<string>)
    ensures Meanings(headers) == None <==> exists k :: 0 <= k < |headers| && OpensWithToken68(headers[k])
  {
    hide Meaning, OpensWithToken68;
    if headers != [] {
      var n := |headers| - 1;
      MeaningsFail(headers[..n]);
      MeaningFails(headers[n]);
      assert forall k :: 0 <= k < n ==> headers[..n][k] == headers[k];
    }
  }
}
