/** The header grammar without its ordered choices and greedy loops (server/headerparse.peg:8-33): the productions as
    relations between positions, and the proof that the parser takes exactly the headers that they derive, with the
    same meaning. */
module HeaderCfg {
  import opened Options
  import opened HeaderGrammar
  import opened HeaderActions

  // ---------------------------------------------------------------- the productions

  /** ws* */
  ghost predicate Blanks(b: string, i: nat, e: nat) {
    i <= e <= |b| && forall k :: i <= k < e ==> b[k] == ' ' || b[k] == '\t'
  }

  /** token */
  ghost predicate Word(b: string, i: nat, e: nat) {
    i < e <= |b| && forall k :: i <= k < e ==> IsTokenChar(b[k])
  }

  ghost predicate Run68(b: string, i: nat, m: nat) {
    i < m <= |b| && forall k :: i <= k < m ==> IsToken68Char(b[k])
  }

  ghost predicate Equals(b: string, m: nat, e: nat) {
    m <= e <= |b| && forall k :: m <= k < e ==> b[k] == '='
  }

  /** token68: characters, then equals signs. */
  ghost predicate Token68(b: string, i: nat, e: nat) {
    exists m: nat :: Run68(b, i, m) && Equals(b, m, e)
  }

  /** ws_or_comma: blanks, or a comma and blanks. Blanks before the comma are not taken: see BlankBeforeComma. */
  ghost predicate Separator(b: string, i: nat, e: nat) {
    (i < e && Blanks(b, i, e)) || (i < |b| && b[i] == ',' && Blanks(b, i + 1, e))
  }

  /** The inside of a quoted string and what it stands for: a backslash stands for the character after it. */
  ghost predicate Items(b: string, i: nat, e: nat, text: string)
    decreases |text|
  {
    if text == "" then i == e <= |b|
    else
      || (i < |b| && b[i] == text[0] && b[i] !in "\"\\" && b[i] != END && Items(b, i + 1, e, text[1..]))
      || (i + 1 < |b| && b[i] == '\\' && b[i + 1] == text[0] && b[i + 1] != END && Items(b, i + 2, e, text[1..]))
  }

  /** auth_param_val */
  ghost predicate Value(b: string, i: nat, e: nat, text: string) {
    || (i + 1 < e <= |b| && b[i] == '\"' && Items(b, i + 1, e - 1, text) && b[e - 1] == '\"')
    || (Word(b, i, e) && text == b[i..e])
  }

  /** A separator, a key, an equals sign with blanks around it, and a value. */
  ghost predicate OneParam(b: string, i: nat, e: nat, p: Param) {
    exists s: nat, k: nat, q: nat, v: nat :: Separator(b, i, s) && Word(b, s, k) && p.key == b[s..k]
                         && Blanks(b, k, q) && q < |b| && b[q] == '=' && Blanks(b, q + 1, v) && Value(b, v, e, p.value)
  }

  /** auth_params: one parameter or more. */
  ghost predicate Params(b: string, i: nat, e: nat, ps: seq<Param>)
    decreases |ps|
  {
    ps != [] && exists w: nat :: OneParam(b, i, w, ps[0]) && if |ps| == 1 then w == e else Params(b, w, e, ps[1..])
  }

  /** challenge_cred */
  ghost predicate Credentials(b: string, i: nat, e: nat, c: Cred) {
    match c
    case Scheme(name, params) => exists t: nat :: Word(b, i, t) && name == b[i..t] && Params(b, t, e, params)
    case Single(text) => Token68(b, i, e) && text == b[i..e]
  }

  /** header, up to the end mark. */
  ghost predicate Derives(b: string, creds: seq<Cred>) {
    exists s: nat, c: nat :: Blanks(b, 0, s) && 1 <= |creds| <= 2 && Credentials(b, s, c, creds[0]) && DerivesRest(b, c, creds[1..])
  }

  /** The second credentials, if there are any, and blanks up to the end mark. */
  ghost predicate DerivesRest(b: string, c: nat, more: seq<Cred>) {
    if more == [] then AtMark(b, c)
    else exists m: nat, n: nat, d: nat :: Blanks(b, c, m) && m < |b| && b[m] == ',' && Blanks(b, m + 1, n) && Credentials(b, n, d, more[0])
                           && AtMark(b, d)
  }

  ghost predicate AtMark(b: string, i: nat) {
    exists e: nat :: Blanks(b, i, e) && e < |b| && b[e] == END
  }

  // ---------------------------------------------------------------- what is parsed is derived

  lemma {:induction false} WsIsBlanks(b: string, i: nat)
    requires Open(b, i)
    ensures Blanks(b, i, WsStar(b, i).end) && !IsWs(b[WsStar(b, i).end])
    decreases |b| - i
  {
    if IsWs(b[i]) {
      OpenNext(b, i);
      WsIsBlanks(b, i + 1);
    }
  }

  lemma {:induction false} ItemsDerived(b: string, i: nat)
    requires Open(b, i)
    ensures Items(b, i, QuotedItems(b, i).end, QuotedItems(b, i).value)
    ensures QuotedItem(b, QuotedItems(b, i).end) == None
    decreases |b| - i
  {
    if QuotedItem(b, i).Some? {
      var c := QuotedItem(b, i).value;
      var rest := QuotedItems(b, c.end);
      ItemsDerived(b, c.end);
      assert ([c.value] + rest.value)[1..] == rest.value;
    }
  }

  lemma ValueDerived(b: string, i: nat)
    requires Open(b, i) && AuthParamVal(b, i).Some?
    ensures Value(b, i, AuthParamVal(b, i).value.end, AuthParamVal(b, i).value.value)
  {
    hide QuotedItems;
    if AuthParamSval(b, i).Some? {
      OpenNext(b, i);
      ItemsDerived(b, i + 1);
    }
  }

  lemma AroundDerived(b: string, i: nat, c: char) returns (m: nat)
    requires Open(b, i) && c != END && Around(b, i, c).Some?
    ensures Blanks(b, i, m) && m < |b| && b[m] == c && Blanks(b, m + 1, Around(b, i, c).value.end)
  {
    m := WsStar(b, i).end;
    WsIsBlanks(b, i);
    OpenNext(b, m);
    WsIsBlanks(b, m + 1);
  }

  lemma SeparatorDerived(b: string, i: nat)
    requires Open(b, i) && WsOrComma(b, i).Some?
    ensures Separator(b, i, WsOrComma(b, i).value.end)
  {
    if IsWs(b[i]) {
      OpenNext(b, i);
      WsIsBlanks(b, i + 1);
    } else {
      WsIsBlanks(b, i);
      var m := AroundDerived(b, i, ',');
      assert WsStar(b, i).end == i;
    }
  }

  lemma ParamDerived(b: string, i: nat)
    requires Open(b, i) && ParamHead(b, i).Some? && AuthParamVal(b, ParamHead(b, i).value.end).Some?
    ensures var v := AuthParamVal(b, ParamHead(b, i).value.end).value;
            OneParam(b, i, v.end, Param(ParamHead(b, i).value.value, v.value))
  {
    hide WsOrComma, Around, AuthParamVal, Separator, Value, Blanks;
    var sep := WsOrComma(b, i).value.end;
    SeparatorDerived(b, i);
    var key := AuthParamKey(b, sep).value;
    var q := AroundDerived(b, key.end, '=');
    ValueDerived(b, ParamHead(b, i).value.end);
  }

  lemma {:induction false} ParamsConcat(b: string, i: nat, w: nat, e: nat, a: seq<Param>, c: seq<Param>)
    requires Params(b, i, w, a) && Params(b, w, e, c)
    ensures Params(b, i, e, a + c)
    decreases |a|
  {
    hide OneParam;
    var v: nat :| OneParam(b, i, v, a[0]) && if |a| == 1 then v == w else Params(b, v, w, a[1..]);
    assert (a + c)[0] == a[0] && (a + c)[1..] == a[1..] + c;
    if |a| == 1 {
      assert a[1..] + c == c;
    } else {
      ParamsConcat(b, v, w, e, a[1..], c);
    }
  }

  lemma {:induction false} ParamsDerived(b: string, i: nat)
    requires Open(b, i) && AuthParams(b, i).Some?
    ensures Params(b, i, AuthParams(b, i).value.end, AuthParams(b, i).value.value)
    decreases |b| - i, 1
  {
    hide ParamHead, AuthParamVal, AuthParamsStar, OneParam;
    var head := ParamHead(b, i).value;
    var val := AuthParamVal(b, head.end).value;
    var more := AuthParamsStar(b, val.end);
    ParamDerived(b, i);
    StarDerived(b, val.end);
    var p := Param(head.value, val.value);
    var ps := [p] + more.value;
    assert AuthParams(b, i).value.value == ps && AuthParams(b, i).value.end == more.end;
    assert ps[0] == p && ps[1..] == more.value;
    assert OneParam(b, i, val.end, ps[0]);
  }

  lemma {:induction false} StarDerived(b: string, i: nat)
    requires Open(b, i)
    ensures var more := AuthParamsStar(b, i);
            if more.value == [] then more.end == i else Params(b, i, more.end, more.value)
    decreases |b| - i, 2
  {
    hide AuthParams, Params;
    if AuthParams(b, i).Some? {
      var p := AuthParams(b, i).value;
      ParamsDerived(b, i);
      ParamsSome(b, i, p.end, p.value);
      StarDerived(b, p.end);
      var rest := AuthParamsStar(b, p.end);
      if rest.value == [] {
        assert p.value + [] == p.value;
      } else {
        ParamsConcat(b, i, p.end, rest.end, p.value, rest.value);
      }
    }
  }

  lemma ParamsSome(b: string, i: nat, e: nat, ps: seq<Param>)
    requires Params(b, i, e, ps)
    ensures ps != []
  {
  }

  lemma Token68Derived(b: string, i: nat)
    requires Open(b, i) && Token68Rule(b, i).Some?
    ensures Token68(b, i, Token68Rule(b, i).value.end)
  {
    var m := Token68End(b, i);
    Run68Is(b, i);
    EqualsIs(b, m);
    assert Run68(b, i, m) && Equals(b, m, EqualsEnd(b, m));
  }

  lemma {:induction false} Run68Is(b: string, i: nat)
    requires Open(b, i)
    ensures forall k :: i <= k < Token68End(b, i) ==> IsToken68Char(b[k])
    ensures !IsToken68Char(b[Token68End(b, i)])
    decreases |b| - i
  {
    if IsToken68Char(b[i]) {
      OpenNext(b, i);
      Run68Is(b, i + 1);
    }
  }

  lemma {:induction false} EqualsIs(b: string, i: nat)
    requires Open(b, i)
    ensures forall k :: i <= k < EqualsEnd(b, i) ==> b[k] == '='
    ensures b[EqualsEnd(b, i)] != '='
    decreases |b| - i
  {
    if b[i] == '=' {
      OpenNext(b, i);
      EqualsIs(b, i + 1);
    }
  }

  lemma CredentialsDerived(b: string, i: nat)
    requires Open(b, i) && ChallengeCred(b, i).Some?
    ensures Credentials(b, i, ChallengeCred(b, i).value.end, ChallengeCred(b, i).value.value)
  {
    hide AuthParams, Token68Rule, Params, Token68;
    if SchemeWithParams(b, i).Some? {
      var t := AuthScheme(b, i).value.end;
      ParamsDerived(b, t);
      assert Word(b, i, t) && AuthScheme(b, i).value.value == b[i..t];
    } else {
      Token68Derived(b, i);
    }
  }

  lemma SecondDerived(b: string, c: nat, m: nat, n: nat, d: nat, more: seq<Cred>)
    requires |more| == 1 && Blanks(b, c, m) && m < |b| && b[m] == ',' && Blanks(b, m + 1, n) && Credentials(b, n, d, more[0])
    requires AtMark(b, d)
    ensures DerivesRest(b, c, more)
  {
    hide Blanks, Credentials, AtMark;
  }

  /** What the parser accepts is derived, with the meaning it gives. */
  lemma StartDerives(b: string)
    requires Open(b, 0) && Start(b, 0).Some?
    ensures Derives(b, Start(b, 0).value.value)
  {
    hide ChallengeCred, Credentials, Around, WsStar, Blanks;
    var before := WsStar(b, 0);
    WsIsBlanks(b, 0);
    var first := ChallengeCred(b, before.end).value;
    CredentialsDerived(b, before.end);
    var second := SecondCred(b, first.end);
    var creds := Start(b, 0).value.value;
    if second.Some? {
      var sep := Around(b, first.end, ',').value;
      var m := AroundDerived(b, first.end, ',');
      CredentialsDerived(b, sep.end);
      WsIsBlanks(b, second.value.end);
      assert AtMark(b, second.value.end);
      assert creds[1..] == [second.value.value];
      SecondDerived(b, first.end, m, sep.end, second.value.end, creds[1..]);
    } else {
      WsIsBlanks(b, first.end);
      assert AtMark(b, first.end);
      assert creds[1..] == [];
    }
    assert creds[0] == first.value;
    assert DerivesRest(b, first.end, creds[1..]);
  }

  // ---------------------------------------------------------------- what is derived is parsed

  /** An end mark stands at `z`. */
  ghost predicate Marked(b: string, z: nat) {
    z < |b| && b[z] == END
  }

  lemma OpenBefore(b: string, i: nat, z: nat)
    requires Marked(b, z) && i <= z
    ensures Open(b, i)
  {
  }

  lemma {:induction false} BlanksParsed(b: string, i: nat, e: nat, z: nat)
    requires Marked(b, z) && Blanks(b, i, e) && e <= z && !IsWs(b[e])
    ensures Open(b, i) && WsStar(b, i).end == e
    decreases e - i
  {
    OpenBefore(b, i, z);
    if i < e {
      BlanksParsed(b, i + 1, e, z);
    }
  }

  lemma {:induction false} WordParsed(b: string, i: nat, e: nat, z: nat)
    requires Marked(b, z) && Word(b, i, e) && e <= z && !IsTokenChar(b[e])
    ensures Open(b, i) && TokenEnd(b, i) == e
    decreases e - i
  {
    OpenBefore(b, i, z);
    if i + 1 < e {
      WordParsed(b, i + 1, e, z);
    } else {
      OpenBefore(b, e, z);
    }
  }

  lemma AroundParsed(b: string, i: nat, m: nat, e: nat, c: char, z: nat)
    requires Marked(b, z) && Blanks(b, i, m) && m < |b| && b[m] == c && c != END && !IsWs(c)
    requires Blanks(b, m + 1, e) && e <= z && !IsWs(b[e])
    ensures Open(b, i) && Around(b, i, c).Some? && Around(b, i, c).value.end == e
  {
    BlanksParsed(b, i, m, z);
    BlanksParsed(b, m + 1, e, z);
  }

  lemma NotAround(b: string, i: nat, m: nat, c: char, z: nat)
    requires Marked(b, z) && Blanks(b, i, m) && m <= z && b[m] != c && !IsWs(b[m]) && c != END
    ensures Open(b, i) && Around(b, i, c) == None
  {
    BlanksParsed(b, i, m, z);
  }

  lemma SeparatorParsed(b: string, i: nat, e: nat, z: nat)
    requires Marked(b, z) && Separator(b, i, e) && e <= z && !IsWs(b[e])
    ensures Open(b, i) && WsOrComma(b, i).Some? && WsOrComma(b, i).value.end == e
    ensures IsWs(b[i]) || b[i] == ','
  {
    if i < e && Blanks(b, i, e) {
      BlanksParsed(b, i, e, z);
      BlanksParsed(b, i + 1, e, z);
    } else {
      AroundParsed(b, i, i, e, ',', z);
    }
  }

  lemma {:induction false} ItemsParsed(b: string, i: nat, e: nat, text: string, z: nat)
    requires Marked(b, z) && Items(b, i, e, text) && i <= e <= z && b[e] == '\"'
    ensures Open(b, i) && QuotedItems(b, i).end == e && QuotedItems(b, i).value == text
    decreases |text|
  {
    OpenBefore(b, i, z);
    if text != "" {
      var n := if b[i] == '\\' then 2 else 1;
      ItemsEnd(b, i + n, e, text[1..]);
      ItemsParsed(b, i + n, e, text[1..], z);
      assert text == [text[0]] + text[1..];
    }
  }

  lemma {:induction false} ItemsEnd(b: string, i: nat, e: nat, text: string)
    requires Items(b, i, e, text)
    ensures i <= e <= |b|
    decreases |text|
  {
    if text != "" {
      ItemsEnd(b, i + (if b[i] == '\\' then 2 else 1), e, text[1..]);
    }
  }

  lemma ValueParsed(b: string, i: nat, e: nat, text: string, z: nat)
    requires Marked(b, z) && Value(b, i, e, text) && e <= z && !IsTokenChar(b[e])
    ensures Open(b, i) && !IsWs(b[i])
    ensures AuthParamVal(b, i).Some? && AuthParamVal(b, i).value.end == e && AuthParamVal(b, i).value.value == text
  {
    OpenBefore(b, i, z);
    if b[i] == '\"' {
      QuoteIsNoToken();
      ItemsEnd(b, i + 1, e - 1, text);
      ItemsParsed(b, i + 1, e - 1, text, z);
    } else {
      WordParsed(b, i, e, z);
    }
  }

  lemma QuoteIsNoToken()
    ensures !IsTokenChar('\"') && !IsTokenChar('=') && !IsTokenChar(' ') && !IsTokenChar('\t') && !IsTokenChar(',') && !IsTokenChar(END)
  {
  }

  lemma ParamParsed(b: string, i: nat, e: nat, p: Param, z: nat)
    requires Marked(b, z) && OneParam(b, i, e, p) && e <= z && !IsTokenChar(b[e])
    ensures Open(b, i) && (IsWs(b[i]) || b[i] == ',')
    ensures ParamHead(b, i).Some? && ParamHead(b, i).value.value == p.key
    ensures var v := AuthParamVal(b, ParamHead(b, i).value.end);
            v.Some? && v.value.end == e && v.value.value == p.value
  {
    hide Value, AuthParamVal, Separator, WsOrComma, Around, IsTokenChar;
    var s: nat, k: nat, q: nat, v: nat :| Separator(b, i, s) && Word(b, s, k) && p.key == b[s..k]
                         && Blanks(b, k, q) && q < |b| && b[q] == '=' && Blanks(b, q + 1, v) && Value(b, v, e, p.value);
    QuoteIsNoToken();
    ValueStarts(b, v, e, p.value);
    ValueParsed(b, v, e, p.value, z);
    SeparatorParsed(b, i, s, z);
    WordParsed(b, s, k, z);
    AroundParsed(b, k, q, v, '=', z);
  }

  lemma ValueStarts(b: string, i: nat, e: nat, text: string)
    requires Value(b, i, e, text)
    ensures i < e <= |b|
  {
  }

  lemma ParamsStart(b: string, i: nat, e: nat, ps: seq<Param>)
    requires Params(b, i, e, ps)
    ensures i < e <= |b| && (IsWs(b[i]) || b[i] == ',')
    decreases |ps|
  {
    hide Value;
    var w: nat :| OneParam(b, i, w, ps[0]) && if |ps| == 1 then w == e else Params(b, w, e, ps[1..]);
    OneStarts(b, i, w, ps[0]);
    if |ps| > 1 {
      ParamsStart(b, w, e, ps[1..]);
    }
  }

  lemma OneStarts(b: string, i: nat, e: nat, p: Param)
    requires OneParam(b, i, e, p)
    ensures i < e <= |b| && (IsWs(b[i]) || b[i] == ',')
  {
    hide Value;
    var s: nat, k: nat, q: nat, v: nat :| Separator(b, i, s) && Word(b, s, k) && p.key == b[s..k]
                         && Blanks(b, k, q) && q < |b| && b[q] == '=' && Blanks(b, q + 1, v) && Value(b, v, e, p.value);
    ValueStarts(b, v, e, p.value);
  }

  /** The parameters, when no further one can be read behind them. */
  lemma {:induction false} ParamsParsed(b: string, i: nat, e: nat, ps: seq<Param>, z: nat)
    requires Marked(b, z) && Params(b, i, e, ps) && e <= z && !IsTokenChar(b[e]) && Open(b, e) && AuthParams(b, e) == None
    ensures Open(b, i) && AuthParams(b, i).Some? && AuthParams(b, i).value.end == e && AuthParams(b, i).value.value == ps
    decreases |ps|
  {
    hide OneParam, ParamHead, AuthParamVal, IsTokenChar;
    var w: nat :| OneParam(b, i, w, ps[0]) && if |ps| == 1 then w == e else Params(b, w, e, ps[1..]);
    QuoteIsNoToken();
    if |ps| == 1 {
      ParamParsed(b, i, w, ps[0], z);
      assert AuthParamsStar(b, e).value == [] && AuthParamsStar(b, e).end == e;
      assert ps == [ps[0]] + [];
    } else {
      ParamsStart(b, w, e, ps[1..]);
      ParamParsed(b, i, w, ps[0], z);
      ParamsParsed(b, w, e, ps[1..], z);
      var p := AuthParams(b, w).value;
      assert AuthParamsStar(b, e).value == [] && AuthParamsStar(b, e).end == e;
      assert p.value + [] == p.value;
      assert AuthParamsStar(b, w).value == p.value && AuthParamsStar(b, w).end == e;
      assert ps == [ps[0]] + ps[1..];
    }
    assert Param(ps[0].key, ps[0].value) == ps[0];
  }

  /** Where credentials end there is a blank, a comma or the end mark. */
  lemma RestStarts(b: string, c: nat, more: seq<Cred>)
    requires DerivesRest(b, c, more)
    ensures c < |b| && (IsWs(b[c]) || b[c] == ',' || b[c] == END)
    ensures exists z: nat :: c <= z && Marked(b, z)
  {
    hide Credentials;
    if more == [] {
      var e: nat :| Blanks(b, c, e) && e < |b| && b[e] == END;
      assert Marked(b, e);
    } else {
      var m: nat, n: nat, d: nat :| Blanks(b, c, m) && m < |b| && b[m] == ',' && Blanks(b, m + 1, n) && Credentials(b, n, d, more[0])
                           && AtMark(b, d);
      CredentialsStart(b, n, d, more[0]);
      var e: nat :| Blanks(b, d, e) && e < |b| && b[e] == END;
      assert Marked(b, e);
    }
  }

  lemma CredentialsStart(b: string, i: nat, e: nat, c: Cred)
    requires Credentials(b, i, e, c)
    ensures i < e <= |b| && !IsWs(b[i]) && b[i] != '='
  {
    hide Params, IsTokenChar, Run68;
    match c {
      case Scheme(name, params) =>
        var t: nat :| Word(b, i, t) && name == b[i..t] && Params(b, t, e, params);
        WordStarts(b, i, t);
        ParamsStart(b, t, e, params);
      case Single(text) =>
        var m: nat :| Run68(b, i, m) && Equals(b, m, e);
        RunStarts(b, i, m);
    }
  }

  lemma RunStarts(b: string, i: nat, m: nat)
    requires Run68(b, i, m)
    ensures i < m <= |b| && !IsWs(b[i]) && b[i] != '=' && b[i] != ',' && b[i] != '\"' && b[i] != END
  {
    assert IsToken68Char(b[i]);
  }

  lemma NoSeparator(b: string, i: nat, z: nat)
    requires Marked(b, z) && i <= z && !IsWs(b[i]) && b[i] != ','
    ensures Open(b, i) && AuthParams(b, i) == None
  {
    OpenBefore(b, i, z);
    assert Blanks(b, i, i);
    NotAround(b, i, i, ',', z);
  }

  /** A separator and no key. */
  lemma NoKey(b: string, i: nat, s: nat, z: nat)
    requires Marked(b, z) && Separator(b, i, s) && s <= z && !IsWs(b[s]) && !IsTokenChar(b[s])
    ensures Open(b, i) && AuthParams(b, i) == None
  {
    hide IsTokenChar;
    SeparatorParsed(b, i, s, z);
    OpenBefore(b, s, z);
  }

  /** A separator and a key, and then no equals sign, or no value behind it. */
  lemma NoValue(b: string, i: nat, s: nat, k: nat, q: nat, z: nat)
    requires Marked(b, z) && Separator(b, i, s) && Word(b, s, k) && k <= z && !IsTokenChar(b[k])
    requires Blanks(b, k, q) && q <= z && !IsWs(b[q])
    requires b[q] != '=' || exists v: nat :: Blanks(b, q + 1, v) && v <= z && !IsWs(b[v]) && !IsTokenChar(b[v]) && b[v] != '\"'
    ensures Open(b, i) && AuthParams(b, i) == None
  {
    hide IsTokenChar, WsOrComma;
    WordStarts(b, s, k);
    SeparatorParsed(b, i, s, z);
    WordParsed(b, s, k, z);
    OpenBefore(b, k, z);
    if b[q] != '=' {
      NotAround(b, k, q, '=', z);
    } else {
      var v: nat :| Blanks(b, q + 1, v) && v <= z && !IsWs(b[v]) && !IsTokenChar(b[v]) && b[v] != '\"';
      AroundParsed(b, k, q, v, '=', z);
      OpenBefore(b, v, z);
    }
  }

  lemma WordStarts(b: string, s: nat, k: nat)
    requires Word(b, s, k)
    ensures s < k <= |b| && IsTokenChar(b[s]) && !IsWs(b[s]) && b[s] != '=' && b[s] != ','
  {
    QuoteIsNoToken();
  }

  /** Behind credentials no parameter can be read: there is no key, or no value. */
  lemma NoParams(b: string, c: nat, more: seq<Cred>)
    requires DerivesRest(b, c, more)
    ensures Open(b, c) && AuthParams(b, c) == None
  {
    hide IsTokenChar, Credentials;
    QuoteIsNoToken();
    if more == [] {
      var e: nat :| Blanks(b, c, e) && e < |b| && b[e] == END;
      if c < e {
        NoKey(b, c, e, e);
      } else {
        NoSeparator(b, c, e);
      }
    } else {
      var m: nat, n: nat, d: nat :| Blanks(b, c, m) && m < |b| && b[m] == ',' && Blanks(b, m + 1, n) && Credentials(b, n, d, more[0])
                           && AtMark(b, d);
      CredentialsStart(b, n, d, more[0]);
      var e: nat :| Blanks(b, d, e) && e < |b| && b[e] == END;
      if c < m {
        NoKey(b, c, m, e);
      } else {
        NoSecondParam(b, c, n, d, e, more[0]);
      }
    }
  }

  /** Second credentials are not taken for a parameter. */
  lemma NoSecondParam(b: string, c: nat, n: nat, d: nat, z: nat, cred: Cred)
    requires c < |b| && b[c] == ',' && Blanks(b, c + 1, n) && Credentials(b, n, d, cred) && Blanks(b, d, z) && Marked(b, z)
    ensures Open(b, c) && AuthParams(b, c) == None
  {
    hide IsTokenChar, Params, Token68, AuthParams;
    QuoteIsNoToken();
    CredentialsStart(b, n, d, cred);
    match cred {
      case Scheme(name, params) =>
        var t: nat :| Word(b, n, t) && name == b[n..t] && Params(b, t, d, params);
        NoEqualsAfter(b, t, d, params);
        var q: nat :| Blanks(b, t, q) && q < d && !IsWs(b[q]) && b[q] != '=';
        ParamsStart(b, t, d, params);
        NoValue(b, c, n, t, q, z);
      case Single(text) =>
        NoSingleParam(b, c, n, d, z);
    }
  }

  /** Before parameters stands a separator, and behind it no equals sign. */
  lemma NoEqualsAfter(b: string, t: nat, d: nat, ps: seq<Param>)
    requires Params(b, t, d, ps)
    ensures exists q: nat :: Blanks(b, t, q) && q < d && !IsWs(b[q]) && b[q] != '='
  {
    hide OneParam, Params;
    var w := FirstParam(b, t, d, ps);
    FirstKey(b, t, w, ps[0]);
  }

  lemma FirstParam(b: string, i: nat, e: nat, ps: seq<Param>) returns (w: nat)
    requires Params(b, i, e, ps)
    ensures ps != [] && OneParam(b, i, w, ps[0]) && w <= e
  {
    hide OneParam;
    w :| OneParam(b, i, w, ps[0]) && if |ps| == 1 then w == e else Params(b, w, e, ps[1..]);
    if |ps| > 1 {
      ParamsStart(b, w, e, ps[1..]);
    }
  }

  lemma FirstKey(b: string, i: nat, e: nat, p: Param)
    requires OneParam(b, i, e, p)
    ensures exists q: nat :: Blanks(b, i, q) && q < e && !IsWs(b[q]) && b[q] != '='
  {
    hide Value, IsTokenChar;
    var s: nat, k: nat, q: nat, v: nat :| Separator(b, i, s) && Word(b, s, k) && p.key == b[s..k]
                         && Blanks(b, k, q) && q < |b| && b[q] == '=' && Blanks(b, q + 1, v) && Value(b, v, e, p.value);
    ValueStarts(b, v, e, p.value);
    WordStarts(b, s, k);
    if i < s && Blanks(b, i, s) {
      assert Blanks(b, i, s) && s < e && !IsWs(b[s]) && b[s] != '=';
    } else {
      assert Blanks(b, i, i) && i < e && !IsWs(b[i]) && b[i] != '=';
    }
  }

  /** How far the token at the start of a token68 goes. */
  lemma PrefixOf(b: string, n: nat, r: nat, d: nat, z: nat)
    requires Run68(b, n, r) && Equals(b, r, d) && Marked(b, z) && d <= z && (r == d ==> !IsTokenChar(b[d]))
    ensures Open(b, n) && TokenEnd(b, n) <= r
    ensures TokenEnd(b, n) < r ==> var c := b[TokenEnd(b, n)]; !IsTokenChar(c) && !IsWs(c) && c != '=' && c != ','
  {
    hide IsTokenChar;
    OpenBefore(b, n, z);
    QuoteIsNoToken();
    var t := TokenEnd(b, n);
    assert !IsTokenChar(b[r]);
    if t < r {
      assert IsToken68Char(b[t]);
    }
  }

  lemma NoValueAt(b: string, c: nat, n: nat, r: nat, v: nat, z: nat)
    requires Marked(b, z) && Separator(b, c, n) && Word(b, n, r) && r < z && b[r] == '='
    requires Blanks(b, r + 1, v) && v <= z && !IsWs(b[v]) && !IsTokenChar(b[v]) && b[v] != '\"'
    ensures Open(b, c) && AuthParams(b, c) == None
  {
    hide IsTokenChar, AuthParams;
    QuoteIsNoToken();
    assert Blanks(b, r, r);
    NoValue(b, c, n, r, r, z);
  }

  lemma NoSingleParam(b: string, c: nat, n: nat, d: nat, z: nat)
    requires Separator(b, c, n) && Token68(b, n, d) && Blanks(b, d, z) && Marked(b, z)
    ensures Open(b, c) && AuthParams(b, c) == None
  {
    hide IsTokenChar, AuthParams, Run68, IsToken68Char;
    QuoteIsNoToken();
    var r: nat :| Run68(b, n, r) && Equals(b, r, d);
    RunStarts(b, n, r);
    PrefixOf(b, n, r, d, z);
    var t := TokenEnd(b, n);
    if t == n {
      NoKey(b, c, n, z);
    } else if t < r {
      assert Blanks(b, t, t) && Word(b, n, t);
      NoValue(b, c, n, t, t, z);
    } else if r == d {
      NoValue(b, c, n, t, z, z);
    } else if r + 1 < d {
      assert b[r + 1] == '=' && !IsWs(b[r + 1]);
      NoValueAt(b, c, n, r, r + 1, z);
    } else {
      assert b[r] == '=';
      NoValueAt(b, c, n, r, z, z);
    }
  }

  // ---------------------------------------------------------------- credentials, and the header

  lemma SchemeParsed(b: string, i: nat, e: nat, name: string, params: seq<Param>, more: seq<Cred>)
    requires Credentials(b, i, e, Scheme(name, params)) && DerivesRest(b, e, more)
    ensures Open(b, i) && ChallengeCred(b, i).Some? && ChallengeCred(b, i).value.end == e
    ensures ChallengeCred(b, i).value.value == Scheme(name, params)
  {
    hide IsTokenChar, AuthParams, Params, DerivesRest;
    QuoteIsNoToken();
    RestStarts(b, e, more);
    NoParams(b, e, more);
    var z: nat :| e <= z && Marked(b, z);
    var t: nat :| Word(b, i, t) && name == b[i..t] && Params(b, t, e, params);
    ParamsStart(b, t, e, params);
    WordParsed(b, i, t, z);
    ParamsParsed(b, t, e, params, z);
  }

  lemma SingleParsed(b: string, i: nat, e: nat, text: string, more: seq<Cred>)
    requires Credentials(b, i, e, Single(text)) && DerivesRest(b, e, more)
    ensures Open(b, i) && ChallengeCred(b, i).Some? && ChallengeCred(b, i).value.end == e
    ensures ChallengeCred(b, i).value.value == Single(text)
  {
    hide IsTokenChar, AuthParams, DerivesRest, Run68, IsToken68Char;
    QuoteIsNoToken();
    RestStarts(b, e, more);
    NoParams(b, e, more);
    var z: nat :| e <= z && Marked(b, z);
    var r: nat :| Run68(b, i, r) && Equals(b, r, e);
    RunStarts(b, i, r);
    PrefixOf(b, i, r, e, z);
    NoSchemeHere(b, i, r, e, z);
    Token68Parsed(b, i, r, e, z);
  }

  lemma NoSchemeHere(b: string, i: nat, r: nat, e: nat, z: nat)
    requires Run68(b, i, r) && Equals(b, r, e) && Marked(b, z) && e <= z && !IsTokenChar(b[e])
    requires Open(b, e) && AuthParams(b, e) == None
    ensures Open(b, i) && SchemeWithParams(b, i) == None
  {
    hide IsTokenChar, AuthParams, Run68;
    QuoteIsNoToken();
    RunStarts(b, i, r);
    PrefixOf(b, i, r, e, z);
    var t := TokenEnd(b, i);
    if t > i && t < r {
      NoSeparator(b, t, z);
    } else if t > i && r < e {
      NoSeparator(b, t, z);
    }
  }

  lemma Token68Parsed(b: string, i: nat, r: nat, e: nat, z: nat)
    requires Run68(b, i, r) && Equals(b, r, e) && Marked(b, z) && e <= z
    requires IsWs(b[e]) || b[e] == ',' || b[e] == END
    ensures Open(b, i) && Token68Rule(b, i).Some? && Token68Rule(b, i).value.end == e && Token68Rule(b, i).value.value == b[i..e]
  {
    RunParsed(b, i, r, z);
    EqualsParsed(b, r, e, z);
  }

  lemma {:induction false} RunParsed(b: string, i: nat, r: nat, z: nat)
    requires Run68(b, i, r) && Marked(b, z) && r <= z && !IsToken68Char(b[r])
    ensures Open(b, i) && Token68End(b, i) == r
    decreases r - i
  {
    OpenBefore(b, i, z);
    if i + 1 < r {
      RunParsed(b, i + 1, r, z);
    } else {
      OpenBefore(b, r, z);
    }
  }

  lemma {:induction false} EqualsParsed(b: string, i: nat, e: nat, z: nat)
    requires Equals(b, i, e) && Marked(b, z) && e <= z && b[e] != '='
    ensures Open(b, i) && EqualsEnd(b, i) == e
    decreases e - i
  {
    OpenBefore(b, i, z);
    if i < e {
      EqualsParsed(b, i + 1, e, z);
    }
  }

  lemma CredentialsParsed(b: string, i: nat, e: nat, c: Cred, more: seq<Cred>)
    requires Credentials(b, i, e, c) && DerivesRest(b, e, more)
    ensures Open(b, i) && ChallengeCred(b, i).Some? && ChallengeCred(b, i).value.end == e && ChallengeCred(b, i).value.value == c
  {
    hide Credentials, DerivesRest, ChallengeCred;
    match c {
      case Scheme(name, params) => SchemeParsed(b, i, e, name, params, more);
      case Single(text) => SingleParsed(b, i, e, text, more);
    }
  }

  /** What is derived is parsed, with the meaning derived. */
  lemma DerivedStarts(b: string, creds: seq<Cred>)
    requires Derives(b, creds)
    ensures Open(b, 0) && Start(b, 0).Some? && Start(b, 0).value.value == creds
  {
    hide Credentials, ChallengeCred, DerivesRest, SecondCred;
    var s: nat, c: nat :| Blanks(b, 0, s) && 1 <= |creds| <= 2 && Credentials(b, s, c, creds[0]) && DerivesRest(b, c, creds[1..]);
    CredentialsStart(b, s, c, creds[0]);
    CredentialsParsed(b, s, c, creds[0], creds[1..]);
    RestStarts(b, c, creds[1..]);
    var z: nat :| c <= z && Marked(b, z);
    OpenBefore(b, 0, z);
    BlanksParsed(b, 0, s, z);
    RestParsed(b, c, creds[1..]);
    assert creds == [creds[0]] + creds[1..];
  }

  lemma RestParsed(b: string, c: nat, more: seq<Cred>)
    requires DerivesRest(b, c, more) && |more| <= 1
    ensures Open(b, c)
    ensures more == [] ==> SecondCred(b, c) == None && b[WsStar(b, c).end] == END
    ensures more != [] ==> SecondCred(b, c).Some? && SecondCred(b, c).value.value == more[0] && b[WsStar(b, SecondCred(b, c).value.end).end] == END
  {
    hide Credentials, ChallengeCred;
    if more == [] {
      var e: nat :| Blanks(b, c, e) && e < |b| && b[e] == END;
      NotAround(b, c, e, ',', e);
      BlanksParsed(b, c, e, e);
    } else {
      var m: nat, n: nat, d: nat :| Blanks(b, c, m) && m < |b| && b[m] == ',' && Blanks(b, m + 1, n) && Credentials(b, n, d, more[0])
                           && AtMark(b, d);
      CredentialsStart(b, n, d, more[0]);
      CredentialsParsed(b, n, d, more[0], []);
      var e: nat :| Blanks(b, d, e) && e < |b| && b[e] == END;
      AroundParsed(b, c, m, n, ',', e);
      BlanksParsed(b, d, e, e);
    }
  }

  /** The parser accepts exactly the headers that the productions derive, and gives them the meaning derived; in
      particular no header has two. */
  lemma StartIff(h: string, creds: seq<Cred>)
    ensures Derives(Buffer(h), creds) <==> Start(Buffer(h), 0).Some? && Start(Buffer(h), 0).value.value == creds
  {
    hide Start, Derives, Buffer;
    if Start(Buffer(h), 0).Some? {
      StartDerives(Buffer(h));
    }
    if Derives(Buffer(h), creds) {
      DerivedStarts(Buffer(h), creds);
    }
  }

  /** The token characters are the visible ones that delimit nothing (section 3.2.6 of RFC 7230). */
  lemma TokenChars(c: char)
    ensures IsTokenChar(c) <==> '!' <= c <= '~' && c != '\"' && c !in "(),/:;<=>?@[\\]{}"
    ensures IsToken68Char(c) <==> (IsTokenChar(c) && c !in "!#$%&'*^`|") || c == '/'
  {
  }

  // ---------------------------------------------------------------- two departures

  /** A scheme and a lone token68, the form of Basic credentials (section 2.1 of RFC 7235), is not in the grammar: the
      scheme wants a parameter. */
  lemma BasicRefused(b: string, t: nat, s: nat, z: nat)
    requires Word(b, 0, t) && t < s && Blanks(b, t, s) && Token68(b, s, z) && Marked(b, z)
    ensures Open(b, 0) && Start(b, 0) == None
  {
    hide IsTokenChar, AuthParams, IsToken68Char, Run68;
    QuoteIsNoToken();
    var r: nat :| Run68(b, s, r) && Equals(b, r, z);
    RunStarts(b, s, r);
    WordStarts(b, 0, t);
    WordParsed(b, 0, t, z);
    NoSingleParam(b, t, s, z, z);
    BlanksParsed(b, 0, 0, z);
    if Token68Rule(b, 0).Some? {
      OnlyToken68(b, t, s, z);
    }
  }

  lemma OnlyToken68(b: string, t: nat, s: nat, z: nat)
    requires Word(b, 0, t) && t < s && Blanks(b, t, s) && s < z && Marked(b, z) && !IsWs(b[s]) && b[s] != ',' && b[s] != END
    requires Open(b, 0) && Token68Rule(b, 0).Some?
    ensures var e := Token68Rule(b, 0).value.end;
            SecondCred(b, e) == None && b[WsStar(b, e).end] != END
  {
    hide ChallengeCred;
    var e := Token68Rule(b, 0).value.end;
    Token68Derived(b, 0);
    var m: nat :| Run68(b, 0, m) && Equals(b, m, e);
    assert IsWs(b[t]) && !IsToken68Char(b[t]) && b[t] != '=';
    if e == t {
      NotAround(b, e, s, ',', z);
      BlanksParsed(b, e, s, z);
    } else {
      assert IsTokenChar(b[e]);
      QuoteIsNoToken();
      assert Blanks(b, e, e);
      NotAround(b, e, e, ',', z);
      BlanksParsed(b, e, e, z);
    }
  }

  /** The grammar allows blanks before the comma between two parameters; the ordered choice takes the blanks for the whole
      separator, and the header is refused. */
  lemma BlankBeforeComma(b: string)
    requires b == ['s', ' ', 'a', '=', 'b', ' ', ',', 'c', '=', 'd', END]
    ensures Open(b, 0) && Start(b, 0) == None
  {
    hide AuthParams, AuthParamsStar, Token68Rule, Value, OneParam, Params, ChallengeCred;
    FirstOfTwo(b);
    SecondOfTwo(b);
    assert Marked(b, 10) && Blanks(b, 0, 0) && Blanks(b, 5, 6) && Blanks(b, 7, 7) && Blanks(b, 9, 9);
    BlanksParsed(b, 0, 0, 10);
    AroundParsed(b, 5, 6, 7, ',', 10);
    BlanksParsed(b, 9, 9, 10);
  }

  lemma OneIsParams(b: string, i: nat, e: nat, p: Param)
    requires OneParam(b, i, e, p)
    ensures Params(b, i, e, [p])
  {
    assert [p][0] == p;
  }

  lemma FirstOfTwo(b: string)
    requires b == ['s', ' ', 'a', '=', 'b', ' ', ',', 'c', '=', 'd', END]
    ensures Open(b, 0) && ChallengeCred(b, 0).Some? && ChallengeCred(b, 0).value.end == 5
  {
    hide AuthParams, AuthParamsStar, IsTokenChar;
    TwoTokens(b);
    assert Marked(b, 10) && Blanks(b, 1, 2) && Blanks(b, 3, 3) && Blanks(b, 4, 4) && Blanks(b, 5, 6);
    NoKey(b, 5, 6, 10);
    assert Separator(b, 1, 2) && Word(b, 2, 3) && Word(b, 4, 5) && b[4..5] == "b" && b[2..3] == "a";
    assert OneParam(b, 1, 5, Param("a", "b"));
    OneIsParams(b, 1, 5, Param("a", "b"));
    ParamsParsed(b, 1, 5, [Param("a", "b")], 10);
    WordParsed(b, 0, 1, 10);
  }

  lemma SecondOfTwo(b: string)
    requires b == ['s', ' ', 'a', '=', 'b', ' ', ',', 'c', '=', 'd', END]
    ensures Open(b, 7) && ChallengeCred(b, 7).Some? && ChallengeCred(b, 7).value.end == 9
  {
    hide AuthParams, IsTokenChar;
    TwoTokens(b);
    assert Marked(b, 10) && Word(b, 7, 8);
    WordParsed(b, 7, 8, 10);
    NoSeparator(b, 8, 10);
    assert Run68(b, 7, 8) && Equals(b, 8, 9);
    RunParsed(b, 7, 8, 10);
    EqualsParsed(b, 8, 9, 10);
  }

  lemma TwoTokens(b: string)
    requires b == ['s', ' ', 'a', '=', 'b', ' ', ',', 'c', '=', 'd', END]
    ensures IsTokenChar(b[0]) && IsTokenChar(b[2]) && IsTokenChar(b[4]) && IsTokenChar(b[7])
    ensures !IsTokenChar(b[1]) && !IsTokenChar(b[3]) && !IsTokenChar(b[5]) && !IsTokenChar(b[6]) && !IsTokenChar(b[8]) && !IsTokenChar(b[10])
  {
  }

  // ---------------------------------------------------------------- what a header means

  /** The value of the last parameter with this key, if there is one. */
  function LastOf(params: seq<Param>, key: string): Option<string> {
    if params == [] then None
    else
      var n := |params| - 1;
      if params[n].key == key then Some(params[n].value) else LastOf(params[..n], key)
  }

  /** The method has this name, and for each key the value of its last parameter. */
  ghost predicate MethodIs(m: Method, name: string, params: seq<Param>) {
    m.name == name && forall key :: LastOf(params, key) == if key in m.params then Some(m.params[key]) else None
  }

  /** What derived credentials mean: one method for each scheme with its parameters; a second token68 goes to the first
      method as `base64`, and a first one has no method to go to. */
  ghost predicate Means(r: Option<seq<Method>>, creds: seq<Cred>)
    requires 1 <= |creds| <= 2
  {
    if creds[0].Single? then r == None
    else if |creds| == 1 then r.Some? && |r.value| == 1 && MethodIs(r.value[0], creds[0].name, creds[0].params)
    else if creds[1].Scheme? then
      && r.Some? && |r.value| == 2 && MethodIs(r.value[0], creds[0].name, creds[0].params)
      && MethodIs(r.value[1], creds[1].name, creds[1].params)
    else
      r.Some? && |r.value| == 1 && MethodIs(r.value[0], creds[0].name, creds[0].params + [Param("base64", creds[1].text)])
  }

  lemma {:induction false} SetParamsIs(methods: seq<Method>, done: seq<Param>, params: seq<Param>, name: string)
    requires methods != [] && MethodIs(methods[|methods| - 1], name, done)
    ensures var r := SetParams(methods, params);
            && r.Some? && |r.value| == |methods| && r.value[..|methods| - 1] == methods[..|methods| - 1]
            && MethodIs(r.value[|methods| - 1], name, done + params)
    decreases |params|
  {
    if params == [] {
      assert done + params == done;
    } else {
      var next := SetParam(methods, params[0].key, params[0].value).value;
      LastOne(done, params[0]);
      SetParamsIs(next, done + [params[0]], params[1..], name);
      assert done + [params[0]] + params[1..] == done + params;
    }
  }

  lemma LastOne(done: seq<Param>, p: Param)
    ensures forall key :: LastOf(done + [p], key) == if key == p.key then Some(p.value) else LastOf(done, key)
  {
    assert (done + [p])[..|done|] == done;
  }

  lemma SchemeMeans(methods: seq<Method>, name: string, params: seq<Param>)
    ensures var r := ApplyCred(methods, Scheme(name, params));
            && r.Some? && |r.value| == |methods| + 1 && r.value[..|methods|] == methods
            && MethodIs(r.value[|methods|], name, params)
  {
    var grown := AddAuthScheme(methods, name);
    assert grown[..|methods|] == methods;
    SetParamsIs(grown, [], params, name);
    assert [] + params == params;
  }

  lemma CredsMean(creds: seq<Cred>)
    requires 1 <= |creds| <= 2
    ensures Means(ApplyCreds([], creds), creds)
  {
    hide MethodIs, SetParams;
    assert creds == [creds[0]] + creds[1..];
    ApplyTwo([], creds[0], creds[1..]);
    if creds[0].Scheme? {
      SchemeMeans([], creds[0].name, creds[0].params);
      var first := ApplyCred([], creds[0]).value;
      if |creds| == 2 {
        match creds[1] {
          case Scheme(name, params) => SchemeMeans(first, name, params);
          case Single(text) => SingleMeans(first, creds[0].name, creds[0].params, text);
        }
      }
    }
  }

  lemma SingleMeans(methods: seq<Method>, name: string, params: seq<Param>, text: string)
    requires |methods| == 1 && MethodIs(methods[0], name, params)
    ensures var r := ApplyCred(methods, Single(text));
            r.Some? && |r.value| == 1 && MethodIs(r.value[0], name, params + [Param("base64", text)])
  {
    LastOne(params, Param("base64", text));
  }

  /** What one header contributes: what the productions say, and nothing when they derive no credentials from it. */
  lemma MeaningIff(h: string)
    ensures forall creds :: Derives(Buffer(h), creds) ==> 1 <= |creds| <= 2 && Means(Meaning(h), creds)
    ensures (forall creds :: !Derives(Buffer(h), creds)) ==> Meaning(h) == Some([])
  {
    hide Start, Buffer, Means, ApplyCreds, Credentials, DerivesRest, Blanks;
    forall creds | Derives(Buffer(h), creds)
      ensures 1 <= |creds| <= 2 && Means(Meaning(h), creds)
    {
      StartIff(h, creds);
      CredsMean(creds);
    }
    if Start(Buffer(h), 0).Some? {
      StartIff(h, Start(Buffer(h), 0).value.value);
    }
  }

  /** What one header contributes, said of the productions. */
  ghost predicate HeaderMeans(h: string, r: Option<seq<Method>>) {
    && (forall creds :: Derives(Buffer(h), creds) ==> 1 <= |creds| <= 2 && Means(r, creds))
    && ((forall creds :: !Derives(Buffer(h), creds)) ==> r == Some([]))
  }

  function Joined(parts: seq<seq<Method>>): seq<Method> {
    if parts == [] then [] else parts[0] + Joined(parts[1..])
  }

  lemma {:induction false} JoinedNext(parts: seq<seq<Method>>, last: seq<Method>)
    ensures Joined(parts + [last]) == Joined(parts) + last
  {
    if parts == [] {
      assert ([] + [last])[1..] == [] && ([] + [last])[0] == last;
    } else {
      assert (parts + [last])[1..] == parts[1..] + [last];
      JoinedNext(parts[1..], last);
    }
  }

  /** All headers together: the methods of each, in order; an exception when one of them is one. */
  lemma {:induction false} HeadersMean(headers: seq<string>) returns (parts: seq<seq<Method>>)
    ensures Meanings(headers).Some? ==>
              && |parts| == |headers| && Meanings(headers).value == Joined(parts)
              && forall k :: 0 <= k < |headers| ==> HeaderMeans(headers[k], Some(parts[k]))
    ensures Meanings(headers) == None <==> exists k :: 0 <= k < |headers| && HeaderMeans(headers[k], None)
    decreases |headers|
  {
    hide Meaning, HeaderMeans;
    parts := [];
    if headers != [] {
      var n := |headers| - 1;
      var front := HeadersMean(headers[..n]);
      assert forall k :: 0 <= k < n ==> headers[..n][k] == headers[k];
      OneMeaning(headers[n]);
      if Meanings(headers).Some? {
        parts := front + [Meaning(headers[n]).value];
        JoinedNext(front, Meaning(headers[n]).value);
      }
    }
  }

  lemma OneMeaning(h: string)
    ensures HeaderMeans(h, Meaning(h)) && (HeaderMeans(h, None) ==> Meaning(h) == None)
  {
    hide Derives, Means, Meaning;
    MeaningIff(h);
    if HeaderMeans(h, None) {
      NoneMeans(h);
    }
  }

  lemma NoneMeans(h: string)
    requires HeaderMeans(h, None)
    ensures Meaning(h) == None
  {
    hide Derives, Meaning;
    MeaningIff(h);
    if forall creds :: !Derives(Buffer(h), creds) {
      assert false;
    } else {
      var creds :| Derives(Buffer(h), creds);
      assert Means(None, creds) && Means(Meaning(h), creds);
    }
  }
}
