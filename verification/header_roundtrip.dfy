/** Challenges printed by Authenticate (server/auth.go:54-56, 275-277) and read back by the header grammar. */
module HeaderRoundTrip {
  import opened Options
  import opened Replacements
  import opened HeaderGrammar
  import opened HeaderActions

  // ---------------------------------------------------------------- printing

  /** Backslashes first, then quotes: in the other order the added backslashes would be doubled. */
  const ESCAPE_TABLE: seq<(char, string)> := [('\\', "\\\\"), ('\"', "\\\"")]

  function Escape(s: string): string {
    ReplaceAll(s, ESCAPE_TABLE)
  }

  function PrintParam(p: Param): string {
    p.key + "=\"" + Escape(p.value) + "\""
  }

  /** The parameters, joined by a comma and a space. */
  function PrintParams(params: seq<Param>): string {
    if params == [] then ""
    else PrintParam(params[0]) + if |params| == 1 then "" else ", " + PrintParams(params[1..])
  }

  function PrintChallenge(name: string, params: seq<Param>): string {
    name + " " + PrintParams(params)
  }

  /** The text of Authenticate, piece by piece: the nonce and the opaque value are written as they are. */
  function Challenge(realm: string, path: string, nonce: string, opaq: string, stale: bool): string {
    "Digest realm=\"" + Escape(realm) + "\", domain=\"" + Escape(path) + "\", nonce=\"" + nonce + "\", opaque=\"" + opaq + "\""
    + (if stale then ", stale=\"true\"" else "") + ", algorithm=\"MD5\"" + ", qop=\"auth\""
  }

  // ---------------------------------------------------------------- escaping

  function EscapedChar(c: char): string {
    if c == '\\' then "\\\\" else if c == '\"' then "\\\"" else [c]
  }

  lemma EscapeStep(s: string)
    requires s != ""
    ensures Escape(s) == EscapedChar(s[0]) + Escape(s[1..])
  {
    var t := ESCAPE_TABLE;
    assert t[1..][1..] == [] && t[1..][0] == t[1];
    ChainIsOnePass(s, t);
    ChainIsOnePass(s[1..], t);
    assert Lookup(s[0], t[1..]) == if s[0] == '\"' then "\\\"" else [s[0]];
  }

  lemma EscapeNothing()
    ensures Escape("") == ""
  {
    ReplaceAllAbsent("", ESCAPE_TABLE);
  }

  lemma EscapePlain(s: string)
    requires '\\' !in s && '\"' !in s
    ensures Escape(s) == s
  {
    ReplaceAllAbsent(s, ESCAPE_TABLE);
  }

  // ---------------------------------------------------------------- reading a piece of text in place

  /** From the position on, the buffer shows the text and then the rest. */
  ghost predicate Follows(b: string, i: nat, text: string, rest: string) {
    i <= |b| && b[i..] == text + rest
  }

  lemma FollowsStep(b: string, i: nat, a: string, text: string, rest: string)
    requires Follows(b, i, a + text, rest)
    ensures Follows(b, i + |a|, text, rest) && b[i..i + |a|] == a
  {
    assert b[i..] == a + (text + rest);
    assert b[i + |a|..] == b[i..][|a|..];
    assert b[i..i + |a|] == b[i..][..|a|];
  }

  lemma FollowsHead(b: string, i: nat, text: string, rest: string)
    requires Follows(b, i, text, rest) && text + rest != ""
    ensures i < |b| && b[i] == (text + rest)[0]
  {
    assert b[i..][0] == b[i];
  }

  /** The same text, cut elsewhere. */
  lemma FollowsRecut(b: string, i: nat, text: string, rest: string, text': string, rest': string)
    requires Follows(b, i, text, rest) && text + rest == text' + rest'
    ensures Follows(b, i, text', rest')
  {
  }

  predicate IsToken(t: string) {
    t != "" && forall k :: 0 <= k < |t| ==> IsTokenChar(t[k])
  }

  /** A token stops at the first character that is not a token character. */
  lemma TokenReads(b: string, i: nat, t: string)
    requires Open(b, i) && IsToken(t) && i + |t| < |b| && b[i..i + |t|] == t && !IsTokenChar(b[i + |t|])
    ensures TokenRule(b, i) == Some(Hit(i + |t|, [Node(RuleToken, i, i + |t|, [])], t))
  {
    var e := TokenEnd(b, i);
    assert forall k :: i <= k < i + |t| ==> b[k] == b[i..i + |t|][k - i];
  }

  lemma ItemReads(b: string, i: nat, c: char)
    requires Open(b, i) && c != END
    requires var a := EscapedChar(c); i + |a| <= |b| && b[i..i + |a|] == a
    ensures var r := QuotedItem(b, i); r.Some? && r.value.end == i + |EscapedChar(c)| && r.value.value == c
    ensures Open(b, i + |EscapedChar(c)|)
  {
    var a := EscapedChar(c);
    assert b[i..i + |a|][0] == b[i];
    OpenNext(b, i);
    if |a| == 2 {
      assert b[i..i + |a|][1] == b[i + 1];
      OpenNext(b, i + 1);
    }
  }

  lemma NoItem(b: string, i: nat)
    requires Open(b, i) && b[i] == '\"'
    ensures QuotedItem(b, i) == None
  {
  }

  /** The escaped text is unescaped up to its closing quote, whatever follows. */
  lemma {:induction false} ItemsRead(b: string, i: nat, s: string, rest: string)
    requires Open(b, i) && END !in s && Follows(b, i, Escape(s), "\"" + rest)
    ensures QuotedItems(b, i).end == i + |Escape(s)| && QuotedItems(b, i).value == s
    decreases |s|
  {
    hide Escape, EscapedChar, QuotedItem, Follows, Passed;
    if s == "" {
      EscapeNothing();
      FollowsHead(b, i, "", "\"" + rest);
      NoItem(b, i);
    } else {
      EscapeStep(s);
      FollowsStep(b, i, EscapedChar(s[0]), Escape(s[1..]), "\"" + rest);
      ItemReads(b, i, s[0]);
      ItemsRead(b, i + |EscapedChar(s[0])|, s[1..], rest);
      assert s == [s[0]] + s[1..];
    }
  }

  /** A quoted parameter value is read back, whatever follows it. */
  lemma ValueReads(b: string, i: nat, s: string, rest: string)
    requires Open(b, i) && END !in s && Follows(b, i, "\"" + Escape(s) + "\"", rest)
    ensures var v := AuthParamVal(b, i); v.Some? && v.value.end == i + |Escape(s)| + 2 && v.value.value == s
  {
    hide Escape, QuotedItems;
    var text := "\"" + Escape(s) + "\"";
    FollowsHead(b, i, text, rest);
    OpenNext(b, i);
    assert text + rest == "\"" + Escape(s) + ("\"" + rest);
    FollowsStep(b, i, "\"", Escape(s), "\"" + rest);
    ItemsRead(b, i + 1, s, rest);
    var e := QuotedItems(b, i + 1).end;
    FollowsStep(b, i + 1, Escape(s), "", "\"" + rest) by {
      assert Escape(s) + "" == Escape(s);
    }
    FollowsHead(b, e, "", "\"" + rest);
  }

  /** Around a separator: nothing when it is followed by something that is neither blank nor it. */
  lemma NoBlank(b: string, i: nat)
    requires Open(b, i) && !IsWs(b[i])
    ensures WsStar(b, i).end == i && Ws(b, i) == None
  {
  }

  /** The two separators: a blank after the scheme, a comma and a blank between parameters. */
  lemma SeparatorReads(b: string, i: nat, sep: string, rest: string)
    requires Open(b, i) && sep in {" ", ", "} && Follows(b, i, sep, rest) && rest != "" && !IsWs(rest[0])
    ensures var w := WsOrComma(b, i); w.Some? && w.value.end == i + |sep| && Open(b, i + |sep|)
  {
    assert sep + rest == sep + "" + rest;
    FollowsStep(b, i, sep, "", rest);
    FollowsHead(b, i + |sep|, "", rest);
    FollowsHead(b, i, sep, rest);
    OpenNext(b, i);
    if sep == " " {
      NoBlank(b, i + 1);
    } else {
      assert b[i..i + 2][1] == b[i + 1];
      OpenNext(b, i + 1);
      NoBlank(b, i);
      NoBlank(b, i + 2);
      assert WsStar(b, i + 1).end == i + 2;
    }
  }

  // ---------------------------------------------------------------- reading the parameters

  predicate ReadableParam(p: Param) {
    IsToken(p.key) && END !in p.value
  }

  /** A token is neither blank nor one of the characters that end it here. */
  lemma TokenHead(t: string)
    requires IsToken(t)
    ensures t != "" && !IsWs(t[0]) && t[0] != END && !IsTokenChar(' ') && !IsTokenChar('=') && !IsTokenChar('\"')
  {
    assert IsTokenChar(t[0]);
  }

  /** The separator, the name and the equals sign of a parameter. */
  lemma HeadReads(b: string, i: nat, sep: string, p: Param, rest: string)
    requires Open(b, i) && sep in {" ", ", "} && IsToken(p.key) && Follows(b, i, sep + (p.key + "=\""), rest)
    ensures var h := ParamHead(b, i); h.Some? && h.value.end == i + |sep| + |p.key| + 1 && h.value.value == p.key
  {
    hide WsOrComma, AuthParamKey, Follows, Around, Passed, Inside, Open, IsToken, IsTokenChar, IsWs;
    var text := p.key + "=\"";
    TokenHead(p.key);
    FollowsRecut(b, i, sep + text, rest, sep, text + rest);
    assert (text + rest)[0] == p.key[0];
    SeparatorReads(b, i, sep, text + rest);
    FollowsStep(b, i, sep, text, rest);
    KeyReads(b, i + |sep|, p.key, rest);
    EqualsReads(b, i + |sep| + |p.key|);
  }

  lemma KeyReads(b: string, j: nat, key: string, rest: string)
    requires Open(b, j) && IsToken(key) && Follows(b, j, key + "=\"", rest)
    ensures var k := j + |key|;
            && AuthParamKey(b, j).Some? && AuthParamKey(b, j).value.end == k && AuthParamKey(b, j).value.value == key
            && Open(b, k) && b[k] == '=' && k + 1 < |b| && !IsWs(b[k + 1])
  {
    hide TokenRule, Follows, Passed, IsToken;
    TokenHead(key);
    FollowsStep(b, j, key, "=\"", rest);
    var k := j + |key|;
    FollowsHead(b, k, "=\"", rest);
    TokenReads(b, j, key);
    assert "=" + "\"" == "=\"";
    FollowsStep(b, k, "=", "\"", rest);
    FollowsHead(b, k + 1, "\"", rest);
  }

  /** An equals sign with no blanks around it. */
  lemma EqualsReads(b: string, k: nat)
    requires Open(b, k) && b[k] == '=' && k + 1 < |b| && !IsWs(b[k + 1])
    ensures var r := Around(b, k, '='); r.Some? && r.value.end == k + 1
  {
    NoBlank(b, k);
    OpenNext(b, k);
    NoBlank(b, k + 1);
  }

  /** No parameter starts at the end mark. */
  lemma NoMoreParams(b: string, i: nat)
    requires Open(b, i) && b[i] == END
    ensures AuthParamsStar(b, i).end == i && AuthParamsStar(b, i).value == []
    ensures SecondCred(b, i) == None
  {
    NoBlank(b, i);
  }

  lemma ParamsUnfold(b: string, i: nat)
    requires Open(b, i) && ParamHead(b, i).Some? && AuthParamVal(b, ParamHead(b, i).value.end).Some?
    ensures var head := ParamHead(b, i).value;
            var val := AuthParamVal(b, head.end).value;
            var more := AuthParamsStar(b, val.end);
            var r := AuthParams(b, i);
            r.Some? && r.value.end == more.end && r.value.value == [Param(head.value, val.value)] + more.value
  {
    hide ParamHead, AuthParamVal, AuthParamsStar;
  }

  lemma StarUnfold(b: string, i: nat)
    requires Open(b, i) && AuthParams(b, i).Some? && AuthParamsStar(b, AuthParams(b, i).value.end).value == []
    requires AuthParamsStar(b, AuthParams(b, i).value.end).end == AuthParams(b, i).value.end
    ensures AuthParamsStar(b, i).end == AuthParams(b, i).value.end && AuthParamsStar(b, i).value == AuthParams(b, i).value.value
  {
    hide AuthParams;
    var p := AuthParams(b, i).value;
    assert p.value + [] == p.value;
  }

  /** Printed parameters, each after its separator, are read back in order up to the end of the header. */
  lemma {:induction false} ParamsRead(b: string, i: nat, sep: string, params: seq<Param>)
    requires Open(b, i) && sep in {" ", ", "} && params != [] && (forall k :: 0 <= k < |params| ==> ReadableParam(params[k]))
    requires Follows(b, i, sep + PrintParams(params), [END])
    ensures var r := AuthParams(b, i); r.Some? && r.value.end == |b| - 1 && r.value.value == params
    decreases |params|
  {
    hide Escape, ParamHead, AuthParamVal, AuthParams, AuthParamsStar, Follows, PrintParams, IsToken, Open, Passed;
    var p := params[0];
    var more := if |params| == 1 then "" else ", " + PrintParams(params[1..]);
    PrintSplit(b, i, sep, params, more);
    HeadReads(b, i, sep, p, Escape(p.value) + "\"" + more + [END]);
    var j := ParamHead(b, i).value.end;
    ValueReads(b, j, p.value, more + [END]);
    var k := AuthParamVal(b, j).value.end;
    ParamsUnfold(b, i);
    if |params| == 1 {
      FollowsEnd(b, k);
      NoMoreParams(b, k);
    } else {
      ParamsRead(b, k, ", ", params[1..]);
      AtEnd(b, i, sep + PrintParams(params));
      NoMoreParams(b, |b| - 1);
      StarUnfold(b, k);
    }
    assert params == [p] + params[1..];
  }

  lemma PrintSplit(b: string, i: nat, sep: string, params: seq<Param>, more: string)
    requires params != [] && Follows(b, i, sep + PrintParams(params), [END])
    requires more == if |params| == 1 then "" else ", " + PrintParams(params[1..])
    ensures var p := params[0];
            && Follows(b, i, sep + (p.key + "=\""), Escape(p.value) + "\"" + more + [END])
            && Follows(b, i + |sep| + |p.key| + 1, "\"" + Escape(p.value) + "\"", more + [END])
            && Follows(b, i + |sep| + |p.key| + |Escape(p.value)| + 3, more, [END])
  {
    hide Escape, Follows;
    var p := params[0];
    var e := Escape(p.value);
    var value := "\"" + e + "\"";
    var text := sep + PrintParams(params);
    var eq := "=\"";
    Regroup(sep, p.key + eq, e, "\"", more, [END]);
    FollowsRecut(b, i, text, [END], sep + (p.key + eq), e + "\"" + more + [END]);
    PrintedParam(p);
    RegroupParam(sep, p.key, "=", value, more);
    FollowsStep(b, i, sep + p.key + "=", value + more, [END]);
    FollowsStep(b, i + |sep| + |p.key| + 1, value, more, [END]);
    FollowsRecut(b, i + |sep| + |p.key| + 1, value + more, [END], value, more + [END]);
  }

  lemma Regroup(a: string, b: string, c: string, d: string, e: string, f: string)
    ensures a + (b + c + d + e) + f == (a + b) + (c + d + e + f)
  {
  }

  lemma RegroupParam(a: string, b: string, c: string, d: string, e: string)
    ensures a + (b + c + d + e) == (a + b + c) + (d + e)
  {
  }

  lemma PrintedParam(p: Param)
    ensures PrintParam(p) == p.key + "=\"" + Escape(p.value) + "\"" == p.key + "=" + ("\"" + Escape(p.value) + "\"")
  {
    hide Escape;
    assert "=\"" == "=" + "\"";
  }

  lemma FollowsEnd(b: string, i: nat)
    requires Follows(b, i, "", [END])
    ensures Open(b, i) && i == |b| - 1 && b[i] == END
  {
    FollowsHead(b, i, "", [END]);
    assert |b[i..]| == 1;
  }

  lemma AtEnd(b: string, i: nat, text: string)
    requires Follows(b, i, text, [END])
    ensures |b| > 0 && Open(b, |b| - 1) && b[|b| - 1] == END
  {
    assert b[i..][|text|] == END;
    assert |b[i..]| == |text| + 1;
  }

  // ---------------------------------------------------------------- the whole header

  ghost predicate Recovered(text: string, name: string, params: seq<Param>) {
    var s := Start(Buffer(text), 0);
    s.Some? && s.value.value == [Scheme(name, params)]
  }

  lemma SchemeReads(b: string, name: string, params: seq<Param>)
    requires Open(b, 0) && IsToken(name) && params != [] && (forall k :: 0 <= k < |params| ==> ReadableParam(params[k]))
    requires Follows(b, 0, PrintChallenge(name, params), [END])
    ensures var c := ChallengeCred(b, 0); c.Some? && c.value.end == |b| - 1 && c.value.value == Scheme(name, params)
  {
    hide Follows, TokenRule, AuthParams, PrintParams, IsTokenChar, IsToken;
    var text := PrintChallenge(name, params);
    var tail := " " + PrintParams(params);
    FollowsRecut(b, 0, text, [END], name + tail, [END]);
    FollowsStep(b, 0, name, tail, [END]);
    FollowsHead(b, |name|, tail, [END]);
    TokenHead(name);
    TokenReads(b, 0, name);
    ParamsRead(b, |name|, " ", params);
  }

  lemma StartReads(name: string, params: seq<Param>)
    requires IsToken(name) && params != [] && (forall k :: 0 <= k < |params| ==> ReadableParam(params[k]))
    ensures Recovered(PrintChallenge(name, params), name, params)
  {
    hide ChallengeCred, AuthParams, IsTokenChar, IsToken, Follows, SecondCred, PrintParams, WsStar, Open;
    var text := PrintChallenge(name, params);
    var b := Buffer(text);
    PrintEnds(params);
    assert b == text + [END];
    TokenHead(name);
    ShowsAll(text);
    assert b[0] == name[0];
    NoBlank(b, 0);
    SchemeReads(b, name, params);
    AtEnd(b, 0, text);
    NoMoreParams(b, |b| - 1);
    NoBlank(b, |b| - 1);
  }

  lemma ShowsAll(text: string)
    ensures Follows(text + [END], 0, text, [END])
  {
  }

  lemma {:induction false} PrintEnds(params: seq<Param>)
    requires params != []
    ensures var t := PrintParams(params); t != "" && t[|t| - 1] == '\"'
    decreases |params|
  {
    if |params| > 1 {
      PrintEnds(params[1..]);
    }
  }

  /** Printed with `escape` and joined by a comma and a space, a scheme and its parameters are recovered exactly, in
      order, if and only if no value contains the end mark. */
  lemma ListRoundTrip(name: string, params: seq<Param>)
    requires IsToken(name) && params != [] && (forall k :: 0 <= k < |params| ==> IsToken(params[k].key))
    ensures Recovered(PrintChallenge(name, params), name, params) <==> forall k :: 0 <= k < |params| ==> END !in params[k].value
  {
    hide Start, Buffer, PrintChallenge, IsToken;
    if forall k :: 0 <= k < |params| ==> END !in params[k].value {
      StartReads(name, params);
    } else if Recovered(PrintChallenge(name, params), name, params) {
      assert CleanCred(Start(Buffer(PrintChallenge(name, params)), 0).value.value[0]);
    }
  }

  // ---------------------------------------------------------------- what the parameters mean

  /** The map that setting the parameters one after the other builds. */
  function ParamMap(start: map<string, string>, params: seq<Param>): map<string, string>
    decreases |params|
  {
    if params == [] then start else ParamMap(start[params[0].key := params[0].value], params[1..])
  }

  lemma {:induction false} SetParamsLast(name: string, start: map<string, string>, params: seq<Param>)
    ensures SetParams([Method(name, start)], params) == Some([Method(name, ParamMap(start, params))])
    decreases |params|
  {
    if params != [] {
      SetParamsLast(name, start[params[0].key := params[0].value], params[1..]);
      assert [Method(name, start)][0 := Method(name, start[params[0].key := params[0].value])]
          == [Method(name, start[params[0].key := params[0].value])];
    }
  }

  ghost predicate DistinctKeys(params: seq<Param>) {
    forall j, k :: 0 <= j < k < |params| ==> params[j].key != params[k].key
  }

  ghost function KeySet(params: seq<Param>): set<string> {
    set k | 0 <= k < |params| :: params[k].key
  }

  lemma {:induction false} ParamMapHolds(start: map<string, string>, params: seq<Param>)
    requires DistinctKeys(params)
    ensures var m := ParamMap(start, params);
            && m.Keys == start.Keys + KeySet(params)
            && (forall k :: 0 <= k < |params| ==> m[params[k].key] == params[k].value)
            && (forall key :: key in start && key !in KeySet(params) ==> m[key] == start[key])
    decreases |params|
  {
    if params != [] {
      var tail := params[1..];
      assert forall k :: 0 <= k < |tail| ==> tail[k] == params[k + 1];
      ParamMapHolds(start[params[0].key := params[0].value], tail);
      var m := ParamMap(start, params);
      assert params[0].key !in KeySet(tail);
      assert KeySet(params) == {params[0].key} + KeySet(tail) by {
        forall k | 0 <= k < |tail|
          ensures tail[k].key in KeySet(params)
        {
          assert tail[k] == params[k + 1];
        }
        assert params[0].key in KeySet(params);
        assert forall k :: 1 <= k < |params| ==> tail[k - 1] == params[k];
      }
      forall k | 0 <= k < |params|
        ensures m[params[k].key] == params[k].value
      {
        if k > 0 {
          assert tail[k - 1] == params[k];
        }
      }
    }
  }

  /** With distinct keys, the parsed header is one method that maps each key to its value and nothing else, if and only
      if no value contains the end mark. */
  lemma ListMeaning(name: string, params: seq<Param>)
    requires IsToken(name) && params != [] && DistinctKeys(params)
    requires forall k :: 0 <= k < |params| ==> IsToken(params[k].key)
    ensures var meaning := Meaning(PrintChallenge(name, params));
            (forall k :: 0 <= k < |params| ==> END !in params[k].value) <==>
            && meaning.Some? && |meaning.value| == 1 && meaning.value[0].name == name
            && meaning.value[0].params.Keys == KeySet(params)
            && (forall k :: 0 <= k < |params| ==> meaning.value[0].params[params[k].key] == params[k].value)
  {
    hide Start, Buffer, PrintChallenge, IsToken, CleanCred;
    var text := PrintChallenge(name, params);
    if forall k :: 0 <= k < |params| ==> END !in params[k].value {
      StartReads(name, params);
      OnlyCred(name, params);
      ParamMapHolds(map[], params);
    } else {
      MeaningIsClean(text);
      assert forall k :: 0 <= k < |params| ==> params[k].key in KeySet(params);
    }
  }

  lemma OnlyCred(name: string, params: seq<Param>)
    ensures ApplyCreds([], [Scheme(name, params)]) == Some([Method(name, ParamMap(map[], params))])
  {
    SetParamsLast(name, map[], params);
    assert AddAuthScheme([], name) == [Method(name, map[])];
    assert [Scheme(name, params)][1..] == [];
  }

  // ---------------------------------------------------------------- the challenge of Authenticate

  function ChallengeParams(realm: string, path: string, nonce: string, opaq: string, stale: bool): seq<Param> {
    [Param("realm", realm), Param("domain", path), Param("nonce", nonce), Param("opaque", opaq)]
    + (if stale then [Param("stale", "true")] else []) + [Param("algorithm", "MD5"), Param("qop", "auth")]
  }

  /** What base64 text is for the printer: nothing in it needs escaping, and it has no end mark. */
  predicate Plain(s: string) {
    '\\' !in s && '\"' !in s && END !in s
  }

  lemma {:induction false} PrintParamsSnoc(params: seq<Param>, p: Param)
    requires params != []
    ensures PrintParams(params + [p]) == PrintParams(params) + ", " + PrintParam(p)
    decreases |params|
  {
    hide PrintParam;
    var all := params + [p];
    assert all[1..] == params[1..] + [p];
    if |params| == 1 {
      assert all[1..] == [p];
    } else {
      PrintParamsSnoc(params[1..], p);
      calc {
        PrintParams(all);
        PrintParam(all[0]) + (", " + PrintParams(all[1..]));
        PrintParam(all[0]) + (", " + (PrintParams(params[1..]) + ", " + PrintParam(p)));
        PrintParam(all[0]) + (", " + PrintParams(params[1..])) + ", " + PrintParam(p);
      }
    }
  }

  /** One more quoted parameter: the text up to its closing quote grows by the literal before the value and the value. */
  lemma PrintNext(name: string, params: seq<Param>, text: string, literal: string, p: Param)
    requires params != [] && PrintChallenge(name, params) == text + "\"" && literal == "\", " + p.key + "=\""
    ensures PrintChallenge(name, params + [p]) == text + literal + Escape(p.value) + "\""
  {
    hide Escape, PrintParams;
    PrintParamsSnoc(params, p);
    var old1 := PrintChallenge(name, params);
    assert "\", " == "\"" + ", ";
    calc {
      PrintChallenge(name, params + [p]);
      name + " " + (PrintParams(params) + ", " + PrintParam(p));
      old1 + (", " + PrintParam(p));
      text + "\"" + (", " + (p.key + "=\"" + Escape(p.value) + "\""));
      text + ("\"" + ", " + p.key + "=\"") + (Escape(p.value) + "\"");
      text + literal + Escape(p.value) + "\"";
    }
  }

  /** One more parameter whose value needs no escaping. */
  lemma PrintLast(name: string, params: seq<Param>, p: Param)
    requires params != [] && Plain(p.value)
    ensures PrintChallenge(name, params + [p]) == PrintChallenge(name, params) + (", " + p.key + "=\"" + p.value + "\"")
  {
    hide Escape, PrintParams;
    PrintParamsSnoc(params, p);
    EscapePlain(p.value);
  }

  lemma PrintFirst(realm: string)
    ensures PrintChallenge("Digest", [Param("realm", realm)]) == "Digest realm=\"" + Escape(realm) + "\""
  {
    hide Escape;
    assert "Digest realm=\"" == "Digest" + " " + "realm" + "=\"";
  }

  /** The four parameters of every challenge. */
  lemma PrintFour(realm: string, path: string, nonce: string, opaq: string)
    requires Plain(nonce) && Plain(opaq)
    ensures PrintChallenge("Digest", [Param("realm", realm), Param("domain", path), Param("nonce", nonce), Param("opaque", opaq)]) ==
            "Digest realm=\"" + Escape(realm) + "\", domain=\"" + Escape(path) + "\", nonce=\"" + nonce + "\", opaque=\"" + opaq + "\""
  {
    hide Escape, PrintChallenge;
    var one := [Param("realm", realm)];
    var two := one + [Param("domain", path)];
    var three := two + [Param("nonce", nonce)];
    var t1 := "Digest realm=\"" + Escape(realm);
    var t2 := t1 + "\", domain=\"" + Escape(path);
    var t3 := t2 + "\", nonce=\"" + nonce;
    PrintFirst(realm);
    assert "\", domain=\"" == "\", " + "domain" + "=\"";
    PrintNext("Digest", one, t1, "\", domain=\"", Param("domain", path));
    assert "\", nonce=\"" == "\", " + "nonce" + "=\"";
    EscapePlain(nonce);
    PrintNext("Digest", two, t2, "\", nonce=\"", Param("nonce", nonce));
    assert "\", opaque=\"" == "\", " + "opaque" + "=\"";
    EscapePlain(opaq);
    PrintNext("Digest", three, t3, "\", opaque=\"", Param("opaque", opaq));
    assert three + [Param("opaque", opaq)]
        == [Param("realm", realm), Param("domain", path), Param("nonce", nonce), Param("opaque", opaq)];
  }

  lemma PrintStale(params: seq<Param>)
    requires params != []
    ensures PrintChallenge("Digest", params + [Param("stale", "true")]) == PrintChallenge("Digest", params) + ", stale=\"true\""
  {
    hide PrintChallenge;
    assert ", stale=\"true\"" == ", " + "stale" + "=\"" + "true" + "\"";
    PrintLast("Digest", params, Param("stale", "true"));
  }

  lemma PrintTail(params: seq<Param>)
    requires params != []
    ensures PrintChallenge("Digest", params + [Param("algorithm", "MD5"), Param("qop", "auth")]) ==
            PrintChallenge("Digest", params) + ", algorithm=\"MD5\"" + ", qop=\"auth\""
  {
    hide PrintChallenge;
    assert ", algorithm=\"MD5\"" == ", " + "algorithm" + "=\"" + "MD5" + "\"";
    PrintLast("Digest", params, Param("algorithm", "MD5"));
    assert ", qop=\"auth\"" == ", " + "qop" + "=\"" + "auth" + "\"";
    PrintLast("Digest", params + [Param("algorithm", "MD5")], Param("qop", "auth"));
    assert params + [Param("algorithm", "MD5")] + [Param("qop", "auth")] == params + [Param("algorithm", "MD5"), Param("qop", "auth")];
  }

  /** The text of Authenticate is a printed list of parameters. */
  lemma ChallengeIsPrinted(realm: string, path: string, nonce: string, opaq: string, stale: bool)
    requires Plain(nonce) && Plain(opaq)
    ensures Challenge(realm, path, nonce, opaq, stale) == PrintChallenge("Digest", ChallengeParams(realm, path, nonce, opaq, stale))
  {
    hide Escape, PrintChallenge, Plain;
    var four := [Param("realm", realm), Param("domain", path), Param("nonce", nonce), Param("opaque", opaq)];
    PrintFour(realm, path, nonce, opaq);
    if stale {
      PrintStale(four);
      PrintTail(four + [Param("stale", "true")]);
    } else {
      assert four + [] == four && PrintChallenge("Digest", four) + "" == PrintChallenge("Digest", four);
      PrintTail(four);
    }
  }

  lemma LettersAreToken(t: string)
    requires t != "" && forall k :: 0 <= k < |t| ==> 'A' <= t[k] <= 'Z' || 'a' <= t[k] <= 'z'
    ensures IsToken(t)
  {
  }

  lemma ChallengeKeys(realm: string, path: string, nonce: string, opaq: string, stale: bool)
    ensures var params := ChallengeParams(realm, path, nonce, opaq, stale);
            && DistinctKeys(params) && (forall k :: 0 <= k < |params| ==> IsToken(params[k].key))
            && KeySet(params) == {"realm", "domain", "nonce", "opaque", "algorithm", "qop"} + if stale then {"stale"} else {}
  {
    hide IsToken;
    var params := ChallengeParams(realm, path, nonce, opaq, stale);
    LettersAreToken("realm");
    LettersAreToken("domain");
    LettersAreToken("nonce");
    LettersAreToken("opaque");
    LettersAreToken("stale");
    LettersAreToken("algorithm");
    LettersAreToken("qop");
    var initials := if stale then "rdnosaq" else "rdnoaq";
    assert forall k :: 0 <= k < |params| ==> params[k].key[0] == initials[k];
    assert params[0] == Param("realm", realm) && params[1] == Param("domain", path);
    assert params[2] == Param("nonce", nonce) && params[3] == Param("opaque", opaq);
    if stale {
      assert params[4].key == "stale" && params[5].key == "algorithm" && params[6].key == "qop";
    } else {
      assert params[4].key == "algorithm" && params[5].key == "qop";
    }
  }

  /** What the challenge says: these parameters and no others. */
  ghost predicate IsChallenge(m: Method, realm: string, path: string, nonce: string, opaq: string, stale: bool) {
    && m.name == "Digest"
    && m.params.Keys == {"realm", "domain", "nonce", "opaque", "algorithm", "qop"} + (if stale then {"stale"} else {})
    && m.params["realm"] == realm && m.params["domain"] == path
    && m.params["nonce"] == nonce && m.params["opaque"] == opaq
    && m.params["algorithm"] == "MD5" && m.params["qop"] == "auth"
    && (stale ==> m.params["stale"] == "true")
  }

  /** The printed challenge parses back to exactly the scheme and every parameter value if and only if neither the
      realm nor the path contains the end mark. */
  lemma ChallengeRoundTrip(realm: string, path: string, nonce: string, opaq: string, stale: bool)
    requires Plain(nonce) && Plain(opaq)
    ensures var meaning := Meaning(Challenge(realm, path, nonce, opaq, stale));
            END !in realm && END !in path <==>
            meaning.Some? && |meaning.value| == 1 && IsChallenge(meaning.value[0], realm, path, nonce, opaq, stale)
  {
    hide PrintChallenge, IsToken, Challenge, Meaning, DistinctKeys, KeySet;
    var params := ChallengeParams(realm, path, nonce, opaq, stale);
    ChallengeIsPrinted(realm, path, nonce, opaq, stale);
    ChallengeKeys(realm, path, nonce, opaq, stale);
    LettersAreToken("Digest");
    ListMeaning("Digest", params);
    var n := |params| - 2;
    assert params[0] == Param("realm", realm) && params[1] == Param("domain", path);
    assert params[2] == Param("nonce", nonce) && params[3] == Param("opaque", opaq);
    assert stale ==> params[4] == Param("stale", "true");
    assert params[n] == Param("algorithm", "MD5") && params[n + 1] == Param("qop", "auth");
    if END in realm || END in path {
      MeaningIsClean(Challenge(realm, path, nonce, opaq, stale));
    }
  }
}
