/** The generated header parser (server/headerparse.peg.go): closures that share a position, a depth and a token
    array, save and restore them around every alternative, and overwrite the entries of abandoned ones. */
module HeaderParser {
  import opened Options
  import opened HeaderGrammar
  import opened HeaderActions
  import opened HeaderCfg

  /** Truncation to a signed integer with `half` non-negative values. */
  function Narrow(n: int, half: int): int
    requires half > 0
  {
    (n + half) % (2 * half) - half
  }

  /** The entry as it is stored: 16-bit fields at first, 32-bit ones once the array has been expanded. */
  function Stored(wide: bool, rule: Rule, begin: int, end: int, depth: int): Token {
    var half := if wide then 0x8000_0000 else 0x8000;
    Token(rule, Narrow(begin, half), Narrow(end, half), Narrow(depth, half))
  }

  /** The largest buffer whose positions fit the 16-bit fields. */
  const LIMIT := 0x8000

  /** Depths that leave room for the nodes a rule other than auth_params nests. */
  const DEEP := 32000

  lemma Wrap(ts: seq<Token>, rule: Rule, begin: nat, end: nat, kids: seq<Tree>, d: nat)
    ensures ts + Flatten(kids, d + 1) + [Token(rule, begin, end, d)] == ts + Flatten([Node(rule, begin, end, kids)], d)
  {
    FlattenNode(rule, begin, end, kids, d);
  }

  lemma NoTokens(ts: seq<Token>, d: nat)
    ensures ts + Flatten([], d) == ts
  {
  }

  lemma Join(ts: seq<Token>, a: seq<Tree>, b: seq<Tree>, d: nat)
    ensures ts + Flatten(a, d) + Flatten(b, d) == ts + Flatten(a + b, d)
  {
    FlattenConcat(a, b, d);
  }

  /** The variables the closures share. */
  class Matcher {
    const buffer: string
    var position: nat
    var tokenIndex: nat
    var depth: nat
    var tree: array<Token>
    var wide: bool

    ghost predicate Valid()
      reads this, tree
    {
      Open(buffer, position) && |buffer| <= LIMIT && 0 < tree.Length && tokenIndex <= tree.Length
    }

    /** The tokens that count: what lies beyond the token index belongs to abandoned alternatives. */
    ghost function Toks(): seq<Token>
      reads this, tree
      requires Valid()
    {
      tree[..tokenIndex]
    }

    ghost predicate At(p: nat, d: nat, ts: seq<Token>)
      reads this, tree
    {
      Valid() && position == p && depth == d && Toks() == ts
    }

    /** The tokens recorded so far are still there, below whatever was added. */
    ghost predicate Over(ts: seq<Token>)
      reads this, tree
    {
      Valid() && |ts| <= tokenIndex && tree[..|ts|] == ts
    }

    /** A rule with its own closure: on a match it stands at the end of the match and has added exactly the tokens of
        the match; otherwise nothing has changed. */
    ghost predicate Outcome<M>(ok: bool, r: Option<Hit<M>>, p: nat, d: nat, ts: seq<Token>)
      reads this, tree
    {
      match r
      case Some(hit) => ok && At(hit.end, d, ts + Flatten(hit.forest, d))
      case None => !ok && At(p, d, ts)
    }

    /** A rule expanded inside another: when it fails it leaves the restoring to the enclosing rule. */
    ghost predicate Inlined<M>(ok: bool, r: Option<Hit<M>>, d: nat, ts: seq<Token>)
      reads this, tree
    {
      match r
      case Some(hit) => ok && At(hit.end, d, ts + Flatten(hit.forest, d))
      case None => !ok && Over(ts)
    }

    constructor (header: string)
      requires |header| < LIMIT
      ensures At(0, 0, []) && buffer == Buffer(header) && fresh(tree)
    {
      buffer := Buffer(header);
      position, tokenIndex, depth := 0, 0, 0;
      tree := new Token[32767];
      wide := false;
    }

    /** Makes room for one more entry by doubling the array. */
    method Expand()
      requires Valid()
      modifies this`tree, this`wide
      ensures Valid() && Toks() == old(Toks()) && tokenIndex < tree.Length
      ensures tree == old(tree) || fresh(tree)
    {
      if tokenIndex >= tree.Length {
        var expanded := new Token[2 * tree.Length];
        var i := 0;
        while i < tree.Length
          invariant tree == old(tree) && fresh(expanded) && 0 <= i <= tree.Length
          invariant expanded[..i] == tree[..i] == old(tree[..])[..i]
        {
          expanded[i] := tree[i];
          i := i + 1;
        }
        assert expanded[..tokenIndex] == expanded[..i][..tokenIndex];
        tree := expanded;
        wide := true;
      }
    }

    /** Writes an entry at the token index, over whatever an abandoned alternative left there. */
    method Add(rule: Rule, begin: nat)
      requires Valid() && begin < LIMIT && depth < LIMIT
      modifies this, tree
      ensures At(old(position), old(depth), old(Toks()) + [Token(rule, begin, old(position), old(depth))])
      ensures tree == old(tree) || fresh(tree)
    {
      Expand();
      tree[tokenIndex] := Stored(wide, rule, begin, position, depth);
      tokenIndex := tokenIndex + 1;
      assert tree[..tokenIndex] == tree[..tokenIndex - 1] + [tree[tokenIndex - 1]];
    }

    method MatchDot() returns (ok: bool)
      requires Valid()
      modifies this`position
      ensures Valid() && ok == (buffer[old(position)] != END)
      ensures position == old(position) + if ok then 1 else 0
    {
      if buffer[position] != END {
        OpenNext(buffer, position);
        position := position + 1;
        return true;
      }
      return false;
    }

    /** Takes one character that has just been looked at. */
    method Step()
      requires Valid() && buffer[position] != END
      modifies this`position
      ensures Valid() && position == old(position) + 1
    {
      OpenNext(buffer, position);
      position := position + 1;
    }

    method Restore(p: nat, t: nat, d: nat)
      requires Open(buffer, p) && |buffer| <= LIMIT && 0 < tree.Length && t <= tree.Length
      modifies this`position, this`tokenIndex, this`depth
      ensures At(p, d, tree[..t])
    {
      position, tokenIndex, depth := p, t, d;
    }

    /** An action: an empty node at the position. */
    method AddAction(action: Rule)
      requires Valid() && depth < LIMIT
      modifies this, tree
      ensures At(old(position), old(depth), old(Toks()) + Flatten([Node(action, old(position), old(position), [])], old(depth)))
      ensures tree == old(tree) || fresh(tree)
    {
      ghost var ts := Toks();
      Add(action, position);
      Wrap(ts, action, position, position, [], depth);
    }

    method MatchWs() returns (ok: bool)
      requires Valid() && depth <= DEEP
      modifies this, tree
      ensures Outcome(ok, Ws(buffer, old(position)), old(position), old(depth), old(Toks()))
      ensures tree == old(tree) || fresh(tree)
    {
      ghost var ts := Toks();
      var position0, tokenIndex0, depth0 := position, tokenIndex, depth;
      var begin := position;
      depth := depth + 1;
      if buffer[position] != '\t' && buffer[position] != ' ' {
        Restore(position0, tokenIndex0, depth0);
        return false;
      }
      Step();
      depth := depth - 1;
      Add(RuleWs, begin);
      Wrap(ts, RuleWs, begin, position, [], depth);
      return true;
    }

    /** ws*, expanded in place: the round that fails is undone. */
    method SkipWs()
      requires Valid() && depth <= DEEP
      modifies this, tree
      ensures var h := WsStar(buffer, old(position)); At(h.end, old(depth), old(Toks()) + Flatten(h.forest, old(depth)))
      ensures tree == old(tree) || fresh(tree)
    {
      hide Ws, Flatten;
      ghost var ts, p, d := Toks(), position, depth;
      ghost var done: seq<Tree> := [];
      NoTokens(ts, d);
      while true
        invariant At(position, d, ts + Flatten(done, d)) && (tree == old(tree) || fresh(tree))
        invariant WsStar(buffer, p).end == WsStar(buffer, position).end
        invariant WsStar(buffer, p).forest == done + WsStar(buffer, position).forest
        decreases |buffer| - position
      {
        var position0, tokenIndex0, depth0 := position, tokenIndex, depth;
        ghost var hit := Ws(buffer, position);
        var ok := MatchWs();
        if !ok {
          Restore(position0, tokenIndex0, depth0);
          break;
        }
        Join(ts, done, hit.value.forest, d);
        done := done + hit.value.forest;
      }
      assert done + [] == done;
    }

    method MatchToken() returns (ok: bool)
      requires Valid() && depth <= DEEP
      modifies this, tree
      ensures Outcome(ok, TokenRule(buffer, old(position)), old(position), old(depth), old(Toks()))
      ensures tree == old(tree) || fresh(tree)
    {
      ghost var ts := Toks();
      var position0, tokenIndex0, depth0 := position, tokenIndex, depth;
      var begin := position;
      depth := depth + 1;
      if !IsTokenChar(buffer[position]) {
        Restore(position0, tokenIndex0, depth0);
        return false;
      }
      Step();
      while IsTokenChar(buffer[position])
        invariant At(position, depth0 + 1, ts) && begin < position && unchanged(`tree) && unchanged(tree)
        invariant TokenEnd(buffer, begin) == TokenEnd(buffer, position)
        decreases |buffer| - position
      {
        Step();
      }
      depth := depth - 1;
      Add(RuleToken, begin);
      Wrap(ts, RuleToken, begin, position, [], depth);
      return true;
    }

    /** token68, expanded inside challenge_cred. */
    method MatchToken68() returns (ok: bool)
      requires Valid() && depth <= DEEP
      modifies this, tree
      ensures Inlined(ok, Token68Rule(buffer, old(position)), old(depth), old(Toks()))
      ensures tree == old(tree) || fresh(tree)
    {
      hide Flatten;
      ghost var ts, d := Toks(), depth;
      NoTokens(ts, d + 1);
      var begin := position;
      depth := depth + 1;
      if !IsToken68Char(buffer[position]) {
        return false;
      }
      Step();
      while IsToken68Char(buffer[position])
        invariant At(position, d + 1, ts) && begin < position && unchanged(`tree) && unchanged(tree)
        invariant Token68End(buffer, begin) == Token68End(buffer, position)
        decreases |buffer| - position
      {
        Step();
      }
      ghost var m := position;
      while buffer[position] == '='
        invariant At(position, d + 1, ts) && begin < position && unchanged(`tree) && unchanged(tree)
        invariant EqualsEnd(buffer, m) == EqualsEnd(buffer, position)
        decreases |buffer| - position
      {
        Step();
      }
      depth := depth - 1;
      Add(RuleToken68, begin);
      Wrap(ts, RuleToken68, begin, position, [], depth);
      return true;
    }

    /** Closes a capture: the text node over the parts since `begin`, then its action. */
    method Capture(begin: nat, action: Rule, ghost ts: seq<Token>, ghost kids: seq<Tree>)
      requires depth > 0 && depth <= DEEP && begin < LIMIT && At(position, depth, ts + Flatten(kids, depth))
      modifies this, tree
      ensures At(old(position), old(depth) - 1, ts + Flatten(Captured(begin, old(position), kids, action), old(depth) - 1))
      ensures tree == old(tree) || fresh(tree)
    {
      depth := depth - 1;
      Add(RulePegText, begin);
      Wrap(ts, RulePegText, begin, position, kids, depth);
      AddAction(action);
      Join(ts, [Node(RulePegText, begin, position, kids)], [Node(action, position, position, [])], depth);
    }

    /** Closes a rule: its node over the parts since `begin`. */
    method Close(rule: Rule, begin: nat, ghost ts: seq<Token>, ghost kids: seq<Tree>)
      requires depth > 0 && depth <= DEEP && begin < LIMIT && At(position, depth, ts + Flatten(kids, depth))
      modifies this, tree
      ensures At(old(position), old(depth) - 1, ts + Flatten([Node(rule, begin, old(position), kids)], old(depth) - 1))
      ensures tree == old(tree) || fresh(tree)
    {
      depth := depth - 1;
      Add(rule, begin);
      Wrap(ts, rule, begin, position, kids, depth);
    }

    method MatchQuotedStrChar() returns (ok: bool)
      requires Valid() && depth + 2 <= DEEP
      modifies this, tree
      ensures Outcome(ok, QuotedStrChar(buffer, old(position)), old(position), old(depth), old(Toks()))
      ensures tree == old(tree) || fresh(tree)
    {
      ghost var ts := Toks();
      var position0, tokenIndex0, depth0 := position, tokenIndex, depth;
      var begin := position;
      depth := depth + 2;
      ok := MatchDot();
      if !ok {
        Restore(position0, tokenIndex0, depth0);
        return;
      }
      assert ts + Flatten([], depth) == ts;
      Capture(begin, RuleAction6, ts, []);
      Close(RuleQuotedStrChar, begin, ts, Captured(begin, position, [], RuleAction6));
    }

    /** A token captured for an action, inside a rule of its own: auth_scheme, auth_param_key and auth_param_tval. */
    method CaptureToken(rule: Rule, action: Rule) returns (ok: bool)
      requires Valid() && depth + 2 <= DEEP
      modifies this, tree
      ensures var r := TokenRule(buffer, old(position));
              match r
              case None => !ok && Over(old(Toks()))
              case Some(t) =>
                var node := Node(rule, old(position), t.end, Captured(old(position), t.end, t.forest, action));
                ok && At(t.end, old(depth), old(Toks()) + Flatten([node], old(depth)))
      ensures tree == old(tree) || fresh(tree)
    {
      ghost var ts, hit := Toks(), TokenRule(buffer, position);
      var begin := position;
      depth := depth + 2;
      ok := MatchToken();
      if ok {
        Capture(begin, action, ts, hit.value.forest);
        Close(rule, begin, ts, Captured(begin, position, hit.value.forest, action));
      }
    }

    method MatchAuthSingleParam() returns (ok: bool)
      requires Valid() && depth + 2 <= DEEP
      modifies this, tree
      ensures Inlined(ok, AuthSingleParam(buffer, old(position)), old(depth), old(Toks()))
      ensures tree == old(tree) || fresh(tree)
    {
      ghost var ts, hit := Toks(), Token68Rule(buffer, position);
      var begin := position;
      depth := depth + 2;
      ok := MatchToken68();
      if ok {
        Capture(begin, RuleAction1, ts, hit.value.forest);
        Close(RuleAuthSingleParam, begin, ts, Captured(begin, position, hit.value.forest, RuleAction1));
      }
    }

    /** ws* c ws*, expanded in several rules. */
    method MatchAround(c: char) returns (ok: bool)
      requires Valid() && depth <= DEEP && c != END
      modifies this, tree
      ensures Inlined(ok, Around(buffer, old(position), c), old(depth), old(Toks()))
      ensures tree == old(tree) || fresh(tree)
    {
      hide WsStar, Flatten;
      ghost var ts, before := Toks(), WsStar(buffer, position);
      SkipWs();
      if buffer[position] != c {
        return false;
      }
      Step();
      Join(ts, before.forest, WsStar(buffer, position).forest, depth);
      SkipWs();
      return true;
    }

    /** ws_or_comma, expanded inside auth_params. */
    method MatchWsOrComma() returns (ok: bool)
      requires Valid() && depth + 1 <= DEEP
      modifies this, tree
      ensures Inlined(ok, WsOrComma(buffer, old(position)), old(depth), old(Toks()))
      ensures tree == old(tree) || fresh(tree)
    {
      hide Ws, WsStar, Around, Flatten;
      ghost var ts := Toks();
      var begin := position;
      depth := depth + 1;
      var position0, tokenIndex0, depth0 := position, tokenIndex, depth;
      ghost var first := Ws(buffer, position);
      ghost var kids: seq<Tree>;
      ok := MatchWs();
      if ok {
        kids := first.value.forest + WsStar(buffer, position).forest;
        Join(ts, first.value.forest, WsStar(buffer, position).forest, depth);
        SkipWs();
      } else {
        Restore(position0, tokenIndex0, depth0);
        ghost var sep := Around(buffer, position, ',');
        ok := MatchAround(',');
        if !ok {
          return;
        }
        kids := sep.value.forest;
      }
      Close(RuleWsOrComma, begin, ts, kids);
    }

    /** quoted_str_char guarded by the two negative look-aheads, or escaped: one round of the string's loop. */
    method MatchQuotedItem() returns (ok: bool)
      requires Valid() && depth + 2 <= DEEP
      modifies this, tree
      ensures Inlined(ok, QuotedItem(buffer, old(position)), old(depth), old(Toks()))
      ensures tree == old(tree) || fresh(tree)
    {
      var position0, tokenIndex0, depth0 := position, tokenIndex, depth;
      if buffer[position] != '\"' && buffer[position] != '\\' {
        ok := MatchQuotedStrChar();
        if ok {
          return;
        }
      }
      Restore(position0, tokenIndex0, depth0);
      if buffer[position] != '\\' {
        return false;
      }
      Step();
      ok := MatchQuotedStrChar();
    }

    method MatchQuotedItems()
      requires Valid() && depth + 2 <= DEEP
      modifies this, tree
      ensures var h := QuotedItems(buffer, old(position)); At(h.end, old(depth), old(Toks()) + Flatten(h.forest, old(depth)))
      ensures tree == old(tree) || fresh(tree)
    {
      hide QuotedItem, Flatten;
      ghost var ts, p, d := Toks(), position, depth;
      ghost var done: seq<Tree> := [];
      NoTokens(ts, d);
      while true
        invariant At(position, d, ts + Flatten(done, d)) && (tree == old(tree) || fresh(tree))
        invariant QuotedItems(buffer, p).end == QuotedItems(buffer, position).end
        invariant QuotedItems(buffer, p).forest == done + QuotedItems(buffer, position).forest
        decreases |buffer| - position
      {
        var position0, tokenIndex0, depth0 := position, tokenIndex, depth;
        ghost var hit := QuotedItem(buffer, position);
        var ok := MatchQuotedItem();
        if !ok {
          Restore(position0, tokenIndex0, depth0);
          break;
        }
        Join(ts, done, hit.value.forest, d);
        done := done + hit.value.forest;
      }
      assert done + [] == done;
    }

    method MatchQuotedString() returns (ok: bool)
      requires Valid() && depth + 4 <= DEEP
      modifies this, tree
      ensures Inlined(ok, QuotedString(buffer, old(position)), old(depth), old(Toks()))
      ensures tree == old(tree) || fresh(tree)
    {
      hide QuotedItems, Flatten;
      ghost var ts := Toks();
      var begin := position;
      depth := depth + 1;
      depth := depth + 1;
      ghost var action := [Node(RuleAction5, position, position, [])];
      AddAction(RuleAction5);
      Close(RuleQuotedStrBegin, begin, ts, action);
      ghost var opening := [Node(RuleQuotedStrBegin, begin, begin, action)];
      if buffer[position] != '\"' {
        return false;
      }
      Step();
      ghost var items := QuotedItems(buffer, position);
      Join(ts, opening, items.forest, depth);
      MatchQuotedItems();
      if buffer[position] != '\"' {
        return false;
      }
      Step();
      Close(RuleQuotedString, begin, ts, opening + items.forest);
      return true;
    }

    method MatchAuthParamSval() returns (ok: bool)
      requires Valid() && depth + 6 <= DEEP
      modifies this, tree
      ensures Inlined(ok, AuthParamSval(buffer, old(position)), old(depth), old(Toks()))
      ensures tree == old(tree) || fresh(tree)
    {
      hide QuotedString, Flatten;
      ghost var ts, hit := Toks(), QuotedString(buffer, position);
      var begin := position;
      depth := depth + 2;
      ok := MatchQuotedString();
      if ok {
        Capture(begin, RuleAction3, ts, hit.value.forest);
        Close(RuleAuthParamSval, begin, ts, Captured(begin, position, hit.value.forest, RuleAction3));
      }
    }

    method MatchAuthParamVal() returns (ok: bool)
      requires Valid() && depth + 7 <= DEEP
      modifies this, tree
      ensures Inlined(ok, AuthParamVal(buffer, old(position)), old(depth), old(Toks()))
      ensures tree == old(tree) || fresh(tree)
    {
      hide AuthParamSval, TokenRule, Flatten;
      ghost var ts := Toks();
      var begin := position;
      depth := depth + 1;
      var position0, tokenIndex0, depth0 := position, tokenIndex, depth;
      ghost var kids := if AuthParamSval(buffer, position).Some? then AuthParamSval(buffer, position).value.forest
                        else if AuthParamTval(buffer, position).Some? then AuthParamTval(buffer, position).value.forest else [];
      ok := MatchAuthParamSval();
      if !ok {
        Restore(position0, tokenIndex0, depth0);
        ok := CaptureToken(RuleAuthParamTval, RuleAction4);
      }
      if ok {
        Close(RuleAuthParamVal, begin, ts, kids);
      }
    }

    /** ws_or_comma auth_param_key ws* "=" ws*: the part of auth_params before the value. */
    method MatchParamHead() returns (ok: bool)
      requires Valid() && depth + 2 <= DEEP
      modifies this, tree
      ensures Inlined(ok, ParamHead(buffer, old(position)), old(depth), old(Toks()))
      ensures tree == old(tree) || fresh(tree)
    {
      hide WsOrComma, TokenRule, Around, Flatten;
      ghost var ts, d := Toks(), depth;
      ghost var sep := WsOrComma(buffer, position);
      ok := MatchWsOrComma();
      if !ok {
        return;
      }
      ghost var key := AuthParamKey(buffer, position);
      ok := CaptureToken(RuleAuthParamKey, RuleAction2);
      if !ok {
        return;
      }
      Join(ts, sep.value.forest, key.value.forest, d);
      ghost var eq := Around(buffer, position, '=');
      ok := MatchAround('=');
      if ok {
        Join(ts, sep.value.forest + key.value.forest, eq.value.forest, d);
      }
    }

    method MatchAuthParams() returns (ok: bool)
      requires Valid() && 2 * depth <= position + 8
      modifies this, tree
      ensures Outcome(ok, AuthParams(buffer, old(position)), old(position), old(depth), old(Toks()))
      ensures tree == old(tree) || fresh(tree)
      decreases |buffer| - position, 1
    {
      hide ParamHead, AuthParamVal, AuthParamsStar, Flatten;
      ghost var ts, head := Toks(), ParamHead(buffer, position);
      var position0, tokenIndex0, depth0 := position, tokenIndex, depth;
      depth := depth + 1;
      ok := MatchParamHead();
      if ok {
        ghost var val := AuthParamVal(buffer, position);
        ok := MatchAuthParamVal();
        if ok {
          ghost var kids := head.value.forest + val.value.forest;
          Join(ts, head.value.forest, val.value.forest, depth);
          ghost var more := AuthParamsStar(buffer, position);
          Join(ts, kids, more.forest, depth);
          MatchAuthParamsStar();
          Close(RuleAuthParams, position0, ts, kids + more.forest);
          return;
        }
      }
      Restore(position0, tokenIndex0, depth0);
    }

    /** auth_params*, expanded in place. */
    method MatchAuthParamsStar()
      requires Valid() && 2 * depth <= position + 8
      modifies this, tree
      ensures var h := AuthParamsStar(buffer, old(position)); At(h.end, old(depth), old(Toks()) + Flatten(h.forest, old(depth)))
      ensures tree == old(tree) || fresh(tree)
      decreases |buffer| - position, 2
    {
      hide AuthParams, Flatten;
      ghost var ts, p, d := Toks(), position, depth;
      ghost var done: seq<Tree> := [];
      NoTokens(ts, d);
      while true
        invariant At(position, d, ts + Flatten(done, d)) && (tree == old(tree) || fresh(tree)) && p <= position
        invariant AuthParamsStar(buffer, p).end == AuthParamsStar(buffer, position).end
        invariant AuthParamsStar(buffer, p).forest == done + AuthParamsStar(buffer, position).forest
        decreases |buffer| - position
      {
        var position0, tokenIndex0, depth0 := position, tokenIndex, depth;
        ghost var hit := AuthParams(buffer, position);
        var ok := MatchAuthParams();
        if !ok {
          Restore(position0, tokenIndex0, depth0);
          break;
        }
        Join(ts, done, hit.value.forest, d);
        done := done + hit.value.forest;
      }
      assert done + [] == done;
    }

    /** The first alternative of challenge_cred. */
    method MatchSchemeWithParams() returns (ok: bool)
      requires Valid() && 2 * depth <= position + 6
      modifies this, tree
      ensures Inlined(ok, SchemeWithParams(buffer, old(position)), old(depth), old(Toks()))
      ensures tree == old(tree) || fresh(tree)
    {
      hide AuthParams, TokenRule, Flatten;
      ghost var ts, s := Toks(), AuthScheme(buffer, position);
      ok := CaptureToken(RuleAuthScheme, RuleAction0);
      if ok {
        ghost var p := AuthParams(buffer, position);
        ok := MatchAuthParams();
        if ok {
          Join(ts, s.value.forest, p.value.forest, depth);
        }
      }
    }

    method MatchChallengeCred() returns (ok: bool)
      requires Valid() && 2 * depth <= 4
      modifies this, tree
      ensures Outcome(ok, ChallengeCred(buffer, old(position)), old(position), old(depth), old(Toks()))
      ensures tree == old(tree) || fresh(tree)
    {
      hide SchemeWithParams, AuthSingleParam, Flatten;
      ghost var ts := Toks();
      var position0, tokenIndex0, depth0 := position, tokenIndex, depth;
      var begin := position;
      depth := depth + 1;
      var position1, tokenIndex1, depth1 := position, tokenIndex, depth;
      ghost var hit := SchemeWithParams(buffer, position);
      ghost var kids := if hit.Some? then hit.value.forest else [];
      ok := MatchSchemeWithParams();
      if !ok {
        Restore(position1, tokenIndex1, depth1);
        ghost var single := AuthSingleParam(buffer, position);
        ok := MatchAuthSingleParam();
        if !ok {
          Restore(position0, tokenIndex0, depth0);
          return;
        }
        kids := single.value.forest;
      }
      Close(RuleChallengeCred, begin, ts, kids);
    }

    /** (ws* "," ws* challenge_cred)?, undone when it fails. */
    method MatchSecondCred()
      requires Valid() && 2 * depth <= 4
      modifies this, tree
      ensures var r := SecondCred(buffer, old(position)); Outcome(r.Some?, r, old(position), old(depth), old(Toks()))
      ensures tree == old(tree) || fresh(tree)
    {
      hide Around, ChallengeCred, Flatten;
      ghost var ts, d := Toks(), depth;
      var position0, tokenIndex0, depth0 := position, tokenIndex, depth;
      ghost var sep := Around(buffer, position, ',');
      var ok := MatchAround(',');
      if ok {
        ghost var cred := ChallengeCred(buffer, position);
        ok := MatchChallengeCred();
        if ok {
          Join(ts, sep.value.forest, cred.value.forest, d);
          return;
        }
      }
      Restore(position0, tokenIndex0, depth0);
    }

    /** header, expanded inside start. */
    method MatchHeader() returns (ok: bool)
      requires Valid() && depth <= 1
      modifies this, tree
      ensures Inlined(ok, Header(buffer, old(position)), old(depth), old(Toks()))
      ensures tree == old(tree) || fresh(tree)
    {
      hide WsStar, ChallengeCred, SecondCred, Flatten;
      ghost var ts := Toks();
      var begin := position;
      depth := depth + 1;
      ghost var before := WsStar(buffer, position);
      SkipWs();
      ghost var first := ChallengeCred(buffer, position);
      ok := MatchChallengeCred();
      if !ok {
        return;
      }
      Join(ts, before.forest, first.value.forest, depth);
      ghost var kids := before.forest + first.value.forest;
      ghost var second := SecondCred(buffer, position);
      ghost var secondForest := if second.Some? then second.value.forest else [];
      MatchSecondCred();
      NoTokens(ts + Flatten(kids, depth), depth);
      Join(ts, kids, secondForest, depth);
      kids := kids + secondForest;
      Join(ts, kids, WsStar(buffer, position).forest, depth);
      kids := kids + WsStar(buffer, position).forest;
      SkipWs();
      Close(RuleHeader, begin, ts, kids);
    }

    method MatchStart() returns (ok: bool)
      requires Valid() && depth == 0
      modifies this, tree
      ensures Outcome(ok, Start(buffer, old(position)), old(position), old(depth), old(Toks()))
      ensures tree == old(tree) || fresh(tree)
    {
      hide Header, Flatten;
      ghost var ts := Toks();
      var position0, tokenIndex0, depth0 := position, tokenIndex, depth;
      var begin := position;
      depth := depth + 1;
      ghost var hit := Header(buffer, position);
      ok := MatchHeader();
      if ok {
        var another := MatchDot();
        if !another {
          Close(RuleStart, begin, ts, hit.value.forest);
          return;
        }
      }
      Restore(position0, tokenIndex0, depth0);
      return false;
    }
  }

  /** The parser object: the token list left by the last match, and the fields the actions update. */
  class HeaderParser {
    const header: string
    var tokens: seq<Token>
    var methods: seq<Method>
    var paramName: string
    var lastValue: string

    constructor (header: string)
      ensures this.header == header && methods == [] && paramName == "" && lastValue == ""
    {
      this.header := header;
      tokens, methods, paramName, lastValue := [], [], "", "";
    }

    /** Matches the start rule; on a match the token array is trimmed to the token index. */
    method Parse() returns (ok: bool)
      requires |header| < LIMIT
      modifies this`tokens
      ensures ok == Start(Buffer(header), 0).Some?
      ensures ok ==> tokens == Flatten(Start(Buffer(header), 0).value.forest, 0)
    {
      hide Start, Flatten;
      var matcher := new Matcher(header);
      ok := matcher.MatchStart();
      if ok {
        tokens := matcher.tree[..matcher.tokenIndex];
        ghost var forest := Start(Buffer(header), 0).value.forest;
        assert [] + Flatten(forest, 0) == Flatten(forest, 0);
      }
    }

    method AddScheme(name: string)
      modifies this`methods
      ensures methods == AddAuthScheme(old(methods), name)
    {
      methods := methods + [Method(name, map[])];
    }

    /** Sets a parameter of the last method; false is an index out of range. */
    method Set(key: string, value: string) returns (ok: bool)
      modifies this`methods
      ensures match SetParam(old(methods), key, value)
              case None => !ok && methods == old(methods)
              case Some(m) => ok && methods == m
    {
      var i := |methods| - 1;
      if i < 0 {
        return false;
      }
      methods := methods[i := Method(methods[i].name, methods[i].params[key := value])];
      return true;
    }

    ghost function State(begin: int, end: int): Exec
      reads this
    {
      Exec(methods, paramName, lastValue, begin, end)
    }

    /** Runs the actions; false is an exception. */
    method Execute() returns (ok: bool)
      modifies this`methods, this`paramName, this`lastValue
      ensures match ExecTokens(header, old(State(0, 0)), tokens)
              case None => !ok
              case Some(st) => ok && methods == st.methods && paramName == st.paramName && lastValue == st.lastValue
    {
      hide ExecTokens, SetParam;
      var begin, end := 0, 0;
      var i := 0;
      assert tokens[0..] == tokens;
      while i < |tokens|
        invariant 0 <= i <= |tokens|
        invariant ExecTokens(header, old(State(0, 0)), tokens) == ExecTokens(header, State(begin, end), tokens[i..])
      {
        var token := tokens[i];
        assert tokens[i..][0] == token && tokens[i..][1..] == tokens[i + 1..];
        ExecStep(header, State(begin, end), tokens[i..]);
        ok := true;
        if token.rule == RulePegText {
          begin, end := token.begin, token.end;
        } else if token.rule == RuleAction3 {
          ok := Set(paramName, lastValue);
        } else if token.rule == RuleAction5 {
          lastValue := "";
        } else if token.rule in {RuleAction0, RuleAction1, RuleAction2, RuleAction4, RuleAction6} {
          if !(0 <= begin <= end <= |header|) {
            return false;
          }
          var text := header[begin..end];
          if token.rule == RuleAction0 {
            AddScheme(text);
          } else if token.rule == RuleAction1 {
            ok := Set("base64", text);
          } else if token.rule == RuleAction2 {
            paramName := text;
          } else if token.rule == RuleAction4 {
            ok := Set(paramName, text);
          } else {
            lastValue := lastValue + text;
          }
        }
        if !ok {
          return;
        }
        i := i + 1;
      }
      ExecNone(header, State(begin, end), tokens[i..]);
      return true;
    }
  }

  lemma ExecStep(h: string, st: Exec, tokens: seq<Token>)
    requires tokens != []
    ensures ExecTokens(h, st, tokens) ==
            match ExecToken(h, st, tokens[0]) case None => None case Some(st') => ExecTokens(h, st', tokens[1..])
  {
    hide ExecToken;
  }

  lemma ExecNone(h: string, st: Exec, tokens: seq<Token>)
    requires tokens == []
    ensures ExecTokens(h, st, tokens) == Some(st)
  {
  }

  /** The methods of all Authorization headers; None is an exception. */
  method GetAuthParams(headers: seq<string>) returns (r: Option<seq<Method>>, ghost parts: seq<seq<Method>>)
    requires forall k :: 0 <= k < |headers| ==> |headers[k]| < LIMIT
    ensures r == Meanings(headers)
    ensures r == None <==> exists k :: 0 <= k < |headers| && OpensWithToken68(headers[k])
    ensures r.Some? ==> |parts| == |headers| && r.value == Joined(parts)
                        && forall k :: 0 <= k < |headers| ==> HeaderMeans(headers[k], Some(parts[k]))
    ensures r == None <==> exists k :: 0 <= k < |headers| && HeaderMeans(headers[k], None)
  {
    MeaningsFail(headers);
    parts := HeadersMean(headers);
    hide Start, Buffer, ExecTokens, Flatten, ApplyCreds, OpensWithToken68, HeaderMeans, Joined;
    var methods: seq<Method> := [];
    var i := 0;
    while i < |headers|
      invariant 0 <= i <= |headers|
      invariant Meanings(headers[..i]) == Some(methods)
    {
      var header := headers[i];
      assert headers[..i + 1][..i] == headers[..i];
      var parser := new HeaderParser(header);
      var ok := parser.Parse();
      if ok {
        ExecuteIsMeaning(header);
        ok := parser.Execute();
        if !ok {
          MeaningsStop(headers, i + 1);
          return None, parts;
        }
      }
      methods := methods + parser.methods;
      i := i + 1;
    }
    assert headers[..i] == headers;
    return Some(methods), parts;
  }

  lemma {:induction false} MeaningsStop(headers: seq<string>, i: nat)
    requires i <= |headers| && Meanings(headers[..i]) == None
    ensures Meanings(headers) == None
    decreases |headers|
  {
    if i < |headers| {
      var front := headers[..|headers| - 1];
      assert front[..i] == headers[..i];
      MeaningsStop(front, i);
    } else {
      assert headers[..i] == headers;
    }
  }
}
