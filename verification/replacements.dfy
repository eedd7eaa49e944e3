/** Chains of whole-text replacements, one character at a time, and when such a chain is a single pass. */
module Replacements {
  /** One whole-text replacement: every occurrence of the character `c` becomes `by`. */
  function Replace(s: string, c: char, into: string): string {
    if s == [] then [] else (if s[0] == c then into else [s[0]]) + Replace(s[1..], c, into)
  }

  /** A chain of replacements, applied from the first entry of the table to the last. */
  function ReplaceAll(s: string, table: seq<(char, string)>): string
    decreases |table|
  {
    if table == [] then s else ReplaceAll(Replace(s, table[0].0, table[0].1), table[1..])
  }

  /** What a single pass writes for one character. */
  function Lookup(c: char, table: seq<(char, string)>): string {
    if table == [] then [c] else if table[0].0 == c then table[0].1 else Lookup(c, table[1..])
  }

  /** A single left-to-right pass over the text. */
  function OnePass(s: string, table: seq<(char, string)>): string {
    if s == [] then [] else Lookup(s[0], table) + OnePass(s[1..], table)
  }

  // ---------------------------------------------------------------- the chain is one pass

  /** No replacement text contains a character that is still to be replaced. */
  ghost predicate Settled(table: seq<(char, string)>) {
    forall i, j, k :: 0 <= i < |table| && i < j < |table| && 0 <= k < |table[i].1| ==> table[i].1[k] != table[j].0
  }

  lemma {:induction false} ReplaceConcat(a: string, b: string, c: char, into: string)
    ensures Replace(a + b, c, into) == Replace(a, c, into) + Replace(b, c, into)
  {
    if a == [] {
      assert a + b == b;
    } else {
      assert (a + b)[1..] == a[1..] + b;
      ReplaceConcat(a[1..], b, c, into);
    }
  }

  lemma {:induction false} ReplaceAllConcat(a: string, b: string, table: seq<(char, string)>)
    ensures ReplaceAll(a + b, table) == ReplaceAll(a, table) + ReplaceAll(b, table)
    decreases |table|
  {
    if table != [] {
      ReplaceConcat(a, b, table[0].0, table[0].1);
      ReplaceAllConcat(Replace(a, table[0].0, table[0].1), Replace(b, table[0].0, table[0].1), table[1..]);
    }
  }

  lemma {:induction false} ReplaceAbsent(s: string, c: char, into: string)
    requires c !in s
    ensures Replace(s, c, into) == s
  {
    if s != [] {
      ReplaceAbsent(s[1..], c, into);
    }
  }

  lemma {:induction false} ReplaceAllAbsent(s: string, table: seq<(char, string)>)
    requires forall i :: 0 <= i < |table| ==> table[i].0 !in s
    ensures ReplaceAll(s, table) == s
  {
    if table != [] {
      ReplaceAbsent(s, table[0].0, table[0].1);
      assert forall i :: 0 <= i < |table[1..]| ==> table[1..][i] == table[i + 1];
      ReplaceAllAbsent(s, table[1..]);
    }
  }

  lemma {:induction false} ReplaceAllChar(c: char, table: seq<(char, string)>)
    requires Settled(table)
    ensures ReplaceAll([c], table) == Lookup(c, table)
  {
    if table != [] {
      assert Replace([c], table[0].0, table[0].1) == if table[0].0 == c then table[0].1 else [c] by {
        assert [c][1..] == [];
      }
      assert forall i :: 0 <= i < |table[1..]| ==> table[1..][i] == table[i + 1];
      if table[0].0 == c {
        forall i | 0 <= i < |table[1..]|
          ensures table[1..][i].0 !in table[0].1
        {
          assert table[1..][i] == table[i + 1];
        }
        ReplaceAllAbsent(table[0].1, table[1..]);
      } else {
        ReplaceAllChar(c, table[1..]);
      }
    }
  }

  /** A settled chain of whole-text replacements is one pass over the characters. */
  lemma {:induction false} ChainIsOnePass(s: string, table: seq<(char, string)>)
    requires Settled(table)
    ensures ReplaceAll(s, table) == OnePass(s, table)
  {
    if s == [] {
      ReplaceAllAbsent([], table);
    } else {
      assert s == [s[0]] + s[1..];
      ReplaceAllConcat([s[0]], s[1..], table);
      ReplaceAllChar(s[0], table);
      ChainIsOnePass(s[1..], table);
    }
  }
}
