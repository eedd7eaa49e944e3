/** How MD5Crypt writes its final digest (auth/md5crypt.go:8-27, 79-91): bytes packed into 6-bit symbols, the lowest
    bits first. */
module Md5Crypt {
  import opened Bits
  import opened Options

  // ---------------------------------------------------------------- numbers, least significant digit first

  function Value(s: seq<nat>, b: nat): nat {
    if s == [] then 0 else s[0] + b * Value(s[1..], b)
  }

  function Digits(n: nat, b: nat, k: nat): (s: seq<nat>)
    requires b > 0
    ensures |s| == k
    decreases k
  {
    if k == 0 then [] else [n % b] + Digits(n / b, b, k - 1)
  }

  ghost predicate Below(s: seq<nat>, b: nat) {
    forall i :: 0 <= i < |s| ==> s[i] < b
  }

  lemma Assoc(x: int, y: int, z: int)
    ensures (x * y) * z == x * (y * z)
  {
  }

  lemma Distribute(x: int, y: int, z: int)
    ensures x * (y + z) == x * y + x * z
  {
  }

  lemma MulMono(b: nat, x: int, y: int)
    requires x <= y
    ensures b * x <= b * y
  {
  }

  /** A quotient is the only one with a remainder in range. */
  lemma DivMod(d: nat, b: nat, q: nat)
    requires d < b
    ensures (d + b * q) % b == d && (d + b * q) / b == q
  {
    var n := d + b * q;
    var x := n / b;
    assert n == b * x + n % b && 0 <= n % b < b;
    Distribute(b, q, 1);
    Distribute(b, x, 1);
    if x < q {
      MulMono(b, x + 1, q);
    } else if x > q {
      MulMono(b, q + 1, x);
    }
  }

  lemma DivBelow(n: nat, b: nat, m: nat)
    requires b > 0 && n < b * m
    ensures n / b < m
  {
    var x := n / b;
    assert n == b * x + n % b;
    if x >= m {
      MulMono(b, m, x);
    }
  }

  /** The digits of a number read back give the number's digits: the representation of a given length is unique. */
  lemma {:induction false} DigitsOfValue(s: seq<nat>, b: nat)
    requires b > 0 && Below(s, b)
    ensures Digits(Value(s, b), b, |s|) == s
    decreases |s|
  {
    if s != [] {
      DivMod(s[0], b, Value(s[1..], b));
      DigitsOfValue(s[1..], b);
    }
  }

  lemma {:induction false} PowAdd(b: nat, a: nat, c: nat)
    ensures Pow(b, a + c) == Pow(b, a) * Pow(b, c)
    decreases a
  {
    hide Pow;
    PowStep(b, a);
    PowStep(b, a + c);
    if a > 0 {
      PowAdd(b, a - 1, c);
      Assoc(b, Pow(b, a - 1), Pow(b, c));
    }
  }

  lemma PowStep(b: nat, e: nat)
    ensures Pow(b, e) == if e == 0 then 1 else b * Pow(b, e - 1)
  {
  }

  lemma {:induction false} PowPow(b: nat, a: nat, c: nat)
    ensures Pow(Pow(b, a), c) == Pow(b, a * c)
    decreases c
  {
    hide Pow;
    PowStep(Pow(b, a), c);
    PowStep(b, 0);
    if c > 0 {
      PowPow(b, a, c - 1);
      PowAdd(b, a, a * (c - 1));
      Distribute(a, 1, c - 1);
    }
  }

  lemma {:induction false} PowGrows(b: nat, a: nat, c: nat)
    requires b > 0 && a <= c
    ensures Pow(b, a) <= Pow(b, c)
    decreases c
  {
    if a < c {
      PowGrows(b, a, c - 1);
      MulMono(Pow(b, c - 1), 1, b);
    }
  }

  lemma Powers()
    ensures Pow(2, 1) == 2 && Pow(2, 2) == 4 && Pow(2, 3) == 8 && Pow(2, 4) == 16 && Pow(2, 5) == 32 && Pow(2, 6) == 64
    ensures Pow(2, 8) == 256
  {
    assert Pow(2, 4) == 16;
    PowAdd(2, 4, 4);
    assert Pow(2, 6) == 4 * Pow(2, 4);
  }

  lemma ValueNone(b: nat)
    ensures Value([], b) == 0 && forall d: nat :: Value([d], b) == d
  {
    forall d: nat
      ensures Value([d], b) == d
    {
      assert [d][1..] == [];
    }
  }

  lemma ValueStep(s: seq<nat>, b: nat)
    requires s != []
    ensures Value(s, b) == s[0] + b * Value(s[1..], b)
  {
  }

  lemma {:induction false} ValueConcat(a: seq<nat>, c: seq<nat>, b: nat)
    ensures Value(a + c, b) == Value(a, b) + Pow(b, |a|) * Value(c, b)
    decreases |a|
  {
    hide Value;
    if a == [] {
      assert a + c == c;
      ValueNone(b);
    } else {
      assert (a + c)[1..] == a[1..] + c;
      ValueConcat(a[1..], c, b);
      var p, v, w := Pow(b, |a| - 1), Value(c, b), Value(a[1..], b);
      Assoc(b, p, v);
      Distribute(b, w, p * v);
      ValueStep(a + c, b);
      ValueStep(a, b);
    }
  }

  lemma ValueSnoc(s: seq<nat>, d: nat, b: nat)
    ensures Value(s + [d], b) == Value(s, b) + Pow(b, |s|) * d
  {
    ValueConcat(s, [d], b);
    assert [d][1..] == [];
  }

  // ---------------------------------------------------------------- packing

  /** Bytes as 6-bit symbols: the same number, written with base 64 digits. */
  function Pack(bytes: seq<nat>): seq<nat> {
    Digits(Value(bytes, 256), 64, (8 * |bytes| + 5) / 6)
  }

  function Unpack(symbols: seq<nat>, n: nat): seq<nat> {
    Digits(Value(symbols, 64), 256, n)
  }

  /** The state between bytes: `result` holds the symbols that are complete, `v` the bits that are left. */
  ghost predicate Carries(bytes: seq<nat>, result: seq<nat>, v: nat, bits: nat) {
    && v < Pow(2, bits) && Below(result, 64)
    && 8 * |bytes| == 6 * |result| + bits
    && Value(result, 64) + Pow(64, |result|) * v == Value(bytes, 256)
  }

  /** One more byte: its bits go above those that are left. */
  lemma CarriesByte(bytes: seq<nat>, result: seq<nat>, v: nat, bits: nat, byte: nat)
    requires Carries(bytes, result, v, bits) && byte < 256
    ensures Carries(bytes + [byte], result, BitOr(v, byte * Pow(2, bits)), bits + 8)
  {
    hide Pow, Value, BitOr;
    OrDisjoint(v, byte, bits);
    var p, q, n := Pow(2, bits), Pow(64, |result|), Pow(256, |bytes|);
    Powers();
    PowAdd(2, bits, 8);
    MulMono(p, byte + 1, 256);
    Distribute(p, byte, 1);
    ValueSnoc(bytes, byte, 256);
    PowPow(2, 6, |result|);
    PowPow(2, 8, |bytes|);
    PowAdd(2, 6 * |result|, bits);
    assert q * p == n;
    Distribute(q, v, byte * p);
    Assoc(q, p, byte);
  }

  /** One more symbol: the lowest six bits. */
  lemma CarriesSymbol(bytes: seq<nat>, result: seq<nat>, v: nat, bits: nat)
    requires Carries(bytes, result, v, bits) && bits >= 6
    ensures Carries(bytes, result + [v % 64], v / 64, bits - 6)
  {
    hide Pow, Value;
    var q := Pow(64, |result|);
    var low, high := v % 64, v / 64;
    Powers();
    PowAdd(2, 6, bits - 6);
    DivBelow(v, 64, Pow(2, bits - 6));
    ValueSnoc(result, low, 64);
    PowAdd(64, 1, |result|);
    PowOne(64);
    assert v == low + 64 * high;
    Distribute(q, low, 64 * high);
    Assoc(q, 64, high);
  }

  lemma PowOne(b: nat)
    ensures Pow(b, 1) == b
  {
    assert Pow(b, 0) == 1;
  }

  lemma NothingCarried(bytes: seq<nat>)
    ensures Carries(bytes[..0], [], 0, 0)
  {
  }

  /** The bits that are left make the last symbol. */
  lemma CarriesLast(bytes: seq<nat>, result: seq<nat>, v: nat, bits: nat)
    requires Carries(bytes, result, v, bits) && 0 < bits <= 6
    ensures result + [v % 64] == Pack(bytes)
  {
    hide Pow, Value, Digits;
    Powers();
    PowGrows(2, bits, 6);
    assert v < 64;
    ValueSnoc(result, v % 64, 64);
    assert (8 * |bytes| + 5) / 6 == |result| + 1;
    DigitsOfValue(result + [v % 64], 64);
  }

  lemma {:induction false} ValueBelow(s: seq<nat>, b: nat)
    requires b > 0 && Below(s, b)
    ensures Value(s, b) < Pow(b, |s|)
    decreases |s|
  {
    if s != [] {
      var v, q := Value(s[1..], b), Pow(b, |s| - 1);
      ValueBelow(s[1..], b);
      MulMono(b, v + 1, q);
      Distribute(b, v, 1);
    }
  }

  lemma {:induction false} ValueOfDigits(n: nat, b: nat, k: nat)
    requires b > 0 && n < Pow(b, k)
    ensures Value(Digits(n, b, k), b) == n
    decreases k
  {
    hide Value, Pow;
    PowStep(b, k);
    ValueNone(b);
    if k > 0 {
      DivBelow(n, b, Pow(b, k - 1));
      ValueOfDigits(n / b, b, k - 1);
      var s := Digits(n, b, k);
      assert s[0] == n % b && s[1..] == Digits(n / b, b, k - 1);
      ValueStep(s, b);
      assert n == n % b + b * (n / b);
    }
  }

  /** The bytes are recovered from the symbols, so different inputs of one length give different texts. */
  lemma PackRoundTrip(bytes: seq<nat>)
    requires Below(bytes, 256)
    ensures Unpack(Pack(bytes), |bytes|) == bytes
  {
    var k := (8 * |bytes| + 5) / 6;
    ValueBelow(bytes, 256);
    Powers();
    PowPow(2, 8, |bytes|);
    PowPow(2, 6, k);
    PowGrows(2, 8 * |bytes|, 6 * k);
    ValueOfDigits(Value(bytes, 256), 64, k);
    DigitsOfValue(bytes, 256);
  }

  // ---------------------------------------------------------------- the grouped form

  lemma {:induction false} DigitsConcat(low: nat, high: nat, b: nat, j: nat, k: nat)
    requires b > 0 && low < Pow(b, j)
    ensures Digits(low + Pow(b, j) * high, b, j + k) == Digits(low, b, j) + Digits(high, b, k)
    decreases j
  {
    if j == 0 {
      assert Digits(low, b, 0) + Digits(high, b, k) == Digits(high, b, k);
    } else {
      var p := Pow(b, j - 1);
      Assoc(b, p, high);
      assert low == low % b + b * (low / b);
      Distribute(b, low / b, p * high);
      DivMod(low % b, b, low / b + p * high);
      DivBelow(low, b, p);
      DigitsConcat(low / b, high, b, j - 1, k);
    }
  }

  /** Three bytes make four symbols of their own, and the rest is packed as if it stood alone. */
  lemma PackThree(a: seq<nat>, rest: seq<nat>)
    requires |a| == 3 && Below(a, 256)
    ensures Pack(a + rest) == Digits(Value(a, 256), 64, 4) + Pack(rest)
  {
    hide Pow, Value, Digits;
    ValueConcat(a, rest, 256);
    ValueBelow(a, 256);
    Powers();
    PowPow(2, 8, 3);
    PowPow(2, 6, 4);
    DigitsConcat(Value(a, 256), Value(rest, 256), 64, 4, (8 * |rest| + 5) / 6);
  }

  /** Three bytes as one number, the first lowest. */
  lemma ValueThree(x: nat, y: nat, z: nat)
    ensures Value([x, y, z], 256) == x + 256 * y + 65536 * z
  {
    ValueNone(256);
    ValueStep([y, z], 256);
    ValueStep([x, y, z], 256);
    assert [y, z][1..] == [z] && [x, y, z][1..] == [y, z];
  }

  function Group(x: nat, y: nat, z: nat): seq<nat> {
    Digits(x + 256 * y + 65536 * z, 64, 4)
  }

  lemma PackGroup(x: nat, y: nat, z: nat, rest: seq<nat>)
    requires x < 256 && y < 256 && z < 256
    ensures Pack([x, y, z] + rest) == Group(x, y, z) + Pack(rest)
  {
    hide Digits, Value, Pack;
    PackThree([x, y, z], rest);
    ValueThree(x, y, z);
  }

  /** Sixteen bytes: five groups of three, four symbols each, and a last byte that makes two. */
  lemma PackSixteen(d: seq<nat>)
    requires |d| == 16 && Below(d, 256)
    ensures Pack(d) == Group(d[0], d[1], d[2]) + Group(d[3], d[4], d[5]) + Group(d[6], d[7], d[8])
                       + Group(d[9], d[10], d[11]) + Group(d[12], d[13], d[14]) + Digits(d[15], 64, 2)
  {
    hide Digits, Pack, Group;
    CutGroup(d, 0);
    CutGroup(d, 3);
    CutGroup(d, 6);
    CutGroup(d, 9);
    CutGroup(d, 12);
    PackByte(d[15]);
    assert d[0..] == d && d[15..] == [d[15]];
  }

  lemma CutGroup(d: seq<nat>, i: nat)
    requires i + 3 <= |d| && Below(d, 256)
    ensures Pack(d[i..]) == Group(d[i], d[i + 1], d[i + 2]) + Pack(d[i + 3..])
  {
    hide Pack, Group;
    assert d[i..] == [d[i], d[i + 1], d[i + 2]] + d[i + 3..];
    PackGroup(d[i], d[i + 1], d[i + 2], d[i + 3..]);
  }

  lemma PackByte(x: nat)
    ensures Pack([x]) == Digits(x, 64, 2)
  {
    ValueNone(256);
  }

  // ---------------------------------------------------------------- the order of the bytes and the alphabet

  const SWAPS: seq<nat> := [12, 6, 0, 13, 7, 1, 14, 8, 2, 15, 9, 3, 5, 10, 4, 11]

  /** Where a byte of the digest goes. */
  function Place(i: nat): nat {
    match i
    case 0 => 2 case 1 => 5 case 2 => 8 case 3 => 11 case 4 => 14 case 5 => 12 case 6 => 1 case 7 => 4
    case 8 => 7 case 9 => 10 case 10 => 13 case 11 => 15 case 12 => 0 case 13 => 3 case 14 => 6 case _ => 9
  }

  /** The table is a permutation: every byte of the digest is written exactly once. */
  lemma SwapsPermute()
    ensures |SWAPS| == 16
    ensures forall k :: 0 <= k < 16 ==> SWAPS[k] < 16 && Place(SWAPS[k]) == k
    ensures forall i :: 0 <= i < 16 ==> Place(i) < 16 && SWAPS[Place(i)] == i
  {
  }

  /** The bytes in the given order. */
  function Pick(bytes: seq<nat>, order: seq<nat>): (picked: seq<nat>)
    requires forall k :: 0 <= k < |order| ==> order[k] < |bytes|
    ensures |picked| == |order| && forall k :: 0 <= k < |order| ==> picked[k] == bytes[order[k]]
  {
    seq(|order|, k requires 0 <= k < |order| => bytes[order[k]])
  }

  const MARKS := "./0123456789"
  const UPPER_FIRST := "ABCDEFGHIJKLM"
  const UPPER_SECOND := "NOPQRSTUVWXYZ"
  const LOWER_FIRST := "abcdefghijklm"
  const LOWER_SECOND := "nopqrstuvwxyz"
  const ITOA64: string := MARKS + UPPER_FIRST + UPPER_SECOND + LOWER_FIRST + LOWER_SECOND

  ghost predicate Consecutive(s: string, first: char) {
    forall i :: 0 <= i < |s| ==> s[i] as int == first as int + i
  }

  lemma Segments()
    ensures |MARKS| == 12 && Consecutive(MARKS, '.')
    ensures |UPPER_FIRST| == 13 && Consecutive(UPPER_FIRST, 'A')
    ensures |UPPER_SECOND| == 13 && Consecutive(UPPER_SECOND, 'N')
    ensures |LOWER_FIRST| == 13 && Consecutive(LOWER_FIRST, 'a')
    ensures |LOWER_SECOND| == 13 && Consecutive(LOWER_SECOND, 'n')
  {
  }

  lemma AlphabetSize()
    ensures |ITOA64| == 64
  {
    Segments();
  }

  /** The position of a symbol in the alphabet. */
  function Atoi64(c: char): int {
    if c <= '9' then c as int - '.' as int
    else if c <= 'Z' then c as int - 'A' as int + 12
    else c as int - 'a' as int + 38
  }

  lemma AlphabetInverts(i: nat)
    requires i < 64
    ensures |ITOA64| == 64 && Atoi64(ITOA64[i]) == i
  {
    Segments();
  }

  /** The symbols written in the alphabet. */
  function Spell(symbols: seq<nat>): string {
    if symbols == [] then "" else AlphabetSize(); [ITOA64[symbols[0] % 64]] + Spell(symbols[1..])
  }

  lemma {:induction false} SpellSnoc(symbols: seq<nat>, d: nat)
    requires d < 64
    ensures |ITOA64| == 64 && Spell(symbols + [d]) == Spell(symbols) + [ITOA64[d]]
    decreases |symbols|
  {
    hide ITOA64;
    AlphabetSize();
    if symbols == [] {
      assert symbols + [d] == [d] && [d][1..] == [];
    } else {
      assert (symbols + [d])[1..] == symbols[1..] + [d];
      SpellSnoc(symbols[1..], d);
    }
  }

  lemma {:induction false} SpellInjective(a: seq<nat>, b: seq<nat>)
    requires Below(a, 64) && Below(b, 64) && Spell(a) == Spell(b)
    ensures a == b
    decreases |a|
  {
    hide Spell, ITOA64, Atoi64;
    SpellSize(a);
    SpellSize(b);
    if a != [] {
      SpellHead(a);
      SpellHead(b);
      AlphabetInverts(a[0]);
      AlphabetInverts(b[0]);
      SpellInjective(a[1..], b[1..]);
    }
  }

  lemma SpellHead(a: seq<nat>)
    requires a != []
    ensures |ITOA64| == 64 && Spell(a) == [ITOA64[a[0] % 64]] + Spell(a[1..]) && Spell(a)[1..] == Spell(a[1..])
  {
    hide ITOA64;
    AlphabetSize();
  }

  lemma {:induction false} SpellSize(a: seq<nat>)
    ensures |Spell(a)| == |a|
  {
    if a != [] {
      SpellSize(a[1..]);
    }
  }

  /** The packing loop: the bytes in the given order, any number of them but none. */
  method PackBytes(final: seq<nat>, order: seq<nat>) returns (text: string)
    requires order != [] && Below(final, 256) && forall k :: 0 <= k < |order| ==> order[k] < |final|
    ensures text == Spell(Pack(Pick(final, order)))
  {
    hide Carries, BitOr, Spell, Pack, ITOA64;
    ghost var bytes, result := Pick(final, order), [];
    text := "";
    var v, bits := 0, 0;
    var k := 0;
    NothingCarried(bytes);
    SpellNothing();
    while k < |order|
      invariant 0 <= k <= |order| && Carries(bytes[..k], result, v, bits) && text == Spell(result)
      invariant bits <= 6 && (k > 0 ==> bits > 0)
    {
      CarriesByte(bytes[..k], result, v, bits, bytes[k]);
      v := BitOr(v, final[order[k]] * Pow(2, bits));
      k := k + 1;
      assert bytes[..k] == bytes[..k - 1] + [bytes[k - 1]];
      bits := bits + 8;
      while bits > 6
        invariant 0 < bits && Carries(bytes[..k], result, v, bits) && text == Spell(result)
        decreases bits
      {
        CarriesSymbol(bytes[..k], result, v, bits);
        SpellSnoc(result, v % 64);
        text := text + [ITOA64[v % 64]];
        result := result + [v % 64];
        v := v / 64;
        bits := bits - 6;
      }
    }
    assert bytes[..k] == bytes;
    CarriesLast(bytes, result, v, bits);
    SpellSnoc(result, v % 64);
    text := text + [ITOA64[v % 64]];
  }

  lemma SpellNothing()
    ensures Spell([]) == ""
  {
  }

  // ---------------------------------------------------------------- the text of an entry

  /** A digest: sixteen bytes. */
  predicate IsDigest(digest: seq<nat>) {
    |digest| == 16 && forall i :: 0 <= i < 16 ==> digest[i] < 256
  }

  function HashText(digest: seq<nat>): string
    requires IsDigest(digest)
  {
    SwapsPermute();
    Spell(Pack(Pick(digest, SWAPS)))
  }

  lemma PackSize(bytes: seq<nat>)
    ensures |Pack(bytes)| == (8 * |bytes| + 5) / 6
  {
  }

  /** The text in the form of the original crypt: five groups of three bytes of the digest, and its byte 11. */
  lemma HashTextForm(d: seq<nat>)
    requires IsDigest(d)
    ensures |HashText(d)| == 22
    ensures HashText(d) == Spell(Group(d[12], d[6], d[0]) + Group(d[13], d[7], d[1]) + Group(d[14], d[8], d[2])
                                 + Group(d[15], d[9], d[3]) + Group(d[5], d[10], d[4]) + Digits(d[11], 64, 2))
  {
    hide Digits, Pack, Group, Spell;
    SwapsPermute();
    var p := Pick(d, SWAPS);
    assert p[0] == d[12] && p[1] == d[6] && p[2] == d[0] && p[3] == d[13] && p[4] == d[7] && p[5] == d[1];
    assert p[6] == d[14] && p[7] == d[8] && p[8] == d[2] && p[9] == d[15] && p[10] == d[9] && p[11] == d[3];
    assert p[12] == d[5] && p[13] == d[10] && p[14] == d[4] && p[15] == d[11];
    PackSixteen(p);
    PackSize(p);
    SpellSize(Pack(p));
  }

  lemma PackBelow(bytes: seq<nat>)
    ensures Below(Pack(bytes), 64)
  {
    DigitsBelow(Value(bytes, 256), 64, (8 * |bytes| + 5) / 6);
  }

  lemma {:induction false} DigitsBelow(n: nat, b: nat, k: nat)
    requires b > 0
    ensures Below(Digits(n, b, k), b)
    decreases k
  {
    if k > 0 {
      DigitsBelow(n / b, b, k - 1);
    }
  }

  /** Different digests have different texts. */
  lemma HashTextInjective(d: seq<nat>, e: seq<nat>)
    requires IsDigest(d) && IsDigest(e) && HashText(d) == HashText(e)
    ensures d == e
  {
    hide Pack, Spell, Unpack, SWAPS;
    SwapsPermute();
    var p, q := Pick(d, SWAPS), Pick(e, SWAPS);
    PackBelow(p);
    PackBelow(q);
    SpellInjective(Pack(p), Pack(q));
    PackRoundTrip(p);
    PackRoundTrip(q);
    forall i | 0 <= i < 16
      ensures d[i] == e[i]
    {
      assert p[Place(i)] == d[i] && q[Place(i)] == e[i];
    }
  }

  datatype Entry = Entry(magic: string, salt: string, hash: string)

  function Index(s: string, c: char): (i: nat)
    requires c in s
    ensures i < |s| && s[i] == c && c !in s[..i]
  {
    if s[0] == c then 0 else 1 + Index(s[1..], c)
  }

  /** At most `n` pieces, split at the first separators. */
  function SplitN(s: string, c: char, n: nat): (parts: seq<string>)
    requires n > 0
    ensures 1 <= |parts| <= n
    ensures forall k :: 0 <= k < |parts| - 1 ==> c !in parts[k]
    decreases n
  {
    if n == 1 || c !in s then [s] else [s[..Index(s, c)]] + SplitN(s[Index(s, c) + 1..], c, n - 1)
  }

  function NewEntry(e: string): Option<Entry> {
    var parts := SplitN(e, '$', 4);
    if |parts| != 4 then None else Some(Entry("$" + parts[1] + "$", parts[2], parts[3]))
  }

  /** What MD5Crypt returns. */
  function CryptText(magic: string, salt: string, digest: seq<nat>): string
    requires IsDigest(digest)
  {
    magic + salt + "$" + HashText(digest)
  }

  lemma {:induction false} IndexUnique(s: string, c: char, i: nat)
    requires i < |s| && s[i] == c && c !in s[..i]
    ensures Index(s, c) == i
    decreases i
  {
    if i > 0 {
      assert s[..i][0] == s[0] && s[1..][..i - 1] == s[..i][1..];
      IndexUnique(s[1..], c, i - 1);
    }
  }

  lemma SplitAt(a: string, rest: string, c: char, n: nat)
    requires n > 1 && c !in a
    ensures SplitN(a + [c] + rest, c, n) == [a] + SplitN(rest, c, n - 1)
  {
    var s := a + [c] + rest;
    assert s[|a|] == c && s[..|a|] == a;
    IndexUnique(s, c, |a|);
    assert s[|a| + 1..] == rest;
  }

  /** An entry is read back if and only if neither the identifier nor the salt contains the separator. */
  lemma EntryRoundTrip(id: string, salt: string, digest: seq<nat>)
    requires IsDigest(digest)
    ensures NewEntry(CryptText("$" + id + "$", salt, digest)) == Some(Entry("$" + id + "$", salt, HashText(digest)))
            <==> '$' !in id && '$' !in salt
  {
    hide HashText, SplitN;
    var hash := HashText(digest);
    var text := CryptText("$" + id + "$", salt, digest);
    var parts := SplitN(text, '$', 4);
    if '$' !in id && '$' !in salt {
      assert text == "" + ['$'] + (id + ['$'] + (salt + ['$'] + hash));
      SplitAt("", id + ['$'] + (salt + ['$'] + hash), '$', 4);
      SplitAt(id, salt + ['$'] + hash, '$', 3);
      SplitAt(salt, hash, '$', 2);
      SplitOne(hash);
    } else if |parts| == 4 && "$" + parts[1] + "$" == "$" + id + "$" {
      assert parts[1] == ("$" + parts[1] + "$")[1..|parts[1]| + 1] == id;
    }
  }

  lemma SplitOne(s: string)
    ensures SplitN(s, '$', 1) == [s]
  {
  }

  /** The check of a password against a stored entry; the digest is an unknown function of password, salt and magic. */
  ghost predicate Accepts(digest: (string, string, string) -> seq<nat>, stored: string, password: string)
    requires forall p, s, m :: IsDigest(digest(p, s, m))
  {
    match NewEntry(stored)
    case None => false
    case Some(e) => stored == CryptText(e.magic, e.salt, digest(password, e.salt, e.magic))
  }

  /** An entry made from a password accepts exactly the passwords with the same digest. */
  lemma AcceptsIff(digest: (string, string, string) -> seq<nat>, password: string, other: string, id: string, salt: string)
    requires (forall p, s, m :: IsDigest(digest(p, s, m))) && '$' !in id && '$' !in salt
    ensures var magic := "$" + id + "$";
            Accepts(digest, CryptText(magic, salt, digest(password, salt, magic)), other)
            <==> digest(other, salt, magic) == digest(password, salt, magic)
  {
    hide HashText, NewEntry, IsDigest;
    var magic := "$" + id + "$";
    var d, e := digest(password, salt, magic), digest(other, salt, magic);
    EntryRoundTrip(id, salt, d);
    if CryptText(magic, salt, d) == CryptText(magic, salt, e) {
      var head := magic + salt + "$";
      assert HashText(d) == (head + HashText(d))[|head|..] == (head + HashText(e))[|head|..] == HashText(e);
      HashTextInjective(d, e);
    }
  }
}
