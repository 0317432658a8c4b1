/**
 * The small part of the PHP runtime that the plugin's code relies on:
 * values with PHP's truthiness, string interpolation and integer casts,
 * array keys with PHP's integer-key normalisation, insertion-ordered
 * dictionaries, and the string functions the plugin calls
 * (str_starts_with, str_replace, strtolower, strtoupper, intdiv).
 */
module Php {

  datatype Option<+T> = None | Some(value: T)

  /** A key/value pair of an insertion-ordered PHP array. */
  datatype Pair<K, V> = Pair(key: K, val: V)

  /** A PHP array key. PHP stores a canonical decimal string as an integer key. */
  datatype Key = IntKey(n: int) | StrKey(s: string)

  /**
   * The PHP values that flow through the plugin. An array is kept as its
   * entries in insertion order. Floats and objects are not modelled.
   */
  datatype Value =
    | Null
    | Bool(b: bool)
    | Int(i: int)
    | Str(s: string)
    | Arr(entries: seq<Pair<Key, Value>>)

  predicate Distinct<T(==)>(s: seq<T>) {
    forall i, j :: 0 <= i < j < |s| ==> s[i] != s[j]
  }

  /** PHP's `!empty($v)`, which is also the truth value of `if ($v)`. */
  predicate Truthy(v: Value) {
    match v
    case Null => false
    case Bool(b) => b
    case Int(i) => i != 0
    case Str(s) => s != "" && s != "0"
    case Arr(es) => |es| > 0
  }

  /** The first i + 1 elements are the first i followed by the i-th. */
  lemma TakeSnoc<T>(xs: seq<T>, i: int)
    requires 0 <= i < |xs|
    ensures xs[..i + 1] == xs[..i] + [xs[i]]
  {
  }

  /** Extending a prefix of `xs` after `a` by one more element. */
  lemma AppendTakeSnoc<T>(a: seq<T>, xs: seq<T>, i: int)
    requires 0 <= i < |xs|
    ensures a + xs[..i + 1] == (a + xs[..i]) + [xs[i]]
  {
    TakeSnoc(xs, i);
  }

  /** `a` is `b` with some elements left out and the rest in their order. */
  predicate IsSubsequence<T(==)>(a: seq<T>, b: seq<T>)
    decreases |b|
  {
    if a == [] then true
    else if b == [] then false
    else ((a[|a| - 1] == b[|b| - 1] && IsSubsequence(a[..|a| - 1], b[..|b| - 1]))
          || IsSubsequence(a, b[..|b| - 1]))
  }

  // ----------------------------------------------------------------------
  // Decimal digits and integer <-> string conversions
  // ----------------------------------------------------------------------

  const MinInt64: int := -0x8000_0000_0000_0000
  const MaxInt64: int := 0x7FFF_FFFF_FFFF_FFFF

  predicate IsDigit(c: char) {
    '0' <= c <= '9'
  }

  predicate AllDigits(s: string) {
    forall i :: 0 <= i < |s| ==> IsDigit(s[i])
  }

  function DigitChar(d: int): (c: char)
    requires 0 <= d < 10
    ensures IsDigit(c)
  {
    ('0' as int + d) as char
  }

  /** The number a string of decimal digits denotes, most significant digit first. */
  function DigitsValue(ds: string): nat
    requires AllDigits(ds)
  {
    if ds == [] then 0
    else DigitsValue(ds[..|ds| - 1]) * 10 + (ds[|ds| - 1] as int - '0' as int)
  }

  /** The decimal representation of a natural number, without leading zeros. */
  function NatToString(n: nat): (s: string)
    ensures |s| >= 1 && AllDigits(s)
    ensures s[0] == '0' <==> n == 0
  {
    if n < 10 then [DigitChar(n)] else NatToString(n / 10) + [DigitChar(n % 10)]
  }

  /** PHP's conversion of an int to a string: decimal, with a leading `-` when negative. */
  function IntToString(n: int): (s: string)
    ensures |s| >= 1
  {
    if n < 0 then "-" + NatToString(-n) else NatToString(n)
  }

  predicate IsSpace(c: char) {
    c == ' ' || c == '\t' || c == '\n' || c == '\r' || c == 11 as char || c == 12 as char
  }

  function SkipSpaces(s: string): (r: string)
    ensures |r| <= |s| && r == s[|s| - |r|..]
    ensures r != [] ==> !IsSpace(r[0])
  {
    if s != [] && IsSpace(s[0]) then SkipSpaces(s[1..]) else s
  }

  /** The longest prefix of `s` made of decimal digits. */
  function DigitPrefix(s: string): (r: string)
    ensures AllDigits(r) && |r| <= |s| && r == s[..|r|]
  {
    if s != [] && IsDigit(s[0]) then [s[0]] + DigitPrefix(s[1..]) else []
  }

  /**
   * PHP's `(int)` cast of a string: leading white space, an optional sign,
   * then as many decimal digits as there are; anything else gives 0.
   */
  function LeadingInt(s: string): int {
    var t := SkipSpaces(s);
    if t != [] && t[0] == '-' then -(DigitsValue(DigitPrefix(t[1..])) as int)
    else if t != [] && t[0] == '+' then DigitsValue(DigitPrefix(t[1..]))
    else DigitsValue(DigitPrefix(t))
  }

  lemma {:induction false} DigitPrefixOfDigits(s: string)
    requires AllDigits(s)
    ensures DigitPrefix(s) == s
  {
    if s != [] {
      DigitPrefixOfDigits(s[1..]);
    }
  }

  lemma {:induction false} DigitsValueOfNatToString(n: nat)
    ensures DigitsValue(NatToString(n)) == n
  {
    if n >= 10 {
      DigitsValueOfNatToString(n / 10);
      var s := NatToString(n);
      assert s[..|s| - 1] == NatToString(n / 10);
    }
  }

  /** Casting the decimal text of an integer back to int gives the integer. */
  lemma IntToStringRoundTrip(n: int)
    ensures LeadingInt(IntToString(n)) == n
  {
    var s := IntToString(n);
    if n < 0 {
      var m: nat := -n;
      assert s == "-" + NatToString(m);
      NegativeRoundTrip(m);
    } else {
      assert s == NatToString(n);
      NaturalRoundTrip(n);
    }
  }

  lemma NaturalRoundTrip(n: nat)
    ensures LeadingInt(NatToString(n)) == n
  {
    LeadingIntOfDigits(NatToString(n));
    DigitsValueOfNatToString(n);
  }

  /** A non-empty string of digits casts to the number it denotes. */
  lemma LeadingIntOfDigits(s: string)
    requires s != [] && AllDigits(s)
    ensures LeadingInt(s) == DigitsValue(s)
  {
    assert IsDigit(s[0]);
    assert SkipSpaces(s) == s;
    DigitPrefixOfDigits(s);
  }

  lemma NegativeRoundTrip(m: nat)
    requires m > 0
    ensures LeadingInt("-" + NatToString(m)) == -(m as int)
  {
    var digits := NatToString(m);
    var s := "-" + digits;
    assert SkipSpaces(s) == s;
    assert s[1..] == digits;
    assert LeadingInt(s) == -(DigitsValue(DigitPrefix(digits)) as int);
    DigitPrefixOfDigits(digits);
    DigitsValueOfNatToString(m);
  }

  /** PHP's `(int)` cast of a value. */
  function ToInt(v: Value): int {
    match v
    case Null => 0
    case Bool(b) => if b then 1 else 0
    case Int(i) => i
    case Str(s) => LeadingInt(s)
    case Arr(es) => if |es| == 0 then 0 else 1
  }

  /** PHP's string conversion of a value, as in `"$value"`. */
  function StringOf(v: Value): string {
    match v
    case Null => ""
    case Bool(b) => if b then "1" else ""
    case Int(i) => IntToString(i)
    case Str(s) => s
    case Arr(_) => "Array"
  }

  /**
   * Division truncating toward zero, which is what both `intdiv` and an
   * `(int)` cast of a `/` quotient compute (Dafny's own `/` rounds down).
   */
  function TruncDiv(a: int, d: int): (q: int)
    requires d > 0
    ensures a >= 0 ==> 0 <= q && q * d <= a < q * d + d
    ensures a < 0 ==> q <= 0 && q * d - d < a <= q * d
  {
    if a >= 0 then
      DivBounds(a, d);
      a / d
    else
      DivBounds(-a, d);
      -((-a) / d)
  }

  /** Floor division of a natural number, and the same bounds for its negation. */
  lemma DivBounds(b: nat, d: int)
    requires d > 0
    ensures 0 <= b / d && (b / d) * d <= b < (b / d) * d + d
    ensures (-(b / d)) * d == -((b / d) * d)
  {
  }

  // ----------------------------------------------------------------------
  // Array keys
  // ----------------------------------------------------------------------

  /**
   * The key PHP stores for a string offset: a canonical decimal integer in
   * the 64-bit range (no sign `+`, no leading zero, not `-0`) becomes an
   * integer key, every other string stays a string key.
   */
  function KeyOfString(s: string): (k: Key)
    ensures k.IntKey? ==> IntToString(k.n) == s && MinInt64 <= k.n <= MaxInt64
    ensures k.StrKey? ==> k.s == s
  {
    var n := LeadingInt(s);
    if IntToString(n) == s && MinInt64 <= n <= MaxInt64 then IntKey(n) else StrKey(s)
  }

  lemma KeyOfIntString(n: int)
    requires MinInt64 <= n <= MaxInt64
    ensures KeyOfString(IntToString(n)) == IntKey(n)
  {
    IntToStringRoundTrip(n);
  }

  /** Distinct strings are stored under distinct keys. */
  lemma KeyOfStringInjective(s1: string, s2: string)
    requires KeyOfString(s1) == KeyOfString(s2)
    ensures s1 == s2
  {
  }

  /** The key PHP uses for a scalar offset `$a[$v]`. */
  function KeyOf(v: Value): (k: Key)
    requires !v.Arr?
  {
    match v
    case Null => StrKey("")
    case Bool(b) => IntKey(if b then 1 else 0)
    case Int(i) => IntKey(i)
    case Str(s) => KeyOfString(s)
  }

  /** The value stored under `k`, looking at the last entry with that key. */
  function Lookup<K(==), V>(entries: seq<Pair<K, V>>, k: K): Option<V> {
    if entries == [] then None
    else if entries[|entries| - 1].key == k then Some(entries[|entries| - 1].val)
    else Lookup(entries[..|entries| - 1], k)
  }

  /** The lookup finds a value exactly when some entry has the key, and that value is stored under it. */
  lemma {:induction false} LookupFinds<K, V>(entries: seq<Pair<K, V>>, k: K)
    ensures Lookup(entries, k).None? <==> !HasKey(entries, k)
    ensures Lookup(entries, k).Some? ==> exists i :: 0 <= i < |entries| && entries[i] == Pair(k, Lookup(entries, k).value)
  {
    if entries != [] {
      var n := |entries|;
      HasKeySplit(entries, k);
      if entries[n - 1].key != k {
        LookupFinds(entries[..n - 1], k);
        if Lookup(entries, k).Some? {
          var i :| 0 <= i < n - 1 && entries[..n - 1][i] == Pair(k, Lookup(entries, k).value);
          assert entries[i] == entries[..n - 1][i];
        }
      }
    }
  }

  predicate HasKey<K(==), V>(entries: seq<Pair<K, V>>, k: K) {
    exists i :: 0 <= i < |entries| && entries[i].key == k
  }

  lemma HasKeySplit<K, V>(entries: seq<Pair<K, V>>, k: K)
    requires entries != []
    ensures HasKey(entries, k) <==> HasKey(entries[..|entries| - 1], k) || entries[|entries| - 1].key == k
  {
    var init := entries[..|entries| - 1];
    if HasKey(entries, k) {
      var i :| 0 <= i < |entries| && entries[i].key == k;
      if i < |init| {
        assert init[i].key == k;
      }
    }
    if HasKey(init, k) {
      var i :| 0 <= i < |init| && init[i].key == k;
      assert entries[i].key == k;
    }
  }

  /** `$a[$k]` on a value: the entry's value, or NULL when it is absent or `$a` is no array. */
  function Get(v: Value, k: Key): Value {
    if v.Arr? then
      match Lookup(v.entries, k)
      case Some(x) => x
      case None => Null
    else Null
  }

  // ----------------------------------------------------------------------
  // Insertion-ordered dictionaries
  // ----------------------------------------------------------------------

  /** An insertion-ordered dictionary: the keys in order, and what each key holds. */
  datatype OMap<K(==,!new), V> = OMap(keys: seq<K>, vals: map<K, V>) {

    ghost predicate Valid() {
      && Distinct(keys)
      && (forall k :: k in vals <==> k in keys)
    }

    /**
     * `$a[$k] = $v`: an existing key keeps its position and takes the new
     * value, a new key goes at the end.
     */
    function Put(k: K, v: V): (r: OMap<K, V>)
      ensures Valid() ==> r.Valid()
      ensures r.vals == vals[k := v]
      ensures k in vals ==> r.keys == keys
      ensures k !in vals ==> r.keys == keys + [k]
    {
      OMap(if k in vals then keys else keys + [k], vals[k := v])
    }
  }

  function EmptyMap<K(==,!new), V>(): (m: OMap<K, V>)
    ensures m.Valid() && m.keys == [] && m.vals == map[]
  {
    OMap([], map[])
  }

  /** `$a[$k] = $v` for each pair in order. */
  function PutAll<K(==,!new), V>(m: OMap<K, V>, pairs: seq<Pair<K, V>>): OMap<K, V> {
    if pairs == [] then m
    else PutAll(m, pairs[..|pairs| - 1]).Put(pairs[|pairs| - 1].key, pairs[|pairs| - 1].val)
  }

  /** Storing one more pair stores it after the others. */
  lemma PutAllSnoc<K(!new), V>(m: OMap<K, V>, pairs: seq<Pair<K, V>>, p: Pair<K, V>)
    ensures PutAll(m, pairs + [p]) == PutAll(m, pairs).Put(p.key, p.val)
  {
    assert (pairs + [p])[..|pairs|] == pairs;
  }

  /** Storing the first i + 1 pairs stores the i-th after the first i. */
  lemma PutAllTakeSnoc<K(!new), V>(m: OMap<K, V>, pairs: seq<Pair<K, V>>, i: int)
    requires 0 <= i < |pairs|
    ensures PutAll(m, pairs[..i + 1]) == PutAll(m, pairs[..i]).Put(pairs[i].key, pairs[i].val)
  {
    TakeSnoc(pairs, i);
    PutAllSnoc(m, pairs[..i], pairs[i]);
  }

  /**
   * After the pairs are stored, a key is present exactly when it was present
   * before or some pair has it; it holds the value of the last pair with that
   * key; untouched keys keep their value; the old keys keep their positions
   * and each new key adds at most one position.
   */
  lemma {:induction false} PutAllContents<K(!new), V>(m: OMap<K, V>, pairs: seq<Pair<K, V>>)
    requires m.Valid()
    ensures PutAll(m, pairs).Valid()
    ensures |m.keys| <= |PutAll(m, pairs).keys| <= |m.keys| + |pairs|
    ensures PutAll(m, pairs).keys[..|m.keys|] == m.keys
    ensures forall k :: k in PutAll(m, pairs).vals <==> k in m.vals || HasKey(pairs, k)
    ensures forall k :: HasKey(pairs, k) ==> Lookup(pairs, k) == Some(PutAll(m, pairs).vals[k])
    ensures forall k :: k in m.vals && !HasKey(pairs, k) ==> PutAll(m, pairs).vals[k] == m.vals[k]
  {
    if pairs != [] {
      var init, last := pairs[..|pairs| - 1], pairs[|pairs| - 1];
      PutAllContents(m, init);
      var before := PutAll(m, init);
      forall k | HasKey(init, k) && k != last.key ensures Lookup(pairs, k) == Lookup(init, k) { }
      forall k ensures HasKey(pairs, k) <==> HasKey(init, k) || last.key == k {
        HasKeySplit(pairs, k);
      }
      assert before.keys[..|m.keys|] == m.keys;
      if last.key !in before.vals {
        assert (before.keys + [last.key])[..|m.keys|] == before.keys[..|m.keys|];
      }
    }
  }

  /** The position of the first entry with the key. */
  function FirstIndex<K(==), V>(entries: seq<Pair<K, V>>, k: K): (i: nat)
    requires HasKey(entries, k)
    ensures i < |entries| && entries[i].key == k
    ensures forall j :: 0 <= j < i ==> entries[j].key != k
    decreases |entries|
  {
    if entries[0].key == k then 0
    else
      assert HasKey(entries[1..], k) by {
        var i :| 0 <= i < |entries| && entries[i].key == k;
        assert entries[1..][i - 1].key == k;
      }
      var i := FirstIndex(entries[1..], k);
      assert forall j :: 1 <= j <= i ==> entries[j] == entries[1..][j - 1];
      1 + i
  }

  /** An entry with the key and none before it is the first one. */
  lemma FirstIndexIs<K, V>(entries: seq<Pair<K, V>>, k: K, i: nat)
    requires i < |entries| && entries[i].key == k
    requires forall j :: 0 <= j < i ==> entries[j].key != k
    ensures HasKey(entries, k) && FirstIndex(entries, k) == i
  {
    assert HasKey(entries, k);
    var f := FirstIndex(entries, k);
    assert !(f < i) && !(i < f);
  }

  /** Of two listed keys, the earlier one's first pair comes first. */
  predicate InFirstOrder<K(==), V>(keys: seq<K>, pairs: seq<Pair<K, V>>) {
    forall a, b :: 0 <= a < b < |keys| ==>
      HasKey(pairs, keys[a]) && HasKey(pairs, keys[b]) && FirstIndex(pairs, keys[a]) < FirstIndex(pairs, keys[b])
  }

  /** One more pair leaves the first pair of every earlier key where it was. */
  lemma FirstIndexSnoc<K, V>(init: seq<Pair<K, V>>, last: Pair<K, V>, k: K)
    requires HasKey(init, k)
    ensures HasKey(init + [last], k) && FirstIndex(init + [last], k) == FirstIndex(init, k)
  {
    var i := FirstIndex(init, k);
    assert forall j :: 0 <= j <= i ==> (init + [last])[j] == init[j];
    FirstIndexIs(init + [last], k, i);
  }

  /** The listed keys stay in order when a pair is added; a new key's first pair is that last one. */
  lemma FirstOrderSnoc<K, V>(keys: seq<K>, init: seq<Pair<K, V>>, last: Pair<K, V>)
    requires InFirstOrder(keys, init)
    requires forall k :: k in keys ==> HasKey(init, k)
    ensures InFirstOrder(keys, init + [last])
    ensures !HasKey(init, last.key) ==> InFirstOrder(keys + [last.key], init + [last])
  {
    var pairs := init + [last];
    forall k | HasKey(init, k) ensures HasKey(pairs, k) && FirstIndex(pairs, k) == FirstIndex(init, k) {
      FirstIndexSnoc(init, last, k);
    }
    assert forall a :: 0 <= a < |keys| ==> keys[a] in keys;
    if !HasKey(init, last.key) {
      assert forall j :: 0 <= j < |init| ==> pairs[j] == init[j];
      FirstIndexIs(pairs, last.key, |init|);
      var ks := keys + [last.key];
      forall a, b | 0 <= a < b < |ks|
        ensures HasKey(pairs, ks[a]) && HasKey(pairs, ks[b]) && FirstIndex(pairs, ks[a]) < FirstIndex(pairs, ks[b])
      {
        assert ks[a] == keys[a];
        if b < |keys| {
          assert ks[b] == keys[b];
        }
      }
    }
  }

  /**
   * Storing pairs in an empty map lists each key once, in the order of its
   * first pair: a key is listed exactly when some pair has it, and of two
   * listed keys the earlier one's first pair comes first.
   */
  lemma {:induction false} PutAllKeysInFirstOrder<K(!new), V>(pairs: seq<Pair<K, V>>)
    ensures Distinct(PutAll(EmptyMap(), pairs).keys)
    ensures forall k :: k in PutAll(EmptyMap(), pairs).keys <==> HasKey(pairs, k)
    ensures InFirstOrder(PutAll(EmptyMap(), pairs).keys, pairs)
  {
    PutAllContents(EmptyMap(), pairs);
    if pairs != [] {
      var init, last := pairs[..|pairs| - 1], pairs[|pairs| - 1];
      PutAllKeysInFirstOrder(init);
      PutAllContents(EmptyMap(), init);
      var before := PutAll(EmptyMap(), init);
      assert pairs == init + [last];
      FirstOrderSnoc(before.keys, init, last);
    }
  }

  /** The pair `key(x) => val(x)` of each element, in order. */
  function PairsOf<T, K, V>(xs: seq<T>, key: T -> K, val: T -> V): (pairs: seq<Pair<K, V>>)
    ensures |pairs| == |xs|
    ensures forall i :: 0 <= i < |xs| ==> pairs[i] == Pair(key(xs[i]), val(xs[i]))
  {
    seq(|xs|, i requires 0 <= i < |xs| => Pair(key(xs[i]), val(xs[i])))
  }

  /**
   * Storing the pairs of `xs` in an empty map: a key is present exactly when
   * some element gives it, and it holds the value of the last such element.
   */
  lemma PutAllPairsOf<T, K(!new), V>(xs: seq<T>, key: T -> K, val: T -> V, k: K)
    ensures PutAll(EmptyMap(), PairsOf(xs, key, val)).Valid()
    ensures |PutAll(EmptyMap(), PairsOf(xs, key, val)).keys| <= |xs|
    ensures k in PutAll(EmptyMap(), PairsOf(xs, key, val)).vals <==> exists i :: 0 <= i < |xs| && key(xs[i]) == k
    ensures k in PutAll(EmptyMap(), PairsOf(xs, key, val)).vals ==>
      exists i :: 0 <= i < |xs| && key(xs[i]) == k
        && PutAll(EmptyMap(), PairsOf(xs, key, val)).vals[k] == val(xs[i])
        && forall j :: i < j < |xs| ==> key(xs[j]) != k
  {
    var pairs := PairsOf(xs, key, val);
    PutAllContents(EmptyMap(), pairs);
    if HasKey(pairs, k) {
      var i := LastIndexOf(pairs, k);
      assert key(xs[i]) == k;
    }
    if exists i :: 0 <= i < |xs| && key(xs[i]) == k {
      var i :| 0 <= i < |xs| && key(xs[i]) == k;
      assert pairs[i].key == k;
    }
  }

  /** The position of the entry `Lookup` finds: the last one with the key. */
  lemma {:induction false} LastIndexOf<K, V>(entries: seq<Pair<K, V>>, k: K) returns (i: nat)
    requires HasKey(entries, k)
    ensures i < |entries| && entries[i].key == k && Lookup(entries, k) == Some(entries[i].val)
    ensures forall j :: i < j < |entries| ==> entries[j].key != k
  {
    var n := |entries|;
    if entries[n - 1].key == k {
      i := n - 1;
    } else {
      HasKeySplit(entries, k);
      i := LastIndexOf(entries[..n - 1], k);
    }
  }

  // ----------------------------------------------------------------------
  // Strings
  // ----------------------------------------------------------------------

  /** `str_starts_with($s, $prefix)`. */
  predicate StartsWith(s: string, prefix: string) {
    |prefix| <= |s| && s[..|prefix|] == prefix
  }

  /** `str_replace($c, '', $s)` for a one-character search string. */
  function RemoveChar(s: string, c: char): (r: string)
    ensures c !in r
    ensures |r| <= |s|
    ensures forall x :: x in r ==> x in s
  {
    if s == [] then []
    else if s[0] == c then RemoveChar(s[1..], c)
    else [s[0]] + RemoveChar(s[1..], c)
  }

  /**
   * Removing the character works piece by piece: every other character is
   * kept, in its order, and only the removed one disappears.
   */
  lemma {:induction false} RemoveCharAppend(a: string, b: string, c: char)
    ensures RemoveChar(a + b, c) == RemoveChar(a, c) + RemoveChar(b, c)
  {
    if a == [] {
      assert a + b == b;
    } else {
      assert (a + b)[0] == a[0];
      assert (a + b)[1..] == a[1..] + b;
      RemoveCharAppend(a[1..], b, c);
    }
  }

  /** On one character: gone when it is the removed one, kept otherwise. */
  lemma RemoveCharOfOne(x: char, c: char)
    ensures RemoveChar([x], c) == if x == c then [] else [x]
  {
    assert [x][1..] == [];
  }

  lemma {:induction false} RemoveAbsentChar(s: string, c: char)
    requires c !in s
    ensures RemoveChar(s, c) == s
  {
    if s != [] {
      RemoveAbsentChar(s[1..], c);
    }
  }

  /** `str_replace($token, $replacement, $s)`: left to right, non-overlapping occurrences. */
  function ReplaceAll(s: string, token: string, replacement: string): string
    requires token != []
  {
    if |s| < |token| then s
    else if s[..|token|] == token then replacement + ReplaceAll(s[|token|..], token, replacement)
    else [s[0]] + ReplaceAll(s[1..], token, replacement)
  }

  /** `$token` occurs in `s` starting at position `i`. */
  predicate OccursAt(s: string, token: string, i: int) {
    0 <= i && i + |token| <= |s| && s[i..i + |token|] == token
  }

  lemma {:induction false} ReplaceAbsentToken(s: string, token: string, replacement: string)
    requires token != []
    requires forall i :: !OccursAt(s, token, i)
    ensures ReplaceAll(s, token, replacement) == s
  {
    if |s| >= |token| {
      assert !OccursAt(s, token, 0);
      forall i ensures !OccursAt(s[1..], token, i) {
        if OccursAt(s[1..], token, i) {
          assert s[1..][i..i + |token|] == s[i + 1..i + 1 + |token|];
          assert OccursAt(s, token, i + 1);
        }
      }
      ReplaceAbsentToken(s[1..], token, replacement);
    }
  }

  predicate IsUpper(c: char) {
    'A' <= c <= 'Z'
  }

  predicate IsLower(c: char) {
    'a' <= c <= 'z'
  }

  function LowerChar(c: char): char {
    if IsUpper(c) then (c as int + 32) as char else c
  }

  function UpperChar(c: char): char {
    if IsLower(c) then (c as int - 32) as char else c
  }

  /** `strtolower`, which maps only the ASCII letters. */
  function ToLower(s: string): (r: string)
    ensures |r| == |s|
    ensures forall i :: 0 <= i < |s| ==> r[i] == LowerChar(s[i])
  {
    if s == [] then [] else [LowerChar(s[0])] + ToLower(s[1..])
  }

  /** `strtoupper`, which maps only the ASCII letters. */
  function ToUpper(s: string): (r: string)
    ensures |r| == |s|
    ensures forall i :: 0 <= i < |s| ==> r[i] == UpperChar(s[i])
  {
    if s == [] then [] else [UpperChar(s[0])] + ToUpper(s[1..])
  }

  /** `str_replace($from, $to, $s)` for one-character strings. */
  function ReplaceChar(s: string, from: char, to: char): (r: string)
    ensures |r| == |s|
    ensures forall i :: 0 <= i < |s| ==> r[i] == if s[i] == from then to else s[i]
  {
    if s == [] then [] else [if s[0] == from then to else s[0]] + ReplaceChar(s[1..], from, to)
  }

  /** The strings `f(x)` of the elements of `xs`, joined in order (a `foreach` appending to a string). */
  function ConcatMap<T>(f: T -> string, xs: seq<T>): string {
    if xs == [] then "" else ConcatMap(f, xs[..|xs| - 1]) + f(xs[|xs| - 1])
  }

  lemma ConcatMapSnoc<T>(f: T -> string, xs: seq<T>, x: T)
    ensures ConcatMap(f, xs + [x]) == ConcatMap(f, xs) + f(x)
  {
    assert (xs + [x])[..|xs|] == xs;
  }

  lemma {:induction false} ConcatMapAppend<T>(f: T -> string, a: seq<T>, b: seq<T>)
    ensures ConcatMap(f, a + b) == ConcatMap(f, a) + ConcatMap(f, b)
  {
    if b == [] {
      assert a + b == a;
    } else {
      var init, last := b[..|b| - 1], b[|b| - 1];
      calc {
        ConcatMap(f, a + b);
        { assert a + b == (a + init) + [last]; }
        ConcatMap(f, (a + init) + [last]);
        { ConcatMapSnoc(f, a + init, last); }
        ConcatMap(f, a + init) + f(last);
        { ConcatMapAppend(f, a, init); }
        ConcatMap(f, a) + ConcatMap(f, init) + f(last);
        { ConcatMapSnoc(f, init, last); assert init + [last] == b; }
        ConcatMap(f, a) + ConcatMap(f, b);
      }
    }
  }
}
