/**
 * The PHP primitives the data-access layer is built from: scalar values,
 * string-keyed ordered arrays, the error kinds, and the library functions
 * whose exact behaviour shows up in the generated SQL (join, int-to-string
 * interpolation, the (int) cast, ASCII case mapping, explode with a limit of
 * two, array_unique).
 */
module Php {

  datatype Option<T> = None | Some(value: T)

  /** The `T|false` convention of PDO's fetch functions. */
  datatype OrFalse<T> = False | Val(value: T)

  /**
   * What a call can throw: the layer's own InvalidArgumentException, a PHP
   * TypeError, or a PDOException raised by the driver.
   */
  datatype Error =
    | InvalidArgument(message: string)
    | TypeError(message: string)
    | PdoException(message: string)

  datatype Result<T> = Ok(value: T) | Err(error: Error)

  /** The scalar values a bound parameter or a fetched column can hold. */
  datatype Value = Null | Bool(b: bool) | Int(i: int) | Str(s: string)

  /** A string-keyed PHP array: entries in insertion order. */
  type Entry = (string, Value)
  type PhpArray = seq<Entry>

  predicate Distinct<T(==)>(s: seq<T>) {
    forall i, j :: 0 <= i < j < |s| ==> s[i] != s[j]
  }

  /** `array_keys($a)`. */
  function Keys(a: PhpArray): (ks: seq<string>)
    ensures |ks| == |a|
    ensures forall i :: 0 <= i < |a| ==> ks[i] == a[i].0
  {
    if a == [] then [] else [a[0].0] + Keys(a[1..])
  }

  /** `$a[$k]` for a key that may be missing. */
  function Lookup(a: PhpArray, k: string): (v: Option<Value>)
    ensures v.None? <==> k !in Keys(a)
  {
    if a == [] then None else if a[0].0 == k then Some(a[0].1) else Lookup(a[1..], k)
  }

  /** `unset($a[$k])`. */
  function Unset(a: PhpArray, k: string): (r: PhpArray)
    ensures forall e :: e in r <==> e in a && e.0 != k
    ensures k !in Keys(r)
    ensures k !in Keys(a) ==> r == a
    ensures |r| <= |a|
  {
    if a == [] then []
    else if a[0].0 == k then Unset(a[1..], k)
    else [a[0]] + Unset(a[1..], k)
  }

  /**
   * Unset keeps the surviving entries in their order, repeats included: it
   * works entry by entry and distributes over concatenation.
   */
  lemma {:induction false} UnsetConcat(a: PhpArray, b: PhpArray, k: string)
    ensures Unset(a + b, k) == Unset(a, k) + Unset(b, k)
  {
    if a == [] {
      assert a + b == b;
    } else {
      assert (a + b)[0] == a[0];
      assert (a + b)[1..] == a[1..] + b;
      UnsetConcat(a[1..], b, k);
    }
  }

  /** A single entry survives exactly when its key is not the one unset. */
  lemma UnsetSingle(e: Entry, k: string)
    ensures Unset([e], k) == if e.0 == k then [] else [e]
  {
    assert [e][1..] == [];
  }

  /** `$a[$k] = $v`: overwrites the entry in place when the key exists, appends otherwise. */
  function Assign(a: PhpArray, k: string, v: Value): (r: PhpArray)
    ensures Lookup(r, k) == Some(v)
    ensures forall k' :: k' != k ==> Lookup(r, k') == Lookup(a, k')
    ensures k !in Keys(a) ==> r == a + [(k, v)]
  {
    if a == [] then [(k, v)]
    else if a[0].0 == k then [(k, v)] + a[1..]
    else [a[0]] + Assign(a[1..], k, v)
  }

  /** `join($sep, $items)`. */
  function Join(sep: string, items: seq<string>): string {
    if |items| == 0 then ""
    else if |items| == 1 then items[0]
    else items[0] + sep + Join(sep, items[1..])
  }

  /** Joining non-empty items gives the empty string exactly when there are none. */
  lemma JoinEmpty(sep: string, items: seq<string>)
    requires forall i :: 0 <= i < |items| ==> items[i] != ""
    ensures Join(sep, items) == "" <==> items == []
  {
    if |items| > 1 {
      assert |Join(sep, items)| >= |items[0]|;
    }
  }

  /** Deletes every occurrence of c; used to state what a text says once its punctuation is ignored. */
  function Without(s: string, c: char): (r: string)
    ensures c !in r
  {
    if s == [] then [] else (if s[0] == c then [] else [s[0]]) + Without(s[1..], c)
  }

  lemma {:induction false} WithoutConcat(a: string, b: string, c: char)
    ensures Without(a + b, c) == Without(a, c) + Without(b, c)
  {
    if a != [] {
      assert (a + b)[0] == a[0];
      assert (a + b)[1..] == a[1..] + b;
      WithoutConcat(a[1..], b, c);
    } else {
      assert a + b == b;
    }
  }

  // ---------------------------------------------------------------------
  // Decimal text of integers: "$n" inside a double-quoted string, and back
  // through the (int) cast.

  predicate IsDigit(c: char) { '0' <= c <= '9' }

  predicate IsDigits(s: string) { forall i :: 0 <= i < |s| ==> IsDigit(s[i]) }

  function DigitChar(d: nat): (c: char)
    requires d < 10
    ensures IsDigit(c)
  {
    ('0' as int + d) as char
  }

  function DigitValue(c: char): nat
    requires IsDigit(c)
  {
    c as int - '0' as int
  }

  /** The decimal digits of n, most significant first, without leading zeros. */
  function NatDigits(n: nat): (s: string)
    ensures |s| > 0 && IsDigits(s)
    ensures s[0] == '0' ==> n == 0
    decreases n
  {
    if n < 10 then [DigitChar(n)] else NatDigits(n / 10) + [DigitChar(n % 10)]
  }

  /** How PHP writes an int into a string: an optional '-' and the digits. */
  function Decimal(n: int): (s: string)
    ensures n >= 0 ==> |s| > 0 && IsDigits(s)
    ensures n < 0 ==> |s| > 1 && s[0] == '-' && IsDigits(s[1..])
    ensures forall i :: 0 <= i < |s| ==> IsDigit(s[i]) || s[i] == '-'
  {
    if n < 0 then "-" + NatDigits(-n) else NatDigits(n)
  }

  /** The number a string of digits denotes. */
  function DigitsValue(s: string): nat
    requires IsDigits(s)
  {
    if s == [] then 0 else DigitsValue(s[..|s| - 1]) * 10 + DigitValue(s[|s| - 1])
  }

  /** Length of the longest prefix of s made of decimal digits. */
  function DigitPrefix(s: string): (n: nat)
    ensures n <= |s| && IsDigits(s[..n])
    ensures n < |s| ==> !IsDigit(s[n])
  {
    if s != [] && IsDigit(s[0]) then
      var m := DigitPrefix(s[1..]);
      assert s[..1 + m] == [s[0]] + s[1..][..m];
      1 + m
    else 0
  }

  /**
   * `(int)$s` for a string: an optional sign and the leading run of digits;
   * a string that does not start that way gives 0.
   */
  function StrToInt(s: string): (r: int)
    ensures IsDigits(s) ==> r == DigitsValue(s)
    ensures |s| > 0 && s[0] == '-' && IsDigits(s[1..]) ==> r == -(DigitsValue(s[1..]) as int)
    ensures |s| > 0 && s[0] != '-' && s[0] != '+' && !IsDigit(s[0]) ==> r == 0
  {
    if |s| > 0 && (s[0] == '-' || s[0] == '+') then
      var t := s[1..];
      assert IsDigits(t) ==> t[..DigitPrefix(t)] == t;
      var m: int := DigitsValue(t[..DigitPrefix(t)]);
      if s[0] == '-' then -m else m
    else
      assert IsDigits(s) ==> s[..DigitPrefix(s)] == s;
      DigitsValue(s[..DigitPrefix(s)])
  }

  /** `(int)$v`. */
  function ToInt(v: Value): (r: int)
    ensures v.Null? ==> r == 0
    ensures v.Bool? ==> r == if v.b then 1 else 0
    ensures v.Int? ==> r == v.i
    ensures v.Str? && IsDigits(v.s) ==> r == DigitsValue(v.s)
  {
    match v
    case Null => 0
    case Bool(b) => if b then 1 else 0
    case Int(i) => i
    case Str(s) => StrToInt(s)
  }

  lemma {:induction false} NatDigitsValue(n: nat)
    ensures DigitsValue(NatDigits(n)) == n
    decreases n
  {
    var s := NatDigits(n);
    if n >= 10 {
      NatDigitsValue(n / 10);
      assert s[..|s| - 1] == NatDigits(n / 10);
    }
  }

  /** Reading back the text PHP writes for an int gives the same int. */
  lemma DecimalRoundTrip(n: int)
    ensures StrToInt(Decimal(n)) == n
  {
    if n < 0 {
      var t := Decimal(n)[1..];
      assert t == NatDigits(-n);
      assert DigitPrefix(t) == |t|;
      assert t[..|t|] == t;
      NatDigitsValue(-n);
    } else {
      var s := Decimal(n);
      assert DigitPrefix(s) == |s|;
      assert s[..|s|] == s;
      NatDigitsValue(n);
    }
  }

  // ---------------------------------------------------------------------
  // ASCII case mapping (strtolower, strtoupper, lcfirst).

  predicate IsUpper(c: char) { 'A' <= c <= 'Z' }

  predicate IsLower(c: char) { 'a' <= c <= 'z' }

  predicate HasNoUpper(s: string) { forall i :: 0 <= i < |s| ==> !IsUpper(s[i]) }

  function LowerChar(c: char): (d: char)
    ensures !IsUpper(d)
    ensures !IsUpper(c) ==> d == c
  {
    if IsUpper(c) then (c as int + 32) as char else c
  }

  function UpperChar(c: char): (d: char)
    ensures !IsLower(d)
    ensures !IsLower(c) ==> d == c
  {
    if IsLower(c) then (c as int - 32) as char else c
  }

  /** `strtolower($s)`. */
  function ToLower(s: string): (r: string)
    ensures |r| == |s| && HasNoUpper(r)
  {
    seq(|s|, i requires 0 <= i < |s| => LowerChar(s[i]))
  }

  /** `strtoupper($s)`. */
  function ToUpper(s: string): (r: string)
    ensures |r| == |s|
  {
    seq(|s|, i requires 0 <= i < |s| => UpperChar(s[i]))
  }

  /** `lcfirst($s)`. */
  function LcFirst(s: string): (r: string)
    ensures |r| == |s|
    ensures |s| > 0 ==> r[0] == LowerChar(s[0]) && r[1..] == s[1..]
  {
    if s == [] then [] else [LowerChar(s[0])] + s[1..]
  }

  // ---------------------------------------------------------------------
  // explode($sep, $s, 2)

  /**
   * `explode($sep, $s, 2)`: the text before the first separator and, when
   * there is a separator, the text after it.
   */
  function Explode2(s: string, sep: char): (r: (string, Option<string>))
    ensures sep !in r.0
    ensures r.1.None? ==> r.0 == s
    ensures r.1.Some? ==> s == r.0 + [sep] + r.1.value
  {
    if s == [] then ("", None)
    else if s[0] == sep then ("", Some(s[1..]))
    else
      var (head, tail) := Explode2(s[1..], sep);
      ([s[0]] + head, tail)
  }

  /** A string with no separator comes back whole. */
  lemma {:induction false} Explode2NoSep(s: string, sep: char)
    requires sep !in s
    ensures Explode2(s, sep) == (s, None)
  {
    if s != [] {
      Explode2NoSep(s[1..], sep);
    }
  }

  /** The split happens at the first separator, whatever follows it. */
  lemma {:induction false} Explode2AtFirst(head: string, sep: char, tail: string)
    requires sep !in head
    ensures Explode2(head + [sep] + tail, sep) == (head, Some(tail))
  {
    if head != [] {
      assert (head + [sep] + tail)[0] == head[0];
      assert (head + [sep] + tail)[1..] == head[1..] + [sep] + tail;
      Explode2AtFirst(head[1..], sep, tail);
      assert head[0] != sep;
      assert [head[0]] + head[1..] == head;
    } else {
      assert head + [sep] + tail == [sep] + tail;
    }
  }

  // ---------------------------------------------------------------------
  // array_unique

  /**
   * `array_unique($s)` on a list of strings: each value kept at its first
   * occurrence, later repeats dropped.
   */
  function Unique(s: seq<string>): (r: seq<string>)
    ensures forall x :: x in r <==> x in s
    ensures Distinct(r)
    ensures |r| <= |s|
    decreases |s|
  {
    if s == [] then []
    else
      var init := s[..|s| - 1];
      assert s == init + [s[|s| - 1]];
      var r0 := Unique(init);
      if s[|s| - 1] in r0 then r0 else r0 + [s[|s| - 1]]
  }

  /** Appending a value: dropped if already present, kept at the end otherwise. */
  lemma UniqueSnoc(s: seq<string>, x: string)
    ensures Unique(s + [x]) == if x in s then Unique(s) else Unique(s) + [x]
  {
    assert (s + [x])[..|s|] == s;
  }

  /** A list without repeats is left as it is. */
  lemma {:induction false} UniqueOfDistinct(s: seq<string>)
    requires Distinct(s)
    ensures Unique(s) == s
    decreases |s|
  {
    if s != [] {
      var init := s[..|s| - 1];
      UniqueOfDistinct(init);
      assert s[|s| - 1] !in init;
      assert s == init + [s[|s| - 1]];
    }
  }

  /**
   * Values keep the order of their first occurrence: the result for a prefix
   * of the input is a prefix of the result for the whole input.
   */
  lemma {:induction false} UniquePrefix(s: seq<string>, k: nat)
    requires k <= |s|
    ensures Unique(s[..k]) <= Unique(s)
    decreases |s|
  {
    if k < |s| {
      var init := s[..|s| - 1];
      assert init[..k] == s[..k];
      UniquePrefix(init, k);
      var a, b, c := Unique(s[..k]), Unique(init), Unique(s);
      assert b <= c;
      assert a <= b;
      assert |a| <= |b| <= |c|;
      forall i | 0 <= i < |a| ensures a[i] == c[i] {
        assert a[i] == b[i];
      }
    } else {
      assert s[..k] == s;
    }
  }
}
