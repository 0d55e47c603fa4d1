/** Decimal text for integers: Python's `str(n)` (used to build the
    `owner{i}`, `Phone {i}`, `Email {i}` keys and the `page=` parameter) and
    `int(token)` (used to read the result count from the search heading). */
module Decimal {
  import opened Options

  predicate IsDigit(c: char) {
    '0' <= c <= '9'
  }

  predicate AllDigits(s: string) {
    forall i :: 0 <= i < |s| ==> IsDigit(s[i])
  }

  function DigitChar(d: nat): (c: char)
    requires d < 10
    ensures IsDigit(c) && c as int - '0' as int == d
  {
    ('0' as int + d) as char
  }

  /** Python's `str(n)` for a non-negative `n`: its decimal digits, without
      leading zeros. */
  function NatToString(n: nat): (r: string)
    ensures |r| >= 1 && AllDigits(r)
    ensures r[0] == '0' <==> n == 0
    decreases n
  {
    if n < 10 then [DigitChar(n)] else NatToString(n / 10) + [DigitChar(n % 10)]
  }

  /** The value of a string of decimal digits (leading zeros allowed, as `int()` allows). */
  function DigitsValue(s: string): nat
    requires AllDigits(s)
    decreases |s|
  {
    if |s| == 0 then 0 else 10 * DigitsValue(s[..|s| - 1]) + (s[|s| - 1] as int - '0' as int)
  }

  /** Reading back the digits of `str(n)` gives `n`. */
  lemma {:induction false} NatToStringRoundTrip(n: nat)
    ensures DigitsValue(NatToString(n)) == n
    decreases n
  {
    if n >= 10 {
      NatToStringRoundTrip(n / 10);
      var r := NatToString(n);
      assert r[..|r| - 1] == NatToString(n / 10);
    }
  }

  /** Distinct numbers have distinct decimal strings. */
  lemma {:induction false} NatToStringInjective(m: nat, n: nat)
    requires NatToString(m) == NatToString(n)
    ensures m == n
  {
    NatToStringRoundTrip(m);
    NatToStringRoundTrip(n);
  }

  /** Python's `str(n)` for any integer. */
  function IntToString(n: int): string
  {
    if n < 0 then "-" + NatToString(-n) else NatToString(n)
  }

  /** Python's `int(token)` on a whitespace-free token: an optional sign
      followed by one or more ASCII digits; anything else raises (`None`). */
  function ParseInt(s: string): (r: Option<int>)
    ensures r.Some? ==> |s| > 0 && (IsDigit(s[0]) || s[0] == '+' || s[0] == '-')
    ensures r.Some? <==> (|s| > 0 &&
      var body := if s[0] == '+' || s[0] == '-' then s[1..] else s;
      |body| > 0 && AllDigits(body))
    ensures r.Some? && s[0] == '-' ==> AllDigits(s[1..]) && r.value == -(DigitsValue(s[1..]) as int)
    ensures r.Some? && s[0] == '+' ==> AllDigits(s[1..]) && r.value == DigitsValue(s[1..])
    ensures r.Some? && IsDigit(s[0]) ==> AllDigits(s) && r.value == DigitsValue(s)
    ensures r.Some? && s[0] == '-' ==> r.value <= 0
    ensures r.Some? && s[0] != '-' ==> r.value >= 0
  {
    if |s| > 0 && (s[0] == '+' || s[0] == '-') then
      var body := s[1..];
      if |body| > 0 && AllDigits(body) then
        var v: int := DigitsValue(body);
        Some(if s[0] == '-' then -v else v)
      else None
    else if |s| > 0 && AllDigits(s) then Some(DigitsValue(s))
    else None
  }

  /** `int(str(n)) == n`. */
  lemma {:induction false} ParseIntRoundTrip(n: int)
    ensures ParseInt(IntToString(n)) == Some(n)
  {
    var s := IntToString(n);
    if n < 0 {
      var body := NatToString(-n);
      assert s == "-" + body;
      assert s[0] == '-' && s[1..] == body;
      NatToStringRoundTrip(-n);
      var v: int := DigitsValue(body);
      assert ParseInt(s) == Some(-v);
    } else {
      var body := NatToString(n);
      assert s == body && IsDigit(s[0]);
      NatToStringRoundTrip(n);
      assert ParseInt(s) == Some(DigitsValue(body));
    }
  }

  // ---------------------------------------------------------------------------
  // Numbered keys: f"{prefix}{i}"

  /** The key made of `prefix` followed by the decimal digits of `i`. */
  function IndexKey(prefix: string, i: nat): (k: string)
    ensures |k| > |prefix| && k[..|prefix|] == prefix
  {
    prefix + NatToString(i)
  }

  /** Different numbers give different keys under one prefix. */
  lemma {:induction false} IndexKeyInjective(prefix: string, i: nat, j: nat)
    requires IndexKey(prefix, i) == IndexKey(prefix, j)
    ensures i == j
  {
    assert NatToString(i) == IndexKey(prefix, i)[|prefix|..];
    assert NatToString(j) == IndexKey(prefix, j)[|prefix|..];
    NatToStringInjective(i, j);
  }

  /** The keys numbered `0 .. n-1`. */
  function IndexKeys(prefix: string, n: nat): set<string>
  {
    set i | 0 <= i < n :: IndexKey(prefix, i)
  }

  /** The keys below `n + 1` are those below `n` and the key of `n`. */
  lemma {:induction false} IndexKeysSnoc(prefix: string, n: nat)
    ensures IndexKeys(prefix, n + 1) == IndexKeys(prefix, n) + {IndexKey(prefix, n)}
  {
  }

  /** The key of `n` is not among the keys below `n`. */
  lemma {:induction false} IndexKeyFresh(prefix: string, n: nat)
    ensures IndexKey(prefix, n) !in IndexKeys(prefix, n)
  {
    if IndexKey(prefix, n) in IndexKeys(prefix, n) {
      var i :| 0 <= i < n && IndexKey(prefix, i) == IndexKey(prefix, n);
      IndexKeyInjective(prefix, i, n);
    }
  }

  /** There are exactly `n` keys numbered below `n`. */
  lemma {:induction false} IndexKeysSize(prefix: string, n: nat)
    ensures |IndexKeys(prefix, n)| == n
    decreases n
  {
    if n > 0 {
      IndexKeysSize(prefix, n - 1);
      IndexKeysSnoc(prefix, n - 1);
      IndexKeyFresh(prefix, n - 1);
    }
  }

  /** The values numbered by their positions: `vs[i]` under the key `prefix` followed by `i`. */
  function Enumerate<T>(prefix: string, vs: seq<T>): (m: map<string, T>)
    ensures m.Keys == IndexKeys(prefix, |vs|)
    ensures forall i :: 0 <= i < |vs| ==> m[IndexKey(prefix, i)] == vs[i]
  {
    forall i: nat, j: nat | IndexKey(prefix, i) == IndexKey(prefix, j) ensures i == j {
      IndexKeyInjective(prefix, i, j);
    }
    map i | 0 <= i < |vs| :: IndexKey(prefix, i) := vs[i]
  }

  /** The dictionary has one entry per element. */
  lemma {:induction false} EnumerateSize<T>(prefix: string, vs: seq<T>)
    ensures |Enumerate(prefix, vs)| == |vs|
  {
    IndexKeysSize(prefix, |vs|);
  }
}
