/** The Python string operations the scraper relies on, over `seq<char>`:
    `str.isspace`, `str.strip`, `str.split()` (on whitespace), `str.split(sep)`,
    `sep.join(...)`, `str.lower` and the substring test `sub in s`. */
module Text {

  /** Python's `str.isspace()`: the characters that `str.split()`,
      `str.strip()` and the regular-expression class `\s` treat as whitespace. */
  predicate IsSpace(c: char) {
    || c == ' '
    || ('\t' <= c <= '\r')
    || ('\U{1c}' <= c <= '\U{1f}')
    || c == '\U{85}' || c == '\U{a0}' || c == '\U{1680}'
    || ('\U{2000}' <= c <= '\U{200a}')
    || c == '\U{2028}' || c == '\U{2029}' || c == '\U{202f}' || c == '\U{205f}'
    || c == '\U{3000}'
  }

  /** Characters of the regular-expression class `\w` (ASCII part). */
  predicate IsWordChar(c: char) {
    ('a' <= c <= 'z') || ('A' <= c <= 'Z') || ('0' <= c <= '9') || c == '_'
  }

  predicate NoSpace(s: string) {
    forall i :: 0 <= i < |s| ==> !IsSpace(s[i])
  }

  predicate AllSpace(s: string) {
    forall i :: 0 <= i < |s| ==> IsSpace(s[i])
  }

  /** `str.lower()` on ASCII letters. */
  function ToLower(c: char): (d: char)
    ensures ('A' <= c <= 'Z') ==> d as int == c as int + 32
    ensures !('A' <= c <= 'Z') ==> d == c
  {
    if 'A' <= c <= 'Z' then (c as int + 32) as char else c
  }

  /** `str.lower()` with ASCII case mapping: every upper-case ASCII letter
      becomes its lower-case letter, every other character stays. */
  function Lower(s: string): (r: string)
    ensures |r| == |s|
    ensures forall i :: 0 <= i < |r| ==> !('A' <= r[i] <= 'Z')
    ensures forall i :: 0 <= i < |s| && 'A' <= s[i] <= 'Z' ==> r[i] as int == s[i] as int + 32
    ensures forall i :: 0 <= i < |s| && !('A' <= s[i] <= 'Z') ==> r[i] == s[i]
  {
    seq(|s|, i requires 0 <= i < |s| => ToLower(s[i]))
  }

  /** Lower-casing twice is lower-casing once. */
  lemma {:induction false} LowerIdempotent(s: string)
    ensures Lower(Lower(s)) == Lower(s)
  {
  }

  /** Python's `sub in s`. */
  predicate Contains(s: string, sub: string)
    decreases |s|
  {
    |sub| <= |s| && (s[..|sub|] == sub || Contains(s[1..], sub))
  }

  // ---------------------------------------------------------------------------
  // str.strip()

  /** Number of leading whitespace characters. */
  function LeadingSpace(s: string): (n: nat)
    ensures n <= |s|
    ensures AllSpace(s[..n])
    ensures n < |s| ==> !IsSpace(s[n])
  {
    if |s| == 0 || !IsSpace(s[0]) then 0 else 1 + LeadingSpace(s[1..])
  }

  /** `str.lstrip()`: the suffix left after the leading whitespace. */
  function TrimStart(s: string): (r: string)
    ensures |r| <= |s| && r == s[|s| - |r|..]
    ensures AllSpace(s[..|s| - |r|])
    ensures |r| == 0 || !IsSpace(r[0])
  {
    s[LeadingSpace(s)..]
  }

  /** `str.rstrip()`: the prefix left before the trailing whitespace. */
  function TrimEnd(s: string): (r: string)
    ensures |r| <= |s| && r == s[..|r|]
    ensures AllSpace(s[|r|..])
    ensures |r| == 0 || !IsSpace(r[|r| - 1])
  {
    if |s| == 0 || !IsSpace(s[|s| - 1]) then s
    else
      var r := TrimEnd(s[..|s| - 1]);
      assert s[..|s| - 1][|r|..] + [s[|s| - 1]] == s[|r|..];
      r
  }

  /** `str.strip()`: `s` without its leading and trailing whitespace. */
  function Strip(s: string): (r: string)
    ensures |r| == 0 || (!IsSpace(r[0]) && !IsSpace(r[|r| - 1]))
    ensures LeadingSpace(s) + |r| <= |s|
    ensures r == s[LeadingSpace(s)..LeadingSpace(s) + |r|]
    ensures AllSpace(s[LeadingSpace(s) + |r|..])
  {
    var k := LeadingSpace(s);
    var t := s[k..];
    var r := TrimEnd(t);
    assert t[|r|..] == s[k + |r|..];
    assert r == t[..|r|] == s[k..k + |r|];
    r
  }

  /** Stripping adds no character. */
  lemma {:induction false} StripKeepsOut(s: string, c: char)
    requires c !in s
    ensures c !in Strip(s)
  {
    var r := Strip(s);
    var k := LeadingSpace(s);
    assert forall i :: 0 <= i < |r| ==> r[i] == s[k + i];
  }

  /** Stripping a string padded with whitespace returns the unpadded string. */
  lemma {:induction false} StripPadded(a: string, m: string, b: string)
    requires AllSpace(a) && AllSpace(b)
    requires |m| == 0 || (!IsSpace(m[0]) && !IsSpace(m[|m| - 1]))
    ensures Strip(a + m + b) == m
  {
    var s := a + m + b;
    var t := TrimStart(s);
    if |m| == 0 {
      assert forall i :: 0 <= i < |s| ==> IsSpace(s[i]);
    } else {
      LeadingSpaceExact(s, |a|);
      assert t == m + b;
      TrimEndExact(t, |m|);
    }
  }

  lemma {:induction false} LeadingSpaceExact(s: string, n: nat)
    requires n < |s| && AllSpace(s[..n]) && !IsSpace(s[n])
    ensures LeadingSpace(s) == n
  {
    var k := LeadingSpace(s);
    assert forall i :: 0 <= i < n ==> IsSpace(s[i]) by {
      forall i | 0 <= i < n ensures IsSpace(s[i]) { assert s[..n][i] == s[i]; }
    }
    assert forall i :: 0 <= i < k ==> IsSpace(s[i]) by {
      forall i | 0 <= i < k ensures IsSpace(s[i]) { assert s[..k][i] == s[i]; }
    }
  }

  lemma {:induction false} TrimEndExact(t: string, n: nat)
    requires 0 < n <= |t| && AllSpace(t[n..]) && !IsSpace(t[n - 1])
    ensures TrimEnd(t) == t[..n]
  {
    var r := TrimEnd(t);
    assert forall i :: n <= i < |t| ==> IsSpace(t[i]) by {
      forall i | n <= i < |t| ensures IsSpace(t[i]) { assert t[n..][i - n] == t[i]; }
    }
    assert forall i :: |r| <= i < |t| ==> IsSpace(t[i]) by {
      forall i | |r| <= i < |t| ensures IsSpace(t[i]) { assert t[|r|..][i - |r|] == t[i]; }
    }
    assert |r| > 0 ==> !IsSpace(t[|r| - 1]);
  }

  // ---------------------------------------------------------------------------
  // str.split() and sep.join(...)

  /** Length of the maximal prefix free of whitespace. */
  function WordLength(s: string): (n: nat)
    ensures n <= |s|
    ensures NoSpace(s[..n])
    ensures n < |s| ==> IsSpace(s[n])
  {
    if |s| == 0 || IsSpace(s[0]) then 0 else 1 + WordLength(s[1..])
  }

  /** `str.split()` with no separator: the maximal whitespace-free runs. */
  function Words(s: string): seq<string>
    decreases |s|
  {
    if |s| == 0 then []
    else if IsSpace(s[0]) then Words(s[1..])
    else
      var n := WordLength(s);
      [s[..n]] + Words(s[n..])
  }
  /** Every token of `split()` is nonempty and holds no whitespace. */
  lemma {:induction false} WordsAreTokens(s: string)
    ensures forall i :: 0 <= i < |Words(s)| ==> |Words(s)[i]| > 0 && NoSpace(Words(s)[i])
    decreases |s|
  {
    if |s| > 0 {
      if IsSpace(s[0]) {
        WordsAreTokens(s[1..]);
      } else {
        var n := WordLength(s);
        WordsAreTokens(s[n..]);
        assert Words(s) == [s[..n]] + Words(s[n..]);
      }
    }
  }


  /** `sep.join(ts)`. */
  function Join(ts: seq<string>, sep: string): string
  {
    if |ts| == 0 then []
    else if |ts| == 1 then ts[0]
    else ts[0] + sep + Join(ts[1..], sep)
  }

  /** Joining a token in front of a nonempty list puts a separator between. */
  lemma {:induction false} JoinCons(w: string, ws: seq<string>, sep: string)
    requires |ws| > 0
    ensures Join([w] + ws, sep) == w + sep + Join(ws, sep)
  {
    assert ([w] + ws)[1..] == ws;
  }

  /** `s.split(sep)`: the pieces between the leftmost non-overlapping
      occurrences of `sep`; an empty `s` gives one empty piece. */
  function SplitOn(s: string, sep: string): (parts: seq<string>)
    requires |sep| > 0
    ensures |parts| >= 1
    ensures Join(parts, sep) == s
    decreases |s|
  {
    if |s| < |sep| then [s]
    else if s[..|sep|] == sep then
      var rest := SplitOn(s[|sep|..], sep);
      assert s == sep + s[|sep|..];
      [[]] + rest
    else
      var rest := SplitOn(s[1..], sep);
      var parts := [[s[0]] + rest[0]] + rest[1..];
      assert s == [s[0]] + s[1..];
      assert Join(parts, sep) == s by {
        if |rest| > 1 {
          assert parts[1..] == rest[1..];
        }
      }
      parts
  }

  // ---------------------------------------------------------------------------
  // Properties of split and join

  /** Joining whitespace-free tokens with a whitespace-free separator gives a
      whitespace-free string. */
  lemma {:induction false} JoinNoSpace(ts: seq<string>, sep: string)
    requires forall i :: 0 <= i < |ts| ==> NoSpace(ts[i])
    requires NoSpace(sep)
    ensures NoSpace(Join(ts, sep))
  {
    if |ts| > 1 {
      JoinNoSpace(ts[1..], sep);
      var r := Join(ts[1..], sep);
      assert Join(ts, sep) == ts[0] + sep + r;
      forall i | 0 <= i < |Join(ts, sep)|
        ensures !IsSpace(Join(ts, sep)[i])
      {
        if i < |ts[0]| {
        } else if i < |ts[0]| + |sep| {
          assert Join(ts, sep)[i] == sep[i - |ts[0]|];
        } else {
          assert Join(ts, sep)[i] == r[i - |ts[0]| - |sep|];
        }
      }
    }
  }

  /** Splitting a piece free of the separator's first character gives it back whole. */
  lemma {:induction false} SplitOnNoSep(t: string, sep: string)
    requires |sep| > 0 && sep[0] !in t
    ensures SplitOn(t, sep) == [t]
    decreases |t|
  {
    if |t| >= |sep| {
      assert t[..|sep|][0] == t[0];
      SplitOnNoSep(t[1..], sep);
      assert [t[0]] + t[1..] == t;
    }
  }

  /** The first piece ends exactly at the first separator when the text before
      it is free of the separator's first character. */
  lemma {:induction false} SplitOnFirst(t: string, sep: string, rest: string)
    requires |sep| > 0 && sep[0] !in t
    ensures SplitOn(t + sep + rest, sep) == [t] + SplitOn(rest, sep)
    decreases |t|
  {
    var s := t + sep + rest;
    if |t| == 0 {
      assert s[..|sep|] == sep;
      assert s[|sep|..] == rest;
    } else {
      assert s[..|sep|][0] == t[0];
      assert s[1..] == t[1..] + sep + rest;
      SplitOnFirst(t[1..], sep, rest);
      assert [t[0]] + t[1..] == t;
    }
  }

  /** Splitting a join recovers the tokens, provided there is at least one
      token and no token contains the separator's first character. */
  lemma {:induction false} SplitJoin(ts: seq<string>, sep: string)
    requires |sep| > 0 && |ts| > 0
    requires forall i :: 0 <= i < |ts| ==> sep[0] !in ts[i]
    ensures SplitOn(Join(ts, sep), sep) == ts
  {
    if |ts| == 1 {
      SplitOnNoSep(ts[0], sep);
    } else {
      SplitJoin(ts[1..], sep);
      SplitOnFirst(ts[0], sep, Join(ts[1..], sep));
    }
  }

  /** No piece of a split on a single character contains that character. */
  lemma {:induction false} SplitOnCharPieces(s: string, c: char)
    ensures forall i :: 0 <= i < |SplitOn(s, [c])| ==> c !in SplitOn(s, [c])[i]
    decreases |s|
  {
    var parts := SplitOn(s, [c]);
    if |s| >= 1 {
      if s[..1] == [c] {
        SplitOnCharPieces(s[1..], c);
      } else {
        SplitOnCharPieces(s[1..], c);
        var rest := SplitOn(s[1..], [c]);
        assert s[0] != c by { assert s[..1][0] == s[0]; }
        assert parts == [[s[0]] + rest[0]] + rest[1..];
        forall i | 0 <= i < |parts|
          ensures c !in parts[i]
        {
          if i > 0 { assert parts[i] == rest[i]; }
        }
      }
    }
  }

  /** A single-character split has more than one piece exactly when the
      character occurs. */
  lemma {:induction false} SplitOnCharCount(s: string, c: char)
    ensures |SplitOn(s, [c])| >= 2 <==> c in s
    decreases |s|
  {
    if |s| >= 1 {
      SplitOnCharStep(s, c);
      if s[0] != c {
        SplitOnCharCount(s[1..], c);
        assert c in s <==> c in s[1..] by {
          assert s == [s[0]] + s[1..];
        }
      }
    }
  }

  /** Splitting on one character: a first character equal to it adds a piece. */
  lemma {:induction false} SplitOnCharStep(s: string, c: char)
    requires |s| >= 1
    ensures |SplitOn(s, [c])| == if s[0] == c then 1 + |SplitOn(s[1..], [c])| else |SplitOn(s[1..], [c])|
  {
    assert s[..1] == [c] <==> s[0] == c by { assert s[..1][0] == s[0]; }
  }

  /** Leading whitespace does not change the words. */
  lemma {:induction false} WordsSkipSpace(a: string, t: string)
    requires AllSpace(a)
    ensures Words(a + t) == Words(t)
    decreases |a|
  {
    if |a| > 0 {
      assert (a + t)[1..] == a[1..] + t;
      WordsSkipSpace(a[1..], t);
    } else {
      assert a + t == t;
    }
  }

  lemma {:induction false} WordLengthAppend(t: string, b: string)
    requires |b| == 0 || IsSpace(b[0])
    ensures WordLength(t + b) == WordLength(t)
    decreases |t|
  {
    if |t| == 0 {
      assert t + b == b;
    } else if !IsSpace(t[0]) {
      assert (t + b)[1..] == t[1..] + b;
      WordLengthAppend(t[1..], b);
    }
  }

  /** Trailing whitespace does not change the words. */
  lemma {:induction false} WordsTrailingSpace(t: string, b: string)
    requires AllSpace(b)
    ensures Words(t + b) == Words(t)
    decreases |t|
  {
    var s := t + b;
    if |t| == 0 {
      assert s == b;
      WordsSkipSpace(b, []);
      assert b + [] == b;
    } else if IsSpace(t[0]) {
      assert s[1..] == t[1..] + b;
      WordsTrailingSpace(t[1..], b);
    } else {
      WordLengthAppend(t, b);
      var n := WordLength(t);
      assert s[..n] == t[..n];
      assert s[n..] == t[n..] + b;
      WordsTrailingSpace(t[n..], b);
    }
  }

  /** A whitespace-free word followed by whitespace (or nothing) is the first word. */
  lemma {:induction false} WordsCons(w: string, x: string)
    requires |w| > 0 && NoSpace(w)
    requires |x| == 0 || IsSpace(x[0])
    ensures Words(w + x) == [w] + Words(x)
  {
    WordLengthAppend(w, x);
    assert WordLength(w) == |w|;
    assert (w + x)[..|w|] == w;
    assert (w + x)[|w|..] == x;
  }

  /** `str.split()` undoes `" ".join(...)` on non-empty whitespace-free tokens. */
  lemma {:induction false} WordsJoin(ts: seq<string>)
    requires forall i :: 0 <= i < |ts| ==> |ts[i]| > 0 && NoSpace(ts[i])
    ensures Words(Join(ts, " ")) == ts
  {
    if |ts| == 1 {
      WordsCons(ts[0], []);
      assert ts[0] + [] == ts[0];
    } else if |ts| > 1 {
      var rest := Join(ts[1..], " ");
      WordsJoin(ts[1..]);
      assert Join(ts, " ") == ts[0] + (" " + rest);
      WordsCons(ts[0], " " + rest);
      WordsSkipSpace(" ", rest);
    }
  }
}
