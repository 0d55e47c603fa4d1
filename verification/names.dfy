/** The text normalisers of the scraper: `clean_text` (honorific removal and
    whitespace collapsing), the owner-name / position split of a raw contact
    string such as "Roderick Mays, Owner", the search-keyword, location and
    people-search name slugs, the zip code of an address and the person id
    at the end of a profile URL. */
module Names {
  import opened Options
  import opened Text
  import opened Seqs

  // ---------------------------------------------------------------------------
  // Honorifics: a word-initial Mr, Ms, Mrs, Dr or Prof in any case, an
  // optional dot and the whitespace after it are deleted

  /** The alternatives of `(Mr|Ms|Mrs|Dr|Prof)` in the order the regular
      expression engine tries them, lower-cased. */
  const Honorifics: seq<string> := ["mr", "ms", "mrs", "dr", "prof"]

  /** `s` starts with the letters of `h`, ignoring (ASCII) case. */
  predicate StartsWithIgnoreCase(s: string, h: string) {
    |h| <= |s| && forall i :: 0 <= i < |h| ==> ToLower(s[i]) == h[i]
  }

  /** Length of the whitespace run that starts at position `i`. */
  function SpaceRunFrom(s: string, i: nat): (n: nat)
    requires i <= |s|
    ensures i + n <= |s|
    ensures forall j :: i <= j < i + n ==> IsSpace(s[j])
    ensures i + n < |s| ==> !IsSpace(s[i + n])
    decreases |s| - i
  {
    if i < |s| && IsSpace(s[i]) then 1 + SpaceRunFrom(s, i + 1) else 0
  }

  /** End of the optional dot and the whitespace run that must follow an
      honorific ending at `n`. The dot is taken when whitespace follows it;
      otherwise the engine backtracks and asks for whitespace at `n` itself.
      The whitespace run is always taken whole. */
  function DotSpaceEnd(s: string, n: nat): (e: Option<nat>)
    requires n <= |s|
    ensures e.Some? ==> n < e.value <= |s| && IsSpace(s[e.value - 1])
    ensures e.Some? ==> e.value == |s| || !IsSpace(s[e.value])
  {
    if n < |s| && s[n] == '.' && SpaceRunFrom(s, n + 1) > 0 then
      Some(n + 1 + SpaceRunFrom(s, n + 1))
    else if SpaceRunFrom(s, n) > 0 then
      Some(n + SpaceRunFrom(s, n))
    else None
  }

  /** End of the match of the `k`-th alternative at the front of `s`, if it
      completes. */
  function Alternative(s: string, k: nat): (e: Option<nat>)
    requires k < |Honorifics|
  {
    if StartsWithIgnoreCase(s, Honorifics[k]) then DotSpaceEnd(s, |Honorifics[k]|) else None
  }

  /** First alternative, from the `k`-th on, that completes a match. */
  function AlternativesFrom(s: string, k: nat): (e: Option<nat>)
    ensures e.Some? ==> 2 < e.value <= |s| && IsSpace(s[e.value - 1])
    ensures e.Some? ==> e.value == |s| || !IsSpace(s[e.value])
    decreases |Honorifics| - k
  {
    if k >= |Honorifics| then None
    else
      var a := Alternative(s, k);
      if a.Some? then a else AlternativesFrom(s, k + 1)
  }

  /** Length of the honorific match at the start of `s`, if any. `afterWord`
      tells whether the character before `s` is a word character: then the
      word boundary fails, because every honorific starts with a letter. */
  function HonorificMatch(s: string, afterWord: bool): (e: Option<nat>)
    ensures e.Some? ==> !afterWord && 2 < e.value <= |s|
    ensures e.Some? ==> IsSpace(s[e.value - 1]) && (e.value == |s| || !IsSpace(s[e.value]))
  {
    if afterWord then None else AlternativesFrom(s, 0)
  }

  /** The first substitution of `clean_text`: every honorific match, scanning
      left to right without overlaps, is deleted. */
  function RemoveHonorifics(s: string, afterWord: bool): (r: string)
    ensures |r| <= |s|
    decreases |s|
  {
    if |s| == 0 then []
    else match HonorificMatch(s, afterWord)
      case Some(n) => RemoveHonorifics(s[n..], false)
      case None => [s[0]] + RemoveHonorifics(s[1..], IsWordChar(s[0]))
  }

  // ---------------------------------------------------------------------------
  // Whitespace: runs collapsed to one space, ends stripped

  /** Two whitespace characters in a row at position `i`. */
  predicate SpacePairAt(s: string, i: int)
    requires 0 <= i < |s| - 1
  {
    IsSpace(s[i]) && IsSpace(s[i + 1])
  }

  /** Every whitespace character is a plain space, and no two are adjacent. */
  predicate SingleSpaced(s: string) {
    && (forall i :: 0 <= i < |s| && IsSpace(s[i]) ==> s[i] == ' ')
    && (forall i :: 0 <= i < |s| - 1 ==> !SpacePairAt(s, i))
  }

  /** The shape of a `clean_text` result. */
  predicate Canonical(s: string) {
    && SingleSpaced(s)
    && (|s| > 0 ==> !IsSpace(s[0]) && !IsSpace(s[|s| - 1]))
  }

  /** Every maximal whitespace run replaced by one space. */
  function CollapseSpace(s: string): (r: string)
    ensures SingleSpaced(r)
    ensures |s| > 0 ==> |r| > 0 && (if IsSpace(s[0]) then r[0] == ' ' else r[0] == s[0])
    decreases |s|
  {
    if |s| == 0 then []
    else
      var head := if IsSpace(s[0]) then ' ' else s[0];
      var tail := if IsSpace(s[0]) then s[LeadingSpace(s)..] else s[1..];
      var rest := CollapseSpace(tail);
      assert IsSpace(head) ==> |rest| == 0 || !IsSpace(rest[0]);
      SingleSpacedCons(head, rest);
      [head] + rest
  }

  lemma {:induction false} SingleSpacedCons(c: char, rest: string)
    requires SingleSpaced(rest)
    requires IsSpace(c) ==> c == ' ' && (|rest| == 0 || !IsSpace(rest[0]))
    ensures SingleSpaced([c] + rest)
  {
    var r := [c] + rest;
    forall i | 0 <= i < |r| - 1
      ensures !SpacePairAt(r, i)
    {
      if i > 0 {
        assert !SpacePairAt(rest, i - 1);
      }
    }
  }

  lemma {:induction false} SingleSpacedSlice(c: string, k: nat, len: nat)
    requires SingleSpaced(c)
    requires k + len <= |c|
    ensures SingleSpaced(c[k..k + len])
  {
    var r := c[k..k + len];
    forall i | 0 <= i < |r| - 1
      ensures !SpacePairAt(r, i)
    {
      assert !SpacePairAt(c, k + i);
    }
  }

  /** The second step of `clean_text`: every whitespace run becomes one space,
      then the ends are stripped. */
  function NormalizeSpace(s: string): (r: string)
    ensures Canonical(r)
  {
    var c := CollapseSpace(s);
    var r := Strip(c);
    SingleSpacedSlice(c, LeadingSpace(c), |r|);
    r
  }

  /** `clean_text`: honorifics removed, whitespace collapsed and stripped. */
  function CleanText(s: string): (r: string)
    ensures Canonical(r)
  {
    NormalizeSpace(RemoveHonorifics(s, false))
  }

  // ---------------------------------------------------------------------------
  // Properties of the whitespace normalisation

  /** A canonical string is its own words joined by single spaces. */
  lemma {:induction false} CanonicalIsJoinedWords(z: string)
    requires Canonical(z)
    ensures z == Join(Words(z), " ")
    decreases |z|
  {
    if |z| > 0 {
      var n := WordLength(z);
      if n == |z| {
        WordsCons(z, []);
        assert z + [] == z;
      } else {
        CanonicalAfterWord(z, n);
        var w := z[..n];
        var rest := z[n + 1..];
        CanonicalIsJoinedWords(rest);
        WordsAfterWord(w, rest);
        JoinCons(w, Words(rest), " ");
        SpliceAt(z, n);
      }
    }
  }

  /** A string is what precedes position `n`, the space there, and the rest. */
  lemma {:induction false} SpliceAt(z: string, n: nat)
    requires n < |z| && z[n] == ' '
    ensures z == z[..n] + " " + z[n + 1..]
  {
  }

  lemma {:induction false} CanonicalAfterWord(z: string, n: nat)
    requires Canonical(z) && |z| > 0 && n == WordLength(z) < |z|
    ensures n > 0 && n + 1 < |z| && z[n] == ' ' && !IsSpace(z[n + 1])
    ensures Canonical(z[n + 1..])
  {
    assert IsSpace(z[n]);
    assert n != 0 && n != |z| - 1;
    assert z[n] == ' ';
    assert !SpacePairAt(z, n);
    CanonicalSuffix(z, n + 1);
  }

  /** A suffix of a canonical string that starts at a non-space is canonical. */
  lemma {:induction false} CanonicalSuffix(z: string, k: nat)
    requires Canonical(z) && k < |z| && !IsSpace(z[k])
    ensures Canonical(z[k..])
  {
    var r := z[k..];
    SingleSpacedSlice(z, k, |z| - k);
    assert r == z[k..k + (|z| - k)];
    assert r[0] == z[k] && r[|r| - 1] == z[|z| - 1];
  }

  lemma {:induction false} WordsAfterWord(w: string, rest: string)
    requires |w| > 0 && NoSpace(w)
    requires |rest| > 0 && !IsSpace(rest[0])
    ensures Words(w + " " + rest) == [w] + Words(rest)
    ensures |Words(rest)| > 0
  {
    WordsConsSpace(w, rest);
    WordsSkipOneSpace(rest);
    WordsNonEmpty(rest);
  }

  lemma {:induction false} WordsConsSpace(w: string, rest: string)
    requires |w| > 0 && NoSpace(w)
    ensures Words(w + " " + rest) == [w] + Words(" " + rest)
  {
    assert w + " " + rest == w + (" " + rest);
    WordsCons(w, " " + rest);
  }

  lemma {:induction false} WordsSkipOneSpace(rest: string)
    ensures Words(" " + rest) == Words(rest)
  {
    assert (" " + rest)[1..] == rest;
  }

  /** A text that starts with a non-space character has a token. */
  lemma {:induction false} WordsNonEmpty(s: string)
    requires |s| > 0 && !IsSpace(s[0])
    ensures |Words(s)| > 0
  {
    var n := WordLength(s);
    assert Words(s) == [s[..n]] + Words(s[n..]);
  }

  /** Collapsing keeps the first word and collapses the rest. */
  lemma {:induction false} CollapseWord(t: string)
    ensures CollapseSpace(t) == t[..WordLength(t)] + CollapseSpace(t[WordLength(t)..])
    decreases |t|
  {
    if |t| > 0 && !IsSpace(t[0]) {
      var u := t[1..];
      var m := WordLength(u);
      CollapseWord(u);
      CollapseNonSpace(t);
      ConsSlices(t, m);
      ConcatAssoc([t[0]], u[..m], CollapseSpace(u[m..]));
    }
  }

  lemma {:induction false} CollapseNonSpace(t: string)
    requires |t| > 0 && !IsSpace(t[0])
    ensures CollapseSpace(t) == [t[0]] + CollapseSpace(t[1..])
    ensures WordLength(t) == 1 + WordLength(t[1..])
  {
  }

  lemma {:induction false} ConcatAssoc(a: string, b: string, c: string)
    ensures a + (b + c) == (a + b) + c
  {
  }

  lemma {:induction false} ConsSlices(t: string, m: nat)
    requires m < |t|
    ensures t[..m + 1] == [t[0]] + t[1..][..m]
    ensures t[m + 1..] == t[1..][m..]
  {
  }

  /** Collapsing whitespace does not change the words. */
  lemma {:induction false} WordsCollapse(y: string)
    ensures Words(CollapseSpace(y)) == Words(y)
    decreases |y|
  {
    if |y| > 0 {
      if IsSpace(y[0]) {
        var k := LeadingSpace(y);
        WordsCollapse(y[k..]);
        assert y == y[..k] + y[k..];
        WordsSkipSpace(y[..k], y[k..]);
        WordsSkipSpace([' '], CollapseSpace(y[k..]));
      } else {
        var n := WordLength(y);
        CollapseWord(y);
        WordsCollapse(y[n..]);
        WordsCons(y[..n], CollapseSpace(y[n..]));
      }
    }
  }

  /** Stripping does not change the words. */
  lemma {:induction false} WordsStrip(z: string)
    ensures Words(Strip(z)) == Words(z)
  {
    var k := LeadingSpace(z);
    var r := Strip(z);
    assert z == z[..k] + (r + z[k + |r|..]);
    WordsPadded(z[..k], r, z[k + |r|..]);
  }

  /** Whitespace around a text adds no words. */
  lemma {:induction false} WordsPadded(a: string, r: string, b: string)
    requires AllSpace(a) && AllSpace(b)
    ensures Words(a + (r + b)) == Words(r)
  {
    WordsSkipSpace(a, r + b);
    WordsTrailingSpace(r, b);
  }

  /** Collapsing and stripping whitespace is joining the words with single spaces. */
  lemma {:induction false} NormalizeSpaceIsJoinedWords(t: string)
    ensures NormalizeSpace(t) == Join(Words(t), " ")
  {
    CanonicalIsJoinedWords(NormalizeSpace(t));
    WordsStrip(CollapseSpace(t));
    WordsCollapse(t);
  }

  /** The whitespace normalisation is idempotent. */
  lemma {:induction false} NormalizeSpaceIdempotent(t: string)
    ensures NormalizeSpace(NormalizeSpace(t)) == NormalizeSpace(t)
  {
    NormalizeSpaceIsJoinedWords(t);
    NormalizeSpaceIsJoinedWords(NormalizeSpace(t));
    WordsAreTokens(t);
    WordsJoin(Words(t));
  }

  /** `clean_text` joins, with single spaces, the words left after honorific removal. */
  lemma {:induction false} CleanTextIsJoinedWords(s: string)
    ensures CleanText(s) == Join(Words(RemoveHonorifics(s, false)), " ")
  {
    NormalizeSpaceIsJoinedWords(RemoveHonorifics(s, false));
  }

  // ---------------------------------------------------------------------------
  // Properties of honorific removal

  lemma {:induction false} SpaceRunAppend(v: string, t: string, i: nat)
    requires i <= |v|
    requires |t| == 0 || !IsSpace(t[0])
    ensures SpaceRunFrom(v + t, i) == SpaceRunFrom(v, i)
    decreases |v| - i
  {
    if i < |v| {
      SpaceRunAppend(v, t, i + 1);
    }
  }

  /** The honorific alternatives are lower-case letters. */
  lemma {:induction false} HonorificLetters(k: nat)
    requires k < |Honorifics|
    ensures forall i :: 0 <= i < |Honorifics[k]| ==> 'a' <= Honorifics[k][i] <= 'z'
  {
  }

  /** A character that folds to a lower-case letter is a word character. */
  lemma {:induction false} FoldsToLetter(c: char)
    requires 'a' <= ToLower(c) <= 'z'
    ensures IsWordChar(c)
  {
  }

  /** Whether alternative `k` matches does not depend on text that follows a
      non-word character when that text does not start with whitespace. */
  lemma {:induction false} AlternativeAppend(v: string, t: string, k: nat)
    requires k < |Honorifics|
    requires |v| > 0 && !IsWordChar(v[|v| - 1])
    requires |t| == 0 || !IsSpace(t[0])
    ensures Alternative(v + t, k) == Alternative(v, k)
  {
    if |Honorifics[k]| < |v| {
      PrefixMatchAppend(v, t, Honorifics[k]);
      DotSpaceEndAppend(v, t, |Honorifics[k]|);
    } else {
      HonorificLetters(k);
      NoMatchAcrossNonWord(v, t, Honorifics[k]);
    }
  }

  /** A match of a pattern shorter than `v` reads only `v`. */
  lemma {:induction false} PrefixMatchAppend(v: string, t: string, h: string)
    requires |h| < |v|
    ensures StartsWithIgnoreCase(v + t, h) == StartsWithIgnoreCase(v, h)
  {
    assert forall i :: 0 <= i < |h| ==> (v + t)[i] == v[i];
  }

  /** The dot-and-whitespace end inside `v` is not moved by text after `v`
      that does not start with whitespace. */
  lemma {:induction false} DotSpaceEndAppend(v: string, t: string, n: nat)
    requires n < |v|
    requires |t| == 0 || !IsSpace(t[0])
    ensures DotSpaceEnd(v + t, n) == DotSpaceEnd(v, n)
  {
    SpaceRunAppend(v, t, n);
    SpaceRunAppend(v, t, n + 1);
    DotSpaceEndSame(v + t, v, n);
  }

  /** The dot-and-whitespace end depends only on the character at `n` and
      the whitespace runs at `n` and after it. */
  lemma {:induction false} DotSpaceEndSame(a: string, b: string, n: nat)
    requires n < |a| && n < |b| && a[n] == b[n]
    requires SpaceRunFrom(a, n) == SpaceRunFrom(b, n) && SpaceRunFrom(a, n + 1) == SpaceRunFrom(b, n + 1)
    ensures DotSpaceEnd(a, n) == DotSpaceEnd(b, n)
  {
    if a[n] == '.' && SpaceRunFrom(a, n + 1) > 0 {
      assert DotSpaceEnd(a, n) == Some(n + 1 + SpaceRunFrom(a, n + 1));
    } else if SpaceRunFrom(a, n) > 0 {
      assert DotSpaceEnd(a, n) == Some(n + SpaceRunFrom(a, n));
    }
  }

  /** A letters-only pattern at least as long as `v` cannot match across
      the non-word character that ends `v`. */
  lemma {:induction false} NoMatchAcrossNonWord(v: string, t: string, h: string)
    requires |v| > 0 && !IsWordChar(v[|v| - 1]) && |v| <= |h|
    requires forall i :: 0 <= i < |h| ==> 'a' <= h[i] <= 'z'
    ensures !StartsWithIgnoreCase(v + t, h) && !StartsWithIgnoreCase(v, h)
  {
    var c := v[|v| - 1];
    assert ToLower(c) != h[|v| - 1] by {
      if 'a' <= ToLower(c) <= 'z' { FoldsToLetter(c); }
    }
    assert (v + t)[|v| - 1] == c;
  }

  /** Text after a non-word character that does not start with whitespace
      cannot take part in a match that starts before it. */
  lemma {:induction false} AlternativesAppend(v: string, t: string, k: nat)
    requires |v| > 0 && !IsWordChar(v[|v| - 1])
    requires |t| == 0 || !IsSpace(t[0])
    ensures AlternativesFrom(v + t, k) == AlternativesFrom(v, k)
  {
    forall i | 0 <= i < |Honorifics| ensures Alternative(v + t, i) == Alternative(v, i) {
      AlternativeAppend(v, t, i);
    }
    AlternativesSame(v + t, v, k);
  }

  /** Texts on which every alternative ends at the same place match alike. */
  lemma {:induction false} AlternativesSame(a: string, b: string, k: nat)
    requires forall i :: 0 <= i < |Honorifics| ==> Alternative(a, i) == Alternative(b, i)
    ensures AlternativesFrom(a, k) == AlternativesFrom(b, k)
    decreases |Honorifics| - k
  {
    if k < |Honorifics| {
      AlternativesSame(a, b, k + 1);
      AlternativesStep(a, k);
      AlternativesStep(b, k);
    }
  }

  /** The alternatives are tried in order: the first that matches decides. */
  lemma {:induction false} AlternativesStep(s: string, k: nat)
    requires k < |Honorifics|
    ensures AlternativesFrom(s, k) == if Alternative(s, k).Some? then Alternative(s, k) else AlternativesFrom(s, k + 1)
  {
  }

  lemma {:induction false} DropAppend(u: string, t: string, n: nat)
    requires n <= |u|
    ensures (u + t)[n..] == u[n..] + t
  {
  }

  lemma {:induction false} ConsAppend(c: char, a: string, b: string)
    ensures [c] + (a + b) == ([c] + a) + b
  {
  }

  /** One step of the left-to-right scan, given the match found at the front. */
  lemma {:induction false} RemoveHonorificsStep(s: string, afterWord: bool, m: Option<nat>)
    requires |s| > 0 && m == HonorificMatch(s, afterWord)
    ensures m.Some? ==> m.value <= |s| && RemoveHonorifics(s, afterWord) == RemoveHonorifics(s[m.value..], false)
    ensures m.None? ==> RemoveHonorifics(s, afterWord) == [s[0]] + RemoveHonorifics(s[1..], IsWordChar(s[0]))
  {
  }

  /** Honorific removal works piecewise across a boundary that follows a
      non-word character and is not followed by whitespace. */
  lemma {:induction false} RemoveHonorificsAppend(u: string, t: string, afterWord: bool)
    requires |u| == 0 ==> !afterWord
    requires |u| > 0 ==> !IsWordChar(u[|u| - 1])
    requires |t| == 0 || !IsSpace(t[0])
    ensures RemoveHonorifics(u + t, afterWord) == RemoveHonorifics(u, afterWord) + RemoveHonorifics(t, false)
    decreases |u|
  {
    if |u| == 0 {
      assert u + t == t;
    } else {
      var m := HonorificMatch(u, afterWord);
      HonorificMatchAppend(u, t, afterWord);
      var n := if m.Some? then m.value else 1;
      var w := m.None? && IsWordChar(u[0]);
      var rest := u[n..];
      RestEndsNonWord(u, n, rest, w);
      RemoveHonorificsAppend(rest, t, w);
      if m.Some? {
        AppendMatched(u, t, afterWord, n);
      } else {
        AppendUnmatched(u, t, afterWord);
      }
    }
  }

  /** The step of `RemoveHonorificsAppend` when a match starts the text. */
  lemma {:induction false} AppendMatched(u: string, t: string, afterWord: bool, n: nat)
    requires 0 < n <= |u|
    requires HonorificMatch(u + t, afterWord) == Some(n) && HonorificMatch(u, afterWord) == Some(n)
    requires RemoveHonorifics(u[n..] + t, false) == RemoveHonorifics(u[n..], false) + RemoveHonorifics(t, false)
    ensures RemoveHonorifics(u + t, afterWord) == RemoveHonorifics(u, afterWord) + RemoveHonorifics(t, false)
  {
    RemoveHonorificsStep(u + t, afterWord, Some(n));
    RemoveHonorificsStep(u, afterWord, Some(n));
    DropAppend(u, t, n);
  }

  /** Text after `u` that does not start with whitespace does not change the
      honorific match at the front of `u`. */
  lemma {:induction false} HonorificMatchAppend(u: string, t: string, afterWord: bool)
    requires |u| > 0 && !IsWordChar(u[|u| - 1])
    requires |t| == 0 || !IsSpace(t[0])
    ensures HonorificMatch(u + t, afterWord) == HonorificMatch(u, afterWord)
  {
    if !afterWord { AlternativesAppend(u, t, 0); }
  }

  /** What is left of `u` after the step still ends in a non-word character,
      and is only empty when the step did not pass a word character. */
  lemma {:induction false} RestEndsNonWord(u: string, n: nat, rest: string, w: bool)
    requires 0 < n <= |u| && !IsWordChar(u[|u| - 1]) && rest == u[n..]
    requires w ==> n == 1 && IsWordChar(u[0])
    ensures |rest| < |u|
    ensures |rest| == 0 ==> !w
    ensures |rest| > 0 ==> !IsWordChar(rest[|rest| - 1])
  {
    if |rest| > 0 {
      assert rest[|rest| - 1] == u[|u| - 1];
    }
  }

  /** The step of `RemoveHonorificsAppend` when no match starts the text. */
  lemma {:induction false} AppendUnmatched(u: string, t: string, afterWord: bool)
    requires 0 < |u|
    requires HonorificMatch(u + t, afterWord).None? && HonorificMatch(u, afterWord).None?
    requires RemoveHonorifics(u[1..] + t, IsWordChar(u[0]))
          == RemoveHonorifics(u[1..], IsWordChar(u[0])) + RemoveHonorifics(t, false)
    ensures RemoveHonorifics(u + t, afterWord) == RemoveHonorifics(u, afterWord) + RemoveHonorifics(t, false)
  {
    var s := u + t;
    RemoveHonorificsStep(s, afterWord, None);
    RemoveHonorificsStep(u, afterWord, None);
    DropAppend(u, t, 1);
    assert s[0] == u[0];
    ConsAppend(u[0], RemoveHonorifics(u[1..], IsWordChar(u[0])), RemoveHonorifics(t, false));
  }

  /** Alternatives that all fail before the `k`-th hand the match on to it. */
  lemma {:induction false} AlternativesSkip(s: string, j: nat, k: nat)
    requires j <= k < |Honorifics|
    requires forall i :: j <= i < k ==> Alternative(s, i).None?
    ensures AlternativesFrom(s, j) == AlternativesFrom(s, k)
    decreases k - j
  {
    if j < k {
      AlternativesStep(s, j);
      AlternativesSkip(s, j + 1, k);
    }
  }

  /** After an honorific (any case), an optional dot and whitespace, the
      match ends where the whitespace ends. */
  lemma {:induction false} DotSpaceAfterHonorific(h: string, dot: string, w: string, r: string)
    requires dot == "" || dot == "."
    requires |w| > 0 && AllSpace(w)
    requires |r| == 0 || !IsSpace(r[0])
    ensures DotSpaceEnd(h + dot + w + r, |h|) == Some(|h| + |dot| + |w|)
  {
    var s := h + dot + w + r;
    var n := |h| + |dot|;
    assert s[n..] == w + r;
    assert SpaceRunFrom(s, n) == |w| by {
      assert forall j :: n <= j < n + |w| ==> s[j] == w[j - n];
      assert n + |w| < |s| ==> s[n + |w|] == r[0];
    }
    if dot == "" {
      assert s[|h|] == w[0];
    } else {
      assert s[|h|] == '.';
    }
  }

  /** Each alternative, when it matches, is the one the engine reports:
      the alternatives tried before it fail on a letter, or, for `mr` in
      front of `mrs`, because no dot or whitespace follows the `r`. */
  lemma {:induction false} AlternativeWins(s: string, k: nat)
    requires k < |Honorifics|
    requires StartsWithIgnoreCase(s, Honorifics[k]) && DotSpaceEnd(s, |Honorifics[k]|).Some?
    ensures AlternativesFrom(s, 0) == DotSpaceEnd(s, |Honorifics[k]|)
  {
    if k == 1 {
      MsWins(s);
    } else if k == 2 {
      MrsWins(s);
    } else if k > 2 {
      NotMWins(s, k);
    }
  }

  lemma {:induction false} MsWins(s: string)
    requires StartsWithIgnoreCase(s, "ms")
    ensures AlternativesFrom(s, 0) == AlternativesFrom(s, 1)
  {
    assert ToLower(s[1]) == 's';
    AlternativesSkip(s, 0, 1);
  }

  lemma {:induction false} MrsWins(s: string)
    requires StartsWithIgnoreCase(s, "mrs")
    ensures AlternativesFrom(s, 0) == AlternativesFrom(s, 2)
  {
    assert ToLower(s[2]) == 's';
    assert SpaceRunFrom(s, 2) == 0;
    assert DotSpaceEnd(s, 2).None?;
    assert ToLower(s[1]) == 'r';
    AlternativesSkip(s, 0, 2);
  }

  lemma {:induction false} NotMWins(s: string, k: nat)
    requires 3 <= k < |Honorifics| && StartsWithIgnoreCase(s, Honorifics[k])
    ensures AlternativesFrom(s, 0) == AlternativesFrom(s, k)
  {
    var c := ToLower(s[0]);
    assert c == 'd' || c == 'p';
    AlternativesSkip(s, 0, k);
  }

  /** An honorific in any case, with an optional dot and followed by
      whitespace, is matched in full. */
  lemma {:induction false} HonorificMatchesWhole(h: string, dot: string, w: string, r: string)
    requires Lower(h) in Honorifics
    requires dot == "" || dot == "."
    requires |w| > 0 && AllSpace(w)
    requires |r| == 0 || !IsSpace(r[0])
    ensures HonorificMatch(h + dot + w + r, false) == Some(|h| + |dot| + |w|)
  {
    var s := h + dot + w + r;
    var lh := Lower(h);
    DotSpaceAfterHonorific(h, dot, w, r);
    assert forall i :: 0 <= i < |h| ==> ToLower(s[i]) == lh[i] by {
      assert forall i :: 0 <= i < |h| ==> s[i] == h[i];
    }
    var k :| 0 <= k < |Honorifics| && Honorifics[k] == lh;
    AlternativeWins(s, k);
  }

  /** An honorific is removed wherever it stands, not only at the front: at
      the start, or after any non-word character such as a space or a comma. */
  lemma {:induction false} HonorificRemovedAnywhere(u: string, h: string, dot: string, w: string, r: string)
    requires |u| > 0 ==> !IsWordChar(u[|u| - 1])
    requires Lower(h) in Honorifics
    requires dot == "" || dot == "."
    requires |w| > 0 && AllSpace(w)
    requires |r| == 0 || !IsSpace(r[0])
    ensures RemoveHonorifics(u + h + dot + w + r, false)
         == RemoveHonorifics(u, false) + RemoveHonorifics(r, false)
  {
    var t := h + dot + w + r;
    assert u + h + dot + w + r == u + t;
    assert !IsSpace(t[0]) by {
      HonorificStartsWithLetter(h);
      assert t[0] == h[0];
    }
    assert RemoveHonorifics(u + t, false) == RemoveHonorifics(u, false) + RemoveHonorifics(t, false) by {
      RemoveHonorificsAppend(u, t, false);
    }
    HonorificDropped(h, dot, w, r);
  }

  /** An honorific, in any case, starts with a letter. */
  lemma {:induction false} HonorificStartsWithLetter(h: string)
    requires Lower(h) in Honorifics
    ensures |h| > 0 && !IsSpace(h[0])
  {
    var k :| 0 <= k < |Honorifics| && Honorifics[k] == Lower(h);
    HonorificLetters(k);
    assert 'a' <= ToLower(h[0]) <= 'z';
  }

  /** A text that starts with an honorific loses it and keeps the rest. */
  lemma {:induction false} HonorificDropped(h: string, dot: string, w: string, r: string)
    requires Lower(h) in Honorifics
    requires dot == "" || dot == "."
    requires |w| > 0 && AllSpace(w)
    requires |r| == 0 || !IsSpace(r[0])
    ensures RemoveHonorifics(h + dot + w + r, false) == RemoveHonorifics(r, false)
  {
    var t := h + dot + w + r;
    var n := |h| + |dot| + |w|;
    assert t[n..] == r by {
      assert t == (h + dot + w) + r;
    }
    assert HonorificMatch(t, false) == Some(n) by {
      HonorificMatchesWhole(h, dot, w, r);
    }
    RemoveHonorificsStep(t, false, Some(n));
  }

  // ---------------------------------------------------------------------------
  // Owner name and position of a raw contact string

  /** The name searched for: the cleaned text before the first comma. */
  function OwnerName(raw: string): (name: string)
    ensures Canonical(name)
  {
    CleanText(SplitOn(raw, ",")[0])
  }

  /** The position: the stripped text after the last comma, or `None` when
      there is no comma. */
  function Position(raw: string): (p: Option<string>)
    ensures p.None? <==> ',' !in raw
    ensures p.Some? ==> ',' !in p.value
    ensures p.Some? ==> |p.value| == 0 || (!IsSpace(p.value[0]) && !IsSpace(p.value[|p.value| - 1]))
  {
    var parts := SplitOn(raw, ",");
    SplitOnCharCount(raw, ',');
    SplitOnCharPieces(raw, ',');
    if |parts| >= 2 then
      var last := parts[|parts| - 1];
      StripKeepsOut(last, ',');
      Some(Strip(last))
    else None
  }

  /** The name is taken from the text before the FIRST comma. */
  lemma {:induction false} OwnerNameBeforeFirstComma(a: string, rest: string)
    requires ',' !in a
    requires |rest| == 0 || rest[0] == ','
    ensures OwnerName(a + rest) == CleanText(a)
  {
    if |rest| == 0 {
      assert a + rest == a;
      SplitOnNoSep(a, ",");
    } else {
      assert a + rest == a + "," + rest[1..];
      SplitOnFirst(a, ",", rest[1..]);
    }
  }

  /** Splitting on a character: the text after the last occurrence is the last piece. */
  lemma {:induction false} SplitOnLastPiece(s: string, c: char, x: string)
    requires c !in x
    ensures SplitOn(s + [c] + x, [c]) == SplitOn(s, [c]) + [x]
    decreases |s|
  {
    var t := s + [c] + x;
    if |s| == 0 {
      assert t == [c] + x;
      assert t[..1] == [c];
      SplitOnNoSep(x, [c]);
    } else {
      assert t[..1] == s[..1];
      assert t[1..] == s[1..] + [c] + x;
      SplitOnLastPiece(s[1..], c, x);
    }
  }

  /** The position is taken from the text after the LAST comma. */
  lemma {:induction false} PositionAfterLastComma(pre: string, x: string)
    requires ',' !in x
    ensures Position(pre + "," + x) == Some(Strip(x))
  {
    SplitOnLastPiece(pre, ',', x);
  }

  /** "Roderick Mays, Owner" gives the name "Roderick Mays". */
  lemma {:induction false} RoderickMaysName()
    ensures OwnerName("Roderick Mays, Owner") == "Roderick Mays"
  {
    assert "Roderick Mays, Owner" == "Roderick Mays" + ", Owner";
    OwnerNameBeforeFirstComma("Roderick Mays", ", Owner");
    PlainNameKept();
  }

  /** "Roderick Mays, Owner" gives the position "Owner". */
  lemma {:induction false} RoderickMaysPosition(raw: string)
    requires raw == "Roderick Mays, Owner"
    ensures Position(raw) == Some("Owner")
  {
    var x := " Owner";
    assert raw == "Roderick Mays" + "," + x;
    assert Strip(x) == "Owner" by {
      StripPadded(" ", "Owner", "");
      assert " " + "Owner" + "" == x;
    }
    PositionAfterLastComma("Roderick Mays", x);
  }

  /** "Roderick Mays" has no honorific and is already canonical. */
  lemma {:induction false} PlainNameKept()
    ensures CleanText("Roderick Mays") == "Roderick Mays"
  {
    var s := "Roderick Mays";
    PlainNameNoHonorific();
    NormalizeSpaceIsJoinedWords(s);
    PlainNameWords();
  }

  lemma {:induction false} PlainNameNoHonorific()
    ensures RemoveHonorifics("Roderick Mays", false) == "Roderick Mays"
  {
    var s := "Roderick Mays";
    forall i | 0 <= i < |s|
      ensures HonorificMatch(s[i..], if i == 0 then false else IsWordChar(s[i - 1])).None?
    {
      if i == 0 {
        NoHonorificAt(s);
      } else if i == 9 {
        NoHonorificAt(s[9..]);
      } else {
        assert IsWordChar(s[i - 1]);
      }
    }
    RemoveHonorificsNoMatch(s, false);
  }

  lemma {:induction false} PlainNameWords()
    ensures Join(Words("Roderick Mays"), " ") == "Roderick Mays"
  {
    var ts := ["Roderick", "Mays"];
    assert Join(ts, " ") == "Roderick Mays" by {
      assert ts[1..] == ["Mays"];
    }
    assert NoSpace(ts[0]) && NoSpace(ts[1]);
    WordsJoin(ts);
  }

  /** A text with no match at any position is left as it is. */
  lemma {:induction false} RemoveHonorificsNoMatch(s: string, afterWord: bool)
    requires forall i :: 0 <= i < |s| ==>
      HonorificMatch(s[i..], if i == 0 then afterWord else IsWordChar(s[i - 1])).None?
    ensures RemoveHonorifics(s, afterWord) == s
    decreases |s|
  {
    if |s| > 0 {
      assert s[0..] == s;
      var t := s[1..];
      forall i | 0 <= i < |t|
        ensures HonorificMatch(t[i..], if i == 0 then IsWordChar(s[0]) else IsWordChar(t[i - 1])).None?
      {
        assert t[i..] == s[i + 1..];
      }
      RemoveHonorificsNoMatch(t, IsWordChar(s[0]));
    }
  }

  /** No alternative from the `j`-th on has its letters at the front. */
  lemma {:induction false} AlternativesNone(s: string, j: nat)
    requires forall i :: j <= i < |Honorifics| ==> !StartsWithIgnoreCase(s, Honorifics[i])
    ensures AlternativesFrom(s, j).None?
    decreases |Honorifics| - j
  {
    if j < |Honorifics| {
      AlternativesNone(s, j + 1);
    }
  }

  /** No honorific starts a text whose first two letters are not those of one. */
  lemma {:induction false} NoHonorificAt(s: string)
    requires |s| >= 2
    requires ToLower(s[0]) != 'd' && ToLower(s[0]) != 'p'
    requires ToLower(s[0]) == 'm' ==> ToLower(s[1]) != 'r' && ToLower(s[1]) != 's'
    ensures HonorificMatch(s, false).None?
  {
    forall i | 0 <= i < |Honorifics|
      ensures !StartsWithIgnoreCase(s, Honorifics[i])
    {
      var h := Honorifics[i];
      assert h[0] == 'd' || h[0] == 'p' || (h[0] == 'm' && (h[1] == 'r' || h[1] == 's'));
    }
    AlternativesNone(s, 0);
  }

  // ---------------------------------------------------------------------------
  // Search slugs

  /** The `find_text` parameter: the words of the query joined by `+`. */
  function KeywordsParam(keywords: string): string {
    Join(Words(keywords), "+")
  }

  /** The `find_loc` parameter: the words of the location joined by `%20`. */
  function LocationParam(location: string): string {
    Join(Words(location), "%20")
  }

  /** The `name` of the people search: the words joined by `-`, lower-cased. */
  function NameSlug(fullname: string): string {
    Lower(Join(Words(fullname), "-"))
  }

  /** The three slugs contain no whitespace. */
  lemma {:induction false} SlugsHaveNoSpace(s: string)
    ensures NoSpace(KeywordsParam(s))
    ensures NoSpace(LocationParam(s))
    ensures NoSpace(NameSlug(s))
  {
    WordsAreTokens(s);
    JoinNoSpace(Words(s), "+");
    JoinNoSpace(Words(s), "%20");
    JoinNoSpace(Words(s), "-");
    var j := Join(Words(s), "-");
    assert forall i :: 0 <= i < |j| ==> !IsSpace(ToLower(j[i]));
  }

  /** Splitting the keyword parameter on `+` gives back the words of the
      query, when there is a word and none of them contains `+`. */
  lemma {:induction false} KeywordsParamRoundTrip(s: string)
    requires |Words(s)| > 0
    requires forall i :: 0 <= i < |Words(s)| ==> '+' !in Words(s)[i]
    ensures SplitOn(KeywordsParam(s), "+") == Words(s)
  {
    SplitJoin(Words(s), "+");
  }

  /** Splitting the location parameter on `%20` gives back the words of the
      location, when there is a word and none of them contains `%`. */
  lemma {:induction false} LocationParamRoundTrip(s: string)
    requires |Words(s)| > 0
    requires forall i :: 0 <= i < |Words(s)| ==> '%' !in Words(s)[i]
    ensures SplitOn(LocationParam(s), "%20") == Words(s)
  {
    SplitJoin(Words(s), "%20");
  }

  function LowerAll(ts: seq<string>): (r: seq<string>)
    ensures |r| == |ts| && forall i :: 0 <= i < |ts| ==> r[i] == Lower(ts[i])
  {
    seq(|ts|, i requires 0 <= i < |ts| => Lower(ts[i]))
  }

  lemma {:induction false} LowerJoin(ts: seq<string>, sep: string)
    requires Lower(sep) == sep
    ensures Lower(Join(ts, sep)) == Join(LowerAll(ts), sep)
  {
    if |ts| > 1 {
      LowerJoin(ts[1..], sep);
      assert LowerAll(ts)[1..] == LowerAll(ts[1..]);
      assert Lower(ts[0] + sep + Join(ts[1..], sep)) == Lower(ts[0]) + sep + Lower(Join(ts[1..], sep));
    }
  }

  /** Splitting the people-search slug on `-` gives back the lower-cased
      words of the name, when there is a word and none contains `-`. */
  lemma {:induction false} NameSlugRoundTrip(s: string)
    requires |Words(s)| > 0
    requires forall i :: 0 <= i < |Words(s)| ==> '-' !in Words(s)[i]
    ensures SplitOn(NameSlug(s), "-") == LowerAll(Words(s))
  {
    LowerJoin(Words(s), "-");
    var lw := LowerAll(Words(s));
    forall i | 0 <= i < |lw|
      ensures '-' !in lw[i]
    {
      var w := Words(s)[i];
      assert forall j :: 0 <= j < |w| ==> lw[i][j] == ToLower(w[j]) && w[j] != '-';
    }
    SplitJoin(lw, "-");
  }

  // ---------------------------------------------------------------------------
  // Zip code and person id

  /** The zip code: the last token of the address up to its first `-`;
      `None` where Python raises `IndexError` because the address has no token. */
  function ZipCode(address: string): (z: Option<string>)
    ensures z.None? <==> |Words(address)| == 0
    ensures z.Some? ==> NoSpace(z.value) && '-' !in z.value
    ensures z.Some? ==> var last := Words(address)[|Words(address)| - 1];
      |z.value| <= |last| && z.value == last[..|z.value|]
    ensures z.Some? ==> var last := Words(address)[|Words(address)| - 1];
      |z.value| == |last| || last[|z.value|] == '-'
  {
    var ws := Words(address);
    if |ws| == 0 then None
    else
      var last := ws[|ws| - 1];
      WordsAreTokens(address);
      var parts := SplitOn(last, "-");
      SplitOnCharPieces(last, '-');
      var zip := parts[0];
      assert last == zip + (if |parts| > 1 then "-" + Join(parts[1..], "-") else "");
      assert zip == last[..|zip|];
      assert NoSpace(last);
      assert forall i :: 0 <= i < |zip| ==> zip[i] == last[i];
      assert |parts| > 1 ==> last[|zip|] == '-';
      Some(zip)
  }

  lemma {:induction false} WordsAppendAtSpace(x: string, y: string)
    requires |y| == 0 || IsSpace(y[0])
    ensures Words(x + y) == Words(x) + Words(y)
    decreases |x|
  {
    var s := x + y;
    if |x| == 0 {
      assert s == y;
    } else if IsSpace(x[0]) {
      assert s[1..] == x[1..] + y;
      WordsAppendAtSpace(x[1..], y);
    } else {
      var n := WordLength(x);
      assert n > 0;
      WordsAppendAtSpace(x[n..], y);
      WordsAppendFirstWord(x, y, n);
    }
  }

  /** The step of `WordsAppendAtSpace` past the first word of `x`. */
  lemma {:induction false} WordsAppendFirstWord(x: string, y: string, n: nat)
    requires |x| > 0 && !IsSpace(x[0]) && n == WordLength(x)
    requires |y| == 0 || IsSpace(y[0])
    requires Words(x[n..] + y) == Words(x[n..]) + Words(y)
    ensures Words(x + y) == Words(x) + Words(y)
  {
    var s := x + y;
    assert WordLength(s) == n by {
      WordLengthAppend(x, y);
    }
    AppendSlices(x, y, n);
    assert s[0] == x[0];
    assert Words(s) == [x[..n]] + Words(x[n..] + y);
    assert Words(x) == [x[..n]] + Words(x[n..]);
    AppendAssoc([x[..n]], Words(x[n..]), Words(y));
  }

  /** The zip code is the last token of the address, cut at its first `-`. */
  lemma {:induction false} ZipCodeOfLastToken(prefix: string, zip: string, ext: string, tail: string)
    requires |zip| > 0 && NoSpace(zip) && '-' !in zip
    requires NoSpace(ext) && (|ext| == 0 || ext[0] == '-')
    requires AllSpace(tail)
    ensures ZipCode(prefix + " " + zip + ext + tail) == Some(zip)
  {
    var tok := zip + ext;
    NoSpaceAppend(zip, ext);
    assert prefix + " " + zip + ext + tail == prefix + (" " + (tok + tail));
    WordsEndWithToken(prefix, tok, tail);
    ZipOfToken(zip, ext);
  }

  lemma {:induction false} NoSpaceAppend(a: string, b: string)
    requires NoSpace(a) && NoSpace(b)
    ensures NoSpace(a + b)
  {
    assert forall i :: 0 <= i < |a + b| ==> (a + b)[i] == (if i < |a| then a[i] else b[i - |a|]);
  }

  /** A token after a space and before trailing whitespace is the last word. */
  lemma {:induction false} WordsEndWithToken(prefix: string, tok: string, tail: string)
    requires |tok| > 0 && NoSpace(tok) && AllSpace(tail)
    ensures Words(prefix + (" " + (tok + tail))) == Words(prefix) + [tok]
  {
    WordsAppendAtSpace(prefix, " " + (tok + tail));
    WordsSkipSpace(" ", tok + tail);
    WordsCons(tok, tail);
    WordsSkipSpace(tail, []);
    assert tail + [] == tail;
  }

  /** The first `-`-separated piece of a token with a dash-led extension is
      the part before the extension. */
  lemma {:induction false} ZipOfToken(zip: string, ext: string)
    requires |zip| > 0 && '-' !in zip
    requires |ext| == 0 || ext[0] == '-'
    ensures SplitOn(zip + ext, "-")[0] == zip
  {
    if |ext| == 0 {
      assert zip + ext == zip;
      SplitOnNoSep(zip, "-");
    } else {
      assert zip + ext == zip + "-" + ext[1..];
      SplitOnFirst(zip, "-", ext[1..]);
    }
  }


  /** "Las Vegas, NV 89101-1234" has the zip code "89101". */
  lemma {:induction false} LasVegasZip()
    ensures ZipCode("Las Vegas, NV 89101-1234") == Some("89101")
  {
    assert "Las Vegas, NV 89101-1234" == "Las Vegas, NV" + " " + "89101" + "-1234" + "";
    ZipCodeOfLastToken("Las Vegas, NV", "89101", "-1234", "");
  }

  /** The person id: what follows the last `/` of a profile URL. */
  function PersonId(url: string): (id: string)
    ensures '/' !in id
    ensures |id| <= |url| && id == url[|url| - |id|..]
    ensures |id| == |url| || url[|url| - |id| - 1] == '/'
  {
    var parts := SplitOn(url, "/");
    SplitOnCharPieces(url, '/');
    var last := parts[|parts| - 1];
    var front := Join(parts[..|parts| - 1], "/") + (if |parts| > 1 then "/" else "");
    assert url == front + last by {
      JoinLast(parts, "/");
    }
    assert url[|front|..] == last;
    assert |parts| > 1 ==> url[|front| - 1] == '/';
    last
  }

  lemma {:induction false} JoinLast(ts: seq<string>, sep: string)
    requires |ts| > 0
    ensures Join(ts, sep) == Join(ts[..|ts| - 1], sep) + (if |ts| > 1 then sep else "") + ts[|ts| - 1]
  {
    if |ts| > 1 {
      JoinLast(ts[1..], sep);
      assert ts[1..][..|ts| - 2] == ts[1..|ts| - 1];
      if |ts| > 2 {
        assert ts[..|ts| - 1][1..] == ts[1..|ts| - 1];
      }
    }
  }

  /** The id of `base + "/" + id` is `id` when `id` has no `/`. */
  lemma {:induction false} PersonIdOfProfileUrl(base: string, id: string)
    requires '/' !in id
    ensures PersonId(base + "/" + id) == id
  {
    SplitOnLastPiece(base, '/', id);
  }
}
