/** The Python `str` operations the two scripts rely on, on `string` values:
    `isspace`, `lstrip`/`rstrip`/`strip`, `startswith`, the `in` substring
    test, `split()` with no argument, `replace`, and `str` of a natural number. */
module PyStrings {

  /** Python's `str.isspace` on one character: the ASCII controls TAB to CR,
      the four separators FS, GS, RS, US, the space, and the Unicode
      space and line/paragraph separator characters. */
  predicate IsSpace(c: char) {
    ('\t' <= c <= '\r') || ('\U{1C}' <= c <= '\U{1F}') || c == ' '
    || c == '\U{85}' || c == '\U{A0}' || c == '\U{1680}'
    || ('\U{2000}' <= c <= '\U{200A}') || c == '\U{2028}' || c == '\U{2029}'
    || c == '\U{202F}' || c == '\U{205F}' || c == '\U{3000}'
  }

  /** `s.lstrip()`: the longest prefix of white space is removed. */
  function LStrip(s: string): (r: string)
    ensures |r| <= |s|
    ensures r == [] || !IsSpace(r[0])
  {
    if s != [] && IsSpace(s[0]) then LStrip(s[1..]) else s
  }

  /** `LStrip` removes a prefix that is all white space, and nothing more. */
  lemma {:induction false} LStripSpec(s: string)
    ensures LStrip(s) == s[|s| - |LStrip(s)|..]
    ensures forall k :: 0 <= k < |s| - |LStrip(s)| ==> IsSpace(s[k])
  {
    if s != [] && IsSpace(s[0]) {
      LStripSpec(s[1..]);
      forall k | 1 <= k < |s| - |LStrip(s)|
        ensures IsSpace(s[k])
      {
        assert s[k] == s[1..][k - 1];
      }
    }
  }

  /** `s.rstrip()`: the longest suffix of white space is removed. */
  function RStrip(s: string): (r: string)
    ensures |r| <= |s|
    ensures r == [] || !IsSpace(r[|r| - 1])
  {
    if s != [] && IsSpace(s[|s| - 1]) then RStrip(s[..|s| - 1]) else s
  }

  /** `RStrip` removes a suffix that is all white space, and nothing more. */
  lemma {:induction false} RStripSpec(s: string)
    ensures RStrip(s) == s[..|RStrip(s)|]
    ensures forall k :: |RStrip(s)| <= k < |s| ==> IsSpace(s[k])
  {
    if s != [] && IsSpace(s[|s| - 1]) {
      var init := s[..|s| - 1];
      RStripSpec(init);
      assert RStrip(s) == RStrip(init);
      assert init[..|RStrip(init)|] == s[..|RStrip(init)|];
      forall k | |RStrip(s)| <= k < |s| - 1
        ensures IsSpace(s[k])
      {
        assert s[k] == init[k];
      }
    }
  }

  /** `s.strip()`. */
  function Strip(s: string): (r: string)
    ensures |r| <= |s|
    ensures r == [] || (!IsSpace(r[0]) && !IsSpace(r[|r| - 1]))
  {
    var t := LStrip(s);
    RStripSpec(t);
    assert RStrip(t) != [] ==> RStrip(t)[0] == t[0];
    RStrip(t)
  }

  /** Stripping twice is stripping once: `replace_line` stores `text.lstrip()`,
      so storing a line that is already stripped changes nothing. */
  lemma LStripIdempotent(s: string)
    ensures LStrip(LStrip(s)) == LStrip(s)
  {
  }

  /** A line without leading white space is its own `lstrip()`. */
  lemma LStripNoLeadingSpace(s: string)
    requires s == [] || !IsSpace(s[0])
    ensures LStrip(s) == s
  {
  }

  /** `s.startswith(p)`. */
  predicate StartsWith(s: string, p: string) {
    |p| <= |s| && s[..|p|] == p
  }

  /** `p in s`: some position of `s` starts an occurrence of `p`. */
  predicate Contains(s: string, p: string)
    decreases |s|
  {
    StartsWith(s, p) || (s != [] && Contains(s[1..], p))
  }

  /** The maximal run of non-space characters at the start of `s`. */
  function Word(s: string): (w: string)
    ensures |w| <= |s|
    ensures s != [] && !IsSpace(s[0]) ==> w != []
  {
    if s == [] || IsSpace(s[0]) then [] else [s[0]] + Word(s[1..])
  }

  /** `Word` is a prefix of non-space characters that stops at white space
      or at the end of `s`. */
  lemma {:induction false} WordSpec(s: string)
    ensures Word(s) == s[..|Word(s)|]
    ensures forall k :: 0 <= k < |Word(s)| ==> !IsSpace(s[k])
    ensures |Word(s)| < |s| ==> IsSpace(s[|Word(s)|])
  {
    if s != [] && !IsSpace(s[0]) {
      var tail := s[1..];
      WordSpec(tail);
      assert Word(s) == [s[0]] + Word(tail);
      forall k | 1 <= k < |Word(s)|
        ensures !IsSpace(s[k])
      {
        assert s[k] == tail[k - 1];
      }
      if |Word(s)| < |s| {
        assert s[|Word(s)|] == tail[|Word(tail)|];
      }
    }
  }

  /** The first word of `s` ends at the first white space. */
  lemma WordUpTo(s: string, m: nat)
    requires m <= |s| && (forall k :: 0 <= k < m ==> !IsSpace(s[k])) && (m < |s| ==> IsSpace(s[m]))
    ensures Word(s) == s[..m]
  {
    WordSpec(s);
  }

  /** `s.split()`: the maximal runs of non-space characters, in order. */
  function Tokens(s: string): (r: seq<string>)
    ensures forall k :: 0 <= k < |r| ==> r[k] != []
    decreases |s|
  {
    var t := LStrip(s);
    if t == [] then []
    else
      var w := Word(t);
      [w] + Tokens(t[|w|..])
  }

  /** Leading white space does not change the fields of a line. */
  lemma TokensOfStripped(s: string)
    ensures Tokens(s) == Tokens(LStrip(s))
  {
    LStripIdempotent(s);
  }

  /** An occurrence at position `i` is an occurrence. */
  lemma {:induction false} ContainsAt(s: string, pat: string, i: nat)
    requires MatchesAt(s, pat, i)
    ensures Contains(s, pat)
    decreases i
  {
    if i == 0 {
      assert s[0..] == s;
    } else {
      assert s[1..][i - 1..] == s[i..];
      ContainsAt(s[1..], pat, i - 1);
    }
  }

  /** What occurs in a suffix of `s` occurs in `s`. */
  lemma {:induction false} ContainsInSuffix(s: string, pat: string, i: nat)
    requires i <= |s| && Contains(s[i..], pat)
    ensures Contains(s, pat)
    decreases i
  {
    if i == 0 {
      assert s[0..] == s;
    } else {
      assert s[1..][i - 1..] == s[i..];
      ContainsInSuffix(s[1..], pat, i - 1);
    }
  }

  /** `x` holds no white space. */
  predicate SpaceFree(x: string) {
    forall c :: c in x ==> !IsSpace(c)
  }

  /** The fields `split()` returns hold no white space. */
  lemma {:induction false} TokensSpaceFree(s: string)
    ensures forall k :: 0 <= k < |Tokens(s)| ==> SpaceFree(Tokens(s)[k])
    decreases |s|
  {
    if Tokens(s) != [] {
      var a := FirstFieldPosition(s);
      var w := Tokens(s)[0];
      var rest := s[a + |w|..];
      TokensSpaceFree(rest);
      forall c | c in w
        ensures !IsSpace(c)
      {
        var i :| 0 <= i < |w| && w[i] == c;
      }
      forall k | 0 < k < |Tokens(s)|
        ensures SpaceFree(Tokens(s)[k])
      {
        assert Tokens(s)[k] == Tokens(rest)[k - 1];
      }
    }
  }

  /** Each field `split()` returns occurs in `s`. */
  lemma {:induction false} TokensOccur(s: string)
    ensures forall k :: 0 <= k < |Tokens(s)| ==> Contains(s, Tokens(s)[k])
    decreases |s|
  {
    if Tokens(s) != [] {
      var a := FirstFieldPosition(s);
      var w := Tokens(s)[0];
      var rest := s[a + |w|..];
      TokensOccur(rest);
      FieldOccurs(s, a, w);
      AllOccurInSuffix(s, a + |w|, Tokens(rest));
    }
  }

  /** A field occurs in its line. */
  lemma FieldOccurs(s: string, a: nat, w: string)
    requires FieldAt(s, a, w)
    ensures Contains(s, w)
  {
    assert s[a..][..|w|] == w;
    ContainsAt(s, w, a);
  }

  /** What occurs in a suffix of `s` occurs in `s`, for every element of `ts`. */
  lemma AllOccurInSuffix(s: string, i: nat, ts: seq<string>)
    requires i <= |s| && forall k :: 0 <= k < |ts| ==> Contains(s[i..], ts[k])
    ensures forall k :: 0 <= k < |ts| ==> Contains(s, ts[k])
  {
    forall k | 0 <= k < |ts|
      ensures Contains(s, ts[k])
    {
      ContainsInSuffix(s, ts[k], i);
    }
  }



  /** `s.replace(pat, rep)`: the occurrences of `pat` found scanning from
      the left, without overlap, each replaced by `rep`. */
  function Replace(s: string, pat: string, rep: string): string
    requires pat != []
    decreases |s|
  {
    if |s| < |pat| then s
    else if s[..|pat|] == pat then rep + Replace(s[|pat|..], pat, rep)
    else [s[0]] + Replace(s[1..], pat, rep)
  }

  /** The number of occurrences `Replace` rewrites. */
  function Count(s: string, pat: string): nat
    requires pat != []
    decreases |s|
  {
    if |s| < |pat| then 0
    else if s[..|pat|] == pat then 1 + Count(s[|pat|..], pat)
    else Count(s[1..], pat)
  }

  /** One step of the scan of `Replace` and `Count`. */
  lemma ReplaceStep(s: string, pat: string, rep: string)
    requires pat != [] && |pat| <= |s|
    ensures StartsWith(s, pat) ==>
      Replace(s, pat, rep) == rep + Replace(s[|pat|..], pat, rep) && Count(s, pat) == 1 + Count(s[|pat|..], pat)
    ensures !StartsWith(s, pat) ==>
      Replace(s, pat, rep) == [s[0]] + Replace(s[1..], pat, rep) && Count(s, pat) == Count(s[1..], pat)
  {
  }

  /** One more occurrence adds one more `d`. */
  lemma MulSucc(c: int, d: int)
    ensures (c + 1) * d == c * d + d
  {
  }

  /** Every rewritten occurrence changes the length by `|rep| - |pat|`. */
  lemma {:induction false} ReplaceLength(s: string, pat: string, rep: string)
    requires pat != []
    ensures |Replace(s, pat, rep)| == |s| + Count(s, pat) * (|rep| - |pat|)
    decreases |s|
  {
    var d := |rep| - |pat|;
    if |s| >= |pat| {
      ReplaceStep(s, pat, rep);
      if StartsWith(s, pat) {
        var t := s[|pat|..];
        ReplaceLength(t, pat, rep);
        var c, lt := Count(t, pat), |Replace(t, pat, rep)|;
        assert lt == |t| + c * d;
        assert |Replace(s, pat, rep)| == |rep| + lt;
        assert Count(s, pat) == c + 1;
        MulSucc(c, d);
      } else {
        ReplaceLength(s[1..], pat, rep);
      }
    }
  }

  /** `Replace` rewrites nothing exactly when `pat` does not occur in `s`. */
  lemma {:induction false} CountZeroIff(s: string, pat: string)
    requires pat != []
    ensures Count(s, pat) == 0 <==> !Contains(s, pat)
    decreases |s|
  {
    if s == [] {
    } else if |s| < |pat| {
      CountZeroIff(s[1..], pat);
    } else if s[..|pat|] == pat {
    } else {
      CountZeroIff(s[1..], pat);
    }
  }

  /** With no occurrence to rewrite, `Replace` returns its input. */
  lemma {:induction false} ReplaceNoMatch(s: string, pat: string, rep: string)
    requires pat != [] && !Contains(s, pat)
    ensures Replace(s, pat, rep) == s
    decreases |s|
  {
    CountZeroIff(s, pat);
    if |s| < |pat| {
    } else {
      assert s[..|pat|] != pat;
      CountZeroIff(s[1..], pat);
      ReplaceNoMatch(s[1..], pat, rep);
    }
  }

  /** A position that does not start `pat` is copied and the scan moves on. */
  lemma ReplaceSkip(s: string, pat: string, rep: string)
    requires pat != [] && |pat| <= |s| && !StartsWith(s, pat)
    ensures Replace(s, pat, rep) == [s[0]] + Replace(s[1..], pat, rep)
  {
  }

  /** An occurrence of `pat` in `s` starts at position `i`. */
  predicate MatchesAt(s: string, pat: string, i: nat) {
    i <= |s| && StartsWith(s[i..], pat)
  }

  /** The first occurrence of `pat` in `s` starts at `p`, stated one
      position at a time. */
  predicate FirstMatchAt(s: string, pat: string, p: nat)
    decreases p
  {
    if p == 0 then StartsWith(s, pat)
    else |pat| <= |s| && !StartsWith(s, pat) && FirstMatchAt(s[1..], pat, p - 1)
  }

  /** A match at `p` with none before it is a first match at `p`. */
  lemma {:induction false} FirstMatchFrom(s: string, pat: string, p: nat)
    requires MatchesAt(s, pat, p) && forall i :: 0 <= i < p ==> !MatchesAt(s, pat, i)
    ensures FirstMatchAt(s, pat, p)
    decreases p
  {
    if p == 0 {
      assert s[0..] == s;
    } else {
      MatchesShift(s, pat, p);
      FirstMatchFrom(s[1..], pat, p - 1);
    }
  }

  /** The scan of `Replace` up to and across the first match at `p`. */
  lemma {:induction false} ReplaceFirst(s: string, pat: string, rep: string, p: nat)
    requires pat != [] && FirstMatchAt(s, pat, p)
    ensures p + |pat| <= |s|
    ensures Replace(s, pat, rep) == s[..p] + rep + Replace(s[p + |pat|..], pat, rep)
    decreases p
  {
    if p == 0 {
      ReplaceStep(s, pat, rep);
    } else {
      var t := s[1..];
      ReplaceFirst(t, pat, rep, p - 1);
      var rest := Replace(t[p - 1 + |pat|..], pat, rep);
      assert t[p - 1 + |pat|..] == s[p + |pat|..];
      ReplaceAfterSkip(s, pat, rep, p, rest);
    }
  }

  /** When the first occurrence of `pat` starts at `p`, everything before `p`
      is kept, that occurrence becomes `rep`, and the scan goes on after it. */
  lemma ReplaceFromFirstMatch(s: string, pat: string, rep: string, p: nat)
    requires pat != [] && MatchesAt(s, pat, p)
    requires forall i :: 0 <= i < p ==> !MatchesAt(s, pat, i)
    ensures Replace(s, pat, rep) == s[..p] + rep + Replace(s[p + |pat|..], pat, rep)
  {
    FirstMatchFrom(s, pat, p);
    ReplaceFirst(s, pat, rep, p);
  }

  /** The position of the first occurrence of `pat` in `s`. */
  function FirstMatchPos(s: string, pat: string): (p: nat)
    requires Contains(s, pat)
    ensures MatchesAt(s, pat, p) && FirstMatchAt(s, pat, p)
    decreases |s|
  {
    if StartsWith(s, pat) then
      assert s[0..] == s;
      0
    else
      var q := FirstMatchPos(s[1..], pat);
      assert s[1..][q..] == s[1 + q..];
      1 + q
  }

  /** A prefix of `a` white-space characters followed by a non-space is
      what `lstrip()` removes. */
  lemma {:induction false} LStripAt(x: string, a: nat)
    requires a <= |x| && (forall k :: 0 <= k < a ==> IsSpace(x[k])) && (a < |x| ==> !IsSpace(x[a]))
    ensures LStrip(x) == x[a..]
    decreases a
  {
    if a == 0 {
      assert x[0..] == x;
    } else {
      assert x[1..][a - 1..] == x[a..];
      LStripAt(x[1..], a - 1);
    }
  }

  /** A pattern without white space that does not occur inside the first
      field of `s` cannot overlap that field, so `replace` keeps the field. */
  lemma ReplaceKeepsFirstToken(s: string, pat: string, rep: string)
    requires Tokens(s) != [] && pat != [] && SpaceFree(pat)
    requires !Contains(Tokens(s)[0], pat)
    ensures Tokens(Replace(s, pat, rep)) != [] && Tokens(Replace(s, pat, rep))[0] == Tokens(s)[0]
  {
    if !Contains(s, pat) {
      ReplaceNoMatch(s, pat, rep);
    } else {
      var p := FirstMatchPos(s, pat);
      var tail := ReplaceCut(s, pat, rep, p);
      ReplaceAfterField(s, pat, p, tail);
    }
  }

  /** `Replace` keeps the text before the first match. */
  lemma ReplaceCut(s: string, pat: string, rep: string, p: nat) returns (tail: string)
    requires pat != [] && FirstMatchAt(s, pat, p)
    ensures p <= |s| && Replace(s, pat, rep) == s[..p] + tail
  {
    ReplaceFirst(s, pat, rep, p);
    tail := rep + Replace(s[p + |pat|..], pat, rep);
  }

  /** A line cut at a match `p` of `pat` and continued by `tail` keeps the
      first field. */
  lemma ReplaceAfterField(s: string, pat: string, p: nat, tail: string)
    requires Tokens(s) != [] && pat != [] && SpaceFree(pat)
    requires !Contains(Tokens(s)[0], pat) && MatchesAt(s, pat, p)
    ensures Tokens(s[..p] + tail) != [] && Tokens(s[..p] + tail)[0] == Tokens(s)[0]
  {
    var a := FirstFieldPosition(s);
    MatchPastField(s, pat, a, Tokens(s)[0], p);
    FirstTokenOfPrefix(s, a, Tokens(s)[0], p, tail);
  }


  /** The field `w` starts at `a` in `s`, after white space only, holds no
      white space, and is followed by white space or the end of `s`. */
  predicate FieldAt(s: string, a: nat, w: string) {
    a + |w| <= |s| && w != []
    && (forall k :: 0 <= k < a ==> IsSpace(s[k]))
    && s[a..a + |w|] == w
    && (forall k :: 0 <= k < |w| ==> !IsSpace(w[k]))
    && (a + |w| < |s| ==> IsSpace(s[a + |w|]))
  }

  /** The first field of `s` is its `Word` when `s` starts with one. */
  lemma FieldAtStart(s: string)
    requires s != [] && !IsSpace(s[0])
    ensures FieldAt(s, 0, Word(s))
  {
    WordSpec(s);
  }

  /** A white-space character in front of a field moves it one to the right. */
  lemma FieldAtShift(s: string, a: nat, w: string)
    requires s != [] && IsSpace(s[0]) && FieldAt(s[1..], a, w)
    ensures FieldAt(s, a + 1, w)
  {
    forall k | 0 <= k < a + 1
      ensures IsSpace(s[k])
    {
      if k > 0 {
        assert s[k] == s[1..][k - 1];
      }
    }
    assert s[1..][a..a + |w|] == s[a + 1..a + 1 + |w|];
    if a + 1 + |w| < |s| {
      assert s[a + 1 + |w|] == s[1..][a + |w|];
    }
  }

  /** The first field of `s` starts at `a`, and the other fields are those
      of the text after it. */
  lemma {:induction false} FirstFieldPosition(s: string) returns (a: nat)
    requires Tokens(s) != []
    ensures FieldAt(s, a, Tokens(s)[0])
    ensures Tokens(s) == [Tokens(s)[0]] + Tokens(s[a + |Tokens(s)[0]|..])
    decreases |s|
  {
    if IsSpace(s[0]) {
      var s1 := s[1..];
      assert Tokens(s) == Tokens(s1);
      var a1 := FirstFieldPosition(s1);
      FieldAtShift(s, a1, Tokens(s)[0]);
      a := a1 + 1;
      assert s1[a1 + |Tokens(s)[0]|..] == s[a + |Tokens(s)[0]|..];
    } else {
      a := 0;
      FieldAtStart(s);
      assert Tokens(s) == [Word(s)] + Tokens(s[|Word(s)|..]);
    }
  }




  /** A line that starts with white space up to `a`, the field `w` and a
      white-space character keeps `w` as its first field whatever follows
      position `p` past them. */
  lemma FirstTokenOfPrefix(s: string, a: nat, w: string, p: nat, tail: string)
    requires FieldAt(s, a, w) && a + |w| < p <= |s|
    ensures Tokens(s[..p] + tail) != [] && Tokens(s[..p] + tail)[0] == w
  {
    var o := s[..p] + tail;
    assert forall k :: 0 <= k < p ==> o[k] == s[k];
    assert o[a] == w[0];
    LStripAt(o, a);
    forall k | 0 <= k < |w|
      ensures !IsSpace(o[a..][k])
    {
      assert o[a..][k] == w[k];
    }
    WordUpTo(o[a..], |w|);
    assert o[a..][..|w|] == w;
  }

  /** A match of `pat` that ends inside the field `w` at `a` is a match in `w`. */
  lemma ContainedMatch(s: string, pat: string, a: nat, w: string, p: nat)
    requires a <= p && p + |pat| <= a + |w| <= |s| && s[a..a + |w|] == w
    requires MatchesAt(s, pat, p)
    ensures Contains(w, pat)
  {
    assert w[p - a..][..|pat|] == pat by {
      forall k | 0 <= k < |pat|
        ensures w[p - a..][k] == pat[k]
      {
        assert w[p - a + k] == s[a + p - a + k];
        assert s[p..][k] == s[p + k];
      }
    }
    ContainsAt(w, pat, p - a);
  }

  /** Every character of a match of a space-free `pat` is not white space. */
  lemma SpaceFreeMatch(s: string, pat: string, p: nat, j: nat)
    requires MatchesAt(s, pat, p) && p <= j < p + |pat| && SpaceFree(pat)
    ensures j < |s| && !IsSpace(s[j])
  {
    assert s[j] == s[p..][..|pat|][j - p];
    assert pat[j - p] in pat;
  }

  /** An occurrence of a space-free `pat` starts after the first field `w`
      (found at `a`) and the white space that ends it, unless it lies inside `w`. */
  lemma MatchPastField(s: string, pat: string, a: nat, w: string, p: nat)
    requires FieldAt(s, a, w)
    requires pat != [] && SpaceFree(pat) && !Contains(w, pat)
    requires MatchesAt(s, pat, p)
    ensures a + |w| < p && IsSpace(s[a + |w|])
  {
    SpaceFreeMatch(s, pat, p, p);
    assert a <= p;
    if p + |pat| <= a + |w| {
      ContainedMatch(s, pat, a, w, p);
    } else if p <= a + |w| {
      SpaceFreeMatch(s, pat, p, a + |w|);
    }
  }

  /** A first character that does not start `pat` is kept in front of what
      the scan makes of the rest. */
  lemma ReplaceAfterSkip(s: string, pat: string, rep: string, p: nat, rest: string)
    requires pat != [] && |pat| <= |s| && !StartsWith(s, pat) && 0 < p <= |s|
    requires Replace(s[1..], pat, rep) == s[1..][..p - 1] + rep + rest
    ensures Replace(s, pat, rep) == s[..p] + rep + rest
  {
    ReplaceSkip(s, pat, rep);
    ShiftAfterSkip(s, rep, p, rest);
  }

  /** Dropping the first character moves every position one to the left. */
  lemma MatchesShift(s: string, pat: string, p: nat)
    requires 0 < p && MatchesAt(s, pat, p) && forall i :: 0 <= i < p ==> !MatchesAt(s, pat, i)
    ensures |pat| <= |s| && !StartsWith(s, pat)
    ensures MatchesAt(s[1..], pat, p - 1) && forall i :: 0 <= i < p - 1 ==> !MatchesAt(s[1..], pat, i)
  {
    assert !MatchesAt(s, pat, 0);
    assert s[0..] == s;
    var t := s[1..];
    forall i | 0 <= i < p - 1
      ensures !MatchesAt(t, pat, i)
    {
      assert t[i..] == s[i + 1..];
      assert !MatchesAt(s, pat, i + 1);
    }
    assert t[p - 1..] == s[p..];
  }

  /** The first character put back in front of a split of the rest. */
  lemma ShiftAfterSkip(s: string, rep: string, p: nat, rest: string)
    requires 0 < p <= |s|
    ensures [s[0]] + (s[1..][..p - 1] + rep + rest) == s[..p] + rep + rest
  {
    assert [s[0]] + s[1..][..p - 1] == s[..p];
  }

  /** The decimal digit of `d`. */
  function Digit(d: nat): char
    requires d < 10
  {
    "0123456789"[d]
  }

  /** The number a string of decimal digits denotes, most significant first. */
  function DigitsValue(s: string): int {
    if s == [] then 0 else 10 * DigitsValue(s[..|s| - 1]) + (s[|s| - 1] as int - '0' as int)
  }

  /** `Digit(d)` denotes `d`. */
  lemma DigitValue(d: nat)
    requires d < 10
    ensures '0' <= Digit(d) <= '9' && Digit(d) as int - '0' as int == d
  {
  }

  /** `str(n)` for a natural number `n`: its decimal digits, no leading zero. */
  function NatToString(n: nat): (r: string)
    ensures r != [] && (r[0] == '0' ==> n == 0)
    ensures n == 0 ==> r == "0"
    ensures forall k :: 0 <= k < |r| ==> '0' <= r[k] <= '9'
  {
    if n < 10 then
      DigitValue(n);
      [Digit(n)]
    else
      DigitValue(n % 10);
      NatToString(n / 10) + [Digit(n % 10)]
  }

  /** The digits `NatToString` writes denote `n`. */
  lemma {:induction false} NatToStringValue(n: nat)
    ensures DigitsValue(NatToString(n)) == n
  {
    DigitValue(n % 10);
    if n >= 10 {
      NatToStringValue(n / 10);
      var r := NatToString(n);
      assert r[..|r| - 1] == NatToString(n / 10);
    }
  }
}
