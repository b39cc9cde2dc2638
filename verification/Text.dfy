/** The string operations the modelled code uses: strip, lower, find, split and join. */
module Text {
  import opened Options

  /** The characters `str.strip` removes. */
  predicate IsSpace(c: char) {
    || '\t' <= c <= '\r' || '\U{1c}' <= c <= ' ' || c == '\U{85}' || c == '\U{a0}' || c == '\U{1680}'
    || '\U{2000}' <= c <= '\U{200a}' || c == '\U{2028}' || c == '\U{2029}' || c == '\U{202f}' || c == '\U{205f}'
    || c == '\U{3000}'
  }

  function StripLeft(s: string): string {
    if s != "" && IsSpace(s[0]) then StripLeft(s[1..]) else s
  }

  function StripRight(s: string): string {
    if s != "" && IsSpace(s[|s| - 1]) then StripRight(s[..|s| - 1]) else s
  }

  function Strip(s: string): string {
    StripRight(StripLeft(s))
  }

  /** Nothing to strip at either end. */
  predicate Tight(s: string) {
    s == "" || (!IsSpace(s[0]) && !IsSpace(s[|s| - 1]))
  }

  lemma {:induction false} StripLeftSuffix(s: string) returns (k: nat)
    ensures k <= |s| && StripLeft(s) == s[k..] && (k < |s| ==> !IsSpace(s[k]))
    ensures forall i :: 0 <= i < k ==> IsSpace(s[i])
  {
    k := 0;
    if s != "" && IsSpace(s[0]) {
      var j := StripLeftSuffix(s[1..]);
      k := j + 1;
    }
  }

  lemma {:induction false} StripRightPrefix(s: string) returns (k: nat)
    ensures k <= |s| && StripRight(s) == s[..k] && (k > 0 ==> !IsSpace(s[k - 1]))
    ensures forall i :: k <= i < |s| ==> IsSpace(s[i])
  {
    k := |s|;
    if s != "" && IsSpace(s[|s| - 1]) {
      k := StripRightPrefix(s[..|s| - 1]);
    }
  }

  /** Stripping cuts the string down to `s[i..j]`, and what it cuts off is space. */
  lemma StripIsSlice(s: string) returns (i: nat, j: nat)
    ensures i <= j <= |s| && Strip(s) == s[i..j] && Tight(Strip(s))
    ensures forall k :: 0 <= k < i || j <= k < |s| ==> IsSpace(s[k])
  {
    i := StripLeftSuffix(s);
    var k := StripRightPrefix(s[i..]);
    j := i + k;
    assert forall m :: j <= m < |s| ==> s[m] == s[i..][m - i];
  }

  lemma StripTight(s: string)
    requires Tight(s)
    ensures Strip(s) == s
  {
  }

  lemma StripIdempotent(s: string)
    ensures Tight(Strip(s)) && Strip(Strip(s)) == Strip(s)
  {
    var i, j := StripIsSlice(s);
    StripTight(Strip(s));
  }

  // ---------------------------------------------------------------- case

  /** `str.lower` on ASCII letters. */
  function LowerChar(c: char): char {
    if 'A' <= c <= 'Z' then c - 'A' + 'a' else c
  }

  function Lower(s: string): (r: string)
    ensures |r| == |s| && forall i :: 0 <= i < |s| ==> r[i] == LowerChar(s[i])
  {
    seq(|s|, i requires 0 <= i < |s| => LowerChar(s[i]))
  }

  /** `name.strip().lower()` */
  function Normalize(s: string): string {
    Lower(Strip(s))
  }

  lemma NormalizeIdempotent(s: string)
    ensures Normalize(Normalize(s)) == Normalize(s)
  {
    StripIdempotent(s);
    var t := Normalize(s);
    assert Tight(t);
    StripTight(t);
    assert Lower(t) == t;
  }

  /** The two characters are the same, or one ASCII letter in its two cases. */
  predicate SameLetter(a: char, b: char) {
    a == b || ('A' <= a <= 'Z' && b as int == a as int + 32) || ('A' <= b <= 'Z' && a as int == b as int + 32)
  }

  lemma LowerCharIff(a: char, b: char)
    ensures LowerChar(a) == LowerChar(b) <==> SameLetter(a, b)
  {
  }

  /** Two names have one normal form exactly when they differ in nothing but the case of letters and the space around. */
  lemma NormalizeAlikeIff(a: string, b: string)
    ensures Normalize(a) == Normalize(b) <==>
            |Strip(a)| == |Strip(b)| && forall i :: 0 <= i < |Strip(a)| ==> SameLetter(Strip(a)[i], Strip(b)[i])
  {
    if |Strip(a)| == |Strip(b)| {
      forall i | 0 <= i < |Strip(a)|
        ensures Normalize(a)[i] == Normalize(b)[i] <==> SameLetter(Strip(a)[i], Strip(b)[i])
      {
        LowerCharIff(Strip(a)[i], Strip(b)[i]);
      }
    }
  }

  /** Blanks, tabs and line ends around a string make no difference to `strip`. */
  lemma {:induction false} PaddingStrips(before: string, s: string, after: string)
    requires forall c :: c in before || c in after ==> c in {' ', '\t', '\n', '\r'}
    ensures Strip(before + s + after) == Strip(s)
  {
    if before != "" {
      assert before[0] in before;
      assert (before + s + after)[1..] == before[1..] + s + after;
      assert forall c :: c in before[1..] ==> c in before;
      PaddingStrips(before[1..], s, after);
    } else {
      assert before + s == s;
      PaddingRight(s, after);
    }
  }

  lemma {:induction false} StripRightSpaces(s: string, after: string)
    requires forall c :: c in after ==> IsSpace(c)
    ensures StripRight(s + after) == StripRight(s)
  {
    if after == "" {
      assert s + after == s;
    } else {
      var n := |after| - 1;
      assert after[n] in after;
      assert (s + after)[..|s + after| - 1] == s + after[..n];
      assert forall c :: c in after[..n] ==> c in after;
      StripRightSpaces(s, after[..n]);
    }
  }

  lemma {:induction false} PaddingRight(s: string, after: string)
    requires forall c :: c in after ==> c in {' ', '\t', '\n', '\r'}
    ensures Strip(s + after) == Strip(s)
  {
    if s != "" && IsSpace(s[0]) {
      assert (s + after)[1..] == s[1..] + after;
      PaddingRight(s[1..], after);
    } else if s != "" {
      assert StripLeft(s + after) == s + after && StripLeft(s) == s;
      StripRightSpaces(s, after);
    } else {
      assert s + after == after;
      AllSpaces(after);
    }
  }

  lemma {:induction false} AllSpaces(s: string)
    requires forall c :: c in s ==> IsSpace(c)
    ensures Strip(s) == ""
  {
    if s != "" {
      assert s[0] in s;
      assert forall c :: c in s[1..] ==> c in s;
      AllSpaces(s[1..]);
    }
  }

  // ---------------------------------------------------------------- search

  predicate At(s: string, pat: string, i: int) {
    0 <= i && i + |pat| <= |s| && s[i..i + |pat|] == pat
  }

  predicate Contains(s: string, pat: string) {
    exists i :: 0 <= i <= |s| && At(s, pat, i)
  }

  /** `s.find(pat)`, with None for -1. */
  function Find(s: string, pat: string): (r: Option<nat>)
    ensures r.Some? ==> At(s, pat, r.value) && forall i :: 0 <= i < r.value ==> !At(s, pat, i)
    ensures r.None? ==> !Contains(s, pat)
  {
    FindFrom(s, pat, 0)
  }

  function FindFrom(s: string, pat: string, i: nat): (r: Option<nat>)
    requires i <= |s| && forall k :: 0 <= k < i ==> !At(s, pat, k)
    ensures r.Some? ==> At(s, pat, r.value) && forall k :: 0 <= k < r.value ==> !At(s, pat, k)
    ensures r.None? ==> !Contains(s, pat)
    decreases |s| - i
  {
    if At(s, pat, i) then Some(i)
    else if i == |s| then None
    else FindFrom(s, pat, i + 1)
  }

  /** The first occurrence is the only thing that can be found. */
  lemma FindIs(s: string, pat: string, i: nat)
    requires At(s, pat, i) && forall k :: 0 <= k < i ==> !At(s, pat, k)
    ensures Find(s, pat) == Some(i)
  {
    assert Contains(s, pat);
  }

  // ---------------------------------------------------------------- split and join

  /** `s.split(c)` for a one-character separator. */
  function Split(s: string, c: char): (r: seq<string>)
    ensures r != []
  {
    if s == "" then [""]
    else
      var rest := Split(s[1..], c);
      if s[0] == c then [""] + rest else [[s[0]] + rest[0]] + rest[1..]
  }

  /** `sep.join(parts)` */
  function Join(parts: seq<string>, sep: string): string {
    if parts == [] then ""
    else if |parts| == 1 then parts[0]
    else parts[0] + sep + Join(parts[1..], sep)
  }

  lemma {:induction false} SplitNoSeparator(s: string, c: char)
    requires c !in s
    ensures Split(s, c) == [s]
  {
    if s != "" {
      SplitNoSeparator(s[1..], c);
      assert [s[0]] + s[1..] == s;
    }
  }

  lemma {:induction false} SplitAfterPart(part: string, rest: string, c: char)
    requires c !in part
    ensures Split(part + [c] + rest, c) == [part] + Split(rest, c)
  {
    if part == "" {
      assert ([c] + rest)[1..] == rest;
      assert part + [c] + rest == [c] + rest;
    } else {
      SplitAfterPart(part[1..], rest, c);
      assert (part + [c] + rest)[1..] == part[1..] + [c] + rest;
      assert [part[0]] + part[1..] == part;
    }
  }

  /** Splitting undoes joining when no part holds the separator. */
  lemma {:induction false} SplitJoin(parts: seq<string>, c: char)
    requires parts != [] && forall p :: p in parts ==> c !in p
    ensures Split(Join(parts, [c]), c) == parts
  {
    if |parts| == 1 {
      SplitNoSeparator(parts[0], c);
    } else {
      SplitJoin(parts[1..], c);
      SplitAfterPart(parts[0], Join(parts[1..], [c]), c);
      assert [parts[0]] + parts[1..] == parts;
    }
  }

  lemma {:induction false} SplitOneIff(s: string, c: char)
    ensures |Split(s, c)| == 1 <==> c !in s
  {
    if s != "" {
      SplitOneIff(s[1..], c);
      assert s == [s[0]] + s[1..];
    }
  }

  lemma {:induction false} SplitLengths(a: string, b: string, c: char)
    ensures |Split(a + [c] + b, c)| == |Split(a, c)| + |Split(b, c)|
  {
    if a == "" {
      assert ([c] + b)[1..] == b && a + [c] + b == [c] + b;
    } else {
      SplitLengths(a[1..], b, c);
      assert (a + [c] + b)[1..] == a[1..] + [c] + b;
    }
  }

  /** Splitting a joined list gives as many parts as were joined exactly when none held the separator. */
  lemma {:induction false} JoinedSplitsIff(parts: seq<string>, c: char)
    requires parts != []
    ensures |Split(Join(parts, [c]), c)| >= |parts|
    ensures |Split(Join(parts, [c]), c)| == |parts| <==> forall p :: p in parts ==> c !in p
  {
    SplitOneIff(parts[0], c);
    if |parts| > 1 {
      JoinedSplitsIff(parts[1..], c);
      SplitLengths(parts[0], Join(parts[1..], [c]), c);
      assert forall p :: p in parts <==> p == parts[0] || p in parts[1..];
    }
  }
}
