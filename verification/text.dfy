/** Python's `str.strip()` with no arguments: removes leading and trailing
    whitespace, where whitespace is what `str.isspace()` accepts. */
module Text {

  /** The characters Python's `str.isspace()` accepts: the code points whose
      bidirectional class is WS, B or S, or whose general category is Zs. */
  predicate IsSpace(c: char) {
    || ('\t' <= c <= '\r')             // TAB, LF, VT, FF, CR
    || ('\U{1C}' <= c <= ' ')          // FS, GS, RS, US, SPACE
    || c == '\U{85}' || c == '\U{A0}' || c == '\U{1680}'
    || ('\U{2000}' <= c <= '\U{200A}')
    || c == '\U{2028}' || c == '\U{2029}' || c == '\U{202F}'
    || c == '\U{205F}' || c == '\U{3000}'
  }

  ghost predicate AllSpace(s: string) {
    forall k :: 0 <= k < |s| ==> IsSpace(s[k])
  }

  /** Neither end of `r` is whitespace. */
  predicate Tight(r: string) {
    r == [] || (!IsSpace(r[0]) && !IsSpace(r[|r| - 1]))
  }

  /** `r` is `s` with its leading and trailing whitespace removed: `r` is a
      slice of `s`, everything before and after it is whitespace, and `r`
      itself neither starts nor ends with whitespace. */
  ghost predicate IsStripOf(s: string, r: string) {
    exists i :: 0 <= i <= |s| - |r| && IsStripAt(s, r, i)
  }

  ghost predicate IsStripAt(s: string, r: string, i: int)
    requires 0 <= i <= |s| - |r|
  {
    && s[i..i + |r|] == r
    && AllSpace(s[..i])
    && AllSpace(s[i + |r|..])
    && Tight(r)
  }

  /** `str.lstrip()`. */
  function StripLeft(s: string): string {
    if s != [] && IsSpace(s[0]) then StripLeft(s[1..]) else s
  }

  /** `str.rstrip()`. */
  function StripRight(s: string): string {
    if s != [] && IsSpace(s[|s| - 1]) then StripRight(s[..|s| - 1]) else s
  }

  /** `str.strip()`. */
  function Strip(s: string): string {
    StripRight(StripLeft(s))
  }

  /** `StripLeft` drops a whitespace prefix and stops at the first other
      character. */
  lemma {:induction false} StripLeftSpec(s: string)
    ensures var r := StripLeft(s);
      && |r| <= |s| && r == s[|s| - |r|..]
      && AllSpace(s[..|s| - |r|])
      && (r == [] || !IsSpace(r[0]))
  {
    if s != [] && IsSpace(s[0]) {
      StripLeftSpec(s[1..]);
      var r := StripLeft(s[1..]);
      var n := |s| - |r|;
      assert forall k :: 1 <= k < n ==> s[k] == s[1..][..n - 1][k - 1];
    }
  }

  /** `StripRight` drops a whitespace suffix and stops at the last other
      character. */
  lemma {:induction false} StripRightSpec(s: string)
    ensures var r := StripRight(s);
      && |r| <= |s| && r == s[..|r|]
      && AllSpace(s[|r|..])
      && (r == [] || !IsSpace(r[|r| - 1]))
  {
    if s != [] && IsSpace(s[|s| - 1]) {
      var t := s[..|s| - 1];
      StripRightSpec(t);
      var r := StripRight(t);
      assert forall k :: |r| <= k < |s| - 1 ==> s[k] == t[|r|..][k - |r|];
    }
  }

  /** `Strip` meets the characterisation `IsStripOf`. */
  lemma StripMeetsSpec(s: string)
    ensures IsStripOf(s, Strip(s))
  {
    var t := StripLeft(s);
    StripLeftSpec(s);
    StripRightSpec(t);
    var r := StripRight(t);
    var i := |s| - |t|;
    assert r != [] ==> r[0] == t[0];
    assert s[i + |r|..] == t[|r|..];
    assert IsStripAt(s, r, i);
  }

  /** The characterisation `IsStripOf` pins down a single string, so `Strip`
      is the only function meeting it. */
  lemma StripUnique(s: string, r1: string, r2: string)
    requires IsStripOf(s, r1) && IsStripOf(s, r2)
    ensures r1 == r2
  {
    var i1 :| 0 <= i1 <= |s| - |r1| && IsStripAt(s, r1, i1);
    var i2 :| 0 <= i2 <= |s| - |r2| && IsStripAt(s, r2, i2);
    if r1 == [] || r2 == [] {
      EmptyStripMeansAllSpace(s, r1, i1);
      EmptyStripMeansAllSpace(s, r2, i2);
    } else {
      assert s[i1] == r1[0] && s[i2] == r2[0];
      assert i1 == i2;
      var j1, j2 := i1 + |r1|, i2 + |r2|;
      assert s[j1 - 1] == r1[|r1| - 1] && s[j2 - 1] == r2[|r2| - 1];
      assert j1 == j2;
    }
  }

  /** Helper for `StripUnique`: a stripped result is empty exactly when the
      whole input is whitespace. */
  lemma EmptyStripMeansAllSpace(s: string, r: string, i: int)
    requires 0 <= i <= |s| - |r| && IsStripAt(s, r, i)
    ensures r == [] <==> AllSpace(s)
  {
    if r == [] {
      forall k | 0 <= k < |s|
        ensures IsSpace(s[k])
      {
        if k < i {
          assert s[k] == s[..i][k];
        } else {
          assert s[k] == s[i..][k - i];
        }
      }
    } else {
      assert s[i] == r[0];
    }
  }

  /** A prompt strips to nothing exactly when it is all whitespace (the
      empty string included). */
  lemma StripEmptyIff(s: string)
    ensures Strip(s) == [] <==> AllSpace(s)
  {
    var r := Strip(s);
    StripMeetsSpec(s);
    var i :| 0 <= i <= |s| - |r| && IsStripAt(s, r, i);
    EmptyStripMeansAllSpace(s, r, i);
  }

  /** Stripping removes exactly the surrounding whitespace and nothing else. */
  lemma StripPadded(front: string, t: string, back: string)
    requires AllSpace(front) && AllSpace(back) && Tight(t)
    ensures Strip(front + t + back) == t
  {
    var s := front + t + back;
    assert IsStripAt(s, t, |front|) by {
      assert s[..|front|] == front;
      assert s[|front|..|front| + |t|] == t;
      assert s[|front| + |t|..] == back;
    }
    StripMeetsSpec(s);
    StripUnique(s, Strip(s), t);
  }

  /** Stripping twice is stripping once. */
  lemma StripIdempotent(s: string)
    ensures Strip(Strip(s)) == Strip(s)
  {
    var r := Strip(s);
    StripMeetsSpec(s);
    var i :| 0 <= i <= |s| - |r| && IsStripAt(s, r, i);
    StripPadded([], r, []);
    assert [] + r + [] == r;
  }
}
