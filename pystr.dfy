/**
 The Python string operations the detector relies on: `str.strip()`,
 `str.lower()`, the substring test `p in s` and `str.startswith`.
 */
module PyStr {

  /** The characters Python's `str.isspace()` accepts, i.e. what `strip()` removes. */
  predicate IsSpace(c: char) {
    || c == ' '
    || ('\t' <= c <= '\r')
    || ('\U{1c}' <= c <= '\U{1f}')
    || c == '\U{85}' || c == '\U{a0}' || c == '\U{1680}'
    || ('\U{2000}' <= c <= '\U{200a}')
    || c == '\U{2028}' || c == '\U{2029}' || c == '\U{202f}' || c == '\U{205f}' || c == '\U{3000}'
  }

  predicate AllSpace(s: string) {
    forall i | 0 <= i < |s| :: IsSpace(s[i])
  }

  /** True when `s` has no leading and no trailing whitespace. */
  predicate Trimmed(s: string) {
    s == [] || (!IsSpace(s[0]) && !IsSpace(s[|s| - 1]))
  }

  /** `str.lstrip()`: the result does not start with whitespace
      (TrimStartDrops says it is the input without its leading whitespace). */
  function TrimStart(s: string): (r: string)
    ensures |r| <= |s|
    ensures r == [] || !IsSpace(r[0])
  {
    if s != [] && IsSpace(s[0]) then TrimStart(s[1..]) else s
  }

  /** `str.rstrip()`: the result does not end with whitespace (TrimEndDrops
      says it is the input without its trailing whitespace). */
  function TrimEnd(s: string): (r: string)
    ensures |r| <= |s|
    ensures r == [] || !IsSpace(r[|r| - 1])
  {
    if s != [] && IsSpace(s[|s| - 1]) then TrimEnd(s[..|s| - 1]) else s
  }

  /** `lstrip()` drops a run of leading whitespace and nothing else. */
  lemma {:induction false} TrimStartDrops(s: string)
    ensures TrimStart(s) == s[|s| - |TrimStart(s)|..]
    ensures AllSpace(s[..|s| - |TrimStart(s)|])
  {
    if s != [] && IsSpace(s[0]) {
      TrimStartDrops(s[1..]);
      var r := TrimStart(s[1..]);
      assert s[1..][|s| - 1 - |r|..] == s[|s| - |r|..];
      assert s[..|s| - |r|] == [s[0]] + s[1..][..|s| - 1 - |r|];
    } else {
      assert s[0..] == s;
    }
  }

  /** `rstrip()` drops a run of trailing whitespace and nothing else. */
  lemma {:induction false} TrimEndDrops(s: string)
    ensures TrimEnd(s) == s[..|TrimEnd(s)|]
    ensures AllSpace(s[|TrimEnd(s)|..])
  {
    if s != [] && IsSpace(s[|s| - 1]) {
      TrimEndDrops(s[..|s| - 1]);
      var r := TrimEnd(s[..|s| - 1]);
      assert s[..|s| - 1][..|r|] == s[..|r|];
      assert s[|r|..] == s[..|s| - 1][|r|..] + [s[|s| - 1]];
    } else {
      assert s[..|s|] == s;
    }
  }

  /** `str.strip()`: the result has no whitespace at either end and leaves an
      already trimmed string alone (StripKeepsCharacters and StripEmpty say
      what else it keeps). */
  function Strip(s: string): (r: string)
    ensures Trimmed(r)
    ensures Trimmed(s) ==> r == s
  {
    var t := TrimStart(s);
    var r := TrimEnd(t);
    assert r != [] ==> !IsSpace(r[0]) by {
      if r != [] {
        TrimEndDrops(t);
        assert r[0] == t[0];
      }
    }
    r
  }

  /** `strip()` only removes characters: the result is a slice of the input. */
  lemma StripKeepsCharacters(s: string)
    ensures |Strip(s)| <= |s|
    ensures Contains(s, Strip(s))
    ensures forall c | c in Strip(s) :: c in s
  {
    var t := TrimStart(s);
    var r := TrimEnd(t);
    TrimStartDrops(s);
    TrimEndDrops(t);
    var a := |s| - |t|;
    assert r == s[a..a + |r|];
    assert OccursAt(r, s, a);
    forall c | c in r ensures c in s {
      var i :| 0 <= i < |r| && r[i] == c;
      assert r[i] == s[a + i];
    }
  }

  /** `strip()` gives the empty string exactly for an all-whitespace string. */
  lemma StripEmpty(s: string)
    ensures Strip(s) == [] <==> AllSpace(s)
  {
    var t := TrimStart(s);
    TrimStartDrops(s);
    assert t == [] ==> AllSpace(s) by {
      if t == [] { assert s[..|s|] == s; }
    }
    if AllSpace(s) && s != [] {
      AllSpaceTrimStart(s);
    }
    var r := TrimEnd(t);
    TrimEndDrops(t);
    assert r == [] ==> AllSpace(t) by {
      if r == [] { assert t[0..] == t; }
    }
  }

  /** `str.lower()` on one character (ASCII letters only). */
  function LowerChar(c: char): char {
    if 'A' <= c <= 'Z' then (c as int + 32) as char else c
  }

  /** `str.lower()`, restricted to ASCII: one character for each of `s`
      (LowerOnlyCapitals says which change). */
  function Lower(s: string): (r: string)
    ensures |r| == |s|
  {
    seq(|s|, i requires 0 <= i < |s| => LowerChar(s[i]))
  }

  /** `lower()` leaves no ASCII capital, and changes nothing else. */
  lemma LowerOnlyCapitals(s: string)
    ensures forall i | 0 <= i < |s| :: !('A' <= Lower(s)[i] <= 'Z')
    ensures forall i | 0 <= i < |s| :: 'A' <= s[i] <= 'Z' || Lower(s)[i] == s[i]
  {
  }

  /** `p` occurs in `s` starting at index `i`. */
  predicate OccursAt(p: string, s: string, i: int) {
    0 <= i && i + |p| <= |s| && s[i..i + |p|] == p
  }

  /** Python's substring test `p in s`: only a string no longer than `s` can
      occur in it, and the empty string occurs in every string. */
  predicate Contains(s: string, p: string): (r: bool)
    ensures r ==> |p| <= |s|
    ensures p == [] ==> r
  {
    assert p == [] ==> OccursAt(p, s, 0);
    exists i | 0 <= i <= |s| - |p| :: OccursAt(p, s, i)
  }

  /** `s.startswith(p)`: `p` is the first `|p|` characters of `s`, so a
      prefix is in particular a substring. */
  predicate StartsWith(s: string, p: string): (r: bool)
    ensures r <==> |p| <= |s| && s[..|p|] == p
    ensures r ==> Contains(s, p)
  {
    assert p <= s ==> OccursAt(p, s, 0);
    p <= s
  }

  // ---------------------------------------------------------------------
  // Facts about strip() and lower()
  // ---------------------------------------------------------------------

  lemma {:induction false} TrimStartPadding(w: string, s: string)
    requires AllSpace(w)
    ensures TrimStart(w + s) == TrimStart(s)
  {
    if w != [] {
      assert (w + s)[1..] == w[1..] + s;
      TrimStartPadding(w[1..], s);
    } else {
      assert w + s == s;
    }
  }

  lemma {:induction false} TrimEndPadding(s: string, w: string)
    requires AllSpace(w)
    ensures TrimEnd(s + w) == TrimEnd(s)
  {
    if w != [] {
      assert (s + w)[..|s + w| - 1] == s + w[..|w| - 1];
      TrimEndPadding(s, w[..|w| - 1]);
    } else {
      assert s + w == s;
    }
  }

  /** A non-empty lstripped string keeps what follows it. */
  lemma {:induction false} TrimStartAppend(s: string, w: string)
    requires TrimStart(s) != []
    ensures TrimStart(s + w) == TrimStart(s) + w
  {
    assert (s + w)[0] == s[0];
    if IsSpace(s[0]) {
      assert (s + w)[1..] == s[1..] + w;
      TrimStartAppend(s[1..], w);
    } else {
      assert TrimStart(s) == s;
    }
  }

  /** An all-whitespace string lstrips to nothing. */
  lemma AllSpaceTrimStart(t: string)
    requires AllSpace(t)
    ensures TrimStart(t) == []
  {
    TrimStartPadding(t, []);
    assert t + [] == t;
  }

  /** Whitespace in front of a string does not change what `strip()` returns. */
  lemma StripLeading(w: string, t: string)
    requires AllSpace(w)
    ensures Strip(w + t) == Strip(t)
  {
    TrimStartPadding(w, t);
  }

  /** Whitespace after a string does not change what `strip()` returns. */
  lemma StripTrailing(s: string, w: string)
    requires AllSpace(w)
    ensures Strip(s + w) == Strip(s)
  {
    if TrimStart(s) != [] {
      TrimStartAppend(s, w);
      TrimEndPadding(TrimStart(s), w);
    } else {
      var n := |s|;
      TrimStartDrops(s);
      assert AllSpace(s) by { assert s[..n] == s; }
      assert AllSpace(s + w) by {
        forall i | 0 <= i < |s + w| ensures IsSpace((s + w)[i]) {
          if i < n { assert (s + w)[i] == s[i]; } else { assert (s + w)[i] == w[i - n]; }
        }
      }
      AllSpaceTrimStart(s + w);
    }
  }

  /** Surrounding a label with whitespace does not change what `strip()` returns. */
  lemma StripPadding(w1: string, s: string, w2: string)
    requires AllSpace(w1) && AllSpace(w2)
    ensures Strip(w1 + s + w2) == Strip(s)
  {
    assert w1 + s + w2 == w1 + (s + w2);
    StripLeading(w1, s + w2);
    StripTrailing(s, w2);
  }

  lemma LowerCharKeepsSpace(c: char)
    ensures IsSpace(LowerChar(c)) <==> IsSpace(c)
  {
  }

  lemma {:induction false} TrimStartLower(s: string)
    ensures TrimStart(Lower(s)) == Lower(TrimStart(s))
  {
    if s != [] {
      LowerCharKeepsSpace(s[0]);
      assert Lower(s)[1..] == Lower(s[1..]);
      TrimStartLower(s[1..]);
    }
  }

  lemma {:induction false} TrimEndLower(s: string)
    ensures TrimEnd(Lower(s)) == Lower(TrimEnd(s))
  {
    if s != [] {
      LowerCharKeepsSpace(s[|s| - 1]);
      assert Lower(s)[..|s| - 1] == Lower(s[..|s| - 1]);
      TrimEndLower(s[..|s| - 1]);
    }
  }

  /** `s.strip().lower()` and `s.lower().strip()` agree. */
  lemma LowerStripCommute(s: string)
    ensures Lower(Strip(s)) == Strip(Lower(s))
  {
    TrimStartLower(s);
    TrimEndLower(TrimStart(s));
  }

  /** A string in which some character of `p` never appears does not contain `p`. */
  lemma ForeignCharExcludes(s: string, p: string, k: nat)
    requires k < |p| && p[k] !in s
    ensures !Contains(s, p)
  {
    forall i | 0 <= i <= |s| - |p| ensures !OccursAt(p, s, i) {
      assert s[i..i + |p|][k] == s[i + k];
    }
  }

  /** The upper-case partner of a lower-case ASCII letter. */
  function UpperChar(c: char): char
    requires 'a' <= c <= 'z'
  {
    (c as int - 32) as char
  }

  /** A letter that occurs in `s` in neither case does not occur in `lower(s)`. */
  lemma LowerAvoids(s: string, c: char)
    requires 'a' <= c <= 'z' && c !in s && UpperChar(c) !in s
    ensures c !in Lower(s)
  {
    forall i | 0 <= i < |s| ensures Lower(s)[i] != c {
      assert s[i] != c && s[i] != UpperChar(c);
    }
  }

  /** `p.lower() in s.lower()` fails when some letter of `p` is absent from `s`
      in both cases. */
  lemma LetterAbsent(s: string, p: string, k: nat)
    requires k < |p| && 'a' <= LowerChar(p[k]) <= 'z'
    requires LowerChar(p[k]) !in s && UpperChar(LowerChar(p[k])) !in s
    ensures !Contains(Lower(s), Lower(p))
  {
    LowerAvoids(s, LowerChar(p[k]));
    ForeignCharExcludes(Lower(s), Lower(p), k);
  }

  /** `p.lower() in s.lower()` fails when two adjacent characters of `p` are
      never adjacent in `s`, up to case. */
  lemma PairAbsent(s: string, p: string, k: nat)
    requires k + 1 < |p|
    requires forall i | 0 <= i < |s| - 1 ::
      !(LowerChar(s[i]) == LowerChar(p[k]) && LowerChar(s[i + 1]) == LowerChar(p[k + 1]))
    ensures !Contains(Lower(s), Lower(p))
  {
    var ls, lp := Lower(s), Lower(p);
    forall i | 0 <= i <= |ls| - |lp| ensures !OccursAt(lp, ls, i) {
      assert ls[i..i + |lp|][k] == ls[i + k];
      assert ls[i..i + |lp|][k + 1] == ls[i + k + 1];
    }
  }
}
