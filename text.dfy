/** Python string primitives that the core relies on: the whitespace class shared by
    `str.isspace`, `str.strip`, `str.split` and the regular-expression class `\s`,
    the collapse `re.sub(r'\s+', ' ', t).strip()`, `str.rfind` for one character,
    ASCII upper-casing, substring containment and `" ".join`. */
module Text {

  /** The characters for which Python's `str.isspace()` holds; `re`'s `\s` on a
      `str` pattern and the argument-less `strip`/`split` use the same class. */
  predicate IsSpace(c: char) {
    ('\t' <= c <= '\r') || ('\U{1c}' <= c <= '\U{1f}') || c == ' ' || c == '\U{85}' || c == '\U{a0}'
    || c == '\U{1680}' || ('\U{2000}' <= c <= '\U{200a}') || c == '\U{2028}' || c == '\U{2029}'
    || c == '\U{202f}' || c == '\U{205f}' || c == '\U{3000}'
  }

  predicate AllSpace(s: string) {
    forall i :: 0 <= i < |s| ==> IsSpace(s[i])
  }

  predicate NoSpace(s: string) {
    forall i :: 0 <= i < |s| ==> !IsSpace(s[i])
  }

  /** The number of whitespace characters `s` starts with. */
  function LeadingSpaces(s: string): (n: nat)
    ensures n <= |s|
  {
    if s != [] && IsSpace(s[0]) then 1 + LeadingSpaces(s[1..]) else 0
  }

  /** The number of whitespace characters `s` ends with. */
  function TrailingSpaces(s: string): (n: nat)
    ensures n <= |s|
  {
    if s != [] && IsSpace(s[|s| - 1]) then 1 + TrailingSpaces(s[..|s| - 1]) else 0
  }

  lemma {:induction false} LeadingSpacesFacts(s: string)
    ensures AllSpace(s[..LeadingSpaces(s)])
    ensures LeadingSpaces(s) == |s| || !IsSpace(s[LeadingSpaces(s)])
  {
    if s != [] && IsSpace(s[0]) {
      LeadingSpacesFacts(s[1..]);
      var n := LeadingSpaces(s[1..]);
      forall k | 0 <= k < n + 1 ensures IsSpace(s[k]) {
        if k > 0 { assert s[k] == s[1..][..n][k - 1]; }
      }
    }
  }

  lemma {:induction false} TrailingSpacesFacts(s: string)
    ensures AllSpace(s[|s| - TrailingSpaces(s)..])
    ensures TrailingSpaces(s) == |s| || !IsSpace(s[|s| - TrailingSpaces(s) - 1])
  {
    if s != [] && IsSpace(s[|s| - 1]) {
      var p := s[..|s| - 1];
      TrailingSpacesFacts(p);
      var n := TrailingSpaces(p);
      assert forall k :: |s| - n - 1 <= k < |s| - 1 ==> s[k] == p[|p| - n..][k - (|p| - n)];
    }
  }

  /** `s.lstrip()`. */
  function LStrip(s: string): string {
    s[LeadingSpaces(s)..]
  }

  /** `s.rstrip()`. */
  function RStrip(s: string): string {
    s[..|s| - TrailingSpaces(s)]
  }

  /** `s.strip()`. */
  function Strip(s: string): string {
    RStrip(LStrip(s))
  }

  /** Strip returns the slice of `s` between its leading and trailing whitespace. */
  lemma StripIsSlice(s: string) returns (i: nat, j: nat)
    ensures i <= j <= |s| && Strip(s) == s[i..j]
    ensures AllSpace(s[..i]) && AllSpace(s[j..])
    ensures Strip(s) == [] || (!IsSpace(Strip(s)[0]) && !IsSpace(Strip(s)[|Strip(s)| - 1]))
  {
    var l := LStrip(s);
    i := LeadingSpaces(s);
    LeadingSpacesFacts(s);
    TrailingSpacesFacts(l);
    j := |s| - TrailingSpaces(l);
    var r := RStrip(l);
    assert r == s[i..j];
    assert s[j..] == l[|l| - TrailingSpaces(l)..];
    if r != [] {
      assert r[0] == s[i];
      assert r[|r| - 1] == l[|l| - TrailingSpaces(l) - 1];
    }
  }

  /** Strip gives the empty string exactly on all-whitespace input. */
  lemma StripEmptyIff(s: string)
    ensures Strip(s) == [] <==> AllSpace(s)
  {
    var i, j := StripIsSlice(s);
    if Strip(s) == [] {
      forall k | 0 <= k < |s| ensures IsSpace(s[k]) {
        if k < i { assert s[k] == s[..i][k]; } else { assert s[k] == s[j..][k - j]; }
      }
    } else {
      assert s[i] == Strip(s)[0];
    }
  }

  /** A string that is already stripped is left alone by `strip`. */
  lemma StripOfStripped(s: string)
    requires s == [] || (!IsSpace(s[0]) && !IsSpace(s[|s| - 1]))
    ensures Strip(s) == s
  {
  }

  /** `re.sub(r'\s+', ' ', s)`: every maximal run of whitespace becomes one space. */
  function CollapseSpaces(s: string): (r: string)
    decreases |s|
  {
    if s == [] then []
    else if IsSpace(s[0]) then " " + CollapseSpaces(LStrip(s))
    else [s[0]] + CollapseSpaces(s[1..])
  }

  /** Every whitespace character is a plain space and no two whitespace characters are adjacent. */
  predicate Collapsed(t: string) {
    (forall i :: 0 <= i < |t| && IsSpace(t[i]) ==> t[i] == ' ')
    && (forall i :: 0 <= i < |t| - 1 ==> !IsSpace(t[i]) || !IsSpace(t[i + 1]))
  }

  /** The form that `re.sub(r'\s+', ' ', t).strip()` produces. */
  predicate IsNormalized(t: string) {
    Collapsed(t) && (t == [] || (!IsSpace(t[0]) && !IsSpace(t[|t| - 1])))
  }

  /** The whitespace normalisation applied to every text before it is chunked. */
  function Normalize(s: string): string {
    Strip(CollapseSpaces(s))
  }

  /** The non-whitespace characters of `s`, in order. */
  function Visible(s: string): (r: string)
    ensures |r| <= |s| && NoSpace(r)
  {
    if s == [] then [] else (if IsSpace(s[0]) then [] else [s[0]]) + Visible(s[1..])
  }

  lemma {:induction false} VisibleAppend(a: string, b: string)
    ensures Visible(a + b) == Visible(a) + Visible(b)
  {
    if a == [] {
      assert a + b == b;
    } else {
      var head := if IsSpace(a[0]) then [] else [a[0]];
      calc {
        Visible(a + b);
        { assert (a + b)[0] == a[0]; }
        head + Visible((a + b)[1..]);
        { assert (a + b)[1..] == a[1..] + b; }
        head + Visible(a[1..] + b);
        { VisibleAppend(a[1..], b); }
        head + (Visible(a[1..]) + Visible(b));
        (head + Visible(a[1..])) + Visible(b);
        Visible(a) + Visible(b);
      }
    }
  }

  lemma {:induction false} VisibleOfSpaces(s: string)
    requires AllSpace(s)
    ensures Visible(s) == []
  {
    if s != [] { VisibleOfSpaces(s[1..]); }
  }

  /** The collapse keeps the empty string empty and keeps whether the text starts with whitespace. */
  lemma CollapseHead(s: string)
    ensures CollapseSpaces(s) == [] <==> s == []
    ensures s != [] ==> (IsSpace(CollapseSpaces(s)[0]) <==> IsSpace(s[0]))
  {
    if s != [] {
      if IsSpace(s[0]) {
        assert CollapseSpaces(s)[0] == ' ';
      } else {
        assert CollapseSpaces(s)[0] == s[0];
      }
    }
  }

  /** The collapse leaves only single plain spaces. */
  lemma {:induction false} CollapseShape(s: string)
    ensures Collapsed(CollapseSpaces(s))
    decreases |s|
  {
    if s == [] {
    } else if IsSpace(s[0]) {
      var rest := LStrip(s);
      LeadingSpacesFacts(s);
      CollapseShape(rest);
      var c := CollapseSpaces(rest);
      if c != [] { CollapseHead(rest); }
      assert CollapseSpaces(s) == " " + c;
    } else {
      CollapseShape(s[1..]);
      var c := CollapseSpaces(s[1..]);
      assert CollapseSpaces(s) == [s[0]] + c;
    }
  }

  /** The collapse never adds, drops or changes a visible character. */
  lemma {:induction false} CollapseKeepsVisible(s: string)
    ensures Visible(CollapseSpaces(s)) == Visible(s)
    decreases |s|
  {
    if s == [] {
    } else if IsSpace(s[0]) {
      var n := LeadingSpaces(s);
      LeadingSpacesFacts(s);
      var rest := s[n..];
      CollapseKeepsVisible(rest);
      VisibleAppend(" ", CollapseSpaces(rest));
      assert s == s[..n] + rest;
      VisibleAppend(s[..n], rest);
      VisibleOfSpaces(s[..n]);
    } else {
      CollapseKeepsVisible(s[1..]);
      VisibleAppend([s[0]], CollapseSpaces(s[1..]));
      assert s == [s[0]] + s[1..];
      VisibleAppend([s[0]], s[1..]);
    }
  }

  /** A collapsed text is a fixed point of the collapse. */
  lemma {:induction false} CollapseOfCollapsed(t: string)
    requires Collapsed(t)
    ensures CollapseSpaces(t) == t
    decreases |t|
  {
    if t != [] {
      assert Collapsed(t[1..]);
      CollapseOfCollapsed(t[1..]);
      if IsSpace(t[0]) {
        assert t[1..] == [] || !IsSpace(t[1..][0]);
        assert LeadingSpaces(t[1..]) == 0;
        assert LStrip(t) == t[1..];
      }
    }
  }

  lemma SliceOfCollapsed(t: string, i: nat, j: nat)
    requires Collapsed(t) && i <= j <= |t|
    ensures Collapsed(t[i..j])
  {
    var u := t[i..j];
    forall k | 0 <= k < |u| - 1 ensures !IsSpace(u[k]) || !IsSpace(u[k + 1]) {
      assert u[k] == t[i + k] && u[k + 1] == t[i + k + 1];
    }
  }

  /** Normalisation yields text with no whitespace at either end and single spaces only. */
  lemma NormalizeIsNormalized(s: string)
    ensures IsNormalized(Normalize(s))
  {
    var c := CollapseSpaces(s);
    CollapseShape(s);
    var i, j := StripIsSlice(c);
    SliceOfCollapsed(c, i, j);
  }

  /** Normalisation never adds, drops or changes a visible character. */
  lemma NormalizeKeepsVisible(s: string)
    ensures Visible(Normalize(s)) == Visible(s)
  {
    CollapseKeepsVisible(s);
    StripKeepsVisible(CollapseSpaces(s));
  }

  lemma StripKeepsVisible(c: string)
    ensures Visible(Strip(c)) == Visible(c)
  {
    var i, j := StripIsSlice(c);
    var a, m, z := c[..i], c[i..j], c[j..];
    assert c == (a + m) + z;
    VisibleAppend(a + m, z);
    VisibleAppend(a, m);
    VisibleOfSpaces(a);
    VisibleOfSpaces(z);
  }

  /** Normalisation is the identity on normalised text. */
  lemma NormalizeOfNormalized(t: string)
    requires IsNormalized(t)
    ensures Normalize(t) == t
  {
    CollapseOfCollapsed(t);
    StripOfStripped(t);
  }

  /** Normalising twice is the same as normalising once. */
  lemma NormalizeIdempotent(s: string)
    ensures Normalize(Normalize(s)) == Normalize(s)
  {
    NormalizeIsNormalized(s);
    NormalizeOfNormalized(Normalize(s));
  }

  /** A text normalises to the empty string exactly when it has no visible character. */
  lemma NormalizeEmptyIff(s: string)
    ensures Normalize(s) == [] <==> AllSpace(s)
  {
    var t := Normalize(s);
    NormalizeKeepsVisible(s);
    NormalizeIsNormalized(s);
    VisibleEmptyIff(s);
    VisibleEmptyIff(t);
    if t != [] {
      assert !IsSpace(t[0]);
    }
  }

  lemma {:induction false} VisibleEmptyIff(s: string)
    ensures Visible(s) == [] <==> AllSpace(s)
  {
    if s != [] {
      VisibleEmptyIff(s[1..]);
      if !IsSpace(s[0]) {
        assert Visible(s)[0] == s[0];
      } else {
        assert forall k :: 1 <= k < |s| ==> s[k] == s[1..][k - 1];
      }
    }
  }

  /** `s.rfind(c, lo, hi)` for in-range bounds: the last index in `[lo, hi)` holding `c`, or -1. */
  function RFind(s: string, c: char, lo: nat, hi: nat): (r: int)
    requires hi <= |s|
    ensures r == -1 || (lo <= r < hi && s[r] == c)
    ensures forall k :: lo <= k < hi && r < k ==> s[k] != c
    decreases hi
  {
    if hi <= lo then -1
    else if s[hi - 1] == c then hi - 1
    else RFind(s, c, lo, hi - 1)
  }

  /** Python's `str.upper()` restricted to ASCII letters. */
  function Upper(s: string): (r: string)
    ensures |r| == |s|
    ensures forall i :: 0 <= i < |s| ==> r[i] == UpperChar(s[i])
  {
    if s == [] then [] else [UpperChar(s[0])] + Upper(s[1..])
  }

  function UpperChar(c: char): (u: char)
    ensures IsSpace(u) <==> IsSpace(c)
  {
    if 'a' <= c <= 'z' then (c as int - 32) as char else c
  }

  lemma UpperAppend(a: string, b: string)
    ensures Upper(a + b) == Upper(a) + Upper(b)
  {
    var l, r := Upper(a + b), Upper(a) + Upper(b);
    assert |l| == |r|;
    forall i | 0 <= i < |l| ensures l[i] == r[i] {
      if i < |a| {
        assert (a + b)[i] == a[i];
        assert l[i] == UpperChar(a[i]) && r[i] == Upper(a)[i];
      } else {
        assert (a + b)[i] == b[i - |a|];
        assert l[i] == UpperChar(b[i - |a|]) && r[i] == Upper(b)[i - |a|];
      }
    }
  }

  lemma UpperIdempotent(s: string)
    ensures Upper(Upper(s)) == Upper(s)
  {
    var l, r := Upper(Upper(s)), Upper(s);
    forall i | 0 <= i < |l| ensures l[i] == r[i] {
      assert l[i] == UpperChar(r[i]) && r[i] == UpperChar(s[i]);
    }
  }

  lemma UpperSlice(s: string, i: nat, j: nat)
    requires i <= j <= |s|
    ensures Upper(s)[i..j] == Upper(s[i..j])
  {
    var l, r := Upper(s)[i..j], Upper(s[i..j]);
    forall k | 0 <= k < j - i
      ensures l[k] == r[k]
    {
      UpperSliceAt(s, i, j, k);
    }
    SamePointwise(l, r);
  }

  lemma UpperSliceAt(s: string, i: nat, j: nat, k: nat)
    requires i <= j <= |s| && k < j - i
    ensures Upper(s)[i..j][k] == Upper(s[i..j])[k]
  {
    assert s[i..j][k] == s[i + k];
  }

  lemma SamePointwise(l: string, r: string)
    requires |l| == |r| && forall k :: 0 <= k < |l| ==> l[k] == r[k]
    ensures l == r
  {
  }

  /** Upper-casing leaves whitespace where it was. */
  lemma {:induction false} UpperLeadingSpaces(s: string)
    ensures LeadingSpaces(Upper(s)) == LeadingSpaces(s)
  {
    if s != [] {
      UpperSlice(s, 1, |s|);
      UpperLeadingSpaces(s[1..]);
    }
  }

  lemma {:induction false} UpperTrailingSpaces(s: string)
    ensures TrailingSpaces(Upper(s)) == TrailingSpaces(s)
  {
    if s != [] {
      UpperSlice(s, 0, |s| - 1);
      UpperTrailingSpaces(s[..|s| - 1]);
    }
  }

  /** `s.upper().strip() == s.strip().upper()`. */
  lemma StripUpper(s: string)
    ensures Strip(Upper(s)) == Upper(Strip(s))
  {
    LStripUpper(s);
    RStripUpper(LStrip(s));
  }

  lemma LStripUpper(s: string)
    ensures LStrip(Upper(s)) == Upper(LStrip(s))
  {
    UpperLeadingSpaces(s);
    UpperSlice(s, LeadingSpaces(s), |s|);
    assert s[LeadingSpaces(s)..|s|] == LStrip(s);
  }

  lemma RStripUpper(t: string)
    ensures RStrip(Upper(t)) == Upper(RStrip(t))
  {
    var n := |t| - TrailingSpaces(t);
    UpperTrailingSpaces(t);
    UpperSlice(t, 0, n);
    assert t[0..n] == RStrip(t);
  }

  /** `s.replace(c, "")` for a single character. */
  function RemoveAll(s: string, c: char): (r: string)
    ensures c !in r
    ensures |r| <= |s|
  {
    if s == [] then [] else (if s[0] == c then [] else [s[0]]) + RemoveAll(s[1..], c)
  }

  /** Removing a character the string does not hold leaves the string as it is. */
  lemma {:induction false} RemoveAllAbsent(s: string, c: char)
    requires c !in s
    ensures RemoveAll(s, c) == s
  {
    if s != [] {
      RemoveAllAbsent(s[1..], c);
    }
  }

  lemma {:induction false} RemoveAllAppend(a: string, b: string, c: char)
    ensures RemoveAll(a + b, c) == RemoveAll(a, c) + RemoveAll(b, c)
  {
    if a == [] {
      assert a + b == b;
    } else {
      var h := if a[0] == c then [] else [a[0]];
      assert (a + b)[0] == a[0] && (a + b)[1..] == a[1..] + b;
      RemoveAllAppend(a[1..], b, c);
      ConcatAssoc(h, RemoveAll(a[1..], c), RemoveAll(b, c));
    }
  }

  lemma ConcatAssoc<T>(x: seq<T>, y: seq<T>, z: seq<T>)
    ensures x + (y + z) == (x + y) + z
  {
  }

  predicate StartsWith(s: string, p: string) {
    |p| <= |s| && s[..|p|] == p
  }

  /** Python's `needle in hay` for strings. */
  predicate Contains(hay: string, needle: string)
    decreases |hay|
  {
    StartsWith(hay, needle) || (hay != [] && Contains(hay[1..], needle))
  }

  predicate OccursAt(hay: string, needle: string, i: int) {
    0 <= i <= |hay| - |needle| && hay[i..i + |needle|] == needle
  }

  /** Substring containment says exactly that the needle occurs at some position. */
  lemma {:induction false} ContainsIff(hay: string, needle: string)
    ensures Contains(hay, needle) <==> exists i :: OccursAt(hay, needle, i)
    decreases |hay|
  {
    if StartsWith(hay, needle) {
      assert OccursAt(hay, needle, 0);
    } else if hay != [] {
      ContainsIff(hay[1..], needle);
      if Contains(hay[1..], needle) {
        var i :| OccursAt(hay[1..], needle, i);
        assert hay[1..][i..i + |needle|] == hay[i + 1..i + 1 + |needle|];
        assert OccursAt(hay, needle, i + 1);
      }
      if exists i :: OccursAt(hay, needle, i) {
        var i :| OccursAt(hay, needle, i);
        assert i != 0;
        assert hay[1..][i - 1..i - 1 + |needle|] == hay[i..i + |needle|];
        assert OccursAt(hay[1..], needle, i - 1);
      }
    }
  }

  /** Python's argument-less `s.split()`: the maximal runs of non-whitespace characters. */
  function Split(s: string): (r: seq<string>)
    ensures forall w :: w in r ==> w != [] && NoSpace(w)
    decreases |s|
  {
    var t := LStrip(s);
    LeadingSpacesFacts(s);
    if t == [] then []
    else
      var w := Word(t);
      [w] + Split(t[|w|..])
  }

  /** The leading run of non-whitespace characters. */
  function Word(s: string): (w: string)
    ensures |w| <= |s| && w == s[..|w|] && NoSpace(w)
    ensures s != [] && !IsSpace(s[0]) ==> w != []
    ensures |w| < |s| ==> IsSpace(s[|w|])
  {
    if s == [] || IsSpace(s[0]) then [] else [s[0]] + Word(s[1..])
  }

  /** `sep.join(parts)`. */
  function Join(sep: string, parts: seq<string>): string {
    if parts == [] then []
    else if |parts| == 1 then parts[0]
    else parts[0] + sep + Join(sep, parts[1..])
  }

  /** Joining the words of `s.split()` with single spaces gives the whitespace-normalised
      text: the words are exactly the maximal non-whitespace runs of `s`, in order. */
  lemma SplitJoinsToNormalize(s: string)
    ensures Join(" ", Split(s)) == Normalize(s)
  {
    LeadingSpacesFacts(s);
    SplitOfLStrip(s);
    JoinSplitCollapsed(LStrip(s));
    LStripCollapse(s);
  }

  /** For text that starts with a word, the joined words are the collapsed text with its
      trailing whitespace removed. */
  lemma {:induction false} JoinSplitCollapsed(t: string)
    requires t == [] || !IsSpace(t[0])
    ensures Join(" ", Split(t)) == RStrip(CollapseSpaces(t))
    decreases |t|
  {
    if t != [] {
      LStripUnchanged(t);
      var w := Word(t);
      var rest := t[|w|..];
      assert t == w + rest;
      assert Split(t) == [w] + Split(rest);
      CollapseWord(w, rest);
      var next := LStrip(rest);
      LeadingSpacesFacts(rest);
      SplitOfLStrip(rest);
      if next == [] {
        var tail := CollapseSpaces(rest);
        assert tail == [] || tail == " ";
        RStripDropsSpaces(w, tail);
      } else {
        assert rest[0] == t[|w|];
        var tail := CollapseSpaces(next);
        assert CollapseSpaces(rest) == " " + tail;
        JoinSplitCollapsed(next);
        LStripUnchanged(next);
        var words := Split(next);
        assert ([w] + words)[1..] == words;
        RStripKeepsHead(w + " ", tail);
        ConcatAssoc(w, " ", tail);
      }
    }
  }

  lemma LStripUnchanged(t: string)
    requires t == [] || !IsSpace(t[0])
    ensures LStrip(t) == t
  {
  }

  /** `s.split()` skips the leading whitespace. */
  lemma SplitOfLStrip(s: string)
    ensures Split(s) == Split(LStrip(s))
  {
    LeadingSpacesFacts(s);
    LStripUnchanged(LStrip(s));
  }

  /** Stripping on the left commutes with collapsing whitespace. */
  lemma LStripCollapse(s: string)
    ensures LStrip(CollapseSpaces(s)) == CollapseSpaces(LStrip(s))
  {
    LeadingSpacesFacts(s);
    var t := LStrip(s);
    var c := CollapseSpaces(t);
    assert c == [] || c[0] == t[0];
    if s != [] && IsSpace(s[0]) {
      var x := " " + c;
      assert x[1..] == c;
      assert LeadingSpaces(x) == 1 + LeadingSpaces(c);
    } else {
      LStripUnchanged(CollapseSpaces(s));
    }
  }

  /** Collapsing leaves a leading word alone. */
  lemma {:induction false} CollapseWord(w: string, x: string)
    requires NoSpace(w)
    ensures CollapseSpaces(w + x) == w + CollapseSpaces(x)
  {
    if w == [] {
      assert w + x == x;
    } else {
      assert (w + x)[0] == w[0];
      assert (w + x)[1..] == w[1..] + x;
      CollapseWord(w[1..], x);
      assert w == [w[0]] + w[1..];
      ConcatAssoc([w[0]], w[1..], CollapseSpaces(x));
    }
  }

  lemma {:induction false} TrailingSpacesOfTail(a: string, c: string)
    requires c != [] && !IsSpace(c[0])
    ensures TrailingSpaces(a + c) == TrailingSpaces(c)
    decreases |c|
  {
    var ac := a + c;
    assert ac[|ac| - 1] == c[|c| - 1];
    if IsSpace(c[|c| - 1]) {
      assert ac[..|ac| - 1] == a + c[..|c| - 1];
      TrailingSpacesOfTail(a, c[..|c| - 1]);
    }
  }

  /** Right-stripping text that has a non-whitespace character after `a` keeps `a`. */
  lemma RStripKeepsHead(a: string, c: string)
    requires c != [] && !IsSpace(c[0])
    ensures RStrip(a + c) == a + RStrip(c)
  {
    TrailingSpacesOfTail(a, c);
    assert (a + c)[..|a| + |c| - TrailingSpaces(c)] == a + c[..|c| - TrailingSpaces(c)];
  }

  lemma {:induction false} TrailingSpacesOfSpaces(a: string, b: string)
    requires (a == [] || !IsSpace(a[|a| - 1])) && AllSpace(b)
    ensures TrailingSpaces(a + b) == |b|
    decreases |b|
  {
    var ab := a + b;
    if b == [] {
      assert ab == a;
    } else {
      assert ab[|ab| - 1] == b[|b| - 1];
      assert ab[..|ab| - 1] == a + b[..|b| - 1];
      TrailingSpacesOfSpaces(a, b[..|b| - 1]);
    }
  }

  /** Right-stripping drops a whitespace tail after text ending in a non-whitespace character. */
  lemma RStripDropsSpaces(a: string, b: string)
    requires (a == [] || !IsSpace(a[|a| - 1])) && AllSpace(b)
    ensures RStrip(a + b) == a
  {
    TrailingSpacesOfSpaces(a, b);
    assert (a + b)[..|a|] == a;
  }

  /** Python's `str(n)` for an integer. */
  function IntToString(n: int): (r: string)
    ensures r != []
  {
    if n < 0 then "-" + NatToString(-n) else NatToString(n)
  }

  function NatToString(n: nat): (r: string)
    ensures r != [] && forall i :: 0 <= i < |r| ==> '0' <= r[i] <= '9'
  {
    if n < 10 then [Digit(n)] else NatToString(n / 10) + [Digit(n % 10)]
  }

  function Digit(d: nat): (c: char)
    requires d < 10
    ensures '0' <= c <= '9'
  {
    "0123456789"[d]
  }
}
