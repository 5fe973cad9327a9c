/**
 * Tokenising as Python's `str.split()` and `str.strip()` do it (no arguments):
 * fields are the maximal runs of characters that are not separators.
 * The splitting is written once over an arbitrary separator predicate and used
 * both for whitespace (command lines) and for '/' (path arguments).
 */
module Text {

  /** The characters for which Python's `str.isspace()` holds. */
  predicate IsSpace(c: char) {
    || c == ' ' || c == '\t' || c == '\n' || c == '\r'
    || c == '\U{B}' || c == '\U{C}'
    || ('\U{1C}' <= c <= '\U{1F}')
    || c == '\U{85}' || c == '\U{A0}' || c == '\U{1680}'
    || ('\U{2000}' <= c <= '\U{200A}')
    || c == '\U{2028}' || c == '\U{2029}' || c == '\U{202F}' || c == '\U{205F}' || c == '\U{3000}'
  }

  /** A field: non-empty and free of separators. */
  predicate IsField(w: string, isSep: char -> bool) {
    w != [] && forall i :: 0 <= i < |w| ==> !isSep(w[i])
  }

  predicate AllSeps(s: string, isSep: char -> bool) {
    forall i :: 0 <= i < |s| ==> isSep(s[i])
  }

  /** Drops the leading separators of `s`. */
  function SkipSeps(s: string, isSep: char -> bool): (r: string)
    ensures |r| <= |s|
  {
    if s != [] && isSep(s[0]) then SkipSeps(s[1..], isSep) else s
  }

  /** Drops the trailing separators of `s`. */
  function TrimSepsRight(s: string, isSep: char -> bool): (r: string)
    ensures |r| <= |s|
  {
    if s != [] && isSep(s[|s| - 1]) then TrimSepsRight(s[..|s| - 1], isSep) else s
  }

  /** The length of the leading run of non-separators of `s`. */
  function FieldLength(s: string, isSep: char -> bool): (n: nat)
    ensures n <= |s|
  {
    if s == [] || isSep(s[0]) then 0 else 1 + FieldLength(s[1..], isSep)
  }

  /** `SkipSeps` removes exactly the leading separators. */
  lemma {:induction false} SkipSepsSpec(s: string, isSep: char -> bool)
    ensures var r := SkipSeps(s, isSep);
      && r == s[|s| - |r|..]
      && (r != [] ==> !isSep(r[0]))
      && AllSeps(s[..|s| - |r|], isSep)
    decreases |s|
  {
    if s != [] && isSep(s[0]) {
      SkipSepsSpec(s[1..], isSep);
      var r := SkipSeps(s, isSep);
      assert s[1..][..|s| - 1 - |r|] == s[1..|s| - |r|];
    }
  }

  /** `TrimSepsRight` removes exactly the trailing separators. */
  lemma {:induction false} TrimSepsRightSpec(s: string, isSep: char -> bool)
    ensures var r := TrimSepsRight(s, isSep);
      && r == s[..|r|]
      && (r != [] ==> !isSep(r[|r| - 1]))
      && AllSeps(s[|r|..], isSep)
    decreases |s|
  {
    if s != [] && isSep(s[|s| - 1]) {
      var u := s[..|s| - 1];
      TrimSepsRightSpec(u, isSep);
      var r := TrimSepsRight(s, isSep);
      assert r == TrimSepsRight(u, isSep);
      assert s[|r|..] == u[|r|..] + [s[|s| - 1]];
    }
  }

  /** `FieldLength` measures exactly the leading run of non-separators. */
  lemma {:induction false} FieldLengthSpec(s: string, isSep: char -> bool)
    ensures var n := FieldLength(s, isSep);
      && (forall i :: 0 <= i < n ==> !isSep(s[i]))
      && (n < |s| ==> isSep(s[n]))
    decreases |s|
  {
    if s != [] && !isSep(s[0]) {
      FieldLengthSpec(s[1..], isSep);
    }
  }

  /** The maximal separator-free runs of `s`, left to right. */
  function Fields(s: string, isSep: char -> bool): (ws: seq<string>)
    ensures forall k :: 0 <= k < |ws| ==> IsField(ws[k], isSep)
    decreases |s|
  {
    var t := SkipSeps(s, isSep);
    if t == [] then []
    else
      SkipSepsSpec(s, isSep);
      FieldLengthSpec(t, isSep);
      var n := FieldLength(t, isSep);
      var rest := Fields(t[n..], isSep);
      assert IsField(t[..n], isSep);
      [t[..n]] + rest
  }

  /** `str.split()` with no argument. */
  function Split(s: string): (r: seq<string>)
    ensures forall k :: 0 <= k < |r| ==> IsField(r[k], IsSpace)
  {
    Fields(s, IsSpace)
  }

  /** `str.strip()` with no argument. */
  function Strip(s: string): (r: string)
    ensures |r| <= |s|
    ensures r != [] ==> !IsSpace(r[0]) && !IsSpace(r[|r| - 1])
    ensures exists i ::
      && 0 <= i <= |s| - |r| && r == s[i..i + |r|]
      && AllSeps(s[..i], IsSpace) && AllSeps(s[i + |r|..], IsSpace)
  {
    var t := SkipSeps(s, IsSpace);
    SkipSepsSpec(s, IsSpace);
    TrimSepsRightSpec(t, IsSpace);
    var r := TrimSepsRight(t, IsSpace);
    var i := |s| - |t|;
    assert r == s[i..i + |r|];
    assert s[i + |r|..] == t[|r|..];
    r
  }

  /** The fields `ws` with one `sep` between neighbours. */
  function JoinWith(ws: seq<string>, sep: char): string
    decreases |ws|
  {
    if ws == [] then ""
    else if |ws| == 1 then ws[0]
    else ws[0] + [sep] + JoinWith(ws[1..], sep)
  }

  /** A line splits into no tokens exactly when it is blank. */
  lemma FieldsEmptyIffAllSeps(s: string, isSep: char -> bool)
    ensures Fields(s, isSep) == [] <==> AllSeps(s, isSep)
  {
    var t := SkipSeps(s, isSep);
    SkipSepsSpec(s, isSep);
    if t != [] {
      assert s[|s| - |t|] == t[0];
    } else {
      assert s[..|s| - |t|] == s;
    }
  }

  lemma SplitEmptyIffBlank(s: string)
    ensures Split(s) == [] <==> AllSeps(s, IsSpace)
  {
    FieldsEmptyIffAllSeps(s, IsSpace);
  }

  lemma FieldLengthAppend(t: string, w: string, isSep: char -> bool)
    requires AllSeps(w, isSep)
    ensures FieldLength(t + w, isSep) == FieldLength(t, isSep)
    decreases |t|
  {
    if t == [] {
      if w != [] { assert (t + w)[0] == w[0]; }
    } else if !isSep(t[0]) {
      assert (t + w)[1..] == t[1..] + w;
      FieldLengthAppend(t[1..], w, isSep);
    }
  }

  lemma SkipSepsAppend(s: string, w: string, isSep: char -> bool)
    requires AllSeps(w, isSep)
    ensures SkipSeps(s + w, isSep) == if SkipSeps(s, isSep) == [] then [] else SkipSeps(s, isSep) + w
    decreases |s|
  {
    if s == [] {
      assert s + w == w;
      SkipAllSeps(w, isSep);
    } else if isSep(s[0]) {
      assert (s + w)[0] == s[0];
      assert (s + w)[1..] == s[1..] + w;
      SkipSepsAppend(s[1..], w, isSep);
    } else {
      assert (s + w)[0] == s[0];
    }
  }

  lemma SkipAllSeps(w: string, isSep: char -> bool)
    requires AllSeps(w, isSep)
    ensures SkipSeps(w, isSep) == []
    decreases |w|
  {
    if w != [] { SkipAllSeps(w[1..], isSep); }
  }

  lemma SliceAppend<T>(t: seq<T>, w: seq<T>, n: nat)
    requires n <= |t|
    ensures (t + w)[..n] == t[..n]
    ensures (t + w)[n..] == t[n..] + w
  {
  }

  /** Trailing separators do not change the fields. */
  lemma {:induction false} FieldsIgnoreTrailingSeps(s: string, w: string, isSep: char -> bool)
    requires AllSeps(w, isSep)
    ensures Fields(s + w, isSep) == Fields(s, isSep)
    decreases |s|
  {
    var t := SkipSeps(s, isSep);
    SkipSepsAppend(s, w, isSep);
    if t != [] {
      var n := FieldLength(t, isSep);
      FieldLengthAppend(t, w, isSep);
      SliceAppend(t, w, n);
      FieldsIgnoreTrailingSeps(t[n..], w, isSep);
      calc {
        Fields(s + w, isSep);
        [(t + w)[..n]] + Fields((t + w)[n..], isSep);
        [t[..n]] + Fields(t[n..], isSep);
        Fields(s, isSep);
      }
    } else {
      assert SkipSeps(s + w, isSep) == [];
    }
  }

  /** Leading separators do not change the fields. */
  lemma FieldsIgnoreLeadingSeps(s: string, isSep: char -> bool)
    ensures Fields(SkipSeps(s, isSep), isSep) == Fields(s, isSep)
  {
  }

  lemma FieldsAfterSep(c: char, s: string, isSep: char -> bool)
    requires isSep(c)
    ensures Fields([c] + s, isSep) == Fields(s, isSep)
  {
    assert ([c] + s)[1..] == s;
    assert SkipSeps([c] + s, isSep) == SkipSeps(s, isSep);
  }

  /** Stripping a line before splitting it changes nothing: `line.strip().split() == line.split()`. */
  lemma SplitStrip(s: string)
    ensures Split(Strip(s)) == Split(s)
  {
    var t := SkipSeps(s, IsSpace);
    var r := TrimSepsRight(t, IsSpace);
    TrimSepsRightSpec(t, IsSpace);
    assert t == r + t[|r|..];
    FieldsIgnoreTrailingSeps(r, t[|r|..], IsSpace);
    FieldsIgnoreLeadingSeps(s, IsSpace);
  }

  lemma FieldLengthOfField(w: string, rest: string, isSep: char -> bool)
    requires IsField(w, isSep)
    requires rest == [] || isSep(rest[0])
    ensures FieldLength(w + rest, isSep) == |w|
    decreases |w|
  {
    if |w| == 1 {
      assert (w + rest)[1..] == rest;
    } else {
      assert (w + rest)[1..] == w[1..] + rest;
      FieldLengthOfField(w[1..], rest, isSep);
    }
  }

  /** Joining fields with a separator and splitting again gives the fields back. */
  lemma {:induction false} FieldsJoinWith(ws: seq<string>, sep: char, isSep: char -> bool)
    requires isSep(sep)
    requires forall k :: 0 <= k < |ws| ==> IsField(ws[k], isSep)
    ensures Fields(JoinWith(ws, sep), isSep) == ws
    decreases |ws|
  {
    if ws == [] {
    } else if |ws| == 1 {
      var w := ws[0];
      assert SkipSeps(w, isSep) == w;
      FieldLengthSpec(w, isSep);
      FieldLengthOfField(w, [], isSep);
      assert w[|w|..] == [];
      assert w == w[..|w|];
    } else {
      var w, rest := ws[0], [sep] + JoinWith(ws[1..], sep);
      assert JoinWith(ws, sep) == w + rest;
      assert SkipSeps(w + rest, isSep) == w + rest;
      FieldLengthOfField(w, rest, isSep);
      assert (w + rest)[..|w|] == w;
      assert (w + rest)[|w|..] == rest;
      assert SkipSeps(rest, isSep) == SkipSeps(JoinWith(ws[1..], sep), isSep);
      FieldsJoinWith(ws[1..], sep, isSep);
    }
  }

  /** Tokens joined by single spaces split back into the same tokens. */
  lemma SplitJoin(ws: seq<string>)
    requires forall k :: 0 <= k < |ws| ==> IsField(ws[k], IsSpace)
    ensures Split(JoinWith(ws, ' ')) == ws
  {
    FieldsJoinWith(ws, ' ', IsSpace);
  }
}
