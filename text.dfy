/**
 * The string primitives the monitor relies on, restricted to ASCII:
 * `str.strip()`, `str.lower()`, `str.upper()`, `str.split(sep)`,
 * `str.splitlines()`, `str.split(":", 1)[-1]`, the `in` substring test,
 * Python's `<=` on strings and the truthiness of an optional string.
 */
module Text {
  import opened Wrappers

  /** The ASCII characters for which Python's `str.isspace()` holds:
      TAB, LF, VT, FF, CR, the four separators 0x1C..0x1F and SPACE. */
  predicate IsSpace(c: char) {
    c == ' ' || ('\t' <= c <= '\r') || ('\U{1C}' <= c <= '\U{1F}')
  }

  /** The ASCII line boundaries of `str.splitlines()`: LF, CR, VT, FF, 0x1C, 0x1D, 0x1E.
      A CR LF pair yields one extra empty piece here; every caller drops blank lines,
      so the difference never shows. */
  const LineBreaks: set<char> := {'\n', '\r', '\U{0B}', '\U{0C}', '\U{1C}', '\U{1D}', '\U{1E}'}

  predicate Blank(s: string) {
    forall i :: 0 <= i < |s| ==> IsSpace(s[i])
  }

  /** No whitespace at either end. */
  predicate Trimmed(s: string) {
    s == [] || (!IsSpace(s[0]) && !IsSpace(s[|s| - 1]))
  }

  function TrimLeft(s: string): (r: string)
    ensures |r| <= |s| && r == s[|s| - |r|..]
    ensures r == [] || !IsSpace(r[0])
    ensures forall i :: 0 <= i < |s| - |r| ==> IsSpace(s[i])
  {
    if s != [] && IsSpace(s[0]) then
      var r := TrimLeft(s[1..]);
      assert s[1..][|s| - 1 - |r|..] == s[|s| - |r|..];
      assert forall i :: 1 <= i < |s| ==> s[i] == s[1..][i - 1];
      r
    else s
  }

  function TrimRight(s: string): (r: string)
    ensures |r| <= |s| && r == s[..|r|]
    ensures r == [] || !IsSpace(r[|r| - 1])
    ensures forall i :: |r| <= i < |s| ==> IsSpace(s[i])
  {
    if s != [] && IsSpace(s[|s| - 1]) then
      var r := TrimRight(s[..|s| - 1]);
      assert s[..|s| - 1][..|r|] == s[..|r|];
      r
    else s
  }

  /** `s.strip()`: drops the leading and trailing whitespace and nothing else. */
  function Strip(s: string): (r: string)
    ensures Trimmed(r)
    ensures |r| <= |s|
    ensures r == [] <==> Blank(s)
    ensures Trimmed(s) ==> r == s
  {
    var l := TrimLeft(s);
    var r := TrimRight(l);
    assert r != [] ==> r[0] == l[0];
    assert Blank(s) ==> l == [];
    assert r == [] ==> l == [];
    r
  }

  /** `TrimLeft(s)` is `s` after its leading whitespace; what `Strip` keeps
      of it is a prefix followed by nothing but whitespace. */
  lemma StripIsSlice(s: string)
    ensures |Strip(s)| <= |TrimLeft(s)|
    ensures Strip(s) == TrimLeft(s)[..|Strip(s)|]
    ensures forall k :: |Strip(s)| <= k < |TrimLeft(s)| ==> IsSpace(TrimLeft(s)[k])
  {
    assert Strip(s) == TrimRight(TrimLeft(s));
  }

  lemma StripIdempotent(s: string)
    ensures Strip(Strip(s)) == Strip(s)
  {
  }

  predicate IsUpper(c: char) { 'A' <= c <= 'Z' }

  predicate IsLower(c: char) { 'a' <= c <= 'z' }

  function LowerChar(c: char): char {
    if IsUpper(c) then (c as int - 'A' as int + 'a' as int) as char else c
  }

  function UpperChar(c: char): char {
    if IsLower(c) then (c as int - 'a' as int + 'A' as int) as char else c
  }

  /** `s.lower()` on ASCII: every upper-case letter becomes its lower-case
      partner, every other character stays. */
  function Lower(s: string): (r: string)
    ensures |r| == |s|
    ensures forall i :: 0 <= i < |s| ==> r[i] == if IsUpper(s[i]) then (s[i] as int + 32) as char else s[i]
    ensures forall i :: 0 <= i < |r| ==> !IsUpper(r[i]) && (IsUpper(s[i]) || r[i] == s[i])
    ensures forall i :: 0 <= i < |r| ==> IsSpace(r[i]) == IsSpace(s[i])
  {
    if s == [] then [] else [LowerChar(s[0])] + Lower(s[1..])
  }

  /** `s.upper()` on ASCII: every lower-case letter becomes its upper-case
      partner, every other character stays. */
  function Upper(s: string): (r: string)
    ensures |r| == |s|
    ensures forall i :: 0 <= i < |s| ==> r[i] == if IsLower(s[i]) then (s[i] as int - 32) as char else s[i]
    ensures forall i :: 0 <= i < |r| ==> !IsLower(r[i]) && (IsLower(s[i]) || r[i] == s[i])
  {
    if s == [] then [] else [UpperChar(s[0])] + Upper(s[1..])
  }

  lemma LowerOfLowerCase(s: string)
    requires forall i :: 0 <= i < |s| ==> !IsUpper(s[i])
    ensures Lower(s) == s
  {
  }

  /** The characters of `s` that are separators, in order. */
  function SeparatorsIn(s: string, seps: set<char>): (r: string)
    ensures forall i :: 0 <= i < |r| ==> r[i] in seps
  {
    if s == [] then [] else (if s[0] in seps then [s[0]] else []) + SeparatorsIn(s[1..], seps)
  }

  /** `pieces[0] + cs[0] + pieces[1] + cs[1] + ... + pieces[|cs|]`. */
  function Interleave(pieces: seq<string>, cs: string): string
    requires |pieces| == |cs| + 1
    decreases |cs|
  {
    if cs == [] then pieces[0] else pieces[0] + [cs[0]] + Interleave(pieces[1..], cs[1..])
  }

  /** `s.split(sep)` generalised to a set of one-character separators: the
      separator-free pieces between separators (`SplitRebuilds` shows that
      putting the separators back between them rebuilds the text). */
  function SplitOn(s: string, seps: set<char>): (r: seq<string>)
    ensures |r| >= 1
    ensures forall k :: 0 <= k < |r| ==> forall i :: 0 <= i < |r[k]| ==> r[k][i] !in seps
  {
    if s == [] then [[]]
    else if s[0] in seps then [[]] + SplitOn(s[1..], seps)
    else
      var rest := SplitOn(s[1..], seps);
      [[s[0]] + rest[0]] + rest[1..]
  }

  /** There is one piece more than there are separators, and the pieces with
      the separators put back between them, in order, are the text. */
  lemma {:induction false} SplitRebuilds(s: string, seps: set<char>)
    ensures |SplitOn(s, seps)| == |SeparatorsIn(s, seps)| + 1
    ensures Interleave(SplitOn(s, seps), SeparatorsIn(s, seps)) == s
    decreases |s|
  {
    if s != [] {
      SplitRebuilds(s[1..], seps);
      if s[0] in seps {
        RebuildAfterSeparator(s, seps);
      } else {
        RebuildAfterOther(s, seps);
      }
    }
  }

  /** The step of `SplitRebuilds` when the text starts with a separator. */
  lemma RebuildAfterSeparator(s: string, seps: set<char>)
    requires s != [] && s[0] in seps
    requires |SplitOn(s[1..], seps)| == |SeparatorsIn(s[1..], seps)| + 1
    requires Interleave(SplitOn(s[1..], seps), SeparatorsIn(s[1..], seps)) == s[1..]
    ensures |SplitOn(s, seps)| == |SeparatorsIn(s, seps)| + 1
    ensures Interleave(SplitOn(s, seps), SeparatorsIn(s, seps)) == s
  {
    var rest := SplitOn(s[1..], seps);
    var cs := SeparatorsIn(s[1..], seps);
    var r := [[]] + rest;
    assert SplitOn(s, seps) == r;
    assert SeparatorsIn(s, seps) == [s[0]] + cs;
    assert r[1..] == rest;
    assert ([s[0]] + cs)[1..] == cs;
    assert s == [] + [s[0]] + s[1..];
  }

  /** The step of `SplitRebuilds` when the text starts with another character. */
  lemma RebuildAfterOther(s: string, seps: set<char>)
    requires s != [] && s[0] !in seps
    requires |SplitOn(s[1..], seps)| == |SeparatorsIn(s[1..], seps)| + 1
    requires Interleave(SplitOn(s[1..], seps), SeparatorsIn(s[1..], seps)) == s[1..]
    ensures |SplitOn(s, seps)| == |SeparatorsIn(s, seps)| + 1
    ensures Interleave(SplitOn(s, seps), SeparatorsIn(s, seps)) == s
  {
    var rest := SplitOn(s[1..], seps);
    var cs := SeparatorsIn(s[1..], seps);
    var r := [[s[0]] + rest[0]] + rest[1..];
    assert SplitOn(s, seps) == r;
    assert SeparatorsIn(s, seps) == [] + cs;
    assert [] + cs == cs;
    assert r[1..] == rest[1..];
    assert s == [s[0]] + s[1..];
    if cs != [] {
      var tail := [cs[0]] + Interleave(rest[1..], cs[1..]);
      assert Interleave(rest, cs) == rest[0] + tail by {
        Assoc(rest[0], [cs[0]], Interleave(rest[1..], cs[1..]));
      }
      assert Interleave(r, cs) == ([s[0]] + rest[0]) + tail by {
        Assoc([s[0]] + rest[0], [cs[0]], Interleave(r[1..], cs[1..]));
      }
      Assoc([s[0]], rest[0], tail);
    } else {
      assert Interleave(r, cs) == [s[0]] + rest[0];
    }
  }

  /** `sep.join(pieces)`. */
  function JoinWith(pieces: seq<string>, sep: char): string
    requires |pieces| >= 1
  {
    if |pieces| == 1 then pieces[0] else pieces[0] + [sep] + JoinWith(pieces[1..], sep)
  }

  /** Splitting on one separator and joining back with it gives the text back. */
  lemma {:induction false} JoinSplit(s: string, sep: char)
    ensures JoinWith(SplitOn(s, {sep}), sep) == s
  {
    if s == [] {
    } else if s[0] == sep {
      var rest := SplitOn(s[1..], {sep});
      JoinSplit(s[1..], sep);
      assert SplitOn(s, {sep}) == [[]] + rest;
      assert ([[]] + rest)[1..] == rest;
    } else {
      var rest := SplitOn(s[1..], {sep});
      JoinSplit(s[1..], sep);
      var r := [[s[0]] + rest[0]] + rest[1..];
      assert SplitOn(s, {sep}) == r;
      if |rest| == 1 {
      } else {
        assert r[1..] == rest[1..];
        assert JoinWith(rest, sep) == rest[0] + [sep] + JoinWith(rest[1..], sep);
      }
    }
  }

  /** A text with no separator is a single piece. */
  lemma {:induction false} SplitNoSeparator(s: string, seps: set<char>)
    requires forall i :: 0 <= i < |s| ==> s[i] !in seps
    ensures SplitOn(s, seps) == [s]
  {
    if s != [] {
      SplitNoSeparator(s[1..], seps);
      assert [s[0]] + s[1..] == s;
    }
  }

  /** A separator cuts the text into the piece before it and the split of the rest. */
  lemma {:induction false} SplitAtSeparator(a: string, c: char, b: string, seps: set<char>)
    requires forall i :: 0 <= i < |a| ==> a[i] !in seps
    requires c in seps
    ensures SplitOn(a + [c] + b, seps) == [a] + SplitOn(b, seps)
  {
    if a == [] {
      assert (a + [c] + b)[1..] == b;
    } else {
      SplitAtSeparator(a[1..], c, b, seps);
      assert (a + [c] + b)[1..] == a[1..] + [c] + b;
      assert [a[0]] + a[1..] == a;
    }
  }

  /** The stripped, non-blank lines among `lines`, in order
      (`[ln.strip() for ln in lines if ln.strip()]`). */
  function KeepNonBlank(lines: seq<string>): (r: seq<string>)
    ensures |r| <= |lines|
    ensures forall k :: 0 <= k < |r| ==> r[k] != [] && Trimmed(r[k])
  {
    if lines == [] then []
    else
      var t := Strip(lines[0]);
      (if t == [] then [] else [t]) + KeepNonBlank(lines[1..])
  }

  /** The stripped non-blank lines of `s` when it is cut at every character of `seps`. */
  function NonBlankLines(s: string, seps: set<char>): (r: seq<string>)
    ensures forall k :: 0 <= k < |r| ==> r[k] != [] && Trimmed(r[k])
  {
    KeepNonBlank(SplitOn(s, seps))
  }

  /** Every piece of a blank text is blank. */
  lemma {:induction false} SplitOnBlank(s: string, seps: set<char>)
    requires Blank(s)
    ensures forall k :: 0 <= k < |SplitOn(s, seps)| ==> Blank(SplitOn(s, seps)[k])
  {
    if s != [] {
      SplitOnBlank(s[1..], seps);
    }
  }

  /** A blank text has no non-blank lines. */
  lemma {:induction false} BlankHasNoLines(s: string, seps: set<char>)
    requires Blank(s)
    ensures NonBlankLines(s, seps) == []
  {
    SplitOnBlank(s, seps);
    AllBlankKeepsNothing(SplitOn(s, seps));
  }

  lemma {:induction false} AllBlankKeepsNothing(lines: seq<string>)
    requires forall k :: 0 <= k < |lines| ==> Blank(lines[k])
    ensures KeepNonBlank(lines) == []
  {
    if lines != [] {
      AllBlankKeepsNothing(lines[1..]);
    }
  }

  /** Trimming the front of `x + y` reaches into `y` only when `x` is blank. */
  lemma {:induction false} TrimLeftAppendBlank(x: string, y: string)
    requires Blank(x)
    ensures TrimLeft(x + y) == TrimLeft(y)
    decreases |x|
  {
    if x != [] {
      assert (x + y)[1..] == x[1..] + y;
      TrimLeftAppendBlank(x[1..], y);
    } else {
      assert x + y == y;
    }
  }

  lemma {:induction false} TrimLeftAppendVisible(x: string, y: string)
    requires !Blank(x)
    ensures TrimLeft(x + y) == TrimLeft(x) + y
    decreases |x|
  {
    assert (x + y)[0] == x[0];
    if IsSpace(x[0]) {
      assert (x + y)[1..] == x[1..] + y;
      TrimLeftAppendVisible(x[1..], y);
    }
  }

  /** A whitespace character in front does not change what is stripped. */
  lemma StripConsSpace(c: char, x: string)
    requires IsSpace(c)
    ensures Strip([c] + x) == Strip(x)
  {
    assert ([c] + x)[1..] == x;
  }

  /** A whitespace character at the end does not change what is stripped. */
  lemma StripSnocSpace(x: string, c: char)
    requires IsSpace(c)
    ensures Strip(x + [c]) == Strip(x)
  {
    if Blank(x) {
      TrimLeftAppendBlank(x, [c]);
      var e: string := [];
      assert [c][1..] == e;
      assert TrimLeft([c]) == TrimLeft(e);
    } else {
      TrimLeftAppendVisible(x, [c]);
      TrimRightSnocSpace(TrimLeft(x), c);
    }
  }

  lemma TrimRightSnocSpace(l: string, c: char)
    requires IsSpace(c)
    ensures TrimRight(l + [c]) == TrimRight(l)
  {
    assert (l + [c])[..|l|] == l;
  }

  /** Appending a separator adds one empty piece at the end. */
  lemma {:induction false} SplitSnocSeparator(s: string, c: char, seps: set<char>)
    requires c in seps
    ensures SplitOn(s + [c], seps) == SplitOn(s, seps) + [[]]
    decreases |s|
  {
    if s != [] {
      assert (s + [c])[1..] == s[1..] + [c];
      SplitSnocSeparator(s[1..], c, seps);
    }
  }

  /** Appending another character extends the last piece. */
  lemma {:induction false} SplitSnocOther(s: string, c: char, seps: set<char>)
    requires c !in seps
    ensures var p := SplitOn(s, seps);
      SplitOn(s + [c], seps) == p[..|p| - 1] + [p[|p| - 1] + [c]]
    decreases |s|
  {
    if s != [] {
      assert (s + [c])[1..] == s[1..] + [c];
      SplitSnocOther(s[1..], c, seps);
      if s[0] in seps {
        SnocAfterSeparator(s, c, seps);
      } else {
        SnocAfterOther(s, c, seps);
      }
    } else {
      assert s + [c] == [c];
      var e: string := [];
      assert [c][1..] == e;
      assert SplitOn(e, seps) == [[]];
      assert [c] + e == [c];
      assert SplitOn([c], seps) == [[c]];
      assert [] + [c] == [c];
    }
  }

  /** The step of `SplitSnocOther` when the text starts with a separator. */
  lemma SnocAfterSeparator(s: string, c: char, seps: set<char>)
    requires s != [] && s[0] in seps && c !in seps
    requires (s + [c])[1..] == s[1..] + [c]
    requires var q := SplitOn(s[1..], seps);
      SplitOn(s[1..] + [c], seps) == q[..|q| - 1] + [q[|q| - 1] + [c]]
    ensures var p := SplitOn(s, seps);
      SplitOn(s + [c], seps) == p[..|p| - 1] + [p[|p| - 1] + [c]]
  {
    var q := SplitOn(s[1..], seps);
    var p := SplitOn(s, seps);
    assert p == [[]] + q;
    assert p[..|p| - 1] == [[]] + q[..|q| - 1];
    assert SplitOn(s + [c], seps) == [[]] + SplitOn(s[1..] + [c], seps);
  }

  /** The step of `SplitSnocOther` when the text starts with another character. */
  lemma SnocAfterOther(s: string, c: char, seps: set<char>)
    requires s != [] && s[0] !in seps && c !in seps
    requires (s + [c])[1..] == s[1..] + [c]
    requires var q := SplitOn(s[1..], seps);
      SplitOn(s[1..] + [c], seps) == q[..|q| - 1] + [q[|q| - 1] + [c]]
    ensures var p := SplitOn(s, seps);
      SplitOn(s + [c], seps) == p[..|p| - 1] + [p[|p| - 1] + [c]]
  {
    var q := SplitOn(s[1..], seps);
    var q' := SplitOn(s[1..] + [c], seps);
    var p := SplitOn(s, seps);
    assert p == [[s[0]] + q[0]] + q[1..];
    assert SplitOn(s + [c], seps) == [[s[0]] + q'[0]] + q'[1..];
    if |q| > 1 {
      var h := [s[0]] + q[0];
      var mid := q[1..|q| - 1];
      var t := q[|q| - 1] + [c];
      assert q'[1..] == mid + [t];
      assert p[..|p| - 1] == [h] + mid;
      assert p[|p| - 1] == q[|q| - 1];
      assert SplitOn(s + [c], seps) == [h] + (mid + [t]);
      Assoc([h], mid, [t]);
    } else {
      assert q' == [q[0] + [c]];
      Assoc([s[0]], q[0], [c]);
    }
  }

  lemma {:induction false} KeepNonBlankAppend(a: seq<string>, b: seq<string>)
    ensures KeepNonBlank(a + b) == KeepNonBlank(a) + KeepNonBlank(b)
    decreases |a|
  {
    if a == [] {
      assert a + b == b;
    } else {
      var rest := a[1..] + b;
      assert a + b == [a[0]] + rest;
      assert [a[0]] + a[1..] == a;
      KeepNonBlankAppend(a[1..], b);
      KeepCons(a[0], rest);
      KeepCons(a[0], a[1..]);
      var head := if Strip(a[0]) == [] then [] else [Strip(a[0])];
      Assoc(head, KeepNonBlank(a[1..]), KeepNonBlank(b));
    }
  }

  lemma KeepCons(x: string, rest: seq<string>)
    ensures KeepNonBlank([x] + rest) == (if Strip(x) == [] then [] else [Strip(x)]) + KeepNonBlank(rest)
  {
    assert ([x] + rest)[1..] == rest;
  }

  /** Concatenation is associative. */
  lemma Assoc<T>(x: seq<T>, y: seq<T>, z: seq<T>)
    ensures x + (y + z) == (x + y) + z
  {
  }

  /** A whitespace character in front of a text does not change its non-blank lines. */
  lemma LinesConsSpace(c: char, s: string, seps: set<char>)
    requires IsSpace(c)
    ensures NonBlankLines([c] + s, seps) == NonBlankLines(s, seps)
  {
    assert ([c] + s)[1..] == s;
    var p := SplitOn(s, seps);
    if c in seps {
      assert SplitOn([c] + s, seps) == [[]] + p;
      assert ([[]] + p)[1..] == p;
    } else {
      var q := [[c] + p[0]] + p[1..];
      assert SplitOn([c] + s, seps) == q;
      StripConsSpace(c, p[0]);
      assert q[1..] == p[1..];
    }
  }

  /** A whitespace character after a text does not change its non-blank lines. */
  lemma LinesSnocSpace(s: string, c: char, seps: set<char>)
    requires IsSpace(c)
    ensures NonBlankLines(s + [c], seps) == NonBlankLines(s, seps)
  {
    if c in seps {
      LinesSnocBreak(s, c, seps);
    } else {
      LinesSnocBlank(s, c, seps);
    }
  }

  lemma LinesSnocBreak(s: string, c: char, seps: set<char>)
    requires IsSpace(c) && c in seps
    ensures NonBlankLines(s + [c], seps) == NonBlankLines(s, seps)
  {
    var p := SplitOn(s, seps);
    SplitSnocSeparator(s, c, seps);
    KeepNonBlankAppend(p, [[]]);
    assert KeepNonBlank([[]]) == [];
    assert KeepNonBlank(p) + [] == KeepNonBlank(p);
  }

  lemma LinesSnocBlank(s: string, c: char, seps: set<char>)
    requires IsSpace(c) && c !in seps
    ensures NonBlankLines(s + [c], seps) == NonBlankLines(s, seps)
  {
    var p := SplitOn(s, seps);
    var front := p[..|p| - 1];
    var last := p[|p| - 1];
    calc {
      NonBlankLines(s + [c], seps);
      KeepNonBlank(SplitOn(s + [c], seps));
      { SplitSnocOther(s, c, seps); }
      KeepNonBlank(front + [last + [c]]);
      { KeepNonBlankAppend(front, [last + [c]]); }
      KeepNonBlank(front) + KeepNonBlank([last + [c]]);
      { KeepCons(last + [c], []); KeepCons(last, []); StripSnocSpace(last, c); }
      KeepNonBlank(front) + KeepNonBlank([last]);
      { KeepNonBlankAppend(front, [last]); }
      KeepNonBlank(front + [last]);
      { assert front + [last] == p; }
      NonBlankLines(s, seps);
    }
  }

  lemma {:induction false} LinesTrimLeft(s: string, seps: set<char>)
    ensures NonBlankLines(TrimLeft(s), seps) == NonBlankLines(s, seps)
    decreases |s|
  {
    if s != [] && IsSpace(s[0]) {
      var t := s[1..];
      assert [s[0]] + t == s;
      assert TrimLeft(s) == TrimLeft(t);
      LinesTrimLeft(t, seps);
      LinesConsSpace(s[0], t, seps);
    }
  }

  lemma {:induction false} LinesTrimRight(s: string, seps: set<char>)
    ensures NonBlankLines(TrimRight(s), seps) == NonBlankLines(s, seps)
    decreases |s|
  {
    if s != [] && IsSpace(s[|s| - 1]) {
      var t := s[..|s| - 1];
      assert t + [s[|s| - 1]] == s;
      assert TrimRight(s) == TrimRight(t);
      LinesTrimRight(t, seps);
      LinesSnocSpace(t, s[|s| - 1], seps);
    }
  }

  /** Stripping a text first does not change its stripped non-blank lines. */
  lemma StripKeepsLines(s: string, seps: set<char>)
    ensures NonBlankLines(Strip(s), seps) == NonBlankLines(s, seps)
  {
    LinesTrimLeft(s, seps);
    LinesTrimRight(TrimLeft(s), seps);
  }

  /** A blank prefix, line breaks included, does not change the non-blank lines. */
  lemma {:induction false} BlankPrefixKeepsLines(blank: string, s: string, seps: set<char>)
    requires Blank(blank)
    ensures NonBlankLines(blank + s, seps) == NonBlankLines(s, seps)
    decreases |blank|
  {
    if blank == [] {
      assert blank + s == s;
    } else {
      var t := blank[1..] + s;
      assert blank + s == [blank[0]] + t;
      BlankPrefixKeepsLines(blank[1..], s, seps);
      LinesConsSpace(blank[0], t, seps);
    }
  }

  /** Index of the first `c` in `s`, or `|s|` when there is none. */
  function IndexOf(s: string, c: char): (k: nat)
    ensures k <= |s|
    ensures k < |s| ==> s[k] == c
    ensures forall i :: 0 <= i < k ==> s[i] != c
  {
    if s == [] || s[0] == c then 0 else 1 + IndexOf(s[1..], c)
  }

  /** `s.split(c, 1)[-1]`: the text after the first `c`, or all of `s` when it has none. */
  function AfterFirst(s: string, c: char): (r: string)
    ensures c !in s ==> r == s
    ensures c in s ==> |r| < |s| && s == s[..|s| - |r| - 1] + [c] + r && c !in s[..|s| - |r| - 1]
  {
    var k := IndexOf(s, c);
    if k == |s| then s
    else
      assert s == s[..k] + [c] + s[k + 1..];
      s[k + 1..]
  }

  /** Python's `t in s` for strings. */
  predicate Contains(s: string, t: string)
    decreases |s|
  {
    |t| <= |s| && (s[..|t|] == t || Contains(s[1..], t))
  }

  lemma {:induction false} ContainsAt(s: string, t: string, i: nat)
    requires i + |t| <= |s| && s[i..i + |t|] == t
    ensures Contains(s, t)
  {
    if i > 0 {
      assert s[1..][i - 1..i - 1 + |t|] == s[i..i + |t|];
      ContainsAt(s[1..], t, i - 1);
    }
  }

  /** `t` occurs in `s` at position `i`. */
  predicate OccursAt(s: string, t: string, i: nat) {
    i + |t| <= |s| && s[i..i + |t|] == t
  }

  /** `t in s` holds exactly when `t` occurs in `s` at some position. */
  lemma {:induction false} ContainsMeans(s: string, t: string)
    ensures Contains(s, t) <==> exists i: nat :: OccursAt(s, t, i)
    decreases |s|
  {
    if Contains(s, t) {
      if s[..|t|] == t {
        assert OccursAt(s, t, 0);
      } else {
        ContainsMeans(s[1..], t);
        var i: nat :| OccursAt(s[1..], t, i);
        assert s[i + 1..i + 1 + |t|] == s[1..][i..i + |t|];
        assert OccursAt(s, t, i + 1);
      }
    } else {
      forall i: nat | OccursAt(s, t, i)
        ensures false
      {
        ContainsAt(s, t, i);
      }
    }
  }

  /** Python's `a <= b` on strings: code-point lexicographic order. */
  predicate LexLe(a: string, b: string)
    decreases |a|
  {
    a == [] || (b != [] && (a[0] < b[0] || (a[0] == b[0] && LexLe(a[1..], b[1..]))))
  }

  /** Python's truthiness of an `Optional[str]`: present and non-empty. */
  predicate Truthy(o: Option<string>) {
    o.Some? && o.value != []
  }
  /** `a` is a prefix of `b`. */
  predicate PrefixOf(a: string, b: string) {
    |a| <= |b| && a == b[..|a|]
  }

  /** `a` and `b` agree before position `k`, where `a` has the smaller character. */
  predicate SmallerAt(a: string, b: string, k: nat) {
    k < |a| && k < |b| && a[..k] == b[..k] && a[k] < b[k]
  }

  /** `a <= b` holds exactly when `a` is a prefix of `b`, or at the first position
      where they differ `a` has the smaller character. */
  lemma {:induction false} LexLeMeans(a: string, b: string)
    ensures LexLe(a, b) <==> PrefixOf(a, b) || exists k: nat :: SmallerAt(a, b, k)
    decreases |a|
  {
    if a != [] && b != [] {
      if a[0] == b[0] {
        LexLeMeans(a[1..], b[1..]);
        PrefixOfTails(a, b);
        if exists k: nat :: SmallerAt(a[1..], b[1..], k) {
          var k: nat :| SmallerAt(a[1..], b[1..], k);
          SmallerAtTails(a, b, k);
        }
        if exists k: nat :: SmallerAt(a, b, k) {
          var k: nat :| SmallerAt(a, b, k);
          assert k > 0 by {
            assert a[0] == b[0];
          }
          SmallerAtTails(a, b, k - 1);
        }
      } else {
        assert a[0] < b[0] ==> SmallerAt(a, b, 0);
        forall k: nat | 0 < k
          ensures !SmallerAt(a, b, k)
        {
          if k < |a| && k < |b| {
            assert a[..k][0] != b[..k][0];
          }
        }
        assert !PrefixOf(a, b) by {
          if |a| <= |b| {
            assert b[..|a|][0] == b[0];
          }
        }
      }
    } else if a != [] {
      assert !PrefixOf(a, b);
    }
  }

  /** Dropping an equal first character keeps the prefix relation. */
  lemma PrefixOfTails(a: string, b: string)
    requires a != [] && b != [] && a[0] == b[0]
    ensures PrefixOf(a, b) <==> PrefixOf(a[1..], b[1..])
  {
    if |a| <= |b| {
      assert b[..|a|] == [b[0]] + b[1..][..|a| - 1];
      assert a == [a[0]] + a[1..];
    }
  }

  /** Dropping an equal first character shifts the first difference by one. */
  lemma SmallerAtTails(a: string, b: string, k: nat)
    requires a != [] && b != [] && a[0] == b[0]
    ensures SmallerAt(a, b, k + 1) <==> SmallerAt(a[1..], b[1..], k)
  {
    if k + 1 < |a| && k + 1 < |b| {
      assert a[..k + 1] == [a[0]] + a[1..][..k];
      assert b[..k + 1] == [b[0]] + b[1..][..k];
    }
  }

  /** Python's `<=` on `str` is a total order. */
  lemma {:induction false} LexLeRefl(a: string)
    ensures LexLe(a, a)
    decreases |a|
  {
    if a != [] {
      LexLeRefl(a[1..]);
    }
  }

  lemma {:induction false} LexLeTrans(a: string, b: string, c: string)
    requires LexLe(a, b) && LexLe(b, c)
    ensures LexLe(a, c)
    decreases |a|
  {
    if a != [] && b != [] && c != [] && a[0] == b[0] && b[0] == c[0] {
      LexLeTrans(a[1..], b[1..], c[1..]);
    }
  }

  lemma {:induction false} LexLeTotal(a: string, b: string)
    ensures LexLe(a, b) || LexLe(b, a)
    decreases |a|
  {
    if a != [] && b != [] && a[0] == b[0] {
      LexLeTotal(a[1..], b[1..]);
    }
  }

  lemma {:induction false} LexLeAntisymmetric(a: string, b: string)
    requires LexLe(a, b) && LexLe(b, a)
    ensures a == b
    decreases |a|
  {
    if a != [] && b != [] {
      LexLeAntisymmetric(a[1..], b[1..]);
      assert a == [a[0]] + a[1..];
      assert b == [b[0]] + b[1..];
    }
  }
}
