/** The Python 2 `str` operations the core relies on, over `string`:
    whitespace stripping, `split(None, n)`, `split(sep, n)`, `lower()`,
    `replace(old, new, 1)` and `int(s, 8)`.  Whitespace is the ASCII set that
    Python 2's `str.isspace` accepts. */
module PyStr {
  import opened Wrappers

  // ---------------------------------------------------------------- whitespace

  predicate IsSpace(c: char) {
    c == ' ' || c == '\t' || c == '\n' || c == '\r' || c == 11 as char || c == 12 as char
  }

  predicate NoSpace(s: string) {
    forall i :: 0 <= i < |s| ==> !IsSpace(s[i])
  }

  predicate AllSpace(s: string) {
    forall i :: 0 <= i < |s| ==> IsSpace(s[i])
  }

  /** `s.lstrip()`: what is left after the leading run of whitespace. */
  function LStrip(s: string): (r: string)
    ensures |r| <= |s|
    ensures AllSpace(s[..|s| - |r|])
    ensures r == [] || !IsSpace(r[0])
    decreases |s|
  {
    if s != [] && IsSpace(s[0]) then
      var r := LStrip(s[1..]);
      assert s[..|s| - |r|] == [s[0]] + s[1..][..|s| - 1 - |r|];
      r
    else
      s
  }

  /** `s.lstrip()` is a suffix of `s`. */
  lemma {:induction false} LStripSuffix(s: string)
    ensures LStrip(s) == s[|s| - |LStrip(s)|..]
    decreases |s|
  {
    if s != [] && IsSpace(s[0]) {
      LStripSuffix(s[1..]);
    }
  }

  /** A string that does not start with whitespace is its own `lstrip()`. */
  lemma LStripUnchanged(s: string)
    requires s != [] && !IsSpace(s[0])
    ensures LStrip(s) == s
  {
  }

  /** `s.rstrip()`: what is left before the trailing run of whitespace. */
  function RStrip(s: string): (r: string)
    ensures |r| <= |s| && r == s[..|r|]
    ensures AllSpace(s[|r|..])
    ensures r == [] || !IsSpace(r[|r| - 1])
    decreases |s|
  {
    if s != [] && IsSpace(s[|s| - 1]) then
      var r := RStrip(s[..|s| - 1]);
      assert s[|r|..] == s[..|s| - 1][|r|..] + [s[|s| - 1]];
      r
    else
      s
  }

  /** `s.strip()`: a slice of `s` that neither starts nor ends with whitespace. */
  function Strip(s: string): (r: string)
    ensures r == [] || (!IsSpace(r[0]) && !IsSpace(r[|r| - 1]))
  {
    var t := LStrip(s);
    var r := RStrip(t);
    assert r != [] ==> r[0] == t[0];
    r
  }

  lemma {:induction false} LStripSpaces(gap: string, s: string)
    requires AllSpace(gap)
    ensures LStrip(gap + s) == LStrip(s)
    decreases |gap|
  {
    if gap != [] {
      assert IsSpace(gap[0]) && (gap + s)[0] == gap[0];
      assert (gap + s)[1..] == gap[1..] + s;
      assert LStrip(gap + s) == LStrip(gap[1..] + s);
      LStripSpaces(gap[1..], s);
    } else {
      assert gap + s == s;
    }
  }

  lemma {:induction false} RStripSpaces(s: string, gap: string)
    requires AllSpace(gap)
    ensures RStrip(s + gap) == RStrip(s)
    decreases |gap|
  {
    if gap != [] {
      var g := gap[..|gap| - 1];
      assert IsSpace(gap[|gap| - 1]) && (s + gap)[|s + gap| - 1] == gap[|gap| - 1];
      assert (s + gap)[..|s + gap| - 1] == s + g;
      assert RStrip(s + gap) == RStrip(s + g);
      RStripSpaces(s, g);
    } else {
      assert s + gap == s;
    }
  }

  /** Stripping undoes padding: `(pre + w + post).strip() == w` for a word
      `w` that has no whitespace at either end. */
  lemma StripPadded(pre: string, w: string, post: string)
    requires AllSpace(pre) && AllSpace(post)
    requires w == [] || (!IsSpace(w[0]) && !IsSpace(w[|w| - 1]))
    ensures Strip(pre + w + post) == w
  {
    assert pre + w + post == pre + (w + post);
    LStripSpaces(pre, w + post);
    if w == [] {
      assert w + post == post && post + [] == post;
      LStripSpaces(post, []);
      assert LStrip([]) == [];
      assert LStrip(w + post) == [];
    } else {
      assert (w + post)[0] == w[0];
      LStripUnchanged(w + post);
    }
    if w == [] {
    } else {
      RStripSpaces(w, post);
    }
  }

  /** `s.lstrip(chars)`: what is left after the leading run of characters
      drawn from `chars`. */
  function LStripChars(s: string, chars: set<char>): (r: string)
    ensures |r| <= |s| && r == s[|s| - |r|..]
    ensures forall i :: 0 <= i < |s| - |r| ==> s[i] in chars
    ensures r == [] || r[0] !in chars
    decreases |s|
  {
    if s != [] && s[0] in chars then LStripChars(s[1..], chars) else s
  }

  // ------------------------------------------------------- split on whitespace

  /** The longest prefix of `s` without whitespace. */
  function Word(s: string): (w: string)
    ensures |w| <= |s| && w == s[..|w|] && NoSpace(w)
    ensures |w| == |s| || IsSpace(s[|w|])
    ensures s != [] && !IsSpace(s[0]) ==> w != []
    decreases |s|
  {
    if s == [] || IsSpace(s[0]) then [] else [s[0]] + Word(s[1..])
  }

  /** `s.split(None, maxsplit)`: at most `maxsplit` whitespace-free words are
      split off the front; whatever follows them (leading whitespace dropped,
      trailing whitespace kept) is the last field. */
  function SplitWs(s: string, maxsplit: nat): (r: seq<string>)
    ensures |r| <= maxsplit + 1
    ensures forall i :: 0 <= i < |r| ==> r[i] != [] && !IsSpace(r[i][0])
    ensures forall i :: 0 <= i < |r| && i < maxsplit ==> NoSpace(r[i])
    ensures r == [] <==> AllSpace(s)
  {
    var t := LStrip(s);
    LStripSuffix(s);
    assert t == [] ==> s[..|s|] == s;
    assert t != [] ==> s[|s| - |t|] == t[0];
    SplitFieldsWords(t, maxsplit);
    SplitFields(t, maxsplit)
  }

  /** The fields of a string that does not start with whitespace. */
  function SplitFields(t: string, maxsplit: nat): (r: seq<string>)
    requires t == [] || !IsSpace(t[0])
    ensures |r| <= maxsplit + 1
    ensures r == [] <==> t == []
    decreases |t|
  {
    if t == [] then []
    else if maxsplit == 0 then [t]
    else
      var w := Word(t);
      [w] + SplitFields(LStrip(t[|w|..]), maxsplit - 1)
  }

  /** Every field is non-empty and starts with a non-space; the first `k`
      are single words. */
  predicate Fields(r: seq<string>, k: nat) {
    && (forall i :: 0 <= i < |r| ==> r[i] != [] && !IsSpace(r[i][0]))
    && (forall i :: 0 <= i < |r| && i < k ==> NoSpace(r[i]))
  }

  /** The fields of a split: words up to the limit. */
  lemma {:induction false} SplitFieldsWords(t: string, maxsplit: nat)
    requires t == [] || !IsSpace(t[0])
    ensures Fields(SplitFields(t, maxsplit), maxsplit)
    decreases |t|
  {
    if t != [] && maxsplit != 0 {
      var w := Word(t);
      var tail := LStrip(t[|w|..]);
      var rest := SplitFields(tail, maxsplit - 1);
      assert SplitFields(t, maxsplit) == [w] + rest;
      assert Fields(rest, maxsplit - 1) by {
        SplitFieldsWords(tail, maxsplit - 1);
      }
      assert w != [] && NoSpace(w);
      ConsFields(w, rest, maxsplit - 1);
    }
  }

  /** A word in front of the fields of the rest of a string. */
  lemma ConsFields(w: string, rest: seq<string>, k: nat)
    requires w != [] && NoSpace(w) && Fields(rest, k)
    ensures Fields([w] + rest, k + 1)
  {
    var r := [w] + rest;
    assert forall i :: 1 <= i < |r| ==> r[i] == rest[i - 1];
  }

  lemma {:induction false} WordOfPrefix(w: string, rest: string)
    requires NoSpace(w)
    requires rest == [] || IsSpace(rest[0])
    ensures Word(w + rest) == w
    decreases |w|
  {
    if w != [] {
      assert (w + rest)[1..] == w[1..] + rest;
      WordOfPrefix(w[1..], rest);
    } else {
      assert w + rest == rest;
    }
  }

  lemma SplitWsLeadingSpace(gap: string, s: string, k: nat)
    requires AllSpace(gap)
    ensures SplitWs(gap + s, k) == SplitWs(s, k)
  {
    LStripSpaces(gap, s);
  }

  /** A single word splits into itself, whatever the limit. */
  lemma SplitWsWord(w: string, k: nat)
    requires w != [] && NoSpace(w)
    ensures SplitWs(w, k) == [w]
  {
    assert LStrip(w) == w;
    WordOfPrefix(w, []);
    assert w + [] == w;
  }

  /** Splitting `w gap rest` with limit `k + 1` yields `w` followed by the
      split of `rest` with limit `k`. */
  lemma SplitWsCons(w: string, gap: string, rest: string, k: nat)
    requires w != [] && NoSpace(w)
    requires gap != [] && AllSpace(gap)
    ensures SplitWs(w + gap + rest, k + 1) == [w] + SplitWs(rest, k)
  {
    var s := w + gap + rest;
    assert s == w + (gap + rest);
    assert LStrip(s) == s;
    WordOfPrefix(w, gap + rest);
    assert s[|w|..] == gap + rest;
    SplitWsLeadingSpace(gap, rest, k);
  }

  // --------------------------------------------------- split on one character

  /** `s.find(c)`: the first index of `c`, or -1. */
  function Find(s: string, c: char): (i: int)
    ensures -1 <= i < |s|
    ensures i >= 0 ==> s[i] == c
    ensures forall j :: 0 <= j < |s| && (i < 0 || j < i) ==> s[j] != c
    decreases |s|
  {
    if s == [] then -1
    else if s[0] == c then 0
    else
      var k := Find(s[1..], c);
      if k < 0 then -1 else k + 1
  }

  /** `s.rfind(c)`: the last index of `c`, or -1. */
  function RFind(s: string, c: char): (i: int)
    ensures -1 <= i < |s|
    ensures i >= 0 ==> s[i] == c
    ensures forall j :: i < j < |s| ==> s[j] != c
    decreases |s|
  {
    if s == [] then -1
    else if s[|s| - 1] == c then |s| - 1
    else RFind(s[..|s| - 1], c)
  }

  /** `sep.join(parts)` for a one-character separator. */
  function Join(parts: seq<string>, sep: char): string
    requires |parts| >= 1
    decreases |parts|
  {
    if |parts| == 1 then parts[0] else parts[0] + [sep] + Join(parts[1..], sep)
  }

  /** `s.split(sep, maxsplit)` for a one-character separator: the fields
      between the first `maxsplit` separators, empty fields kept. */
  function SplitOn(s: string, sep: char, maxsplit: nat): (r: seq<string>)
    ensures 1 <= |r| <= maxsplit + 1
    ensures Join(r, sep) == s
    ensures forall i :: 0 <= i < |r| - 1 ==> sep !in r[i]
    ensures |r| <= maxsplit ==> sep !in r[|r| - 1]
    decreases |s|
  {
    var i := Find(s, sep);
    if i < 0 || maxsplit == 0 then
      [s]
    else
      var rest := SplitOn(s[i + 1..], sep, maxsplit - 1);
      var r := [s[..i]] + rest;
      assert r[0] == s[..i] && r[1..] == rest;
      assert Join(r, sep) == s by {
        assert Join(r, sep) == s[..i] + [sep] + Join(rest, sep);
        assert s == s[..i] + [sep] + s[i + 1..];
      }
      assert forall j :: 1 <= j < |r| ==> r[j] == rest[j - 1];
      r
  }

  lemma FindFirst(a: string, c: char, b: string)
    requires c !in a
    ensures Find(a + [c] + b, c) == |a|
  {
    assert (a + [c] + b)[|a|] == c;
  }

  lemma SplitOnNoSep(s: string, sep: char, maxsplit: nat)
    requires sep !in s
    ensures SplitOn(s, sep, maxsplit) == [s]
  {
  }

  /** Splitting after a first field peels that field off. */
  lemma SplitOnCons(a: string, sep: char, b: string, maxsplit: nat)
    requires sep !in a
    ensures SplitOn(a + [sep] + b, sep, maxsplit + 1) == [a] + SplitOn(b, sep, maxsplit)
  {
    var s := a + [sep] + b;
    FindFirst(a, sep, b);
    assert s[..|a|] == a;
    assert s[|a| + 1..] == b;
  }

  lemma JoinThree(parts: seq<string>, sep: char)
    requires |parts| == 3
    ensures Join(parts, sep) == parts[0] + [sep] + parts[1] + [sep] + parts[2]
  {
    assert parts[1..][1..] == [parts[2]];
    assert Join(parts[1..][1..], sep) == parts[2];
    assert Join(parts[1..], sep) == parts[1] + [sep] + parts[2];
  }

  // ------------------------------------------------------------- other methods

  function LowerChar(c: char): char {
    if 'A' <= c <= 'Z' then (c as int + 32) as char else c
  }

  /** `s.lower()` in the C locale: ASCII capitals become small letters. */
  function Lower(s: string): (r: string)
    ensures |r| == |s|
    ensures forall i :: 0 <= i < |s| ==> r[i] == LowerChar(s[i])
    decreases |s|
  {
    if s == [] then [] else [LowerChar(s[0])] + Lower(s[1..])
  }

  /** Lowering twice is lowering once. */
  lemma LowerIdempotent(s: string)
    ensures Lower(Lower(s)) == Lower(s)
  {
    assert forall i :: 0 <= i < |s| ==> LowerChar(LowerChar(s[i])) == LowerChar(s[i]);
  }

  /** `s.replace(pat, rep, 1)`: the first occurrence of `pat` replaced. */
  function ReplaceFirst(s: string, pat: string, rep: string): string
    requires pat != []
    decreases |s|
  {
    if |s| < |pat| then s
    else if s[..|pat|] == pat then rep + s[|pat|..]
    else [s[0]] + ReplaceFirst(s[1..], pat, rep)
  }

  lemma ReplaceFirstAtStart(pat: string, rest: string, rep: string)
    requires pat != []
    ensures ReplaceFirst(pat + rest, pat, rep) == rep + rest
  {
    assert (pat + rest)[..|pat|] == pat;
    assert (pat + rest)[|pat|..] == rest;
  }

  // --------------------------------------------------------------------- octal

  predicate IsOctalDigit(c: char) {
    '0' <= c <= '7'
  }

  /** A non-empty string of octal digits, the mode syntax accepted here. */
  predicate IsOctalString(s: string) {
    s != [] && forall i :: 0 <= i < |s| ==> IsOctalDigit(s[i])
  }

  function OctalValue(s: string): nat
    requires forall i :: 0 <= i < |s| ==> IsOctalDigit(s[i])
    decreases |s|
  {
    if s == [] then 0
    else
      assert IsOctalDigit(s[|s| - 1]);
      8 * OctalValue(s[..|s| - 1]) + (s[|s| - 1] as int - '0' as int)
  }

  /** `int(s, 8)`, restricted to plain digit strings; anything else is the
      `ValueError` case, `None` here. */
  function ParseOctal(s: string): (r: Option<nat>)
    ensures r.Some? <==> IsOctalString(s)
  {
    if IsOctalString(s) then Some(OctalValue(s)) else None
  }

  /** `int(s, 8)` ignores leading zeros, so the mode `0644` a manifest
      writes is the mode `644`. */
  lemma {:induction false} OctalLeadingZero(s: string)
    requires IsOctalString(s)
    ensures ParseOctal("0" + s) == ParseOctal(s)
    decreases |s|
  {
    var z := "0" + s;
    assert IsOctalString(z) by {
      assert forall i :: 1 <= i < |z| ==> z[i] == s[i - 1];
    }
    OctalValueLeadingZero(s);
  }

  lemma {:induction false} OctalValueLeadingZero(s: string)
    requires forall i :: 0 <= i < |s| ==> IsOctalDigit(s[i])
    ensures forall i :: 0 <= i < |"0" + s| ==> IsOctalDigit(("0" + s)[i])
    ensures OctalValue("0" + s) == OctalValue(s)
    decreases |s|
  {
    var z := "0" + s;
    assert forall i :: 1 <= i < |z| ==> z[i] == s[i - 1];
    if s == [] {
      assert z[..|z| - 1] == [];
    } else {
      var front := s[..|s| - 1];
      OctalValueLeadingZero(front);
      assert z[..|z| - 1] == "0" + front;
      assert z[|z| - 1] == s[|s| - 1];
    }
  }
}
