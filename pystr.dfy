/**
 * The Python string built-ins the bot relies on (`str.lower`, `str.strip`,
 * `str.split`, `str.startswith`, `str.replace`, `str.title`, `str.rstrip`,
 * and `str.join`), over strings of Unicode scalar values.
 * Case mapping is modelled for ASCII letters only.
 */
module PyStr {
  /** `c.isspace()`: the characters `str.split()` and `str.strip()` treat as whitespace. */
  predicate IsSpace(c: char) {
    || c == ' ' || ('\t' <= c <= '\r') || ('\U{1c}' <= c <= '\U{1f}')
    || c == '\U{85}' || c == '\U{a0}' || c == '\U{1680}'
    || ('\U{2000}' <= c <= '\U{200a}') || c == '\U{2028}' || c == '\U{2029}'
    || c == '\U{202f}' || c == '\U{205f}' || c == '\U{3000}'
  }

  predicate IsUpper(c: char) { 'A' <= c <= 'Z' }

  predicate IsLower(c: char) { 'a' <= c <= 'z' }

  predicate IsLetter(c: char) { IsUpper(c) || IsLower(c) }

  /** No ASCII upper-case letter occurs in `s`. */
  predicate NoUpper(s: string) {
    forall c | c in s :: !IsUpper(c)
  }

  /** A non-empty run of non-whitespace characters: what `split()` yields. */
  predicate IsToken(t: string) {
    t != [] && forall c | c in t :: !IsSpace(c)
  }

  function LowerChar(c: char): (d: char)
    ensures !IsUpper(d)
    ensures IsSpace(d) <==> IsSpace(c)
    ensures !IsUpper(c) ==> d == c
    ensures IsUpper(c) ==> IsLower(d) && UpperChar(d) == c
  {
    if IsUpper(c) then (c as int + 32) as char else c
  }

  function UpperChar(c: char): (d: char)
    ensures !IsLower(d)
    ensures !IsLower(c) ==> d == c
    ensures IsLower(c) ==> IsUpper(d)
  {
    if IsLower(c) then (c as int - 32) as char else c
  }

  /** `s.lower()`: each upper-case letter becomes its lower-case letter, nothing else changes. */
  function Lower(s: string): (r: string)
    ensures |r| == |s|
    ensures NoUpper(r)
    ensures forall i :: 0 <= i < |s| ==> (IsSpace(r[i]) <==> IsSpace(s[i]))
    ensures forall i :: 0 <= i < |s| && !IsUpper(s[i]) ==> r[i] == s[i]
    ensures forall i :: 0 <= i < |s| && IsUpper(s[i]) ==> IsLower(r[i]) && UpperChar(r[i]) == s[i]
    ensures NoUpper(s) ==> r == s
  {
    seq(|s|, i requires 0 <= i < |s| => LowerChar(s[i]))
  }

  /** `s.startswith(p)` */
  predicate StartsWith(s: string, p: string) {
    |p| <= |s| && s[..|p|] == p
  }

  /** `s.lstrip()`: the input without its leading whitespace. */
  function LStrip(s: string): (r: string)
    ensures |r| <= |s| && r == s[|s| - |r|..]
    ensures forall i :: 0 <= i < |s| - |r| ==> IsSpace(s[i])
    ensures r == [] || !IsSpace(r[0])
    ensures s == [] || !IsSpace(s[0]) ==> r == s
  {
    if s != [] && IsSpace(s[0]) then LStrip(s[1..]) else s
  }

  /** `s.rstrip()`: the input without its trailing whitespace. */
  function RStrip(s: string): (r: string)
    ensures |r| <= |s| && r == s[..|r|]
    ensures forall i :: |r| <= i < |s| ==> IsSpace(s[i])
    ensures r == [] || !IsSpace(r[|r| - 1])
    ensures s == [] || !IsSpace(s[|s| - 1]) ==> r == s
  {
    if s != [] && IsSpace(s[|s| - 1]) then RStrip(s[..|s| - 1]) else s
  }

  /** Every character of `s` is whitespace. */
  predicate AllSpace(s: string) {
    forall c | c in s :: IsSpace(c)
  }

  /**
   * `s.strip()`: a slice of the input with only whitespace before and after
   * it, and no whitespace at either of its own ends.
   */
  function Strip(s: string): (r: string)
    ensures |r| <= |s|
    ensures exists i | 0 <= i <= |s| - |r| :: s[i..i + |r|] == r && AllSpace(s[..i]) && AllSpace(s[i + |r|..])
    ensures r == [] || (!IsSpace(r[0]) && !IsSpace(r[|r| - 1]))
    ensures s == [] || (!IsSpace(s[0]) && !IsSpace(s[|s| - 1])) ==> r == s
  {
    var t := RStrip(s);
    var r := LStrip(t);
    var i := |t| - |r|;
    assert s[i..i + |r|] == r;
    assert AllSpace(s[..i]) by {
      forall k | 0 <= k < i ensures IsSpace(s[..i][k]) {
        assert s[..i][k] == t[k];
      }
    }
    assert AllSpace(s[i + |r|..]) by {
      forall c | c in s[|t|..] ensures IsSpace(c) {
        var k :| 0 <= k < |s| - |t| && s[|t|..][k] == c;
        assert c == s[|t| + k];
      }
    }
    r
  }

  lemma StripKeeps(s: string)
    ensures forall c | c in Strip(s) :: c in s
    ensures Split(Strip(s)) == Split(s)
  {
    SplitRStrip(s);
    SplitLStrip(RStrip(s));
  }

  /** Length of the leading run of non-whitespace characters of `s`. */
  function TokenLen(s: string): (n: nat)
    ensures n <= |s|
    ensures forall i :: 0 <= i < n ==> !IsSpace(s[i])
    ensures n < |s| ==> IsSpace(s[n])
  {
    if s == [] || IsSpace(s[0]) then 0 else 1 + TokenLen(s[1..])
  }

  /** `gaps[0] + words[0] + gaps[1] + ... + words[n - 1] + gaps[n]` */
  function Interleave(gaps: seq<string>, words: seq<string>): string
    requires |gaps| == |words| + 1
    decreases |words|
  {
    if words == [] then gaps[0] else gaps[0] + words[0] + Interleave(gaps[1..], words[1..])
  }

  /** `n + 1` runs of whitespace, those between two words non-empty. */
  predicate Separators(gaps: seq<string>, n: nat) {
    && |gaps| == n + 1
    && (forall k :: 0 <= k < |gaps| ==> AllSpace(gaps[k]))
    && (forall k :: 0 < k < n ==> gaps[k] != [])
  }

  /**
   * `s` is the words `ws` in order, every two of them separated by whitespace,
   * with only whitespace (possibly none) before the first and after the last.
   */
  ghost predicate SpacedWords(s: string, ws: seq<string>) {
    exists gaps :: Separators(gaps, |ws|) && s == Interleave(gaps, ws)
  }

  /** Whitespace in front of spaced words leaves them spaced words. */
  lemma SpacedAfterSpace(c: char, tail: string, ws: seq<string>)
    requires IsSpace(c) && SpacedWords(tail, ws)
    ensures SpacedWords([c] + tail, ws)
  {
    var gaps :| Separators(gaps, |ws|) && tail == Interleave(gaps, ws);
    var first := [c] + gaps[0];
    var longer := [first] + gaps[1..];
    assert longer[1..] == gaps[1..];
    assert AllSpace(first);
    assert Separators(longer, |ws|);
    if ws != [] {
      assert [c] + tail == first + ws[0] + Interleave(gaps[1..], ws[1..]);
    }
    assert [c] + tail == Interleave(longer, ws);
  }

  /** A word followed by whitespace (or nothing) and then spaced words gives one more spaced word. */
  lemma SpacedAfterWord(t: string, tail: string, ws: seq<string>)
    requires IsToken(t) && (tail == [] || IsSpace(tail[0]))
    requires SpacedWords(tail, ws) && forall k :: 0 <= k < |ws| ==> IsToken(ws[k])
    ensures SpacedWords(t + tail, [t] + ws)
  {
    var gaps :| Separators(gaps, |ws|) && tail == Interleave(gaps, ws);
    if ws != [] {
      assert tail == gaps[0] + ws[0] + Interleave(gaps[1..], ws[1..]);
      assert gaps[0] != [] by {
        assert ws[0][0] in ws[0];
        assert tail[|gaps[0]|] == ws[0][0];
      }
    }
    var longer := [[]] + gaps;
    assert longer[1..] == gaps;
    assert ([t] + ws)[1..] == ws;
    assert Separators(longer, |ws| + 1);
    assert t + tail == Interleave(longer, [t] + ws);
  }

  /**
   * `s.split()` with no separator: the maximal runs of non-whitespace, in
   * order; `s` is those words with whitespace between them and around them.
   */
  function Split(s: string): (r: seq<string>)
    ensures forall k :: 0 <= k < |r| ==> IsToken(r[k])
    ensures forall k :: 0 <= k < |r| ==> forall c | c in r[k] :: c in s
    ensures SpacedWords(s, r)
    decreases |s|
  {
    if s == [] then
      assert Separators([[]], 0) && s == Interleave([[]], []);
      []
    else if IsSpace(s[0]) then
      SpacedAfterSpace(s[0], s[1..], Split(s[1..]));
      assert [s[0]] + s[1..] == s;
      Split(s[1..])
    else
      var n := TokenLen(s);
      assert forall c | c in s[..n] :: c in s;
      SpacedAfterWord(s[..n], s[n..], Split(s[n..]));
      assert s[..n] + s[n..] == s;
      [s[..n]] + Split(s[n..])
  }

  /** `sep.join(parts)` */
  function JoinWith(sep: string, parts: seq<string>): string
  {
    if parts == [] then ""
    else if |parts| == 1 then parts[0]
    else parts[0] + sep + JoinWith(sep, parts[1..])
  }

  lemma {:induction false} SplitLStrip(s: string)
    ensures Split(LStrip(s)) == Split(s)
    decreases |s|
  {
    if s != [] && IsSpace(s[0]) {
      SplitLStrip(s[1..]);
    }
  }

  lemma {:induction false} TokenLenSpaceAfter(s: string, c: char)
    requires IsSpace(c)
    ensures TokenLen(s + [c]) == TokenLen(s)
    decreases |s|
  {
    if s != [] && !IsSpace(s[0]) {
      assert (s + [c])[1..] == s[1..] + [c];
      TokenLenSpaceAfter(s[1..], c);
    }
  }

  /** Whitespace at the end of a string adds no word. */
  lemma {:induction false} SplitSpaceAfter(s: string, c: char)
    requires IsSpace(c)
    ensures Split(s + [c]) == Split(s)
    decreases |s|
  {
    if s == [] {
      assert Split([c]) == Split([c][1..]);
    } else if IsSpace(s[0]) {
      assert (s + [c])[1..] == s[1..] + [c];
      SplitSpaceAfter(s[1..], c);
    } else {
      var n := TokenLen(s);
      TokenLenSpaceAfter(s, c);
      assert (s + [c])[..n] == s[..n];
      assert (s + [c])[n..] == s[n..] + [c];
      SplitSpaceAfter(s[n..], c);
    }
  }

  lemma {:induction false} SplitRStrip(s: string)
    ensures Split(RStrip(s)) == Split(s)
    decreases |s|
  {
    if s != [] && IsSpace(s[|s| - 1]) {
      var init := s[..|s| - 1];
      assert s == init + [s[|s| - 1]];
      SplitSpaceAfter(init, s[|s| - 1]);
      SplitRStrip(init);
    }
  }

  lemma {:induction false} TokenLenOfToken(t: string, rest: string)
    requires IsToken(t)
    requires rest == [] || IsSpace(rest[0])
    ensures TokenLen(t + rest) == |t|
    decreases |t|
  {
    assert (t + rest)[0] == t[0];
    if |t| > 1 {
      assert (t + rest)[1..] == t[1..] + rest;
      assert forall c | c in t[1..] :: c in t;
      TokenLenOfToken(t[1..], rest);
    } else {
      assert (t + rest)[1..] == rest;
    }
  }

  /** A leading space adds no word. */
  lemma SplitAfterSpace(rest: string)
    ensures Split(" " + rest) == Split(rest)
  {
    assert (" " + rest)[1..] == rest;
  }

  /** A word followed by a space is the first word of the split. */
  lemma SplitAfterWord(t: string, rest: string)
    requires IsToken(t)
    ensures Split(t + " " + rest) == [t] + Split(rest)
  {
    var s := t + (" " + rest);
    assert t + " " + rest == s;
    TokenLenOfToken(t, " " + rest);
    assert s[0] == t[0];
    assert s[..|t|] == t;
    assert s[|t|..] == " " + rest;
    SplitAfterSpace(rest);
  }

  /** A single word splits into itself. */
  lemma SplitOneWord(t: string)
    requires IsToken(t)
    ensures Split(t) == [t]
  {
    TokenLenOfToken(t, []);
    assert t + [] == t;
    assert t[..|t|] == t;
    assert t[|t|..] == [];
  }

  /** Splitting words joined by single spaces gives the words back. */
  lemma {:induction false} SplitJoin(ts: seq<string>)
    requires forall k :: 0 <= k < |ts| ==> IsToken(ts[k])
    ensures Split(JoinWith(" ", ts)) == ts
    decreases |ts|
  {
    if |ts| == 1 {
      SplitOneWord(ts[0]);
    } else if |ts| > 1 {
      SplitAfterWord(ts[0], JoinWith(" ", ts[1..]));
      SplitJoin(ts[1..]);
      assert ts == [ts[0]] + ts[1..];
    }
  }

  /** `s.replace(a, b)` for single characters. */
  function ReplaceChar(s: string, a: char, b: char): (r: string)
    ensures |r| == |s|
    ensures a != b ==> a !in r
    ensures forall i :: 0 <= i < |s| && s[i] != a ==> r[i] == s[i]
    ensures forall i :: 0 <= i < |s| && s[i] == a ==> r[i] == b
  {
    seq(|s|, i requires 0 <= i < |s| => if s[i] == a then b else s[i])
  }

  /**
   * `s.title()`: a letter is upper-cased when it does not follow a letter and
   * lower-cased when it does; `afterLetter` says whether the text before `s` ended in one.
   */
  function TitleFrom(s: string, afterLetter: bool): (r: string)
    ensures |r| == |s|
  {
    if s == [] then []
    else
      var c := s[0];
      [if afterLetter then LowerChar(c) else UpperChar(c)] + TitleFrom(s[1..], IsLetter(c))
  }

  function Title(s: string): string {
    TitleFrom(s, false)
  }

  /** What `title()` puts at position `i`, read off the input alone. */
  function TitleCharAt(s: string, i: nat, afterLetter: bool): char
    requires i < |s|
  {
    var follows := if i == 0 then afterLetter else IsLetter(s[i - 1]);
    if follows then LowerChar(s[i]) else UpperChar(s[i])
  }

  lemma {:induction false} TitleFromAt(s: string, afterLetter: bool, i: nat)
    requires i < |s|
    ensures TitleFrom(s, afterLetter)[i] == TitleCharAt(s, i, afterLetter)
    decreases |s|
  {
    if i > 0 {
      TitleFromAt(s[1..], IsLetter(s[0]), i - 1);
    }
  }

  /** Position by position, `title()` capitalises word starts and lower-cases the rest. */
  lemma TitleAt(s: string, i: nat)
    requires i < |s|
    ensures Title(s)[i] == (if i > 0 && IsLetter(s[i - 1]) then LowerChar(s[i]) else UpperChar(s[i]))
  {
    TitleFromAt(s, false, i);
  }

  /** `s.rstrip(c)` */
  function RStripChar(s: string, c: char): (r: string)
    ensures |r| <= |s| && r == s[..|r|]
    ensures r == [] || r[|r| - 1] != c
    ensures forall i :: |r| <= i < |s| ==> s[i] == c
  {
    if s != [] && s[|s| - 1] == c then RStripChar(s[..|s| - 1], c) else s
  }

  lemma RStripCharKeeps(s: string, c: char)
    requires s == [] || s[|s| - 1] != c
    ensures RStripChar(s, c) == s
  {
  }

  lemma RStripCharDrops(s: string, c: char)
    ensures RStripChar(s + [c], c) == RStripChar(s, c)
  {
    assert (s + [c])[..|s|] == s;
  }
}
