/**
 * The pieces of Python's `str` that the generator relies on, over ASCII:
 * case mapping, `split(" ")`, `split()`, `join`, `strip`, `rstrip` and
 * substring tests. Non-ASCII characters are left untouched by the case maps
 * and are never treated as whitespace.
 */
module Strings {

  /** `str.isspace()` on an ASCII character: tab, line feed, vertical tab,
      form feed, carriage return, the four separator controls and space. */
  predicate IsSpace(c: char) {
    (9 <= c as int <= 13) || (28 <= c as int <= 32)
  }

  predicate IsUpperChar(c: char) { 'A' <= c <= 'Z' }

  predicate IsLowerChar(c: char) { 'a' <= c <= 'z' }

  function LowerChar(c: char): (d: char)
    ensures !IsUpperChar(d)
    ensures IsUpperChar(c) ==> d as int == c as int + 32
    ensures !IsUpperChar(c) ==> d == c
  {
    if IsUpperChar(c) then (c as int + 32) as char else c
  }

  function UpperChar(c: char): (d: char)
    ensures !IsLowerChar(d)
    ensures IsLowerChar(c) ==> d as int == c as int - 32
    ensures !IsLowerChar(c) ==> d == c
  {
    if IsLowerChar(c) then (c as int - 32) as char else c
  }

  /** Two strings are the same word up to ASCII case. */
  predicate SameIgnoringCase(a: string, b: string) {
    |a| == |b| && forall j :: 0 <= j < |a| ==> LowerChar(a[j]) == LowerChar(b[j])
  }

  predicate HasNoUpper(s: string) { forall j :: 0 <= j < |s| ==> !IsUpperChar(s[j]) }

  predicate HasNoLower(s: string) { forall j :: 0 <= j < |s| ==> !IsLowerChar(s[j]) }

  /** The shape `str.capitalize()` leaves: no lower-case first letter and no upper-case letter after it. */
  predicate IsCapitalized(s: string) {
    (s != [] ==> !IsLowerChar(s[0])) && forall j :: 1 <= j < |s| ==> !IsUpperChar(s[j])
  }

  /** `str.lower()` */
  function Lower(s: string): (r: string)
    ensures SameIgnoringCase(r, s) && HasNoUpper(r)
  {
    seq(|s|, i requires 0 <= i < |s| => LowerChar(s[i]))
  }

  /** `str.upper()` */
  function Upper(s: string): (r: string)
    ensures SameIgnoringCase(r, s) && HasNoLower(r)
  {
    seq(|s|, i requires 0 <= i < |s| => UpperChar(s[i]))
  }

  /** `str.capitalize()`: first character upper case, the rest lower case. */
  function Capitalize(s: string): (r: string)
    ensures SameIgnoringCase(r, s) && IsCapitalized(r)
  {
    if s == [] then [] else [UpperChar(s[0])] + Lower(s[1..])
  }

  /** A case map changes letters only: a character that is not an ASCII letter
      occurs in the mapped word exactly where it occurred in the original. */
  lemma SameIgnoringCaseKeepsOthers(a: string, b: string, c: char)
    requires SameIgnoringCase(a, b)
    requires !IsUpperChar(c) && !IsLowerChar(c)
    ensures c in a <==> c in b
  {
    if c in a {
      var j :| 0 <= j < |a| && a[j] == c;
      assert LowerChar(b[j]) == c;
      assert b[j] == c;
    }
    if c in b {
      var j :| 0 <= j < |b| && b[j] == c;
      assert LowerChar(a[j]) == c;
      assert a[j] == c;
    }
  }

  /** A case-mapped word is determined by the original word and the case shape
      it must have: each of `Lower`, `Upper` and `Capitalize` is the only
      result of its contract. */
  lemma LowerIsUnique(s: string, r: string)
    requires SameIgnoringCase(r, s) && HasNoUpper(r)
    ensures r == Lower(s)
  {
    forall j | 0 <= j < |s| ensures r[j] == Lower(s)[j] {
      assert LowerChar(r[j]) == LowerChar(s[j]);
    }
  }

  lemma UpperIsUnique(s: string, r: string)
    requires SameIgnoringCase(r, s) && HasNoLower(r)
    ensures r == Upper(s)
  {
    forall j | 0 <= j < |s| ensures r[j] == Upper(s)[j] {
      assert LowerChar(r[j]) == LowerChar(s[j]);
    }
  }

  lemma CapitalizeIsUnique(s: string, r: string)
    requires SameIgnoringCase(r, s) && IsCapitalized(r)
    ensures r == Capitalize(s)
  {
    if s != [] {
      assert LowerChar(r[0]) == LowerChar(s[0]);
      LowerIsUnique(s[1..], r[1..]);
      assert r == [r[0]] + r[1..];
    }
  }

  // ---------------------------------------------------------------------
  // Splitting and joining
  // ---------------------------------------------------------------------

  /** `s.split(c)` for a one-character separator: every occurrence of `c`
      ends a piece, so consecutive separators give empty pieces and
      `"".split(c)` is `[""]`. */
  function SplitOn(s: string, c: char): (pieces: seq<string>)
    ensures |pieces| >= 1
    ensures forall p <- pieces :: c !in p
    decreases |s|
  {
    if s == [] then [""]
    else
      var rest := SplitOn(s[1..], c);
      if s[0] == c then [""] + rest else [[s[0]] + rest[0]] + rest[1..]
  }

  /** `sep.join(words)` */
  function Join(sep: string, words: seq<string>): string
    decreases |words|
  {
    if words == [] then ""
    else if |words| == 1 then words[0]
    else words[0] + sep + Join(sep, words[1..])
  }

  /** Each word followed by `t`: the string built by `s += "{} ".format(w)`
      style loops. */
  function Terminated(words: seq<string>, t: string): string
    decreases |words|
  {
    if words == [] then "" else words[0] + t + Terminated(words[1..], t)
  }

  lemma {:induction false} TerminatedSnoc(words: seq<string>, w: string, t: string)
    ensures Terminated(words + [w], t) == Terminated(words, t) + w + t
    decreases |words|
  {
    if words == [] {
      assert words + [w] == [w];
    } else {
      assert (words + [w])[1..] == words[1..] + [w];
      TerminatedSnoc(words[1..], w, t);
    }
  }

  lemma {:induction false} JoinSnoc(sep: string, words: seq<string>, w: string)
    requires words != []
    ensures Join(sep, words + [w]) == Join(sep, words) + sep + w
    decreases |words|
  {
    if |words| == 1 {
      assert words + [w] == [words[0], w];
      assert [words[0], w][1..] == [w];
    } else {
      assert (words + [w])[1..] == words[1..] + [w];
      JoinSnoc(sep, words[1..], w);
    }
  }

  /** A terminated list is the joined list with one more terminator. */
  lemma {:induction false} TerminatedIsJoin(words: seq<string>, t: string)
    requires words != []
    ensures Terminated(words, t) == Join(t, words) + t
    decreases |words|
  {
    if |words| > 1 {
      TerminatedIsJoin(words[1..], t);
    }
  }

  /** Splitting a word that does not contain the separator, glued to a tail. */
  lemma {:induction false} SplitOnPrefix(w: string, c: char, tail: string)
    requires c !in w
    ensures SplitOn(w + tail, c) == [w + SplitOn(tail, c)[0]] + SplitOn(tail, c)[1..]
    decreases |w|
  {
    if w != [] {
      assert w[0] in w;
      assert (w + tail)[0] == w[0] != c;
      assert (w + tail)[1..] == w[1..] + tail;
      assert c !in w[1..];
      SplitOnPrefix(w[1..], c, tail);
      var rest := SplitOn(w[1..] + tail, c);
      assert rest[0] == w[1..] + SplitOn(tail, c)[0];
      assert rest[1..] == SplitOn(tail, c)[1..];
      assert SplitOn(w + tail, c) == [[w[0]] + rest[0]] + rest[1..];
      assert [w[0]] + (w[1..] + SplitOn(tail, c)[0]) == w + SplitOn(tail, c)[0];
    } else {
      assert w + tail == tail;
      var t := SplitOn(tail, c);
      assert t == [t[0]] + t[1..];
      assert w + t[0] == t[0];
    }
  }

  /** Joining the pieces of a split with the same character gives the string back. */
  lemma {:induction false} JoinSplitOn(s: string, c: char)
    ensures Join([c], SplitOn(s, c)) == s
    decreases |s|
  {
    if s != [] {
      var rest := SplitOn(s[1..], c);
      JoinSplitOn(s[1..], c);
      if s[0] == c {
        assert Join([c], [""] + rest) == "" + [c] + Join([c], rest);
      } else {
        var head := [s[0]] + rest[0];
        var r := [head] + rest[1..];
        if |rest| == 1 {
          assert r == [head];
          assert rest == [rest[0]];
        } else {
          assert r[1..] == rest[1..];
          assert Join([c], rest) == rest[0] + [c] + Join([c], rest[1..]);
        }
      }
    }
  }

  /** Splitting a join on a character that no word contains gives the words back. */
  lemma {:induction false} SplitOnJoin(words: seq<string>, c: char)
    requires words != []
    requires forall w <- words :: c !in w
    ensures SplitOn(Join([c], words), c) == words
    decreases |words|
  {
    var w := words[0];
    if |words| == 1 {
      SplitOnPrefix(w, c, "");
      assert SplitOn("", c) == [""];
      assert w + "" == w;
      assert words == [w];
    } else {
      var tail := Join([c], words[1..]);
      SplitOnJoin(words[1..], c);
      SplitOnPrefix(w, c, [c] + tail);
      assert w + [c] + tail == w + ([c] + tail);
      assert Join([c], words) == w + [c] + tail;
      assert ([c] + tail)[1..] == tail;
      assert SplitOn([c] + tail, c) == [""] + words[1..];
      assert w + "" == w;
      assert words == [w] + words[1..];
    }
  }

  /** A word of `split()`'s output: non-empty, without whitespace. */
  predicate IsToken(w: string) {
    w != [] && forall j :: 0 <= j < |w| ==> !IsSpace(w[j])
  }

  /** `s.split()`: the maximal runs of non-whitespace characters, in order. */
  function SplitWhitespace(s: string): (words: seq<string>)
    ensures forall w <- words :: IsToken(w)
    ensures s != [] && !IsSpace(s[0]) ==> words != [] && words[0] != [] && words[0][0] == s[0]
    decreases |s|
  {
    if s == [] then []
    else if IsSpace(s[0]) then SplitWhitespace(s[1..])
    else
      var rest := SplitWhitespace(s[1..]);
      if |s| > 1 && !IsSpace(s[1]) then
        var head := [s[0]] + rest[0];
        assert IsToken(rest[0]);
        assert forall j :: 1 <= j < |head| ==> head[j] == rest[0][j - 1];
        [head] + rest[1..]
      else [[s[0]]] + rest
  }

  lemma {:induction false} SplitWhitespaceToken(w: string, tail: string)
    requires IsToken(w)
    requires tail == [] || IsSpace(tail[0])
    ensures SplitWhitespace(w + tail) == [w] + SplitWhitespace(tail)
    decreases |w|
  {
    assert (w + tail)[1..] == w[1..] + tail;
    if |w| > 1 {
      SplitWhitespaceToken(w[1..], tail);
      assert [w[0]] + w[1..] == w;
    } else {
      assert w[1..] + tail == tail;
      assert [w[0]] == w;
    }
  }

  /** `split()` skips the whitespace before the first word. */
  lemma {:induction false} SplitWhitespaceSkipsSpace(ws: string, s: string)
    requires forall j :: 0 <= j < |ws| ==> IsSpace(ws[j])
    ensures SplitWhitespace(ws + s) == SplitWhitespace(s)
    decreases |ws|
  {
    if ws == [] {
      assert ws + s == s;
    } else {
      assert (ws + s)[0] == ws[0] && (ws + s)[1..] == ws[1..] + s;
      SplitWhitespaceSkipsSpace(ws[1..], s);
    }
  }

  /** `split()` undoes a join with one space, and ignores a trailing space. */
  lemma {:induction false} SplitWhitespaceJoin(words: seq<string>, t: string)
    requires forall w <- words :: IsToken(w)
    requires t == " " || t == ""
    ensures SplitWhitespace(Join(" ", words) + t) == words
    decreases |words|
  {
    if words == [] {
      if t == " " {
        assert SplitWhitespace(" ") == SplitWhitespace(" "[1..]);
        assert " "[1..] == "";
      }
      assert Join(" ", words) + t == t;
    } else {
      var w := words[0];
      var rest := Join(" ", words[1..]) + t;
      SplitWhitespaceJoin(words[1..], t);
      if |words| == 1 {
        assert Join(" ", words) + t == w + t;
        SplitWhitespaceToken(w, t);
        assert SplitWhitespace(t) == [] by {
          if t == " " { assert " "[1..] == ""; }
        }
        assert words == [w];
      } else {
        assert Join(" ", words) + t == w + (" " + rest);
        SplitWhitespaceToken(w, " " + rest);
        assert (" " + rest)[1..] == rest;
        assert words == [w] + words[1..];
      }
    }
  }

  // ---------------------------------------------------------------------
  // Stripping
  // ---------------------------------------------------------------------

  /** `str.lstrip()` */
  function LStrip(s: string): (r: string)
    decreases |s|
  {
    if s != [] && IsSpace(s[0]) then LStrip(s[1..]) else s
  }

  /** `str.rstrip()` */
  function RStrip(s: string): (r: string)
    decreases |s|
  {
    if s != [] && IsSpace(s[|s| - 1]) then RStrip(s[..|s| - 1]) else s
  }

  /** `lstrip` removes exactly the leading whitespace. */
  lemma {:induction false} LStripSpec(s: string)
    ensures LStrip(s) == [] || !IsSpace(LStrip(s)[0])
    ensures |LStrip(s)| <= |s| && LStrip(s) == s[|s| - |LStrip(s)|..]
    ensures forall j :: 0 <= j < |s| - |LStrip(s)| ==> IsSpace(s[j])
    decreases |s|
  {
    if s != [] && IsSpace(s[0]) {
      LStripSpec(s[1..]);
    }
  }

  /** `rstrip` removes exactly the trailing whitespace. */
  lemma {:induction false} RStripSpec(s: string)
    ensures RStrip(s) == [] || !IsSpace(RStrip(s)[|RStrip(s)| - 1])
    ensures |RStrip(s)| <= |s| && RStrip(s) == s[..|RStrip(s)|]
    ensures forall j :: |RStrip(s)| <= j < |s| ==> IsSpace(s[j])
    decreases |s|
  {
    if s != [] && IsSpace(s[|s| - 1]) {
      RStripSpec(s[..|s| - 1]);
    }
  }

  /** `str.strip()` */
  function Strip(s: string): (r: string)
  {
    RStrip(LStrip(s))
  }

  /** `strip` leaves a string that neither starts nor ends with whitespace,
      taken from the middle of its argument. */
  lemma StripSpec(s: string)
    ensures Strip(s) == [] || (!IsSpace(Strip(s)[0]) && !IsSpace(Strip(s)[|Strip(s)| - 1]))
    ensures |LStrip(s)| <= |s| && |Strip(s)| <= |LStrip(s)|
    ensures Strip(s) == s[|s| - |LStrip(s)|..|s| - |LStrip(s)| + |Strip(s)|]
  {
    LStripSpec(s);
    RStripSpec(LStrip(s));
  }

  lemma JoinEnds(sep: string, words: seq<string>)
    requires words != [] && forall i :: 0 <= i < |words| ==> words[i] != []
    ensures Join(sep, words) != []
    ensures Join(sep, words)[0] == words[0][0]
    ensures Join(sep, words)[|Join(sep, words)| - 1] == words[|words| - 1][|words[|words| - 1]| - 1]
    decreases |words|
  {
    if |words| > 1 {
      JoinEnds(sep, words[1..]);
    }
  }

  lemma StripSpaceAfter(j: string)
    requires j != [] && !IsSpace(j[0]) && !IsSpace(j[|j| - 1])
    ensures Strip(j + " ") == j
  {
    var s := j + " ";
    assert s[0] == j[0];
    assert LStrip(s) == s;
    assert s[..|s| - 1] == j;
    assert RStrip(s) == RStrip(j);
  }

  /** Stripping a space-terminated list of tokens leaves their space join. */
  lemma StripTerminated(words: seq<string>)
    requires forall w <- words :: IsToken(w)
    ensures Strip(Terminated(words, " ")) == Join(" ", words)
  {
    if words != [] {
      var j := Join(" ", words);
      TerminatedIsJoin(words, " ");
      assert forall i :: 0 <= i < |words| ==> IsToken(words[i]);
      JoinEnds(" ", words);
      assert IsToken(words[0]) && IsToken(words[|words| - 1]);
      StripSpaceAfter(j);
    }
  }

  // ---------------------------------------------------------------------
  // Substrings
  // ---------------------------------------------------------------------

  /** `sub` starts at position `i` of `s`. */
  predicate OccursAt(s: string, sub: string, i: int) {
    0 <= i <= |s| - |sub| && sub <= s[i..]
  }

  /** `sub in s` for strings: `sub` starts at some position of `s`. */
  predicate Contains(s: string, sub: string) {
    exists i :: 0 <= i <= |s| - |sub| && OccursAt(s, sub, i)
  }

  /** None of the characters of `s` is in `cs`. */
  predicate Avoids(s: string, cs: set<char>) {
    forall i :: 0 <= i < |s| ==> s[i] !in cs
  }

  lemma AvoidsConcat(a: string, b: string, cs: set<char>)
    requires Avoids(a, cs) && Avoids(b, cs)
    ensures Avoids(a + b, cs)
  {
    forall i | 0 <= i < |a + b| ensures (a + b)[i] !in cs {
      if i >= |a| {
        assert (a + b)[i] == b[i - |a|];
      }
    }
  }

  /** A string avoiding one of the characters of `sub` does not contain `sub`. */
  lemma AvoidsAt(s: string, cs: set<char>, sub: string, k: nat)
    requires Avoids(s, cs) && k < |sub| && sub[k] in cs
    ensures !Contains(s, sub)
  {
    forall i | 0 <= i <= |s| - |sub| ensures !OccursAt(s, sub, i) {
      assert s[i..][k] == s[i + k];
    }
  }

  /** A string contains its prefixes. */
  lemma StartsWith(s: string, sub: string)
    requires sub <= s
    ensures Contains(s, sub)
  {
    assert OccursAt(s, sub, 0);
  }

  /** A string contains its suffixes. */
  lemma EndsWith(s: string, sub: string)
    requires |sub| <= |s| && s[|s| - |sub|..] == sub
    ensures Contains(s, sub)
  {
    assert OccursAt(s, sub, |s| - |sub|);
  }

  // ---------------------------------------------------------------------
  // Whitespace-free strings
  // ---------------------------------------------------------------------

  predicate NoSpace(s: string) {
    forall j :: 0 <= j < |s| ==> !IsSpace(s[j])
  }

  /** A case map turns a token into a token: whitespace is not a letter. */
  lemma CaseKeepsToken(a: string, b: string)
    requires SameIgnoringCase(a, b) && IsToken(b)
    ensures IsToken(a)
  {
    forall j | 0 <= j < |a| ensures !IsSpace(a[j]) {
      assert LowerChar(a[j]) == LowerChar(b[j]);
      assert !IsSpace(b[j]);
    }
  }

  /** Words and a separator free of whitespace join into a string free of it. */
  lemma {:induction false} JoinNoSpace(sep: string, words: seq<string>)
    requires NoSpace(sep)
    requires forall i :: 0 <= i < |words| ==> NoSpace(words[i])
    ensures NoSpace(Join(sep, words))
    decreases |words|
  {
    if |words| > 1 {
      JoinNoSpace(sep, words[1..]);
      var tail := Join(sep, words[1..]);
      assert NoSpace(words[0]);
      assert Join(sep, words) == words[0] + sep + tail;
      forall j | 0 <= j < |words[0] + sep + tail| ensures !IsSpace((words[0] + sep + tail)[j]) {
        if j < |words[0]| {
        } else if j < |words[0]| + |sep| {
          assert (words[0] + sep + tail)[j] == sep[j - |words[0]|];
        } else {
          assert (words[0] + sep + tail)[j] == tail[j - |words[0]| - |sep|];
        }
      }
    } else if |words| == 1 {
      assert NoSpace(words[0]);
    }
  }
}
