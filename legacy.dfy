/**
 * The older single-file generator, namealizer.py: a formatter driven by
 * compound format names, a dictionary of blank-line-separated letter groups
 * addressed by alphabet position, and a `main` that draws words in count,
 * initials or default mode.
 *
 * The random generator is the explicit `Stream` of module `Rand`; every
 * `random.randint` consumes one draw.
 */
module Legacy {
  import opened Wrappers
  import opened Strings
  import opened Rand

  /** The exceptions the old script lets escape, and its refusal to run with
      both a count and initials. */
  datatype Failure =
    | IndexError        // a letter group past the end, or a word line before any group
    | ValueError        // `random.randint(0, -1)`: an empty group or an empty dictionary
    | TypeError         // a starting letter outside a..z indexes the list with a string
    | CountAndInitials  // `main` prints that the two options exclude each other and stops

  // -----------------------------------------------------------------------
  // Formatter: format_string
  // -----------------------------------------------------------------------

  /** The three word case maps the formats use. */
  datatype Case = LowerCase | UpperCase | Capitalized

  function ApplyCase(c: Case, w: string): (r: string)
    ensures SameIgnoringCase(r, w)
    ensures c == LowerCase ==> HasNoUpper(r)
    ensures c == UpperCase ==> HasNoLower(r)
    ensures c == Capitalized ==> IsCapitalized(r)
  {
    match c
    case LowerCase => Lower(w)
    case UpperCase => Upper(w)
    case Capitalized => Capitalize(w)
  }

  /** The five branches of `format_string`. */
  datatype Style = LowerStyle | UpperStyle | CapitalizedStyle | MixedStyle | CamelStyle {
    /** The case of the first word. */
    function FirstCase(): Case {
      match this
      case LowerStyle => LowerCase
      case UpperStyle => UpperCase
      case MixedStyle => LowerCase
      case _ => Capitalized
    }

    /** The case of every later word. */
    function RestCase(): Case {
      match this
      case LowerStyle => LowerCase
      case UpperStyle => UpperCase
      case _ => Capitalized
    }
  }

  /** The separator prefixes of the format names, with the separator each selects. */
  const Prefixes: seq<(string, string)> := [("", " "), ("hyphenated-", "-"), ("underscored-", "_")]

  /** The style names of the format names, with the branch each selects. */
  const StyleNames: seq<(string, Style)> := [
    ("lowercase", LowerStyle), ("uppercase", UpperStyle), ("capitalized", CapitalizedStyle),
    ("mixedcase", MixedStyle), ("camelcase", CamelStyle)]

  /** The five style names behind one prefix. */
  function WithPrefix(p: string): (r: seq<string>)
    ensures |r| == |StyleNames|
    ensures forall q :: 0 <= q < |StyleNames| ==> r[q] == p + StyleNames[q].0
  {
    seq(|StyleNames|, q requires 0 <= q < |StyleNames| => p + StyleNames[q].0)
  }

  /** `FORMATS`: every style name bare, then hyphenated, then underscored,
      with `COMPATIBLE_FORMATS` appended. */
  const Formats: seq<string> :=
    WithPrefix("") + WithPrefix("hyphenated-") + WithPrefix("underscored-") + CompatibleFormats

  /** `COMPATIBLE_FORMATS`: names that expand to their lowercase variant. */
  const CompatibleFormats: seq<string> := ["hyphenated", "underscored"]

  /** The format name the branches test: a compatibility name gets
      "-lowercase" appended (before, and independently of, lower-casing),
      then the whole name is lower-cased. */
  function Normalized(fmt: string): string {
    Lower(if fmt in CompatibleFormats then fmt + "-lowercase" else fmt)
  }

  /** The separator the format name asks for. */
  function SeparatorOf(f: string): string {
    if Contains(f, "hyphenated") then "-"
    else if Contains(f, "underscored") then "_"
    else " "
  }

  /** The style the chain of `in` tests selects: the first style name the
      format name contains. */
  function StyleNamed(f: string): Option<Style> {
    if Contains(f, "lowercase") then Some(LowerStyle)
    else if Contains(f, "uppercase") then Some(UpperStyle)
    else if Contains(f, "capitalized") then Some(CapitalizedStyle)
    else if Contains(f, "mixedcase") then Some(MixedStyle)
    else if Contains(f, "camelcase") then Some(CamelStyle)
    else None
  }

  /** The branch a normalized format name takes: none unless it is one of
      `FORMATS` (`good_to_go`), then the first style name it contains. */
  function StyleOf(f: string): Option<Style> {
    if f !in Formats then None else StyleNamed(f)
  }

  /** Mixed case and camel case glue the words together when no separator
      was named. */
  function Joiner(style: Style, sep: string): string {
    if (style == MixedStyle || style == CamelStyle) && sep == " " then "" else sep
  }

  /** The words with `first` applied to the first and `rest` to the others. */
  function CasedWith(first: Case, rest: Case, words: seq<string>): (r: seq<string>)
    ensures |r| == |words|
    ensures forall i :: 0 <= i < |r| ==> SameIgnoringCase(r[i], words[i])
  {
    seq(|words|, i requires 0 <= i < |words| => ApplyCase(if i == 0 then first else rest, words[i]))
  }

  function Cased(style: Style, words: seq<string>): seq<string> {
    CasedWith(style.FirstCase(), style.RestCase(), words)
  }

  /** What `format_string` returns: the whitespace-separated words, re-cased
      and joined, or the input itself for a format it does not know. */
  function FormatOf(s: string, fmt: string): string {
    var f := Normalized(fmt);
    match StyleOf(f)
    case None => s
    case Some(style) => Join(Joiner(style, SeparatorOf(f)), Cased(style, SplitWhitespace(s)))
  }

  /** One of `format_string`'s loops: every re-cased word is followed by the
      separator except the last, found by counting words with `index`. */
  method JoinCased(words: seq<string>, sep: string, first: Case, rest: Case) returns (r: string)
    ensures r == Join(sep, CasedWith(first, rest, words))
  {
    ghost var cased := CasedWith(first, rest, words);
    r := "";
    var index := 0;
    var firstWord := true;
    for i := 0 to |words|
      invariant index == i
      invariant firstWord <==> i == 0
      invariant i < |words| ==> r == Terminated(cased[..i], sep)
      invariant i == |words| ==> r == Join(sep, cased)
    {
      var word := ApplyCase(if firstWord then first else rest, words[i]);
      assert word == cased[i];
      assert cased[..i + 1] == cased[..i] + [word];
      firstWord := false;
      index := index + 1;
      if index == |words| {
        if i == 0 {
          assert cased == [word];
        } else {
          TerminatedIsJoin(cased[..i], sep);
          JoinSnoc(sep, cased[..i], word);
          assert cased[..i + 1] == cased;
        }
        r := r + word;
      } else {
        TerminatedSnoc(cased[..i], word, sep);
        r := r + word + sep;
      }
    }
  }

  /** `format_string(string_to_format, desired_format)` */
  method FormatString(s: string, fmt: string) returns (r: string)
    ensures r == FormatOf(s, fmt)
  {
    var desired := fmt;
    if desired in CompatibleFormats {
      desired := desired + "-lowercase";
    }
    var words := SplitWhitespace(s);
    desired := Lower(desired);
    assert desired == Normalized(fmt);
    var goodToGo := desired in Formats;
    var sep: string;
    if Contains(desired, "hyphenated") {
      sep := "-";
    } else if Contains(desired, "underscored") {
      sep := "_";
    } else {
      sep := " ";
    }
    assert sep == SeparatorOf(desired);
    if goodToGo && Contains(desired, "lowercase") {
      r := JoinCased(words, sep, LowerCase, LowerCase);
    } else if goodToGo && Contains(desired, "uppercase") {
      r := JoinCased(words, sep, UpperCase, UpperCase);
    } else if goodToGo && Contains(desired, "capitalized") {
      r := JoinCased(words, sep, Capitalized, Capitalized);
    } else if goodToGo && Contains(desired, "mixedcase") {
      if sep == " " {
        sep := "";
      }
      r := JoinCased(words, sep, LowerCase, Capitalized);
    } else if goodToGo && Contains(desired, "camelcase") {
      if sep == " " {
        sep := "";
      }
      r := JoinCased(words, sep, Capitalized, Capitalized);
    } else {
      r := s;
    }
  }

  // -----------------------------------------------------------------------
  // What each format name selects
  // -----------------------------------------------------------------------

  /** A name that starts with "hyphenated" asks for hyphens. */
  lemma HyphenatedSeparator(t: string)
    ensures SeparatorOf("hyphenated-" + t) == "-"
  {
    StartsWith("hyphenated-" + t, "hyphenated");
  }

  /** A name that starts with "underscored" asks for underscores, unless
      the rest of it holds an 'h' (and so possibly "hyphenated"). */
  lemma UnderscoredSeparator(t: string)
    requires Avoids(t, {'h'})
    ensures SeparatorOf("underscored-" + t) == "_"
  {
    var f := "underscored-" + t;
    assert Avoids("underscored-", {'h'});
    AvoidsConcat("underscored-", t, {'h'});
    AvoidsAt(f, {'h'}, "hyphenated", 0);
    StartsWith(f, "underscored");
  }

  /** A name with neither an 'h' nor an 'n' keeps the space. */
  lemma SpaceSeparator(f: string)
    requires Avoids(f, {'h', 'n'})
    ensures SeparatorOf(f) == " "
  {
    AvoidsAt(f, {'h', 'n'}, "hyphenated", 0);
    AvoidsAt(f, {'h', 'n'}, "underscored", 1);
  }

  /** Style names after a prefix: "lowercase" is tested first, so it always wins. */
  lemma LowercaseNamed(p: string)
    ensures StyleNamed(p + "lowercase") == Some(LowerStyle)
  {
    EndsWith(p + "lowercase", "lowercase");
  }

  /** "uppercase" wins when the prefix holds no 'w' (and so no "lowercase"). */
  lemma UppercaseNamed(p: string)
    requires Avoids(p, {'w'})
    ensures StyleNamed(p + "uppercase") == Some(UpperStyle)
  {
    var f := p + "uppercase";
    assert Avoids("uppercase", {'w'});
    AvoidsConcat(p, "uppercase", {'w'});
    AvoidsAt(f, {'w'}, "lowercase", 2);
    EndsWith(f, "uppercase");
  }

  /** "capitalized" wins when neither earlier style name occurs. */
  lemma CapitalizedNamed(p: string)
    requires Avoids(p, {'w'}) && !Contains(p + "capitalized", "uppercase")
    ensures StyleNamed(p + "capitalized") == Some(CapitalizedStyle)
  {
    var f := p + "capitalized";
    assert Avoids("capitalized", {'w'});
    AvoidsConcat(p, "capitalized", {'w'});
    AvoidsAt(f, {'w'}, "lowercase", 2);
    EndsWith(f, "capitalized");
  }

  /** A 'u' or a 'p' missing from the name rules out "uppercase". */
  lemma NoUppercase(p: string, t: string)
    requires (Avoids(p, {'u'}) && Avoids(t, {'u'})) || (Avoids(p, {'p'}) && Avoids(t, {'p'}))
    ensures !Contains(p + t, "uppercase")
  {
    if Avoids(p, {'u'}) && Avoids(t, {'u'}) {
      AvoidsConcat(p, t, {'u'});
      AvoidsAt(p + t, {'u'}, "uppercase", 0);
    } else {
      AvoidsConcat(p, t, {'p'});
      AvoidsAt(p + t, {'p'}, "uppercase", 1);
    }
  }

  /** "mixedcase" wins when the prefix brings in no earlier style name. */
  lemma MixedcaseNamed(p: string)
    requires Avoids(p, {'w', 'z'}) && (Avoids(p, {'u'}) || Avoids(p, {'p'}))
    ensures StyleNamed(p + "mixedcase") == Some(MixedStyle)
  {
    var f := p + "mixedcase";
    assert Avoids("mixedcase", {'u'}) && Avoids("mixedcase", {'p'});
    NoUppercase(p, "mixedcase");
    assert Avoids("mixedcase", {'w', 'z'});
    AvoidsConcat(p, "mixedcase", {'w', 'z'});
    AvoidsAt(f, {'w', 'z'}, "lowercase", 2);
    AvoidsAt(f, {'w', 'z'}, "capitalized", 8);
    EndsWith(f, "mixedcase");
  }

  /** "camelcase", tested last, wins when no other style name occurs. */
  lemma CamelcaseNamed(p: string)
    requires Avoids(p, {'w', 'z', 'x'}) && (Avoids(p, {'u'}) || Avoids(p, {'p'}))
    ensures StyleNamed(p + "camelcase") == Some(CamelStyle)
  {
    var f := p + "camelcase";
    assert Avoids("camelcase", {'u'}) && Avoids("camelcase", {'p'});
    NoUppercase(p, "camelcase");
    assert Avoids("camelcase", {'w', 'z', 'x'});
    AvoidsConcat(p, "camelcase", {'w', 'z', 'x'});
    AvoidsAt(f, {'w', 'z', 'x'}, "lowercase", 2);
    AvoidsAt(f, {'w', 'z', 'x'}, "capitalized", 8);
    AvoidsAt(f, {'w', 'z', 'x'}, "mixedcase", 2);
    EndsWith(f, "camelcase");
  }

  /** Every letter of "uppercase" occurs in this name; only its one 'u'
      could start the word, and the letter after it is not a 'p'. */
  lemma UnderscoredCapitalizedIsNotUppercase()
    ensures !Contains("underscored-capitalized", "uppercase")
  {
    var s := "underscored-capitalized";
    assert s[1] == 'n';
    assert Avoids(s[1..], {'u'});
    forall i | 0 <= i <= |s| - 9 ensures !OccursAt(s, "uppercase", i) {
      if i == 0 {
        assert s[i..][1] == 'n';
      } else {
        assert s[i..][0] == s[1..][i - 1];
      }
    }
  }

  /** The style and separator of each plain style name. */
  lemma PlainStyles(q: nat)
    requires q < |StyleNames|
    ensures StyleNamed(StyleNames[q].0) == Some(StyleNames[q].1)
    ensures SeparatorOf(StyleNames[q].0) == " "
  {
    if q == 0 {
      assert StyleNames[q] == ("lowercase", LowerStyle);
      assert "" + "lowercase" == "lowercase";
      assert Avoids("lowercase", {'h', 'n'});
      SpaceSeparator("lowercase");
      LowercaseNamed("");
    } else if q == 1 {
      assert StyleNames[q] == ("uppercase", UpperStyle);
      assert "" + "uppercase" == "uppercase";
      assert Avoids("uppercase", {'h', 'n'});
      SpaceSeparator("uppercase");
      assert Avoids("", {'w', 'z', 'x', 'u'});
      UppercaseNamed("");
    } else if q == 2 {
      assert StyleNames[q] == ("capitalized", CapitalizedStyle);
      assert "" + "capitalized" == "capitalized";
      assert Avoids("capitalized", {'h', 'n'});
      SpaceSeparator("capitalized");
      assert Avoids("", {'w', 'z', 'x', 'u'});
      NoUppercase("", "capitalized");
      CapitalizedNamed("");
    } else if q == 3 {
      assert StyleNames[q] == ("mixedcase", MixedStyle);
      assert "" + "mixedcase" == "mixedcase";
      assert Avoids("mixedcase", {'h', 'n'});
      SpaceSeparator("mixedcase");
      assert Avoids("", {'w', 'z', 'x', 'u'});
      MixedcaseNamed("");
    } else {
      assert StyleNames[q] == ("camelcase", CamelStyle);
      assert "" + "camelcase" == "camelcase";
      assert Avoids("camelcase", {'h', 'n'});
      SpaceSeparator("camelcase");
      assert Avoids("", {'w', 'z', 'x', 'u'});
      CamelcaseNamed("");
    }
  }

  /** The style and separator of each hyphenated name. */
  lemma HyphenatedStyles(q: nat)
    requires q < |StyleNames|
    ensures StyleNamed("hyphenated-" + StyleNames[q].0) == Some(StyleNames[q].1)
    ensures SeparatorOf("hyphenated-" + StyleNames[q].0) == "-"
  {
    var p := "hyphenated-";
    assert Avoids(p, {'w', 'z', 'x'}) && Avoids(p, {'u'});
    if q == 0 {
      assert StyleNames[q] == ("lowercase", LowerStyle);
      HyphenatedSeparator("lowercase");
      LowercaseNamed(p);
    } else if q == 1 {
      assert StyleNames[q] == ("uppercase", UpperStyle);
      HyphenatedSeparator("uppercase");
      UppercaseNamed(p);
    } else if q == 2 {
      assert StyleNames[q] == ("capitalized", CapitalizedStyle);
      HyphenatedSeparator("capitalized");
      assert Avoids("capitalized", {'u'});
      NoUppercase(p, "capitalized");
      CapitalizedNamed(p);
    } else if q == 3 {
      assert StyleNames[q] == ("mixedcase", MixedStyle);
      HyphenatedSeparator("mixedcase");
      MixedcaseNamed(p);
    } else {
      assert StyleNames[q] == ("camelcase", CamelStyle);
      HyphenatedSeparator("camelcase");
      CamelcaseNamed(p);
    }
  }

  /** The style and separator of each underscored name. */
  lemma UnderscoredStyles(q: nat)
    requires q < |StyleNames|
    ensures StyleNamed("underscored-" + StyleNames[q].0) == Some(StyleNames[q].1)
    ensures SeparatorOf("underscored-" + StyleNames[q].0) == "_"
  {
    var p := "underscored-";
    assert Avoids(p, {'w', 'z', 'x'}) && Avoids(p, {'p'});
    if q == 0 {
      assert StyleNames[q] == ("lowercase", LowerStyle);
      assert Avoids("lowercase", {'h'});
      UnderscoredSeparator("lowercase");
      LowercaseNamed(p);
    } else if q == 1 {
      assert StyleNames[q] == ("uppercase", UpperStyle);
      assert Avoids("uppercase", {'h'});
      UnderscoredSeparator("uppercase");
      UppercaseNamed(p);
    } else if q == 2 {
      assert StyleNames[q] == ("capitalized", CapitalizedStyle);
      assert Avoids("capitalized", {'h'});
      UnderscoredSeparator("capitalized");
      assert p + "capitalized" == "underscored-capitalized";
      UnderscoredCapitalizedIsNotUppercase();
      CapitalizedNamed(p);
    } else if q == 3 {
      assert StyleNames[q] == ("mixedcase", MixedStyle);
      assert Avoids("mixedcase", {'h'});
      UnderscoredSeparator("mixedcase");
      MixedcaseNamed(p);
    } else {
      assert StyleNames[q] == ("camelcase", CamelStyle);
      assert Avoids("camelcase", {'h'});
      UnderscoredSeparator("camelcase");
      CamelcaseNamed(p);
    }
  }

  /** Every compound format name is one of `FORMATS` and selects the
      separator of its prefix and the branch of its style name. */
  lemma NamedFormats(p: nat, q: nat)
    requires p < |Prefixes| && q < |StyleNames|
    ensures Prefixes[p].0 + StyleNames[q].0 in Formats
    ensures StyleOf(Prefixes[p].0 + StyleNames[q].0) == Some(StyleNames[q].1)
    ensures SeparatorOf(Prefixes[p].0 + StyleNames[q].0) == Prefixes[p].1
  {
    var f := Prefixes[p].0 + StyleNames[q].0;
    if p == 0 {
      assert f == StyleNames[q].0 == WithPrefix("")[q];
      assert Formats[q] == f;
      PlainStyles(q);
    } else if p == 1 {
      assert f == WithPrefix("hyphenated-")[q];
      assert Formats[5 + q] == f;
      HyphenatedStyles(q);
    } else {
      assert f == WithPrefix("underscored-")[q];
      assert Formats[10 + q] == f;
      UnderscoredStyles(q);
    }
  }

  /** The bare compatibility names contain no style name: reached without
      the rewrite they select no branch. */
  lemma BareCompatibleNames()
    ensures StyleOf("hyphenated") == None
    ensures StyleOf("underscored") == None
  {
    NoStyleNamed("hyphenated");
    NoStyleNamed("underscored");
  }

  /** A name lacking a letter of each style name selects none. */
  lemma NoStyleNamed(f: string)
    requires f == "hyphenated" || f == "underscored"
    ensures StyleNamed(f) == None
  {
    if f == "hyphenated" {
      assert Avoids(f, {'w', 'u', 'z', 'x', 'm'});
      AvoidsAt(f, {'w', 'u', 'z', 'x', 'm'}, "uppercase", 0);
      NoOtherStyle(f, {'w', 'u', 'z', 'x', 'm'});
    } else {
      assert Avoids(f, {'w', 'p', 'z', 'x', 'm'});
      AvoidsAt(f, {'w', 'p', 'z', 'x', 'm'}, "uppercase", 1);
      NoOtherStyle(f, {'w', 'p', 'z', 'x', 'm'});
    }
  }

  lemma NoOtherStyle(f: string, cs: set<char>)
    requires Avoids(f, cs) && {'w', 'z', 'x', 'm'} <= cs && !Contains(f, "uppercase")
    ensures StyleNamed(f) == None
  {
    AvoidsAt(f, cs, "lowercase", 2);
    AvoidsAt(f, cs, "capitalized", 8);
    AvoidsAt(f, cs, "mixedcase", 2);
    AvoidsAt(f, cs, "camelcase", 2);
  }

  // -----------------------------------------------------------------------
  // What format_string returns
  // -----------------------------------------------------------------------

  /** A compatibility name formats exactly as its lowercase variant. */
  lemma CompatibleRewrite(s: string, fmt: string)
    requires fmt in CompatibleFormats
    ensures FormatOf(s, fmt) == FormatOf(s, fmt + "-lowercase")
  {
    assert |fmt + "-lowercase"| > 11;
    assert fmt + "-lowercase" !in CompatibleFormats;
  }

  /** Two strings without upper-case letters give one without. */
  lemma NoUpperConcat(a: string, b: string)
    requires HasNoUpper(a) && HasNoUpper(b)
    ensures HasNoUpper(a + b)
  {
    forall j | 0 <= j < |a + b| ensures !IsUpperChar((a + b)[j]) {
      if j >= |a| {
        assert (a + b)[j] == b[j - |a|];
      }
    }
  }

  /** Every compound name is already normalized: it is no compatibility
      name, and lower-casing leaves it as it is. */
  lemma NamedFormatNormal(p: nat, q: nat)
    requires p < |Prefixes| && q < |StyleNames|
    ensures Normalized(Prefixes[p].0 + StyleNames[q].0) == Prefixes[p].0 + StyleNames[q].0
  {
    var f := Prefixes[p].0 + StyleNames[q].0;
    assert f !in CompatibleFormats by {
      if p == 0 {
        assert f == StyleNames[q].0;
        assert |f| == 9 || f[0] == 'c';
      } else {
        assert |f| > 11;
      }
    }
    assert HasNoUpper(Prefixes[p].0) && HasNoUpper(StyleNames[q].0);
    NoUpperConcat(Prefixes[p].0, StyleNames[q].0);
    LowerIsUnique(f, f);
  }

  /** What `format_string` returns for each of the fifteen compound names:
      the `split()` words re-cased by the name's branch and joined by its
      prefix's separator, which mixed and camel case drop when it is a space. */
  lemma NamedFormatOutput(s: string, p: nat, q: nat)
    requires p < |Prefixes| && q < |StyleNames|
    ensures FormatOf(s, Prefixes[p].0 + StyleNames[q].0) ==
              Join(Joiner(StyleNames[q].1, Prefixes[p].1), Cased(StyleNames[q].1, SplitWhitespace(s)))
  {
    NamedFormatNormal(p, q);
    NamedFormats(p, q);
  }

  /** A lowercase format lower-cases every word and joins the words with
      the separator of its prefix. */
  lemma LowercaseFormat(s: string, p: nat)
    requires p < |Prefixes|
    ensures FormatOf(s, Prefixes[p].0 + "lowercase") ==
              Join(Prefixes[p].1, CasedWith(LowerCase, LowerCase, SplitWhitespace(s)))
  {
    var f := Prefixes[p].0 + "lowercase";
    assert f == Prefixes[p].0 + StyleNames[0].0;
    NamedFormatOutput(s, p, 0);
  }

  /** The rewrite looks at the name before lower-casing it: a capitalized
      compatibility name lower-cases to a known format with no style name,
      so the input comes back unchanged. */
  lemma CaseSensitiveRewrite(s: string)
    ensures FormatOf(s, "Hyphenated") == s
  {
    assert "Hyphenated" !in CompatibleFormats;
    assert Lower("Hyphenated") == "hyphenated";
    BareCompatibleNames();
  }

  /** A format name that is not in `FORMATS`, even after lower-casing and
      the compatibility rewrite, leaves the input unchanged and raises nothing. */
  lemma UnknownFormat(s: string, fmt: string)
    requires Normalized(fmt) !in Formats
    ensures FormatOf(s, fmt) == s
  {
  }

  /** With a known style and the space separator (a plain lowercase,
      uppercase or capitalized format), the output splits back into the
      re-cased words: leading, trailing and repeated whitespace are gone and
      the word count and order are kept. */
  lemma SpaceSeparatedWords(s: string, fmt: string)
    requires StyleOf(Normalized(fmt)).Some?
    requires Joiner(StyleOf(Normalized(fmt)).value, SeparatorOf(Normalized(fmt))) == " "
    ensures SplitWhitespace(FormatOf(s, fmt)) == Cased(StyleOf(Normalized(fmt)).value, SplitWhitespace(s))
    ensures |SplitWhitespace(FormatOf(s, fmt))| == |SplitWhitespace(s)|
  {
    var words := SplitWhitespace(s);
    var cased := Cased(StyleOf(Normalized(fmt)).value, words);
    forall w <- cased ensures IsToken(w) {
      var i :| 0 <= i < |cased| && cased[i] == w;
      assert words[i] in words;
      CaseKeepsToken(cased[i], words[i]);
    }
    SplitWhitespaceJoin(cased, "");
    assert Join(" ", cased) + "" == Join(" ", cased);
  }

  /** With a known style and any other separator (hyphen, underscore, or the
      empty glue of mixed and camel case), the output holds no whitespace. */
  lemma NoWhitespaceJoined(s: string, fmt: string)
    requires StyleOf(Normalized(fmt)).Some?
    requires Joiner(StyleOf(Normalized(fmt)).value, SeparatorOf(Normalized(fmt))) != " "
    ensures NoSpace(FormatOf(s, fmt))
  {
    var f := Normalized(fmt);
    var words := SplitWhitespace(s);
    var cased := Cased(StyleOf(f).value, words);
    var sep := Joiner(StyleOf(f).value, SeparatorOf(f));
    assert sep == "-" || sep == "_" || sep == "";
    forall i | 0 <= i < |cased| ensures NoSpace(cased[i]) {
      assert words[i] in words;
      CaseKeepsToken(cased[i], words[i]);
    }
    JoinNoSpace(sep, cased);
  }

  /** Camel case capitalizes every word; mixed case differs from it only in
      lower-casing the first. */
  lemma CamelAndMixed(words: seq<string>)
    ensures forall i :: 0 <= i < |words| ==> Cased(CamelStyle, words)[i] == Capitalize(words[i])
    ensures words != [] ==> Cased(MixedStyle, words)[0] == Lower(words[0])
    ensures forall i :: 1 <= i < |words| ==> Cased(MixedStyle, words)[i] == Cased(CamelStyle, words)[i]
  {
  }

  /** No words give the empty string in every known format. */
  lemma NoWordsNoOutput(s: string, fmt: string)
    requires StyleOf(Normalized(fmt)).Some? && SplitWhitespace(s) == []
    ensures FormatOf(s, fmt) == ""
  {
  }

  // -----------------------------------------------------------------------
  // Dictionary: import_dictionary
  // -----------------------------------------------------------------------

  /** The nested list `import_dictionary` builds: each "\n" line opens a new
      group, every other line, right-stripped, joins the newest group; a word
      line before any group indexes an empty list. */
  function GroupsOf(lines: seq<string>): Result<seq<seq<string>>, Failure>
    decreases |lines|
  {
    if lines == [] then Ok([])
    else
      match GroupsOf(lines[..|lines| - 1])
      case Err(e) => Err(e)
      case Ok(groups) =>
        var line := lines[|lines| - 1];
        if line == "\n" then Ok(groups + [[]])
        else if groups == [] then Err(IndexError)
        else Ok(groups[..|groups| - 1] + [groups[|groups| - 1] + [RStrip(line)]])
  }

  /** The groups one after another. */
  function Concat(groups: seq<seq<string>>): seq<string>
    decreases |groups|
  {
    if groups == [] then [] else Concat(groups[..|groups| - 1]) + groups[|groups| - 1]
  }

  /** The words of the word lines, right-stripped, in order. */
  function WordLines(lines: seq<string>): seq<string>
    decreases |lines|
  {
    if lines == [] then []
    else
      var line := lines[|lines| - 1];
      WordLines(lines[..|lines| - 1]) + (if line == "\n" then [] else [RStrip(line)])
  }

  /** Importing fails exactly when the first line is not blank; it then
      makes one group per blank line and keeps every word line, in order. */
  lemma {:induction false} ImportedGroups(lines: seq<string>)
    ensures GroupsOf(lines).Ok? <==> lines == [] || lines[0] == "\n"
    ensures GroupsOf(lines).Err? ==> GroupsOf(lines).error == IndexError
    ensures GroupsOf(lines).Ok? ==> |GroupsOf(lines).value| == multiset(lines)["\n"]
    ensures GroupsOf(lines).Ok? ==> Concat(GroupsOf(lines).value) == WordLines(lines)
    ensures GroupsOf(lines).Ok? && lines != [] ==> GroupsOf(lines).value != []
    decreases |lines|
  {
    if lines != [] {
      var init := lines[..|lines| - 1];
      var line := lines[|lines| - 1];
      assert lines == init + [line];
      ImportedGroups(init);
      if init != [] {
        assert init[0] == lines[0];
      }
      match GroupsOf(init)
      case Err(_) =>
      case Ok(groups) =>
        if line == "\n" {
          assert (groups + [[]])[..|groups|] == groups;
        } else if groups != [] {
          var last := groups[|groups| - 1];
          var g := groups[..|groups| - 1] + [last + [RStrip(line)]];
          assert g[..|g| - 1] == groups[..|groups| - 1];
          assert groups == groups[..|groups| - 1] + [last];
          assert Concat(groups) == Concat(groups[..|groups| - 1]) + last;
        }
    }
  }

  /** Every line right-stripped. */
  function RStripEach(ws: seq<string>): seq<string> {
    seq(|ws|, i requires 0 <= i < |ws| => RStrip(ws[i]))
  }

  /** A "\n" line followed by word lines opens one new group, and that group
      holds exactly those word lines, right-stripped, in order: each word goes
      to the group of the nearest "\n" above it. */
  lemma {:induction false} NewGroup(ls: seq<string>, ws: seq<string>)
    requires GroupsOf(ls).Ok?
    requires forall i :: 0 <= i < |ws| ==> ws[i] != "\n"
    ensures GroupsOf(ls + ["\n"] + ws) == Ok(GroupsOf(ls).value + [RStripEach(ws)])
    decreases |ws|
  {
    var lines := ls + ["\n"] + ws;
    if ws == [] {
      assert lines[..|lines| - 1] == ls;
      assert RStripEach(ws) == [];
    } else {
      var init := ws[..|ws| - 1];
      NewGroup(ls, init);
      assert lines[..|lines| - 1] == ls + ["\n"] + init;
      assert lines[|lines| - 1] == ws[|ws| - 1];
      var groups := GroupsOf(ls).value + [RStripEach(init)];
      assert groups[..|groups| - 1] == GroupsOf(ls).value;
      assert RStripEach(ws) == RStripEach(init) + [RStrip(ws[|ws| - 1])];
    }
  }

  /** An error while importing a prefix is the error of the whole import. */
  lemma {:induction false} GroupsErrorSticks(lines: seq<string>, i: nat)
    requires i <= |lines| && GroupsOf(lines[..i]).Err?
    ensures GroupsOf(lines) == GroupsOf(lines[..i])
    decreases |lines| - i
  {
    if i < |lines| {
      var init := lines[..|lines| - 1];
      assert init[..i] == lines[..i];
      GroupsErrorSticks(init, i);
    } else {
      assert lines[..i] == lines;
    }
  }

  /** `import_dictionary(opened_file)` over the file's lines. */
  method ImportDictionary(lines: seq<string>) returns (r: Result<seq<seq<string>>, Failure>)
    ensures r == GroupsOf(lines)
  {
    var dictionary: seq<seq<string>> := [];
    var index := -1;
    for i := 0 to |lines|
      invariant index == |dictionary| - 1
      invariant GroupsOf(lines[..i]) == Ok(dictionary)
    {
      var line := lines[i];
      assert lines[..i + 1][..i] == lines[..i];
      assert lines[..i + 1][i] == line;
      if line == "\n" {
        dictionary := dictionary + [[]];
        index := index + 1;
      } else {
        if index < 0 {
          GroupsErrorSticks(lines, i + 1);
          return Err(IndexError);
        }
        dictionary := dictionary[index := dictionary[index] + [RStrip(line)]];
        assert dictionary == dictionary[..index] + [dictionary[index]];
      }
    }
    assert lines[..|lines|] == lines;
    r := Ok(dictionary);
  }

  // -----------------------------------------------------------------------
  // Word selector: get_random_word
  // -----------------------------------------------------------------------

  /** `string.ascii_lowercase` */
  const Alphabet: string := "abcdefghijklmnopqrstuvwxyz"

  /** The alphabet is the letters a..z in order. */
  lemma AlphabetInOrder()
    ensures |Alphabet| == 26
    ensures forall i :: 0 <= i < |Alphabet| ==> Alphabet[i] as int == 'a' as int + i
  {
  }

  /** The letters of the alphabet are exactly a..z. */
  lemma AlphabetLetters(c: char)
    ensures c in Alphabet <==> 'a' <= c <= 'z'
  {
    AlphabetInOrder();
    if 'a' <= c <= 'z' {
      assert Alphabet[c as int - 'a' as int] == c;
    }
  }

  /** The group a lower-case starting letter selects: its alphabet position. */
  function LetterIndex(c: char): (r: Option<nat>)
    ensures r.Some? <==> 'a' <= c <= 'z'
    ensures r.Some? ==> r.value < |Alphabet| && Alphabet[r.value] == c
  {
    AlphabetInOrder();
    if 'a' <= c <= 'z' then Some(c as int - 'a' as int) else None
  }

  /** `get_random_word`'s scan of the alphabet with a counter. */
  method AlphabetIndex(letter: char) returns (r: Option<nat>)
    ensures r == LetterIndex(letter)
  {
    AlphabetInOrder();
    var index := 0;
    for k := 0 to |Alphabet|
      invariant index == k
      invariant letter < 'a' || letter as int >= 'a' as int + k
    {
      if Alphabet[k] == letter {
        return Some(index);
      }
      index := index + 1;
    }
    return None;
  }

  /** `dictionary[at][random.randint(0, len(dictionary[at]) - 1)]`. */
  function PickFrom(groups: seq<seq<string>>, at: nat, stream: Stream, pos: nat): (r: Result<Drawn, Failure>)
    ensures r.Ok? <==> at < |groups| && groups[at] != []
    ensures r.Err? ==> r.error == (if at < |groups| then ValueError else IndexError)
    ensures r.Ok? ==> r.value.word in groups[at] && r.value.next == pos + 1
  {
    if at >= |groups| then Err(IndexError)
    else
      match RandInt(0, |groups[at]| - 1, stream, pos)
      case None => Err(ValueError)
      case Some(k) => Ok(Drawn(groups[at][k], pos + 1))
  }

  /** `get_random_word` with a starting letter: the group of its lower-cased
      alphabet position. A letter outside a..z leaves a string where the code
      expects an index. */
  function LetterWord(groups: seq<seq<string>>, letter: char, stream: Stream, pos: nat): (r: Result<Drawn, Failure>)
    ensures LetterIndex(LowerChar(letter)).None? ==> r == Err(TypeError)
    ensures LetterIndex(LowerChar(letter)).Some? ==>
              r == PickFrom(groups, LetterIndex(LowerChar(letter)).value, stream, pos)
  {
    match LetterIndex(LowerChar(letter))
    case None => Err(TypeError)
    case Some(at) => PickFrom(groups, at, stream, pos)
  }

  /** `get_random_word` without a letter, as written: the group index is
      drawn with `randint(0, NUM_LETTER_GROUPS)`, whose upper bound is
      included, so it can name the group one past the last. */
  function AnyWordAsWritten(groups: seq<seq<string>>, stream: Stream, pos: nat): Result<Drawn, Failure> {
    var at := RandInt(0, |groups|, stream, pos).value;
    PickFrom(groups, at, stream, pos + 1)
  }

  /** `get_random_word` without a letter, with the group index drawn from
      the existing groups only: `randint(0, NUM_LETTER_GROUPS - 1)`. */
  function AnyWord(groups: seq<seq<string>>, stream: Stream, pos: nat): (r: Result<Drawn, Failure>)
    ensures (forall i :: 0 <= i < |groups| ==> groups[i] != []) ==> (r.Ok? <==> groups != [])
    ensures r.Ok? ==> r.value.next == pos + 2
    ensures r.Ok? ==> exists i :: 0 <= i < |groups| && r.value.word in groups[i]
    ensures r.Err? ==> r.error == ValueError
  {
    match RandInt(0, |groups| - 1, stream, pos)
    case None => Err(ValueError)
    case Some(at) => PickFrom(groups, at, stream, pos + 1)
  }

  /** The as-written selector overruns the groups of every dictionary: the
      stream whose draws are all `NUM_LETTER_GROUPS` picks the group index
      one past the end. */
  lemma AsWrittenOverruns(groups: seq<seq<string>>, pos: nat)
    ensures AnyWordAsWritten(groups, (k: nat) => |groups|, pos) == Err(IndexError)
  {
    var n := |groups| + 1;
    assert |groups| % n == |groups|;
  }

  /** Over a dictionary of non-empty groups, the corrected selector never
      fails, whatever the stream; where the as-written one succeeds, both
      agree whenever the drawn index is the same. */
  lemma CorrectedNeverOverruns(groups: seq<seq<string>>, stream: Stream, pos: nat)
    requires groups != [] && forall i :: 0 <= i < |groups| ==> groups[i] != []
    ensures AnyWord(groups, stream, pos).Ok?
    ensures RandInt(0, |groups|, stream, pos) == RandInt(0, |groups| - 1, stream, pos) ==>
              AnyWordAsWritten(groups, stream, pos) == AnyWord(groups, stream, pos)
  {
  }

  // -----------------------------------------------------------------------
  // main: count, initials and default modes
  // -----------------------------------------------------------------------

  /** Words drawn so far and the stream position after them. */
  datatype Draws = Draws(words: seq<string>, next: nat)

  /** The first `n` no-letter draws of count mode (and of the default mode). */
  function DrawMany(groups: seq<seq<string>>, n: nat, stream: Stream, pos: nat): (r: Result<Draws, Failure>)
    ensures r.Ok? ==> |r.value.words| == n && r.value.next == pos + 2 * n
    ensures r.Ok? ==> forall j :: 0 <= j < n ==> exists i :: 0 <= i < |groups| && r.value.words[j] in groups[i]
    ensures (forall i :: 0 <= i < |groups| ==> groups[i] != []) ==> (r.Ok? <==> n == 0 || groups != [])
    decreases n
  {
    if n == 0 then Ok(Draws([], pos))
    else
      match DrawMany(groups, n - 1, stream, pos)
      case Err(e) => Err(e)
      case Ok(sofar) =>
        match AnyWord(groups, stream, sofar.next)
        case Err(e) => Err(e)
        case Ok(d) => Ok(Draws(sofar.words + [d.word], d.next))
  }

  /** The draws of initials mode for the initials so far, one per initial. */
  function DrawInitials(groups: seq<seq<string>>, initials: string, stream: Stream, pos: nat): (r: Result<Draws, Failure>)
    ensures r.Ok? ==> |r.value.words| == |initials| && r.value.next == pos + |initials|
    ensures r.Ok? ==> forall j :: 0 <= j < |initials| ==>
              LetterIndex(LowerChar(initials[j])).Some? &&
              LetterIndex(LowerChar(initials[j])).value < |groups| &&
              r.value.words[j] in groups[LetterIndex(LowerChar(initials[j])).value]
    decreases |initials|
  {
    if initials == [] then Ok(Draws([], pos))
    else
      var init := initials[..|initials| - 1];
      match DrawInitials(groups, init, stream, pos)
      case Err(e) => Err(e)
      case Ok(sofar) =>
        match LetterWord(groups, LowerChar(initials[|initials| - 1]), stream, sofar.next)
        case Err(e) => Err(e)
        case Ok(d) =>
          assert forall j :: 0 <= j < |init| ==> init[j] == initials[j];
          Ok(Draws(sofar.words + [d.word], d.next))
  }

  /** How many words `range(count)` draws. */
  function RangeLength(count: int): nat {
    if count <= 0 then 0 else count
  }

  /** The string `main` builds before formatting: in count and initials
      mode every word followed by a space, by default two words with one
      space between them. */
  function Unformatted(groups: seq<seq<string>>, count: Option<int>, initials: Option<string>, stream: Stream): Result<string, Failure> {
    if count.Some? then
      match DrawMany(groups, RangeLength(count.value), stream, 0)
      case Err(e) => Err(e)
      case Ok(d) => Ok(Terminated(d.words, " "))
    else if initials.Some? then
      match DrawInitials(groups, initials.value, stream, 0)
      case Err(e) => Err(e)
      case Ok(d) => Ok(Terminated(d.words, " "))
    else
      match DrawMany(groups, 2, stream, 0)
      case Err(e) => Err(e)
      case Ok(d) => Ok(Join(" ", d.words))
  }

  /** What the old `main` prints, from the lines of the dictionary file on:
      the import runs first, then the mutual-exclusion check, then the
      words are drawn and, when a format is given, formatted. */
  function Output(lines: seq<string>, count: Option<int>, initials: Option<string>, format: Option<string>,
                  stream: Stream): Result<string, Failure> {
    match GroupsOf(lines)
    case Err(e) => Err(e)
    case Ok(groups) =>
      if count.Some? && initials.Some? then Err(CountAndInitials)
      else
        match Unformatted(groups, count, initials, stream)
        case Err(e) => Err(e)
        case Ok(text) => Ok(if format.Some? then FormatOf(text, format.value) else text)
  }

  lemma {:induction false} DrawManyErrorSticks(groups: seq<seq<string>>, n: nat, i: nat, stream: Stream)
    requires i <= n && DrawMany(groups, i, stream, 0).Err?
    ensures DrawMany(groups, n, stream, 0) == DrawMany(groups, i, stream, 0)
    decreases n - i
  {
    if i < n {
      DrawManyErrorSticks(groups, n - 1, i, stream);
    }
  }

  lemma {:induction false} DrawInitialsErrorSticks(groups: seq<seq<string>>, initials: string, i: nat, stream: Stream)
    requires i <= |initials| && DrawInitials(groups, initials[..i], stream, 0).Err?
    ensures DrawInitials(groups, initials, stream, 0) == DrawInitials(groups, initials[..i], stream, 0)
    decreases |initials| - i
  {
    if i < |initials| {
      var init := initials[..|initials| - 1];
      assert init[..i] == initials[..i];
      DrawInitialsErrorSticks(groups, init, i, stream);
    } else {
      assert initials[..i] == initials;
    }
  }

  /** `main`'s count loop. */
  method CountWords(groups: seq<seq<string>>, count: int, stream: Stream) returns (r: Result<string, Failure>)
    ensures r == (match DrawMany(groups, RangeLength(count), stream, 0)
                  case Err(e) => Err(e)
                  case Ok(d) => Ok(Terminated(d.words, " ")))
  {
    var text := "";
    ghost var drawn: seq<string> := [];
    var p := 0;
    var index := 0;
    while index < count
      invariant 0 <= index <= RangeLength(count)
      invariant DrawMany(groups, index, stream, 0) == Ok(Draws(drawn, p))
      invariant text == Terminated(drawn, " ")
    {
      var got := AnyWord(groups, stream, p);
      if got.Err? {
        DrawManyErrorSticks(groups, RangeLength(count), index + 1, stream);
        return Err(got.error);
      }
      TerminatedSnoc(drawn, got.value.word, " ");
      text := text + got.value.word + " ";
      drawn := drawn + [got.value.word];
      p := got.value.next;
      index := index + 1;
    }
    r := Ok(text);
  }

  /** `main`'s initials loop. */
  method InitialsWords(groups: seq<seq<string>>, initials: string, stream: Stream) returns (r: Result<string, Failure>)
    ensures r == (match DrawInitials(groups, initials, stream, 0)
                  case Err(e) => Err(e)
                  case Ok(d) => Ok(Terminated(d.words, " ")))
  {
    var text := "";
    ghost var drawn: seq<string> := [];
    var p := 0;
    for i := 0 to |initials|
      invariant DrawInitials(groups, initials[..i], stream, 0) == Ok(Draws(drawn, p))
      invariant text == Terminated(drawn, " ")
    {
      var letter := LowerChar(initials[i]);
      assert initials[..i + 1][..i] == initials[..i];
      assert initials[..i + 1][i] == initials[i];
      var got := LetterWord(groups, letter, stream, p);
      if got.Err? {
        DrawInitialsErrorSticks(groups, initials, i + 1, stream);
        return Err(got.error);
      }
      TerminatedSnoc(drawn, got.value.word, " ");
      text := text + got.value.word + " ";
      drawn := drawn + [got.value.word];
      p := got.value.next;
    }
    assert initials[..|initials|] == initials;
    r := Ok(text);
  }

  /** The default mode draws two words, each from a random group, and puts
      one space between them. */
  lemma DefaultDraws(groups: seq<seq<string>>, stream: Stream)
    ensures Unformatted(groups, None, None, stream) ==
              match AnyWord(groups, stream, 0)
              case Err(e) => Err(e)
              case Ok(a) =>
                match AnyWord(groups, stream, a.next)
                case Err(e) => Err(e)
                case Ok(b) => Ok(a.word + " " + b.word)
  {
    assert DrawMany(groups, 0, stream, 0) == Ok(Draws([], 0));
    match AnyWord(groups, stream, 0)
    case Err(_) =>
    case Ok(a) =>
      assert [] + [a.word] == [a.word];
      assert DrawMany(groups, 1, stream, 0) == Ok(Draws([a.word], a.next));
      match AnyWord(groups, stream, a.next)
      case Err(_) =>
      case Ok(b) =>
        assert [a.word] + [b.word] == [a.word, b.word];
        assert DrawMany(groups, 2, stream, 0) == Ok(Draws([a.word, b.word], b.next));
        assert [a.word, b.word][1..] == [b.word];
        assert Join(" ", [a.word, b.word]) == a.word + " " + b.word;
  }

  /** The old `main` after argument parsing and seeding, with the lines of
      the dictionary file and the seeded stream. */
  method Run(lines: seq<string>, count: Option<int>, initials: Option<string>, format: Option<string>,
             stream: Stream) returns (r: Result<string, Failure>)
    ensures r == Output(lines, count, initials, format, stream)
    ensures GroupsOf(lines).Ok? && count.Some? && initials.Some? ==> r == Err(CountAndInitials)
  {
    var dictionary := ImportDictionary(lines);
    if dictionary.Err? {
      return Err(dictionary.error);
    }
    var groups := dictionary.value;
    if count.Some? && initials.Some? {
      return Err(CountAndInitials);
    }
    var text: Result<string, Failure>;
    if count.Some? {
      text := CountWords(groups, count.value, stream);
    } else if initials.Some? {
      text := InitialsWords(groups, initials.value, stream);
    } else {
      DefaultDraws(groups, stream);
      var first := AnyWord(groups, stream, 0);
      if first.Err? {
        return Err(first.error);
      }
      var second := AnyWord(groups, stream, first.value.next);
      if second.Err? {
        return Err(second.error);
      }
      text := Ok(first.value.word + " " + second.value.word);
    }
    assert text == Unformatted(groups, count, initials, stream);
    if text.Err? {
      return Err(text.error);
    }
    var s := text.value;
    if format.Some? {
      s := FormatString(s, format.value);
    }
    r := Ok(s);
  }

  // -----------------------------------------------------------------------
  // Word counts of whole runs
  // -----------------------------------------------------------------------

  /** Groups that are non-empty and hold single words. */
  predicate WordGroups(groups: seq<seq<string>>) {
    forall i :: 0 <= i < |groups| ==> groups[i] != [] && forall w <- groups[i] :: IsToken(w)
  }

  /** With neither count nor initials, and no format, `main` prints exactly
      two words. */
  lemma DefaultTwoWords(groups: seq<seq<string>>, stream: Stream)
    requires groups != [] && WordGroups(groups)
    ensures Unformatted(groups, None, None, stream).Ok?
    ensures |SplitWhitespace(Unformatted(groups, None, None, stream).value)| == 2
  {
    var ws := DrawMany(groups, 2, stream, 0).value.words;
    forall w <- ws ensures IsToken(w) {
      var j :| 0 <= j < |ws| && ws[j] == w;
      var i :| 0 <= i < |groups| && ws[j] in groups[i];
    }
    SplitWhitespaceJoin(ws, "");
    assert Join(" ", ws) + "" == Join(" ", ws);
  }

  /** In count mode `main` prints `count` words (none for zero or below),
      each followed by a space. */
  lemma CountModeWords(groups: seq<seq<string>>, count: int, stream: Stream)
    requires groups != [] && WordGroups(groups)
    ensures Unformatted(groups, Some(count), None, stream).Ok?
    ensures |SplitWhitespace(Unformatted(groups, Some(count), None, stream).value)| == RangeLength(count)
  {
    var ws := DrawMany(groups, RangeLength(count), stream, 0).value.words;
    forall w <- ws ensures IsToken(w) {
      var j :| 0 <= j < |ws| && ws[j] == w;
      var i :| 0 <= i < |groups| && ws[j] in groups[i];
    }
    if ws != [] {
      TerminatedIsJoin(ws, " ");
      SplitWhitespaceJoin(ws, " ");
    }
  }

  /** In initials mode, when it succeeds, `main` prints one word per initial,
      the j-th from the group of the j-th initial's alphabet position. */
  lemma InitialsModeWords(groups: seq<seq<string>>, initials: string, stream: Stream)
    requires WordGroups(groups)
    requires Unformatted(groups, None, Some(initials), stream).Ok?
    ensures |SplitWhitespace(Unformatted(groups, None, Some(initials), stream).value)| == |initials|
    ensures forall j :: 0 <= j < |initials| ==>
              SplitWhitespace(Unformatted(groups, None, Some(initials), stream).value)[j]
                in groups[LetterIndex(LowerChar(initials[j])).value]
  {
    var ws := DrawInitials(groups, initials, stream, 0).value.words;
    forall w <- ws ensures IsToken(w) {
      var j :| 0 <= j < |ws| && ws[j] == w;
      assert ws[j] in groups[LetterIndex(LowerChar(initials[j])).value];
    }
    if ws != [] {
      TerminatedIsJoin(ws, " ");
      SplitWhitespaceJoin(ws, " ");
    }
  }

  /** Initials mode succeeds when every initial is a letter whose group exists. */
  lemma {:induction false} InitialsSucceed(groups: seq<seq<string>>, initials: string, stream: Stream, pos: nat)
    requires forall i :: 0 <= i < |groups| ==> groups[i] != []
    requires forall j :: 0 <= j < |initials| ==>
               LetterIndex(LowerChar(initials[j])).Some? && LetterIndex(LowerChar(initials[j])).value < |groups|
    ensures DrawInitials(groups, initials, stream, pos).Ok?
    decreases |initials|
  {
    if initials != [] {
      var init := initials[..|initials| - 1];
      assert forall j :: 0 <= j < |init| ==> init[j] == initials[j];
      InitialsSucceed(groups, init, stream, pos);
      var c := LowerChar(initials[|initials| - 1]);
      assert LowerChar(c) == c;
    }
  }
}
