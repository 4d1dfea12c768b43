/**
 * The current generator, namealizer/namealizer.py: loading a word list into
 * a dictionary keyed by first letter, drawing random words, building the
 * count-mode and initials-mode word strings, re-styling them, and the
 * `WordGenerator` object and `main` that tie these together.
 *
 * Python's global generator is the explicit `Stream` of module `Rand`; every
 * operation that draws takes the stream and the position of its first draw,
 * and reports the position after its last one.
 */
module Namealizer {
  import opened Wrappers
  import opened Strings
  import opened Rand
  import opened Dictionaries

  /** The exceptions of the module, and the built-in ones its code lets escape. */
  datatype Error =
    | DictionaryNotFound             // the word list could not be opened
    | EmptyLine                      // `line[0]` on an empty line: IndexError
    | NoWordForLetter(letter: char)  // no dictionary key for the requested letter
    | EmptySequence                  // `random.choice` of an empty list: IndexError
    | InvalidWordStyle(allowed: seq<string>)
    | TypeError                      // `WordGenerator[key]` with a key neither str nor int

  // -----------------------------------------------------------------------
  // The dictionary
  // -----------------------------------------------------------------------

  /** What the loader guarantees of every key: its list is never empty. */
  predicate NoEmptyLists(d: Dictionary) {
    forall k :: k in d.words ==> d.words[k] != []
  }

  /** A dictionary of single words, each filed under its own first letter. */
  predicate WellFormed(d: Dictionary) {
    forall k :: k in d.words ==>
      d.words[k] != [] && forall w <- d.words[k] :: IsToken(w) && w[0] == k
  }

  // -----------------------------------------------------------------------
  // Dictionary loader: import_dictionary / load_into_dictionary
  // -----------------------------------------------------------------------

  predicate NonEmptyLines(lines: seq<string>) {
    forall i :: 0 <= i < |lines| ==> lines[i] != []
  }

  /** The key a line is filed under: its raw first character, lower-cased. */
  function KeyOf(line: string): char
    requires line != []
  {
    LowerChar(line[0])
  }

  /** The word a line contributes: the stripped line, lower-cased. */
  function EntryOf(line: string): string {
    Lower(Strip(line))
  }

  /** The keys of the loaded dictionary, in order of first appearance. */
  function KeysOf(lines: seq<string>): (keys: seq<char>)
    requires NonEmptyLines(lines)
    ensures forall i, j :: 0 <= i < j < |keys| ==> keys[i] != keys[j]
    decreases |lines|
  {
    if lines == [] then []
    else
      var init := lines[..|lines| - 1];
      var ks := KeysOf(init);
      var k := KeyOf(lines[|lines| - 1]);
      if k in ks then ks else ks + [k]
  }

  /** The keys are exactly the lower-cased first characters of the lines. */
  lemma {:induction false} KeysOfMembers(lines: seq<string>)
    requires NonEmptyLines(lines)
    ensures forall k :: k in KeysOf(lines) <==> exists i :: 0 <= i < |lines| && KeyOf(lines[i]) == k
    decreases |lines|
  {
    if lines != [] {
      var init := lines[..|lines| - 1];
      assert forall i :: 0 <= i < |init| ==> init[i] == lines[i];
      KeysOfMembers(init);
    }
  }

  /** The list filed under `k`: the entries of the lines with key `k`, in input order. */
  function WordsUnder(lines: seq<string>, k: char): seq<string>
    requires NonEmptyLines(lines)
    decreases |lines|
  {
    if lines == [] then []
    else
      var last := lines[|lines| - 1];
      WordsUnder(lines[..|lines| - 1], k) + (if KeyOf(last) == k then [EntryOf(last)] else [])
  }

  /** Loading one more line: its key joins the keys if new, its entry ends its key's list. */
  lemma LoadOneMore(lines: seq<string>, line: string)
    requires NonEmptyLines(lines) && line != []
    ensures NonEmptyLines(lines + [line])
    ensures KeysOf(lines + [line]) == if KeyOf(line) in KeysOf(lines) then KeysOf(lines) else KeysOf(lines) + [KeyOf(line)]
    ensures forall k :: WordsUnder(lines + [line], k) ==
              WordsUnder(lines, k) + (if KeyOf(line) == k then [EntryOf(line)] else [])
  {
    var all := lines + [line];
    assert all[..|all| - 1] == lines;
    assert all[|all| - 1] == line;
  }

  /** The dictionary `load_into_dictionary` builds from a sequence of lines. */
  function DictionaryOf(lines: seq<string>): (r: Result<Dictionary, Error>)
    ensures r.Err? <==> !NonEmptyLines(lines)
    ensures r.Err? ==> r.error == EmptyLine
  {
    if !NonEmptyLines(lines) then Err(EmptyLine)
    else
      var keys := KeysOf(lines);
      Ok(RawDictionary(keys, map k | k in keys :: WordsUnder(lines, k)))
  }

  lemma {:induction false} WordsUnderNonEmpty(lines: seq<string>, k: char)
    requires NonEmptyLines(lines)
    ensures WordsUnder(lines, k) != [] <==> k in KeysOf(lines)
    decreases |lines|
  {
    if lines != [] {
      var init := lines[..|lines| - 1];
      assert forall i :: 0 <= i < |init| ==> init[i] == lines[i];
      WordsUnderNonEmpty(init, k);
    }
  }

  /** A word is filed under `k` exactly when some line with key `k` contributes it. */
  lemma {:induction false} WordsUnderMembers(lines: seq<string>, k: char, w: string)
    requires NonEmptyLines(lines)
    ensures w in WordsUnder(lines, k) <==>
            exists i :: 0 <= i < |lines| && KeyOf(lines[i]) == k && EntryOf(lines[i]) == w
    decreases |lines|
  {
    if lines != [] {
      var init := lines[..|lines| - 1];
      assert forall i :: 0 <= i < |init| ==> init[i] == lines[i];
      WordsUnderMembers(init, k, w);
    }
  }

  /** The first line with key `k` gives the first word of `k`'s list. */
  lemma {:induction false} WordsUnderFirst(lines: seq<string>, k: char, i: nat)
    requires NonEmptyLines(lines)
    requires i < |lines| && KeyOf(lines[i]) == k
    requires forall j :: 0 <= j < i ==> KeyOf(lines[j]) != k
    ensures WordsUnder(lines, k) != [] && WordsUnder(lines, k)[0] == EntryOf(lines[i])
    decreases |lines|
  {
    var init := lines[..|lines| - 1];
    assert forall j :: 0 <= j < |init| ==> init[j] == lines[j];
    if i == |lines| - 1 {
      KeysOfMembers(init);
      WordsUnderNonEmpty(init, k);
    } else {
      WordsUnderFirst(init, k, i);
    }
  }

  /** A sequence without repetitions has as many elements as its set. */
  lemma {:induction false} DistinctCard(ks: seq<char>)
    requires forall i, j :: 0 <= i < j < |ks| ==> ks[i] != ks[j]
    ensures |set k | k in ks| == |ks|
    decreases |ks|
  {
    if ks != [] {
      var init := ks[..|ks| - 1];
      var last := ks[|ks| - 1];
      DistinctCard(init);
      assert (set k | k in ks) == (set k | k in init) + {last};
      assert last !in (set k | k in init);
    }
  }

  /** Loading gives one key per distinct lower-cased first character, each
      with a non-empty list, and keeps each letter's words in input order. */
  lemma LoadedDictionary(lines: seq<string>)
    requires NonEmptyLines(lines)
    ensures DictionaryOf(lines).Ok?
    ensures NoEmptyLists(DictionaryOf(lines).value)
    ensures |DictionaryOf(lines).value.keys| == |set i | 0 <= i < |lines| :: KeyOf(lines[i])|
    ensures forall k :: k in DictionaryOf(lines).value.words ==>
              DictionaryOf(lines).value.words[k] == WordsUnder(lines, k)
  {
    var keys := KeysOf(lines);
    forall k | k in keys ensures WordsUnder(lines, k) != [] {
      WordsUnderNonEmpty(lines, k);
    }
    DistinctCard(keys);
    KeysOfMembers(lines);
    assert (set k | k in keys) == (set i | 0 <= i < |lines| :: KeyOf(lines[i]));
  }

  /** A line without leading whitespace is filed under the first letter of its word. */
  lemma EntryBeginsWithKey(line: string)
    requires line != [] && !IsSpace(line[0])
    ensures EntryOf(line) != [] && EntryOf(line)[0] == KeyOf(line)
  {
    assert LStrip(line) == line;
    RStripSpec(line);
  }

  /** Lines that each hold one word and start with it load into a well-formed dictionary. */
  lemma LoadedWellFormed(lines: seq<string>)
    requires forall i :: 0 <= i < |lines| ==> lines[i] != [] && !IsSpace(lines[i][0]) && IsToken(Strip(lines[i]))
    ensures DictionaryOf(lines).Ok? && WellFormed(DictionaryOf(lines).value)
  {
    LoadedDictionary(lines);
    var d := DictionaryOf(lines).value;
    forall k, w | k in d.words && w in d.words[k] ensures IsToken(w) && w[0] == k {
      WordsUnderMembers(lines, k, w);
      var i :| 0 <= i < |lines| && KeyOf(lines[i]) == k && EntryOf(lines[i]) == w;
      EntryIsToken(lines[i]);
    }
  }

  /** A line that starts with its one word contributes that word, a token
      whose first letter is the line's key. */
  lemma EntryIsToken(line: string)
    requires line != [] && !IsSpace(line[0]) && IsToken(Strip(line))
    ensures IsToken(EntryOf(line)) && EntryOf(line)[0] == KeyOf(line)
  {
    EntryBeginsWithKey(line);
    var w := EntryOf(line);
    var s := Strip(line);
    forall j | 0 <= j < |w| ensures !IsSpace(w[j]) {
      assert !IsSpace(s[j]);
      if IsUpperChar(s[j]) { assert IsUpperChar(s[j]); } else { assert w[j] == s[j]; }
    }
  }

  /** `keys` and `words` are what loading `prefix` has built so far. */
  predicate Loaded(prefix: seq<string>, keys: seq<char>, words: map<char, seq<string>>) {
    NonEmptyLines(prefix) &&
    keys == KeysOf(prefix) &&
    (forall k :: k in words <==> k in keys) &&
    (forall k :: k in words ==> words[k] == WordsUnder(prefix, k))
  }

  /** One turn of the loader's loop: append the entry to its key's list, or
      start a new list (and a new key) with it. */
  lemma LoadedStep(prefix: seq<string>, line: string, keys: seq<char>, words: map<char, seq<string>>)
    requires Loaded(prefix, keys, words) && line != []
    ensures KeyOf(line) in words ==>
              Loaded(prefix + [line], keys, words[KeyOf(line) := words[KeyOf(line)] + [EntryOf(line)]])
    ensures KeyOf(line) !in words ==>
              Loaded(prefix + [line], keys + [KeyOf(line)], words[KeyOf(line) := [EntryOf(line)]])
  {
    LoadOneMore(prefix, line);
    if KeyOf(line) !in words {
      WordsUnderNonEmpty(prefix, KeyOf(line));
    }
  }

  /** `load_into_dictionary`: files each line, in order, under its key. */
  method LoadIntoDictionary(lines: seq<string>) returns (r: Result<Dictionary, Error>)
    ensures r == DictionaryOf(lines)
  {
    var keys: seq<char> := [];
    var words: map<char, seq<string>> := map[];
    var i := 0;
    while i < |lines|
      invariant 0 <= i <= |lines|
      invariant Loaded(lines[..i], keys, words)
    {
      var line := lines[i];
      if line == [] {
        return Err(EmptyLine);
      }
      var key := LowerChar(line[0]);
      var entry := Lower(Strip(line));
      LoadedStep(lines[..i], line, keys, words);
      assert lines[..i + 1] == lines[..i] + [line];
      if key in words {
        words := words[key := words[key] + [entry]];
      } else {
        keys := keys + [key];
        words := words[key := [entry]];
      }
      i := i + 1;
    }
    assert lines[..i] == lines;
    var d := RawDictionary(keys, words);
    assert d.Consistent();
    assert words == map k | k in keys :: WordsUnder(lines, k);
    r := Ok(d);
  }

  /** Where `import_dictionary` reads from: a path, which may fail to open
      (`None`), or lines handed over directly. The lines of a file keep their
      line terminators. */
  datatype DictionarySource = Path(contents: Option<seq<string>>) | Lines(lines: seq<string>)

  function ImportOf(source: DictionarySource): Result<Dictionary, Error> {
    match source
    case Path(None) => Err(DictionaryNotFound)
    case Path(Some(lines)) => DictionaryOf(lines)
    case Lines(lines) => DictionaryOf(lines)
  }

  /** `import_dictionary`: a path that cannot be opened is `DictionaryNotFound`;
      otherwise the lines are loaded. */
  method ImportDictionary(source: DictionarySource) returns (r: Result<Dictionary, Error>)
    ensures source == Path(None) ==> r == Err(DictionaryNotFound)
    ensures source.Path? && source.contents.Some? ==> r == DictionaryOf(source.contents.value)
    ensures source.Lines? ==> r == DictionaryOf(source.lines)
  {
    match source
    case Path(None) =>
      r := Err(DictionaryNotFound);
    case Path(Some(lines)) =>
      r := LoadIntoDictionary(lines);
    case Lines(lines) =>
      r := LoadIntoDictionary(lines);
  }

  // -----------------------------------------------------------------------
  // Word selector: get_random_word
  // -----------------------------------------------------------------------

  /** `get_random_word`: with a letter, one draw from that letter's list;
      without, one draw for the key (in insertion order) and one for the word. */
  function GetRandomWord(d: Dictionary, letter: Option<char>, stream: Stream, pos: nat): (r: Result<Drawn, Error>)
    ensures letter.Some? ==> (r.Ok? <==> letter.value in d.words && d.words[letter.value] != [])
    ensures letter.Some? && letter.value !in d.words ==> r == Err(NoWordForLetter(letter.value))
    ensures letter.Some? && r.Ok? ==> r.value.word in d.words[letter.value] && r.value.next == pos + 1
    ensures letter.None? && NoEmptyLists(d) ==> (r.Ok? <==> d.keys != [])
    ensures letter.None? && r.Ok? ==>
              r.value.next == pos + 2 && exists k :: k in d.words && r.value.word in d.words[k]
    ensures r.Err? ==> r.error.NoWordForLetter? || r.error == EmptySequence
  {
    var key := if letter.Some? then Some(letter.value) else Choice(d.keys, stream, pos);
    var at := if letter.Some? then pos else pos + 1;
    match key
    case None => Err(EmptySequence)
    case Some(k) =>
      if k !in d.words then Err(NoWordForLetter(k))
      else
        match Choice(d.words[k], stream, at)
        case None => Err(EmptySequence)
        case Some(w) => Ok(Drawn(w, at + 1))
  }

  // -----------------------------------------------------------------------
  // Sequence builders: string_for_initials, string_for_count
  // -----------------------------------------------------------------------

  function Prepend(ws: seq<string>, r: Result<seq<string>, Error>): Result<seq<string>, Error> {
    match r
    case Ok(rest) => Ok(ws + rest)
    case Err(e) => Err(e)
  }

  lemma PrependNothing(r: Result<seq<string>, Error>)
    ensures Prepend([], r) == r
  {
    if r.Ok? {
      assert [] + r.value == r.value;
    }
  }

  lemma PrependTwice(a: seq<string>, b: seq<string>, r: Result<seq<string>, Error>)
    ensures Prepend(a, Prepend(b, r)) == Prepend(a + b, r)
  {
    if r.Ok? {
      assert a + (b + r.value) == (a + b) + r.value;
    }
  }

  /** The words `string_for_initials` draws: one per initial, in order, each
      from the list of the lower-cased initial; the first failure aborts. */
  function WordsForInitials(d: Dictionary, initials: string, stream: Stream, pos: nat): (r: Result<seq<string>, Error>)
    ensures r.Ok? ==> |r.value| == |initials|
    ensures r.Ok? ==> forall i :: 0 <= i < |initials| ==>
              LowerChar(initials[i]) in d.words && r.value[i] in d.words[LowerChar(initials[i])]
    decreases |initials|
  {
    if initials == [] then Ok([])
    else
      match GetRandomWord(d, Some(LowerChar(initials[0])), stream, pos)
      case Err(e) => Err(e)
      case Ok(drawn) =>
        var rest := WordsForInitials(d, initials[1..], stream, drawn.next);
        assert rest.Ok? ==> forall i :: 1 <= i < |initials| ==> initials[1..][i - 1] == initials[i];
        Prepend([drawn.word], rest)
  }

  /** How many words `string_for_count` draws: two when no count is given,
      none for a count of zero or below (`range` of it is empty). */
  function WordCount(count: Option<int>): nat {
    match count
    case None => 2
    case Some(c) => if c <= 0 then 0 else c
  }

  /** The words `string_for_count` draws, each from a randomly chosen key. */
  function WordsForCount(d: Dictionary, n: nat, stream: Stream, pos: nat): (r: Result<seq<string>, Error>)
    ensures r.Ok? ==> |r.value| == n
    ensures r.Ok? ==> forall i :: 0 <= i < n ==> exists k :: k in d.words && r.value[i] in d.words[k]
    ensures NoEmptyLists(d) ==> (r.Ok? <==> n == 0 || d.keys != [])
    decreases n
  {
    if n == 0 then Ok([])
    else
      match GetRandomWord(d, None, stream, pos)
      case Err(e) => Err(e)
      case Ok(drawn) =>
        var rest := WordsForCount(d, n - 1, stream, drawn.next);
        assert rest.Ok? ==> forall i :: 1 <= i < n ==> (Prepend([drawn.word], rest)).value[i] == rest.value[i - 1];
        Prepend([drawn.word], rest)
  }

  /** The drawn words, each followed by a space, then stripped. */
  function Spaced(r: Result<seq<string>, Error>): Result<string, Error> {
    match r
    case Ok(ws) => Ok(Strip(Terminated(ws, " ")))
    case Err(e) => Err(e)
  }

  lemma {:induction false} WordsForInitialsStep(d: Dictionary, initials: string, i: nat, stream: Stream, pos: nat)
    requires i < |initials|
    ensures WordsForInitials(d, initials[i..], stream, pos) ==
      match GetRandomWord(d, Some(LowerChar(initials[i])), stream, pos)
      case Err(e) => Err(e)
      case Ok(drawn) => Prepend([drawn.word], WordsForInitials(d, initials[i + 1..], stream, drawn.next))
  {
    assert initials[i..][0] == initials[i];
    assert initials[i..][1..] == initials[i + 1..];
  }

  /** `string_for_initials`: one word per initial, space-separated. */
  method StringForInitials(d: Dictionary, initials: string, stream: Stream, pos: nat) returns (r: Result<string, Error>, next: nat)
    ensures r == Spaced(WordsForInitials(d, initials, stream, pos))
    ensures r.Ok? ==> next == pos + |initials|
  {
    var text := "";
    ghost var drawn: seq<string> := [];
    var p := pos;
    var i := 0;
    assert initials[i..] == initials;
    PrependNothing(WordsForInitials(d, initials, stream, pos));
    while i < |initials|
      invariant 0 <= i <= |initials| && p == pos + i
      invariant text == Terminated(drawn, " ")
      invariant WordsForInitials(d, initials, stream, pos) == Prepend(drawn, WordsForInitials(d, initials[i..], stream, p))
    {
      WordsForInitialsStep(d, initials, i, stream, p);
      var got := GetRandomWord(d, Some(LowerChar(initials[i])), stream, p);
      if got.Err? {
        assert WordsForInitials(d, initials[i..], stream, p) == Err(got.error);
        return Err(got.error), p;
      }
      TerminatedSnoc(drawn, got.value.word, " ");
      PrependTwice(drawn, [got.value.word], WordsForInitials(d, initials[i + 1..], stream, got.value.next));
      text := text + got.value.word + " ";
      drawn := drawn + [got.value.word];
      p := got.value.next;
      i := i + 1;
    }
    assert initials[i..] == [];
    assert drawn + [] == drawn;
    r, next := Ok(Strip(text)), p;
  }

  lemma {:induction false} WordsForCountStep(d: Dictionary, n: nat, stream: Stream, pos: nat)
    requires n > 0
    ensures WordsForCount(d, n, stream, pos) ==
      match GetRandomWord(d, None, stream, pos)
      case Err(e) => Err(e)
      case Ok(drawn) => Prepend([drawn.word], WordsForCount(d, n - 1, stream, drawn.next))
  {
  }

  /** One more word drawn in count mode extends the words drawn so far. */
  lemma CountLoopStep(d: Dictionary, n: nat, k: nat, drawn: seq<string>, stream: Stream, pos: nat, p: nat, got: Drawn)
    requires k < n
    requires WordsForCount(d, n, stream, pos) == Prepend(drawn, WordsForCount(d, n - k, stream, p))
    requires GetRandomWord(d, None, stream, p) == Ok(got)
    ensures WordsForCount(d, n, stream, pos) == Prepend(drawn + [got.word], WordsForCount(d, n - k - 1, stream, got.next))
  {
    WordsForCountStep(d, n - k, stream, p);
    PrependTwice(drawn, [got.word], WordsForCount(d, n - k - 1, stream, got.next));
  }

  /** `string_for_count`: `count` words, two when it is `None`, "" for zero. */
  method StringForCount(d: Dictionary, count: Option<int>, stream: Stream, pos: nat) returns (r: Result<string, Error>, next: nat)
    ensures r == Spaced(WordsForCount(d, WordCount(count), stream, pos))
    ensures r.Ok? ==> next == pos + 2 * WordCount(count)
  {
    var text := "";
    var ranger: int;
    if count.Some? {
      if count.value == 0 {
        return Ok(""), pos;
      }
      ranger := count.value;
    } else {
      ranger := 2;
    }
    ghost var n := WordCount(count);
    assert ranger <= 0 ==> n == 0;
    assert ranger > 0 ==> n == ranger;
    ghost var drawn: seq<string> := [];
    var p := pos;
    var index := 0;
    PrependNothing(WordsForCount(d, n, stream, pos));
    while index < ranger
      invariant 0 <= index <= n
      invariant ranger <= 0 ==> n == 0
      invariant ranger > 0 ==> n == ranger
      invariant p == pos + 2 * index
      invariant text == Terminated(drawn, " ")
      invariant WordsForCount(d, n, stream, pos) == Prepend(drawn, WordsForCount(d, n - index, stream, p))
    {
      var got := GetRandomWord(d, None, stream, p);
      if got.Err? {
        WordsForCountStep(d, n - index, stream, p);
        return Err(got.error), p;
      }
      var word := got.value.word;
      CountLoopStep(d, n, index, drawn, stream, pos, p, got.value);
      TerminatedSnoc(drawn, word, " ");
      text := text + word + " ";
      drawn := drawn + [word];
      p := got.value.next;
      index := index + 1;
    }
    assert n - index == 0;
    assert drawn + [] == drawn;
    r, next := Ok(Strip(text)), p;
  }

  /** With every initial present, initials mode draws; the first missing
      initial is the letter the error names. */
  lemma {:induction false} InitialsSucceed(d: Dictionary, initials: string, stream: Stream, pos: nat)
    requires NoEmptyLists(d)
    requires forall i :: 0 <= i < |initials| ==> LowerChar(initials[i]) in d.words
    ensures WordsForInitials(d, initials, stream, pos).Ok?
    decreases |initials|
  {
    if initials != [] {
      assert LowerChar(initials[0]) in d.words;
      var drawn := GetRandomWord(d, Some(LowerChar(initials[0])), stream, pos);
      InitialsSucceed(d, initials[1..], stream, drawn.value.next);
    }
  }

  lemma {:induction false} InitialsFirstMissing(d: Dictionary, initials: string, stream: Stream, pos: nat, i: nat)
    requires NoEmptyLists(d)
    requires i < |initials| && LowerChar(initials[i]) !in d.words
    requires forall j :: 0 <= j < i ==> LowerChar(initials[j]) in d.words
    ensures WordsForInitials(d, initials, stream, pos) == Err(NoWordForLetter(LowerChar(initials[i])))
    decreases |initials|
  {
    if i > 0 {
      assert LowerChar(initials[0]) in d.words;
      var drawn := GetRandomWord(d, Some(LowerChar(initials[0])), stream, pos);
      assert forall j :: 0 <= j < i - 1 ==> initials[1..][j] == initials[j + 1];
      InitialsFirstMissing(d, initials[1..], stream, drawn.value.next, i - 1);
    }
  }

  // -----------------------------------------------------------------------
  // String formatter: format_word_list_* and format_string
  // -----------------------------------------------------------------------

  /** The keys of `format_string`'s `function_map`. */
  const WordStyles: seq<string> := ["lowercase", "uppercase", "capitalize", "mixedcase"]

  /** `format_word_list_lowercase` */
  function FormatWordListLowercase(words: seq<string>): (r: seq<string>)
    ensures |r| == |words|
    ensures forall i :: 0 <= i < |r| ==> SameIgnoringCase(r[i], words[i]) && HasNoUpper(r[i])
  {
    seq(|words|, i requires 0 <= i < |words| => Lower(words[i]))
  }

  /** `format_word_list_uppercase` */
  function FormatWordListUppercase(words: seq<string>): (r: seq<string>)
    ensures |r| == |words|
    ensures forall i :: 0 <= i < |r| ==> SameIgnoringCase(r[i], words[i]) && HasNoLower(r[i])
  {
    seq(|words|, i requires 0 <= i < |words| => Upper(words[i]))
  }

  /** `format_word_list_capitalize` */
  function FormatWordListCapitalize(words: seq<string>): (r: seq<string>)
    ensures |r| == |words|
    ensures forall i :: 0 <= i < |r| ==> SameIgnoringCase(r[i], words[i]) && IsCapitalized(r[i])
  {
    seq(|words|, i requires 0 <= i < |words| => Capitalize(words[i]))
  }

  /** The list `format_word_list_mixedcase` returns. */
  function MixedCase(words: seq<string>): (r: seq<string>)
    ensures |r| == |words|
  {
    seq(|words|, i requires 0 <= i < |words| => if i == 0 then Lower(words[i]) else Capitalize(words[i]))
  }

  /** `format_word_list_mixedcase`: the first word lower-cased, every later one
      capitalized, which is the lowercase style on the first word followed by
      the capitalize style on the rest. */
  method FormatWordListMixedcase(words: seq<string>) returns (r: seq<string>)
    ensures r == MixedCase(words)
    ensures words != [] ==> r == FormatWordListLowercase(words[..1]) + FormatWordListCapitalize(words[1..])
    ensures words == [] ==> r == []
  {
    r := [];
    var firstWord := true;
    var i := 0;
    while i < |words|
      invariant 0 <= i <= |words|
      invariant firstWord <==> i == 0
      invariant |r| == i
      invariant i > 0 ==> r[0] == Lower(words[0])
      invariant forall j :: 1 <= j < i ==> r[j] == Capitalize(words[j])
    {
      if firstWord {
        r := r + [Lower(words[i])];
        firstWord := false;
      } else {
        r := r + [Capitalize(words[i])];
      }
      i := i + 1;
    }
    if words != [] {
      MixedCaseSplits(words);
    }
  }

  /** The mixedcase list is the lowercase style on the first word followed
      by the capitalize style on the rest. */
  lemma MixedCaseSplits(words: seq<string>)
    requires words != []
    ensures MixedCase(words) == FormatWordListLowercase(words[..1]) + FormatWordListCapitalize(words[1..])
  {
    var m := MixedCase(words);
    var s := FormatWordListLowercase(words[..1]) + FormatWordListCapitalize(words[1..]);
    forall j | 0 <= j < |m| ensures m[j] == s[j] {
      MixedCaseAt(words, j);
    }
  }

  lemma MixedCaseAt(words: seq<string>, j: nat)
    requires j < |words|
    ensures MixedCase(words)[j] == (FormatWordListLowercase(words[..1]) + FormatWordListCapitalize(words[1..]))[j]
  {
    var lo := FormatWordListLowercase(words[..1]);
    if j > 0 {
      assert (lo + FormatWordListCapitalize(words[1..]))[j] == FormatWordListCapitalize(words[1..])[j - 1];
      assert words[1..][j - 1] == words[j];
    }
  }

  /** The styled words, or `None` for a style outside `function_map`. */
  function StyleWords(wordstyle: string, words: seq<string>): (r: Option<seq<string>>)
    ensures r.Some? <==> wordstyle in WordStyles
    ensures r.Some? ==> |r.value| == |words|
    ensures r.Some? ==> forall i :: 0 <= i < |words| ==> SameIgnoringCase(r.value[i], words[i])
  {
    if wordstyle == "lowercase" then Some(FormatWordListLowercase(words))
    else if wordstyle == "uppercase" then Some(FormatWordListUppercase(words))
    else if wordstyle == "capitalize" then Some(FormatWordListCapitalize(words))
    else if wordstyle == "mixedcase" then Some(MixedCase(words))
    else None
  }

  /** `format_string`: split on single spaces, style each word, join with the separator. */
  function FormatString(text: string, wordstyle: string, separator: string): (r: Result<string, Error>)
    ensures r.Err? <==> wordstyle !in WordStyles
    ensures r.Err? ==> r.error == InvalidWordStyle(WordStyles)
  {
    match StyleWords(wordstyle, SplitOn(text, ' '))
    case None => Err(InvalidWordStyle(WordStyles))
    case Some(styled) => Ok(Join(separator, styled))
  }

  /** Styling keeps the words and their order: splitting the output on a
      one-character separator that is not a letter, and that the text does
      not use except as the space between words, gives back one styled word
      per word of the input. */
  lemma FormatStringSplits(text: string, wordstyle: string, c: char)
    requires wordstyle in WordStyles
    requires !IsUpperChar(c) && !IsLowerChar(c)
    requires c == ' ' || c !in text
    ensures FormatString(text, wordstyle, [c]).Ok?
    ensures SplitOn(FormatString(text, wordstyle, [c]).value, c) == StyleWords(wordstyle, SplitOn(text, ' ')).value
    ensures |SplitOn(FormatString(text, wordstyle, [c]).value, c)| == |SplitOn(text, ' ')|
  {
    var pieces := SplitOn(text, ' ');
    var styled := StyleWords(wordstyle, pieces).value;
    forall w <- styled ensures c !in w {
      var i :| 0 <= i < |styled| && styled[i] == w;
      assert c !in pieces[i] by {
        if c != ' ' {
          SplitOnPieceChars(text, ' ', i, c);
        }
      }
      SameIgnoringCaseKeepsOthers(styled[i], pieces[i], c);
    }
    SplitOnJoin(styled, c);
  }

  /** A character that does not occur in a string does not occur in its pieces. */
  lemma {:induction false} SplitOnPieceChars(s: string, sep: char, i: nat, c: char)
    requires i < |SplitOn(s, sep)| && c !in s
    ensures c !in SplitOn(s, sep)[i]
    decreases |s|
  {
    if s != [] {
      var rest := SplitOn(s[1..], sep);
      assert forall j :: 0 <= j < |s[1..]| ==> s[1..][j] == s[j + 1];
      assert c !in s[1..];
      assert s[0] != c;
      if s[0] == sep {
        if i > 0 { SplitOnPieceChars(s[1..], sep, i - 1, c); }
      } else if i == 0 {
        SplitOnPieceChars(s[1..], sep, 0, c);
        assert SplitOn(s, sep)[0] == [s[0]] + rest[0];
      } else {
        SplitOnPieceChars(s[1..], sep, i, c);
      }
    }
  }

  /** `format_string("")` is "" in every style: `"".split(" ")` is `[""]`. */
  lemma FormatStringEmpty(wordstyle: string, separator: string)
    requires wordstyle in WordStyles
    ensures FormatString("", wordstyle, separator) == Ok("")
  {
    var styled := StyleWords(wordstyle, [""]).value;
    assert |styled| == 1 && |styled[0]| == 0;
    assert styled == [""];
  }

  /** Lower-casing commutes with splitting on spaces and re-joining. */
  lemma {:induction false} LowerJoin(sep: string, words: seq<string>)
    requires Lower(sep) == sep
    ensures Join(sep, FormatWordListLowercase(words)) == Lower(Join(sep, words))
    decreases |words|
  {
    if |words| > 1 {
      LowerJoin(sep, words[1..]);
      var lw := FormatWordListLowercase(words);
      assert lw[1..] == FormatWordListLowercase(words[1..]);
      LowerAppend(words[0] + sep, Join(sep, words[1..]));
      LowerAppend(words[0], sep);
    } else if |words| == 1 {
      assert FormatWordListLowercase(words) == [Lower(words[0])];
    }
  }

  lemma {:induction false} UpperJoin(sep: string, words: seq<string>)
    requires Upper(sep) == sep
    ensures Join(sep, FormatWordListUppercase(words)) == Upper(Join(sep, words))
    decreases |words|
  {
    if |words| > 1 {
      UpperJoin(sep, words[1..]);
      var uw := FormatWordListUppercase(words);
      assert uw[1..] == FormatWordListUppercase(words[1..]);
      UpperAppend(words[0] + sep, Join(sep, words[1..]));
      UpperAppend(words[0], sep);
    } else if |words| == 1 {
      assert FormatWordListUppercase(words) == [Upper(words[0])];
    }
  }

  lemma LowerAppend(a: string, b: string)
    ensures Lower(a + b) == Lower(a) + Lower(b)
  {
  }

  lemma UpperAppend(a: string, b: string)
    ensures Upper(a + b) == Upper(a) + Upper(b)
  {
  }

  /** With the default space separator, the lowercase and uppercase styles
      are `str.lower()` and `str.upper()` of the whole text. */
  lemma FormatStringWholeText(text: string)
    ensures FormatString(text, "lowercase", " ") == Ok(Lower(text))
    ensures FormatString(text, "uppercase", " ") == Ok(Upper(text))
  {
    JoinSplitOn(text, ' ');
    LowerJoin(" ", SplitOn(text, ' '));
    UpperJoin(" ", SplitOn(text, ' '));
  }

  // -----------------------------------------------------------------------
  // Glue: WordGenerator and main
  // -----------------------------------------------------------------------

  /** The outcome of formatting a built word string, unless building it failed. */
  function Formatted(built: Result<string, Error>, wordstyle: string, separator: string): Result<string, Error> {
    match built
    case Err(e) => Err(e)
    case Ok(text) => FormatString(text, wordstyle, separator)
  }

  /** The index used with a `WordGenerator`: `wg["abc"]`, `wg[3]`, or anything else. */
  datatype Key = StrKey(initials: string) | IntKey(count: int) | OtherKey

  class WordGenerator {
    var dictionary: Dictionary
    var wordstyle: string
    var separator: string
    var seed: int

    /** `__init__` once the dictionary is imported; `seed` is the one
        `generate_seed` settled on. */
    constructor (dictionary: Dictionary, wordstyle: string, separator: string, seed: int)
      ensures this.dictionary == dictionary && this.wordstyle == wordstyle
      ensures this.separator == separator && this.seed == seed
    {
      this.dictionary := dictionary;
      this.wordstyle := wordstyle;
      this.separator := separator;
      this.seed := seed;
    }

    /** `WordGenerator(dictionary, wordstyle, separator, seed)`: fails as `import_dictionary` does. */
    static method Create(source: DictionarySource, wordstyle: string, separator: string, seed: int)
      returns (r: Result<WordGenerator, Error>)
      ensures r.Err? <==> ImportOf(source).Err?
      ensures r.Err? ==> r.error == ImportOf(source).error
      ensures r.Ok? ==> fresh(r.value) && r.value.dictionary == ImportOf(source).value
      ensures r.Ok? ==> r.value.wordstyle == wordstyle && r.value.separator == separator && r.value.seed == seed
    {
      var d := ImportDictionary(source);
      match d
      case Err(e) =>
        r := Err(e);
      case Ok(dict) =>
        var g := new WordGenerator(dict, wordstyle, separator, seed);
        r := Ok(g);
    }

    /** `__getitem__`: a string key is initials mode, an integer key count
        mode, anything else a `TypeError`; the result is styled with the
        object's current word style and separator. */
    method GetItem(key: Key, stream: Stream, pos: nat) returns (r: Result<string, Error>, next: nat)
      ensures key.OtherKey? ==> r == Err(TypeError)
      ensures key.StrKey? ==>
        r == Formatted(Spaced(WordsForInitials(dictionary, key.initials, stream, pos)), wordstyle, separator)
      ensures key.IntKey? ==>
        r == Formatted(Spaced(WordsForCount(dictionary, WordCount(Some(key.count)), stream, pos)), wordstyle, separator)
      ensures key.OtherKey? ==> next == pos
      ensures key.StrKey? && WordsForInitials(dictionary, key.initials, stream, pos).Ok? ==>
        next == pos + |key.initials|
      ensures key.IntKey? && WordsForCount(dictionary, WordCount(Some(key.count)), stream, pos).Ok? ==>
        next == pos + 2 * WordCount(Some(key.count))
    {
      match key
      case StrKey(initials) =>
        var text;
        text, next := StringForInitials(dictionary, initials, stream, pos);
        r := if text.Err? then Err(text.error) else FormatString(text.value, wordstyle, separator);
      case IntKey(count) =>
        var text;
        text, next := StringForCount(dictionary, Some(count), stream, pos);
        r := if text.Err? then Err(text.error) else FormatString(text.value, wordstyle, separator);
      case OtherKey =>
        r, next := Err(TypeError), pos;
    }
  }

  /** `main` after seeding: import the dictionary, then initials mode whenever
      initials are given (a count beside them is ignored), count mode
      otherwise, and style the result. `stream` is the generator as seeded. */
  method Run(source: DictionarySource, count: Option<int>, initials: Option<string>,
             wordstyle: string, separator: string, stream: Stream)
    returns (r: Result<string, Error>)
    ensures ImportOf(source).Err? ==> r == Err(ImportOf(source).error)
    ensures ImportOf(source).Ok? && initials.Some? ==>
      r == Formatted(Spaced(WordsForInitials(ImportOf(source).value, initials.value, stream, 0)), wordstyle, separator)
    ensures ImportOf(source).Ok? && initials.None? ==>
      r == Formatted(Spaced(WordsForCount(ImportOf(source).value, WordCount(count), stream, 0)), wordstyle, separator)
  {
    var d := ImportDictionary(source);
    if d.Err? {
      return Err(d.error);
    }
    var text, next;
    if initials.Some? {
      text, next := StringForInitials(d.value, initials.value, stream, 0);
    } else {
      text, next := StringForCount(d.value, count, stream, 0);
    }
    r := if text.Err? then Err(text.error) else FormatString(text.value, wordstyle, separator);
  }

  /** The seed test's check: two runs with the same seed, so the same stream,
      and the same arguments give the same output. */
  method AreTwoSeedRunsEqual(source: DictionarySource, count: Option<int>, initials: Option<string>,
                             wordstyle: string, separator: string, stream: Stream)
    returns (equal: bool)
    ensures equal
  {
    var first := Run(source, count, initials, wordstyle, separator, stream);
    var second := Run(source, count, initials, wordstyle, separator, stream);
    equal := first == second;
  }

  // -----------------------------------------------------------------------
  // Word counts of whole runs
  // -----------------------------------------------------------------------

  /** Count mode over a well-formed, non-empty dictionary, with any valid
      style and a one-character separator that is not a letter and that no
      word contains: the output splits into exactly `n` words on that separator. */
  lemma CountModeWords(d: Dictionary, n: nat, wordstyle: string, c: char, stream: Stream, pos: nat)
    requires WellFormed(d) && d.keys != [] && n > 0
    requires wordstyle in WordStyles
    requires !IsUpperChar(c) && !IsLowerChar(c)
    requires c == ' ' || forall k :: k in d.words ==> forall w <- d.words[k] :: c !in w
    ensures Formatted(Spaced(WordsForCount(d, n, stream, pos)), wordstyle, [c]).Ok?
    ensures |SplitOn(Formatted(Spaced(WordsForCount(d, n, stream, pos)), wordstyle, [c]).value, c)| == n
  {
    var ws := WordsForCount(d, n, stream, pos).value;
    forall w <- ws ensures IsToken(w) && (c == ' ' || c !in w) {
      var i :| 0 <= i < |ws| && ws[i] == w;
      var k :| k in d.words && ws[i] in d.words[k];
    }
    SpacedTokens(ws, c);
    FormatStringSplits(Join(" ", ws), wordstyle, c);
  }

  /** Joining tokens with a space gives a text whose `split(" ")` is the tokens,
      and which contains a character only if some token does. */
  lemma SpacedTokens(ws: seq<string>, c: char)
    requires ws != []
    requires forall w <- ws :: IsToken(w) && (c == ' ' || c !in w)
    ensures Strip(Terminated(ws, " ")) == Join(" ", ws)
    ensures |SplitOn(Join(" ", ws), ' ')| == |ws|
    ensures c == ' ' || c !in Join(" ", ws)
  {
    StripTerminated(ws);
    forall w <- ws ensures ' ' !in w {
      assert forall j :: 0 <= j < |w| ==> !IsSpace(w[j]);
    }
    SplitOnJoin(ws, ' ');
    if c != ' ' {
      JoinAvoids(ws, c);
    }
  }

  lemma {:induction false} JoinAvoids(ws: seq<string>, c: char)
    requires c != ' ' && forall w <- ws :: c !in w
    ensures c !in Join(" ", ws)
    decreases |ws|
  {
    if |ws| > 1 {
      JoinAvoids(ws[1..], c);
      assert ws[0] in ws;
    } else if |ws| == 1 {
      assert ws[0] in ws;
    }
  }

  /** Initials mode over a well-formed dictionary holding every initial, in
      the default style: "" for no initials, otherwise one space-separated
      word per initial, the i-th starting with the i-th initial in lower case. */
  lemma InitialsModeWords(d: Dictionary, initials: string, stream: Stream, pos: nat)
    requires WellFormed(d)
    requires forall i :: 0 <= i < |initials| ==> LowerChar(initials[i]) in d.words
    ensures Formatted(Spaced(WordsForInitials(d, initials, stream, pos)), "lowercase", " ").Ok?
    ensures initials == [] ==> Formatted(Spaced(WordsForInitials(d, initials, stream, pos)), "lowercase", " ") == Ok("")
    ensures initials != [] ==>
      var pieces := SplitOn(Formatted(Spaced(WordsForInitials(d, initials, stream, pos)), "lowercase", " ").value, ' ');
      |pieces| == |initials| &&
      forall i :: 0 <= i < |initials| ==> pieces[i] != [] && pieces[i][0] == LowerChar(initials[i])
  {
    InitialsSucceed(d, initials, stream, pos);
    var ws := WordsForInitials(d, initials, stream, pos).value;
    if initials == [] {
      FormatStringEmpty("lowercase", " ");
    } else {
      forall w <- ws ensures IsToken(w) {
        var i :| 0 <= i < |ws| && ws[i] == w;
      }
      SpacedTokens(ws, ' ');
      FormatStringSplits(Join(" ", ws), "lowercase", ' ');
      var pieces := SplitOn(Formatted(Spaced(WordsForInitials(d, initials, stream, pos)), "lowercase", " ").value, ' ');
      SplitOnJoin(ws, ' ') by {
        forall w <- ws ensures ' ' !in w {
          assert forall j :: 0 <= j < |w| ==> !IsSpace(w[j]);
        }
      }
      forall i | 0 <= i < |initials| ensures pieces[i] != [] && pieces[i][0] == LowerChar(initials[i]) {
        var k := LowerChar(initials[i]);
        assert ws[i] in d.words[k];
        assert pieces[i] == FormatWordListLowercase(ws)[i];
        assert LowerChar(pieces[i][0]) == LowerChar(ws[i][0]);
      }
    }
  }
}
