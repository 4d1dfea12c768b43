# namealizer in Dafny

namealizer makes random collections of words ("tidy fawn", "Restless-Quokka")
from a dictionary file that holds one word per line. This project models the
three programs in the repository and proves properties of the models:

- **The current generator, `namealizer/namealizer.py`** (module `Namealizer`).
  - The dictionary loader keys every line by its lower-cased first character and
    stores the stripped, lower-cased line. The key order (Python's dict insertion
    order) is kept as a sequence beside the map, in module `Dictionaries`.
  - The word selector draws one word. It draws a random key first when no letter
    is given.
  - The sequence builder makes the count-mode and initials-mode strings.
  - The formatter splits on single spaces, re-cases every word in one of four
    styles and joins the words with the separator.
  - `WordGenerator` is a class whose fields hold the dictionary, the style, the
    separator and the seed. `main` after seeding is `Run`.
- **The older single-file generator, `namealizer.py`** (module `Legacy`).
  - The dictionary is a list of letter groups separated by blank lines.
  - The formatter reads compound format names such as
    `hyphenated-mixedcase`. It picks the separator and the branch by substring
    tests on the name.
  - The selector finds a letter's group by its position in the alphabet.
  - `main` draws words in count, initials or default mode.
- **The de-duplicator, `utilities/duplicate_cleaner.py`** (module `Cleaner`).
  - It replaces every letter's list by `sorted(set(list))` and records the list
    lengths before and after.
  - It counts the words removed and sorts all remaining words globally.
  - It produces the text it writes back, one word per line.

Module `Rand` models the random generator as an explicit stream of draws.
`stream(k)` is the k-th number the seeded generator produces.
`random.choice` and `random.randint` each consume one draw. Every function
that draws takes a stream and a position and reports the position after its
draws. Module `Strings` holds the Python string operations the programs use:
`lower`, `upper`, `capitalize`, `split(" ")`, `split()`, `strip`, `rstrip`,
`join`, `in` on strings and `<` on strings.

The model keeps these behaviours of the code, though a reader of the
program's documentation might expect otherwise:

- `InvalidWordStyleError` carries only the list of allowed styles
  (`namealizer/namealizer.py:148-149`). The offending style is not in it.
- A line's key is its raw first character (`namealizer/namealizer.py:184`),
  taken before stripping. A line with leading whitespace is keyed by that
  whitespace, so its word does not begin with its key. `LoadedWellFormed`
  states when every word begins with its key.
- A line `"\n"` is stored as the word `""` under the key `'\n'`. An empty
  line makes `line[0]` raise `IndexError`, which the loader does not catch.
  The model reports it as `EmptyLine`.
- In the old formatter, the compatibility rewrite happens before
  lower-casing. So `"Hyphenated"` is not rewritten, and it formats nothing
  (`CaseSensitiveRewrite`).
- When both a count and initials are given, the current `main` uses the
  initials. The old `main` prints an error and stops (`CountAndInitials`).

## Model

| member | source | states |
|---|---|---|
| Rand.Choice | namealizer/namealizer.py:161-164 | `random.choice` fails exactly on an empty list; otherwise it returns an element of the list |
| Rand.RandInt | namealizer.py:136-147 | `random.randint(lo, hi)` fails exactly when `hi < lo`; otherwise its value lies in `lo..hi`, both bounds included |
| Rand.RandIntReaches | namealizer.py:136 | every value of the range is produced by some stream, so the oracle leaves out no outcome of the real generator |
| Strings.Lower | namealizer/namealizer.py:84 | `str.lower` keeps every character up to case and leaves no upper-case letter |
| Strings.LowerIsUnique | namealizer/namealizer.py:84 | any string equal up to case with no upper-case letter is the `lower()` of the input, so `Lower` is pinned down by its contract |
| Strings.Upper | namealizer/namealizer.py:95 | `str.upper` keeps every character up to case and leaves no lower-case letter |
| Strings.UpperIsUnique | namealizer/namealizer.py:95 | any string equal up to case with no lower-case letter is the `upper()` of the input |
| Strings.Capitalize | namealizer/namealizer.py:106 | `str.capitalize` keeps every character up to case, upper-cases the first letter and lower-cases the rest |
| Strings.CapitalizeIsUnique | namealizer/namealizer.py:106 | any string equal up to case with that capitalized shape is the `capitalize()` of the input |
| Strings.SplitOn | namealizer/namealizer.py:135 | `split(" ")` yields at least one piece, and no piece contains the separator |
| Strings.JoinSplitOn | namealizer/namealizer.py:135 | joining the pieces of `split(c)` with `c` gives back the text |
| Strings.SplitOnJoin | namealizer/namealizer.py:152 | splitting a `c`-join of a non-empty list of words free of `c` on `c` gives back the words |
| Strings.SplitWhitespace | namealizer.py:39 | `split()` yields whitespace-free non-empty words, and the first word starts with the text's first character when that is not whitespace |
| Strings.SplitWhitespaceSkipsSpace | namealizer.py:39 | `split()` ignores any whitespace before the first word |
| Strings.SplitWhitespaceJoin | namealizer.py:39 | `split()` of single words (non-empty, without whitespace) joined by single spaces, with or without one trailing space, gives back the words |
| Strings.LStripSpec | namealizer/namealizer.py:184 | `lstrip` removes exactly the leading whitespace and keeps a suffix of the text |
| Strings.RStripSpec | namealizer.py:165 | `rstrip` removes exactly the trailing whitespace and keeps a prefix of the text |
| Strings.StripSpec | namealizer/namealizer.py:184 | `strip` keeps a slice of the text that neither starts nor ends with whitespace |
| Strings.StripTerminated | namealizer/namealizer.py:206-211 | stripping single words (non-empty, without whitespace) that are each followed by a space gives the words joined by single spaces |
| Strings.TerminatedIsJoin | utilities/duplicate_cleaner.py:36-37 | each word followed by a terminator is the terminator-join of the words plus one more terminator |
| Namealizer.KeysOf | namealizer/namealizer.py:181-186 | the loader's keys, in insertion order, are pairwise distinct |
| Namealizer.KeysOfMembers | namealizer/namealizer.py:182-186 | a key is present exactly when some line's lower-cased first character is that key |
| Namealizer.DictionaryOf | namealizer/namealizer.py:179-188 | loading fails exactly when some line is empty (`line[0]` raises), and then with that error |
| Namealizer.LoadedDictionary | namealizer/namealizer.py:179-188 | loading lines that are all non-empty succeeds; no list is empty; there is one key per distinct first character; each key holds its lines' entries in file order |
| Namealizer.WordsUnderNonEmpty | namealizer/namealizer.py:182-186 | a key's list is non-empty exactly when the key was created |
| Namealizer.WordsUnderMembers | namealizer/namealizer.py:182-186 | a word is under a key exactly when some line with that key strips and lower-cases to it |
| Namealizer.WordsUnderFirst | namealizer/namealizer.py:184-186 | a key's list starts with the entry of the first line that has the key, the one that raised `KeyError` and created it |
| Namealizer.EntryBeginsWithKey | namealizer/namealizer.py:184 | a line that does not start with whitespace stores a word that begins with its key |
| Namealizer.EntryIsToken | namealizer/namealizer.py:184 | such a line holding one word stores a whitespace-free word that begins with its key |
| Namealizer.LoadedWellFormed | namealizer/namealizer.py:179-188 | a file of single words without leading whitespace loads into a dictionary whose every word is a single word beginning with its key |
| Namealizer.LoadIntoDictionary | namealizer/namealizer.py:179-188 | the loop with its `try`/`except KeyError` computes exactly the dictionary `DictionaryOf` describes |
| Namealizer.ImportDictionary | namealizer/namealizer.py:172-201 | a path that cannot be opened gives `DictionaryNotFound`; an opened file and a list of lines (the `TypeError` path) are both loaded line by line |
| Namealizer.GetRandomWord | namealizer/namealizer.py:155-169 | with a letter, it succeeds exactly when the letter is a key with words, and fails with `NoWordForLetter(letter)` when it is no key; the word comes from that letter's list and takes one draw; without a letter it draws a key and then a word (two draws), succeeding on a loaded dictionary exactly when there is a key |
| Namealizer.WordsForInitials | namealizer/namealizer.py:204-211 | on success there is one word per initial, and the i-th comes from the list of the i-th initial lower-cased |
| Namealizer.WordsForCount | namealizer/namealizer.py:214-226 | on success there are exactly n words, each from some key's list; on a loaded dictionary it succeeds exactly when n is 0 or there is a key |
| Namealizer.StringForInitials | namealizer/namealizer.py:204-211 | the loop's string is the drawn words, each followed by a space, with the whole then stripped (so an empty drawn word, stored for a blank line, leaves no extra space at either end); it uses one draw per initial |
| Namealizer.StringForCount | namealizer/namealizer.py:214-226 | the loop draws 0 words for count 0 or less, 2 for no count and `count` otherwise; it returns them each followed by a space, with the whole then stripped, after two draws per word |
| Namealizer.InitialsSucceed | namealizer/namealizer.py:204-211 | when every lower-cased initial is a key of a loaded dictionary, initials mode succeeds |
| Namealizer.InitialsFirstMissing | namealizer/namealizer.py:163-167 | otherwise it fails with `NoWordForLetter` naming the first initial that is no key |
| Namealizer.FormatWordListLowercase | namealizer/namealizer.py:76-84 | one word out per word in; each is the input word up to case, with no upper-case letter |
| Namealizer.FormatWordListUppercase | namealizer/namealizer.py:87-95 | one word out per word in; each is the input word up to case, with no lower-case letter |
| Namealizer.FormatWordListCapitalize | namealizer/namealizer.py:98-106 | one word out per word in; each is the input word up to case, capitalized |
| Namealizer.FormatWordListMixedcase | namealizer/namealizer.py:109-126 | the `first_word` loop lower-cases the first word and capitalizes every other, and gives `[]` for no words |
| Namealizer.MixedCaseSplits | namealizer/namealizer.py:119-126 | mixed case is the lowercase style on the first word followed by the capitalize style on the rest |
| Namealizer.StyleWords | namealizer/namealizer.py:138-149 | the style table accepts exactly the four style names; it keeps the number of words and each word up to case |
| Namealizer.FormatString | namealizer/namealizer.py:129-152 | formatting fails exactly for a style outside the table, with the list of allowed styles |
| Namealizer.FormatStringSplits | namealizer/namealizer.py:129-152 | with a valid style and a one-character separator that is no letter and not in the text, splitting the result on the separator gives back the styled words of `split(" ")`, as many as there were |
| Namealizer.FormatStringEmpty | namealizer/namealizer.py:129-152 | the empty text formats to the empty string in every valid style |
| Namealizer.LowerJoin | namealizer/namealizer.py:139-152 | lower-casing the words and joining them with a lower-case separator equals lower-casing the joined text |
| Namealizer.UpperJoin | namealizer/namealizer.py:140-152 | the same holds for upper case |
| Namealizer.FormatStringWholeText | namealizer/namealizer.py:129-152 | with the space separator, the lowercase and uppercase styles equal `lower()` and `upper()` of the whole text |
| Namealizer.WordGenerator.constructor | namealizer/namealizer.py:33-61 | the generator keeps the imported dictionary, the word style, the separator and the seed |
| Namealizer.WordGenerator.Create | namealizer/namealizer.py:52-61 | construction fails exactly when importing the dictionary fails, with the same error, and otherwise yields a fresh generator with those fields |
| Namealizer.WordGenerator.GetItem | namealizer/namealizer.py:63-73 | a string key gives initials mode and an integer key count mode, each styled with the generator's style and separator; any other key is a `TypeError`; the returned stream position is one draw past the start per initial, two per word in count mode, and unchanged for another key |
| Namealizer.Run | namealizer/namealizer.py:239-257 | a failed import is reported; otherwise initials mode runs whenever initials are given, count mode runs otherwise, and the result is styled |
| Namealizer.AreTwoSeedRunsEqual | namealizer/namealizer.py:229-257 | two runs with the same seed, so the same stream, and the same arguments print the same output |
| Namealizer.CountModeWords | namealizer/namealizer.py:214-226 | on a well-formed, non-empty dictionary, count mode with n > 0 in any valid style splits on the separator into exactly n words |
| Namealizer.InitialsModeWords | namealizer/namealizer.py:204-211 | with the default style `lowercase` and separator `" "`, on a well-formed dictionary holding every initial, initials mode gives `""` for no initials; otherwise it gives one word per initial, and the i-th begins with the i-th initial lower-cased |
| Legacy.ApplyCase | namealizer.py:56-124 | each of the three word case maps keeps the word up to case; lower case leaves no upper-case letter, upper case leaves no lower-case letter, and capitalizing leaves the word capitalized |
| Legacy.WithPrefix | namealizer.py:11-21 | `FORMATS` lists the five style names behind each prefix, in order |
| Legacy.CasedWith | namealizer.py:56-124 | the branches re-case every word and keep the number of words |
| Legacy.JoinCased | namealizer.py:56-124 | each branch's loop appends the separator after every re-cased word except the last (the one where `index == len(words)`), giving the separator-join of the re-cased words |
| Legacy.FormatString | namealizer.py:28-127 | the whole formatter computes `FormatOf`: rewrite, lower-case, check against `FORMATS`, choose the separator and branch by substring, or return the input unchanged |
| Legacy.NamedFormatOutput | namealizer.py:28-124 | each of the fifteen compound names formats the text to its `split()` words, re-cased by the name's branch and joined by its prefix's separator (none for mixed and camel case without a prefix) |
| Legacy.HyphenatedSeparator | namealizer.py:48-49 | every name that starts with `hyphenated-` uses `-` |
| Legacy.UnderscoredSeparator | namealizer.py:50-51 | a name that starts with `underscored-` and has no `h` after the prefix uses `_` (`underscored-hyphenated` would use `-`) |
| Legacy.SpaceSeparator | namealizer.py:52-53 | a name with no `h` and no `n`, so containing neither `hyphenated` nor `underscored`, uses a space |
| Legacy.LowercaseNamed | namealizer.py:56 | the chain of substring tests picks lower case for any name ending in `lowercase`; the branch runs only when the name is also in `FORMATS` |
| Legacy.UppercaseNamed | namealizer.py:66 | the chain picks upper case for a name ending in `uppercase` whose prefix has no `w` (so it cannot contain `lowercase`); the branch runs only when the name is in `FORMATS` |
| Legacy.CapitalizedNamed | namealizer.py:78 | the chain picks capitalizing for a name ending in `capitalized` whose prefix has no `w` and which does not contain `uppercase`; the branch runs only when the name is in `FORMATS` |
| Legacy.MixedcaseNamed | namealizer.py:90 | the chain picks mixed case for a name ending in `mixedcase` whose prefix has no `w` or `z`, and no `u` or no `p`, so no earlier style name occurs; the branch runs only when the name is in `FORMATS` |
| Legacy.CamelcaseNamed | namealizer.py:112 | the chain picks camel case for a name ending in `camelcase` whose prefix has no `w`, `z` or `x`, and no `u` or no `p`; the branch runs only when the name is in `FORMATS` |
| Legacy.UnderscoredCapitalizedIsNotUppercase | namealizer.py:66-78 | `underscored-capitalized` does not contain `uppercase`, so the earlier uppercase test does not capture it |
| Legacy.PlainStyles | namealizer.py:11 | the chain picks each bare style name's own case, and the name asks for a space |
| Legacy.HyphenatedStyles | namealizer.py:12-16 | the chain picks each `hyphenated-` name's own case, and the name asks for `-` |
| Legacy.UnderscoredStyles | namealizer.py:17-21 | the chain picks each `underscored-` name's own case, and the name asks for `_` |
| Legacy.NamedFormats | namealizer.py:10-25 | every prefix and style-name combination is in `FORMATS` and selects that prefix's separator and that name's branch |
| Legacy.BareCompatibleNames | namealizer.py:23-25 | the bare compatibility names contain no style name, so only the rewrite gives them a branch |
| Legacy.CompatibleRewrite | namealizer.py:34-36 | `hyphenated` and `underscored` format exactly as their `-lowercase` forms |
| Legacy.LowercaseFormat | namealizer.py:56-64 | every lowercase format lower-cases the `split()` words and joins them with its prefix's separator |
| Legacy.CaseSensitiveRewrite | namealizer.py:34-42 | `Hyphenated` escapes the rewrite and is returned unformatted |
| Legacy.UnknownFormat | namealizer.py:126-127 | a name outside `FORMATS` after normalizing returns the input unchanged |
| Legacy.SpaceSeparatedWords | namealizer.py:38-124 | with a space joiner, `split()` of the result is the re-cased `split()` words, as many as there were |
| Legacy.NoWhitespaceJoined | namealizer.py:38-124 | with a `-`, `_` or empty joiner, the result holds no whitespace |
| Legacy.CamelAndMixed | namealizer.py:90-124 | camel case capitalizes every word; mixed case lower-cases the first word and agrees with camel case on the rest |
| Legacy.NoWordsNoOutput | namealizer.py:55-124 | in every known format, a text without words formats to `""` |
| Legacy.ImportedGroups | namealizer.py:151-167 | import fails (a word before any group) exactly when the first line is not `"\n"`; otherwise there is one group per `"\n"` line, and the groups hold the right-stripped word lines in order |
| Legacy.NewGroup | namealizer.py:160-165 | a `"\n"` line followed by word lines appends exactly one group, holding those lines right-stripped in order, so every word goes to the group of the nearest `"\n"` above it |
| Legacy.GroupsErrorSticks | namealizer.py:160-165 | once a prefix of the lines fails, the whole import fails with that error |
| Legacy.ImportDictionary | namealizer.py:151-167 | the loop with its running `index` builds exactly the groups `GroupsOf` describes |
| Legacy.AlphabetInOrder | namealizer.py:140 | `string.ascii_lowercase` is the 26 letters `a` to `z` in order |
| Legacy.AlphabetLetters | namealizer.py:140 | a character is in the alphabet exactly when it lies in `a..z` |
| Legacy.LetterIndex | namealizer.py:137-145 | a letter has an index exactly when it lies in `a..z`, and the index names that letter |
| Legacy.AlphabetIndex | namealizer.py:137-145 | the search loop finds that index, and finds none for another character, which then stays a string |
| Legacy.PickFrom | namealizer.py:147-148 | drawing from a group succeeds exactly when the group exists and is non-empty; otherwise it fails with `ValueError` (empty group) or `IndexError` (no group); the word comes from the group and takes one draw |
| Legacy.LetterWord | namealizer.py:135-148 | a letter outside `a..z` indexes the list with a string (`TypeError`); a letter inside picks from its alphabet position |
| Legacy.AnyWord | namealizer.py:135-148 | a letterless word comes from some group and takes two draws; on non-empty groups it succeeds exactly when there is a group |
| Legacy.AsWrittenOverruns | namealizer.py:136 | as written, some stream draws the group index one past the last and fails with `IndexError`, whatever the dictionary |
| Legacy.CorrectedNeverOverruns | namealizer.py:136 | the corrected draw always succeeds on non-empty groups and agrees with the written one whenever the written one picks an existing group |
| Legacy.DrawMany | namealizer.py:227-229 | with the corrected letterless draw of the Findings row: on success there are n words after 2n draws, each from some group; on non-empty groups it succeeds exactly when n is 0 or there is a group |
| Legacy.DrawInitials | namealizer.py:231-234 | on success there is one word per initial after one draw each, and the i-th comes from the group at the i-th initial's alphabet position |
| Legacy.CountWords | namealizer.py:227-229 | the count loop's string is the drawn words, each followed by a space |
| Legacy.InitialsWords | namealizer.py:231-234 | the initials loop's string is the drawn words, each followed by a space |
| Legacy.DefaultDraws | namealizer.py:236-238 | default mode is two letterless draws joined by one space |
| Legacy.Run | namealizer.py:170-243 | the old `main` computes `Output`: import, refuse count together with initials, draw (letterless words through the corrected draw of the Findings row), and format only when a format is given |
| Legacy.DefaultTwoWords | namealizer.py:236-238 | on groups of single words, default mode prints exactly two words |
| Legacy.CountModeWords | namealizer.py:227-229 | on groups of single words, count mode prints `count` words (none for a count of 0 or less) |
| Legacy.InitialsModeWords | namealizer.py:231-234 | a successful initials run prints one word per initial, each from its letter's group |
| Legacy.InitialsSucceed | namealizer.py:231-234 | with non-empty groups and every initial a letter that has a group, initials mode succeeds |
| Cleaner.BelowIrreflexive | utilities/duplicate_cleaner.py:31 | no string sorts below itself |
| Cleaner.BelowTransitive | utilities/duplicate_cleaner.py:31 | Python's string order is transitive |
| Cleaner.BelowTotal | utilities/duplicate_cleaner.py:31 | of two distinct strings one sorts below the other |
| Cleaner.BelowAsymmetric | utilities/duplicate_cleaner.py:31 | two strings never sort below each other |
| Cleaner.Insert | utilities/duplicate_cleaner.py:31 | inserting adds exactly the one word |
| Cleaner.Sort | utilities/duplicate_cleaner.py:31 | `sorted` returns a permutation of its input |
| Cleaner.SortAscending | utilities/duplicate_cleaner.py:31 | `sorted` returns an ascending list |
| Cleaner.SortLength | utilities/duplicate_cleaner.py:31 | `sorted` keeps the length |
| Cleaner.SortIsUnique | utilities/duplicate_cleaner.py:31 | two ascending permutations of the same words are equal |
| Cleaner.SortIsSorted | utilities/duplicate_cleaner.py:31 | any ascending permutation of the input is `sorted`'s result, so `Sort` is pinned down by its contract |
| Cleaner.SortedSet | utilities/duplicate_cleaner.py:21 | `sorted(set(item))` is never longer than `item` |
| Cleaner.SortedSetSpec | utilities/duplicate_cleaner.py:21 | `sorted(set(item))` is strictly ascending and holds exactly the words of `item` |
| Cleaner.SortedSetIsUnique | utilities/duplicate_cleaner.py:21 | any strictly ascending list of exactly those words is that result |
| Cleaner.SortedSetIdempotent | utilities/duplicate_cleaner.py:21 | cleaning a cleaned list changes nothing |
| Cleaner.SortedSetKeepsClean | utilities/duplicate_cleaner.py:21-23 | a strictly ascending list is kept as it is and adds nothing to the total |
| Cleaner.DedupOfSpec | utilities/duplicate_cleaner.py:19-21 | the updated lists cover exactly the visited keys, each with `sorted(set(...))` of its list |
| Cleaner.LengthsOfSpec | utilities/duplicate_cleaner.py:20-22 | the statistics cover exactly the visited keys, each with its list's length |
| Cleaner.DedupTurn | utilities/duplicate_cleaner.py:19-23 | one turn of the per-key loop extends the updated lists, both statistics and the running total by that key |
| Cleaner.DedupOfAllKeys | utilities/duplicate_cleaner.py:13-23 | after the loop every key of the dictionary has its cleaned list, its old length and its new length, and the new length is never larger |
| Cleaner.RemovedIsDifference | utilities/duplicate_cleaner.py:23 | the running total is the number of words before less the number after, and is never negative |
| Cleaner.FlattenMembers | utilities/duplicate_cleaner.py:26-28 | a word is gathered exactly when it is in one of the visited keys' lists |
| Cleaner.TerminatedLines | utilities/duplicate_cleaner.py:36-37 | the written text splits back on newlines into the words and one final empty piece |
| Cleaner.Deduplicate | utilities/duplicate_cleaner.py:19-24 | the first loop visits the keys in dictionary order and yields the cleaned lists, both statistics and the running total |
| Cleaner.Gather | utilities/duplicate_cleaner.py:26-28 | the nested loop appends the lists one after another, in key order |
| Cleaner.WriteLines | utilities/duplicate_cleaner.py:35-37 | the file gets every word followed by a newline; read back by lines, it gives the words |
| Cleaner.Clean | utilities/duplicate_cleaner.py:7-43 | `main` after loading produces the cleaned lists, the statistics, the total, the globally sorted words and the text written back |
| Cleaner.RemovedCount | utilities/duplicate_cleaner.py:23-43 | the reported total is the number of words read less the number written back, and never negative |
| Cleaner.CleanedWords | utilities/duplicate_cleaner.py:19-37 | the words written back are ascending and are exactly the dictionary's words: none added, none lost |

## Left out

- Command-line parsing is not modelled: `create_parser`, the old `main`'s
  `argparse` block and the cleaner's `__main__` block. The parsed values are
  the parameters of `Run` and `Clean`.
- Output is not modelled: `print`, `logging.info` and the old `--verbose`
  seed print. `Run` returns the string that would be printed.
- Seeding is not modelled: `generate_seed`, `random.seed()` and the seed drawn
  from `sys.maxsize`. The seeded generator is the `Stream` parameter, and
  `WordGenerator` keeps the seed only as a field.
- The distribution of draws is not modelled. The model takes one draw per
  `choice` or `randint` and reduces it modulo the range; CPython's rejection
  sampling is not modelled. Every value of a range is still reachable
  (`RandIntReaches`).
- `resource_filename` and the package's installed dictionary path are left
  out, because they are file-system lookups.
- Opening files is not modelled. A path is modelled by its lines, or by no
  lines when it cannot be opened; the old script's default
  `/usr/share/namealizer/all_en_US.dict` is just a path.
- The cleaner's file writes are not modelled: the dictionary file becomes
  the text `Clean` returns. The statistics file, which is `str(statistics)`,
  is not modelled beyond the statistics value, because it is Python's `repr`
  of a dict.
- The cleaner does `import namealizer` after appending `../` to
  `sys.path`, so which file it imports depends on where it is run. The model
  cleans the current loader's key-ordered dictionary.
- Case mapping and whitespace are ASCII only. Python's Unicode case
  mapping (for example `'ß'.upper()`) and Unicode whitespace are not
  modelled.
- Legacy.ImportDictionary: the old script tests a line with `line is "\n"`.
  The model reads this as equality, which is how CPython behaves for its
  shared one-character strings.
- Legacy.DrawMany, Legacy.DefaultDraws, Legacy.DefaultTwoWords,
  Legacy.CountModeWords: the old `main`'s count and default modes draw
  through the corrected letterless draw `Legacy.AnyWord` of the Findings
  row (`namealizer.py:136`). The script as written can also stop with
  `IndexError` there; the model of `main` does not.
- Legacy.Run: models the old `main` over that corrected draw, so it never
  fails with the `IndexError` of `namealizer.py:136` that the script as
  written can raise in count and default mode.
- The old global `NUM_LETTER_GROUPS` is not a separate variable. It is set
  to `len(dictionary)` before any draw, so the model uses the number of
  groups directly.

## Findings

| source | as written | input that shows it | evidently intended | confidence | as-written member | corrected member |
|---|---|---|---|---|---|---|
| namealizer.py:136 | a word without a starting letter draws its group with `random.randint(0, NUM_LETTER_GROUPS)`, which includes `NUM_LETTER_GROUPS` | any dictionary, with the draw equal to `len(dictionary)`: `dictionary[len(dictionary)]` raises `IndexError` (`Legacy.AsWrittenOverruns`) | `random.randint(0, NUM_LETTER_GROUPS - 1)`, which always names an existing group; on non-empty groups the draw then always succeeds (`Legacy.CorrectedNeverOverruns`) | not executed | Legacy.AnyWordAsWritten | Legacy.AnyWord |
