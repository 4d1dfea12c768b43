/**
 * The offline de-duplicator, utilities/duplicate_cleaner.py. It reduces
 * every letter's word list to its distinct words in ascending order,
 * records each list's length before and after, counts the words removed,
 * gathers all remaining words into one globally sorted list, and produces
 * the text that is written back, one word per line.
 *
 * The dictionary it cleans is the current loader's key-ordered dictionary;
 * the file writes are replaced by the text they would write.
 */
module Cleaner {
  import opened Strings
  import opened Dictionaries

  // -----------------------------------------------------------------------
  // Python's order on strings
  // -----------------------------------------------------------------------

  /** `a < b` on Python strings: the first differing character decides, and
      a proper prefix comes first. */
  predicate Below(a: string, b: string)
    decreases |a|
  {
    b != [] && (a == [] || a[0] < b[0] || (a[0] == b[0] && Below(a[1..], b[1..])))
  }

  predicate AtMost(a: string, b: string) {
    a == b || Below(a, b)
  }

  lemma {:induction false} BelowIrreflexive(a: string)
    ensures !Below(a, a)
    decreases |a|
  {
    if a != [] {
      BelowIrreflexive(a[1..]);
    }
  }

  lemma {:induction false} BelowTransitive(a: string, b: string, c: string)
    requires Below(a, b) && Below(b, c)
    ensures Below(a, c)
    decreases |a|
  {
    if a != [] && a[0] == b[0] && b[0] == c[0] {
      BelowTransitive(a[1..], b[1..], c[1..]);
    }
  }

  lemma {:induction false} BelowTotal(a: string, b: string)
    requires a != b
    ensures Below(a, b) || Below(b, a)
    decreases |a|
  {
    if a != [] && b != [] && a[0] == b[0] {
      assert a == [a[0]] + a[1..] && b == [b[0]] + b[1..];
      BelowTotal(a[1..], b[1..]);
    }
  }

  lemma BelowAsymmetric(a: string, b: string)
    requires Below(a, b)
    ensures !Below(b, a)
  {
    if Below(b, a) {
      BelowTransitive(a, b, a);
      BelowIrreflexive(a);
    }
  }

  lemma AtMostTransitive(a: string, b: string, c: string)
    requires AtMost(a, b) && AtMost(b, c)
    ensures AtMost(a, c)
  {
    if a != b && b != c {
      BelowTransitive(a, b, c);
    }
  }

  // -----------------------------------------------------------------------
  // sorted(...)
  // -----------------------------------------------------------------------

  predicate Ascending(s: seq<string>) {
    forall i, j :: 0 <= i < j < |s| ==> AtMost(s[i], s[j])
  }

  predicate StrictlyAscending(s: seq<string>) {
    forall i, j :: 0 <= i < j < |s| ==> Below(s[i], s[j])
  }

  /** `x` placed before the first element it does not exceed. */
  function Insert(x: string, s: seq<string>): (r: seq<string>)
    ensures multiset(r) == multiset(s) + multiset{x}
    ensures |r| == |s| + 1
    decreases |s|
  {
    if s == [] then [x]
    else if AtMost(x, s[0]) then [x] + s
    else
      assert s == [s[0]] + s[1..];
      [s[0]] + Insert(x, s[1..])
  }

  /** A word no greater than every word of an ascending list can head it. */
  lemma AscendingCons(a: string, t: seq<string>)
    requires Ascending(t) && forall j :: 0 <= j < |t| ==> AtMost(a, t[j])
    ensures Ascending([a] + t)
  {
    forall i, j | 0 <= i < j < |t| + 1 ensures AtMost(([a] + t)[i], ([a] + t)[j]) {
      if i > 0 {
        assert ([a] + t)[i] == t[i - 1];
      }
      assert ([a] + t)[j] == t[j - 1];
    }
  }

  /** Inserting keeps a lower bound of the word and of the list. */
  lemma InsertAbove(lo: string, x: string, s: seq<string>)
    requires AtMost(lo, x) && forall j :: 0 <= j < |s| ==> AtMost(lo, s[j])
    ensures forall j :: 0 <= j < |Insert(x, s)| ==> AtMost(lo, Insert(x, s)[j])
  {
    var r := Insert(x, s);
    forall j | 0 <= j < |r| ensures AtMost(lo, r[j]) {
      assert r[j] in multiset(r);
      if r[j] != x {
        assert r[j] in multiset(s);
        var k :| 0 <= k < |s| && s[k] == r[j];
      }
    }
  }

  lemma {:induction false} InsertAscending(x: string, s: seq<string>)
    requires Ascending(s)
    ensures Ascending(Insert(x, s))
    decreases |s|
  {
    if s == [] {
    } else if AtMost(x, s[0]) {
      forall j | 0 <= j < |s| ensures AtMost(x, s[j]) {
        AtMostTransitive(x, s[0], s[j]);
      }
      AscendingCons(x, s);
    } else {
      BelowTotal(x, s[0]);
      AscendingTail(s);
      InsertAscending(x, s[1..]);
      InsertAbove(s[0], x, s[1..]);
      AscendingCons(s[0], Insert(x, s[1..]));
    }
  }

  /** `sorted(s)`. Every ascending rearrangement of `s` is this one
      (`SortIsUnique`), so the choice of algorithm does not matter. */
  function Sort(s: seq<string>): (r: seq<string>)
    ensures multiset(r) == multiset(s)
    decreases |s|
  {
    if s == [] then []
    else
      assert s == [s[0]] + s[1..];
      Insert(s[0], Sort(s[1..]))
  }

  /** `sorted(s)` is in ascending order. */
  lemma {:induction false} SortAscending(s: seq<string>)
    ensures Ascending(Sort(s))
    decreases |s|
  {
    if s != [] {
      SortAscending(s[1..]);
      InsertAscending(s[0], Sort(s[1..]));
    }
  }

  lemma SortLength(s: seq<string>)
    ensures |Sort(s)| == |s|
  {
    assert |multiset(Sort(s))| == |multiset(s)|;
  }

  /** The least element of an ascending list is its first. */
  lemma AscendingFirst(a: seq<string>, x: string)
    requires Ascending(a) && x in a
    ensures AtMost(a[0], x)
  {
    var k :| 0 <= k < |a| && a[k] == x;
  }

  lemma AscendingTail(a: seq<string>)
    requires Ascending(a) && a != []
    ensures Ascending(a[1..])
  {
    forall i, j | 0 <= i < j < |a| - 1 ensures AtMost(a[1..][i], a[1..][j]) {
      assert a[1..][i] == a[i + 1] && a[1..][j] == a[j + 1];
    }
  }

  /** Two ascending lists holding the same words start with the same word. */
  lemma SameHead(a: seq<string>, b: seq<string>)
    requires Ascending(a) && Ascending(b) && multiset(a) == multiset(b) && a != [] && b != []
    ensures a[0] == b[0]
  {
    assert a[0] in multiset(b) && b[0] in multiset(a);
    AscendingFirst(a, b[0]);
    AscendingFirst(b, a[0]);
    if a[0] != b[0] {
      BelowAsymmetric(a[0], b[0]);
    }
  }

  lemma TailMultiset(a: seq<string>)
    requires a != []
    ensures multiset(a[1..]) == multiset(a) - multiset{a[0]}
  {
    assert a == [a[0]] + a[1..];
  }

  /** Two ascending lists holding the same words the same number of times
      are the same list. */
  lemma {:induction false} SortIsUnique(a: seq<string>, b: seq<string>)
    requires Ascending(a) && Ascending(b) && multiset(a) == multiset(b)
    ensures a == b
    decreases |a|
  {
    assert |a| == |multiset(a)| == |multiset(b)| == |b|;
    if a != [] {
      SameHead(a, b);
      TailMultiset(a);
      TailMultiset(b);
      AscendingTail(a);
      AscendingTail(b);
      SortIsUnique(a[1..], b[1..]);
      assert a == [a[0]] + a[1..] && b == [b[0]] + b[1..];
    }
  }

  /** `Sort` is `sorted`: any ascending rearrangement of `s` equals it. */
  lemma SortIsSorted(s: seq<string>, r: seq<string>)
    requires Ascending(r) && multiset(r) == multiset(s)
    ensures r == Sort(s)
  {
    SortAscending(s);
    SortIsUnique(r, Sort(s));
  }

  // -----------------------------------------------------------------------
  // sorted(set(item))
  // -----------------------------------------------------------------------

  /** A word at two positions occurs at least twice. */
  lemma TwoPositions(r: seq<string>, i: nat, j: nat)
    requires i < j < |r| && r[i] == r[j]
    ensures multiset(r)[r[i]] >= 2
  {
    assert r == r[..j] + r[j..];
    assert r[i] == r[..j][i];
    assert r[j..][0] == r[j];
  }

  /** An ascending list with no word twice is strictly ascending. */
  lemma AscendingOnce(r: seq<string>)
    requires Ascending(r) && forall w :: multiset(r)[w] <= 1
    ensures StrictlyAscending(r)
  {
    forall i, j | 0 <= i < j < |r| ensures Below(r[i], r[j]) {
      if r[i] == r[j] {
        TwoPositions(r, i, j);
      }
    }
  }

  /** A strictly ascending list holds each of its words once. */
  lemma {:induction false} StrictlyAscendingOnce(a: seq<string>)
    requires StrictlyAscending(a)
    ensures forall w :: multiset(a)[w] == if w in a then 1 else 0
    decreases |a|
  {
    if a != [] {
      StrictlyAscendingOnce(a[1..]);
      assert a == [a[0]] + a[1..];
      if a[0] in a[1..] {
        var k :| 0 <= k < |a[1..]| && a[1..][k] == a[0];
        assert Below(a[0], a[k + 1]);
        BelowIrreflexive(a[0]);
      }
    }
  }

  /** `sorted(set(s))`: the words of `s` entered one by one, each placed in
      order unless it is already there. `SortedSetSpec` states what it holds. */
  function SortedSet(s: seq<string>): (r: seq<string>)
    ensures |r| <= |s|
    decreases |s|
  {
    if s == [] then []
    else
      var rest := SortedSet(s[1..]);
      if s[0] in rest then rest else Insert(s[0], rest)
  }

  /** `sorted(set(s))` holds the words of `s`, each once, in strictly
      ascending order. */
  lemma {:induction false} SortedSetSpec(s: seq<string>)
    ensures StrictlyAscending(SortedSet(s))
    ensures forall w :: w in SortedSet(s) <==> w in s
    decreases |s|
  {
    if s != [] {
      var rest := SortedSet(s[1..]);
      SortedSetSpec(s[1..]);
      assert s == [s[0]] + s[1..];
      if s[0] !in rest {
        var r := Insert(s[0], rest);
        InsertAscending(s[0], rest);
        StrictlyAscendingOnce(rest);
        AscendingOnce(r);
        assert forall w :: w in r <==> w in multiset(rest) + multiset{s[0]};
      }
    }
  }

  /** `sorted(set(s))` is the only strictly ascending list of the words of
      `s`. */
  lemma SortedSetIsUnique(s: seq<string>, r: seq<string>)
    requires StrictlyAscending(r) && forall w :: w in r <==> w in s
    ensures r == SortedSet(s)
  {
    var t := SortedSet(s);
    SortedSetSpec(s);
    StrictlyAscendingOnce(r);
    StrictlyAscendingOnce(t);
    forall w ensures multiset(r)[w] == multiset(t)[w] {
      assert w in r <==> w in t;
    }
    assert multiset(r) == multiset(t);
    assert Ascending(r) && Ascending(t);
    SortIsUnique(r, t);
  }

  /** De-duplicating a list the cleaner has already cleaned changes nothing. */
  lemma SortedSetIdempotent(s: seq<string>)
    ensures SortedSet(SortedSet(s)) == SortedSet(s)
  {
    SortedSetSpec(s);
    SortedSetIsUnique(SortedSet(s), SortedSet(s));
  }

  /** A list that is already strictly ascending loses no word. */
  lemma SortedSetKeepsClean(s: seq<string>)
    requires StrictlyAscending(s)
    ensures SortedSet(s) == s && |s| - |SortedSet(s)| == 0
  {
    SortedSetIsUnique(s, s);
  }

  // -----------------------------------------------------------------------
  // The cleaning run
  // -----------------------------------------------------------------------

  /** `statistics`: each key's list length before (`"old"`) and after
      (`"new"`) de-duplication. */
  datatype Statistics = Statistics(before: map<char, nat>, after: map<char, nat>)

  /** The list filed under `k`; the cleaner only looks up keys it has. */
  function ListOf(m: map<char, seq<string>>, k: char): seq<string> {
    if k in m then m[k] else []
  }

  /** The lists of `ks`, in that order, one after the other. */
  function Flatten(m: map<char, seq<string>>, ks: seq<char>): seq<string>
    decreases |ks|
  {
    if ks == [] then [] else Flatten(m, ks[..|ks| - 1]) + ListOf(m, ks[|ks| - 1])
  }

  /** `running_total` after the keys `ks`: the words de-duplication removed
      from their lists. */
  function Removed(words: map<char, seq<string>>, ks: seq<char>): int
    decreases |ks|
  {
    if ks == [] then 0
    else
      var item := ListOf(words, ks[|ks| - 1]);
      Removed(words, ks[..|ks| - 1]) + |item| - |SortedSet(item)|
  }

  /** `updated` after the keys `ks`. */
  function DedupOf(words: map<char, seq<string>>, ks: seq<char>): map<char, seq<string>>
    decreases |ks|
  {
    if ks == [] then map[]
    else
      var k := ks[|ks| - 1];
      DedupOf(words, ks[..|ks| - 1])[k := SortedSet(ListOf(words, k))]
  }

  /** The lengths of the lists of the keys `ks`, as `statistics` records them. */
  function LengthsOf(m: map<char, seq<string>>, ks: seq<char>): map<char, nat>
    decreases |ks|
  {
    if ks == [] then map[]
    else
      var k := ks[|ks| - 1];
      LengthsOf(m, ks[..|ks| - 1])[k := |ListOf(m, k)|]
  }

  lemma {:induction false} DedupOfSpec(words: map<char, seq<string>>, ks: seq<char>)
    ensures forall k :: k in DedupOf(words, ks) <==> k in ks
    ensures forall k :: k in DedupOf(words, ks) ==> DedupOf(words, ks)[k] == SortedSet(ListOf(words, k))
    decreases |ks|
  {
    if ks != [] {
      var init := ks[..|ks| - 1];
      assert ks == init + [ks[|ks| - 1]];
      DedupOfSpec(words, init);
    }
  }

  lemma {:induction false} LengthsOfSpec(m: map<char, seq<string>>, ks: seq<char>)
    ensures forall k :: k in LengthsOf(m, ks) <==> k in ks
    ensures forall k :: k in LengthsOf(m, ks) ==> LengthsOf(m, ks)[k] == |ListOf(m, k)|
    decreases |ks|
  {
    if ks != [] {
      var init := ks[..|ks| - 1];
      assert ks == init + [ks[|ks| - 1]];
      LengthsOfSpec(m, init);
    }
  }

  /** The lengths of the keys `ks` depend only on their lists. */
  lemma {:induction false} LengthsOfFrame(a: map<char, seq<string>>, b: map<char, seq<string>>, ks: seq<char>)
    requires forall k <- ks :: ListOf(a, k) == ListOf(b, k)
    ensures LengthsOf(a, ks) == LengthsOf(b, ks)
    decreases |ks|
  {
    if ks != [] {
      var init := ks[..|ks| - 1];
      assert forall k <- init :: k in ks;
      LengthsOfFrame(a, b, init);
    }
  }

  /** What the first loop of `main` has built after the keys `ks`. */
  predicate Built(words: map<char, seq<string>>, ks: seq<char>, updated: map<char, seq<string>>,
                  before: map<char, nat>, after: map<char, nat>, total: int)
  {
    updated == DedupOf(words, ks) &&
    before == LengthsOf(words, ks) &&
    after == LengthsOf(updated, ks) &&
    total == Removed(words, ks)
  }

  /** One turn of the first loop of `main` extends what it has built by one key. */
  lemma DedupTurn(words: map<char, seq<string>>, ks: seq<char>, key: char, updated: map<char, seq<string>>,
                  before: map<char, nat>, after: map<char, nat>, total: int)
    requires Built(words, ks, updated, before, after, total) && key in words
    ensures Built(words, ks + [key], updated[key := SortedSet(words[key])], before[key := |words[key]|],
                  after[key := |SortedSet(words[key])|],
                  total + |words[key]| - |SortedSet(words[key])|)
  {
    var ks' := ks + [key];
    assert ks'[..|ks|] == ks && ks'[|ks|] == key;
    var updated' := updated[key := SortedSet(words[key])];
    DedupOfSpec(words, ks);
    LengthsOfFrame(updated, updated', ks);
  }

  /** Every key of the dictionary has its de-duplicated list, its length
      before and its length after, which is never larger. */
  lemma DedupOfAllKeys(d: Dictionary)
    ensures var updated := DedupOf(d.words, d.keys);
            var before := LengthsOf(d.words, d.keys);
            var after := LengthsOf(updated, d.keys);
            (forall k :: k in updated <==> k in d.words) &&
            (forall k :: k in before <==> k in d.words) &&
            (forall k :: k in after <==> k in d.words) &&
            forall k :: k in d.words ==>
              updated[k] == SortedSet(d.words[k]) && before[k] == |d.words[k]| &&
              after[k] == |updated[k]| <= before[k]
  {
    DedupOfSpec(d.words, d.keys);
    LengthsOfSpec(d.words, d.keys);
    LengthsOfSpec(DedupOf(d.words, d.keys), d.keys);
  }

  /** The total removed is the number of words before less the number after,
      and never negative. */
  lemma {:induction false} RemovedIsDifference(words: map<char, seq<string>>, ks: seq<char>)
    ensures Removed(words, ks) == |Flatten(words, ks)| - |Flatten(DedupOf(words, ks), ks)|
    ensures |Flatten(DedupOf(words, ks), ks)| <= |Flatten(words, ks)|
    decreases |ks|
  {
    if ks != [] {
      var init := ks[..|ks| - 1];
      var k := ks[|ks| - 1];
      RemovedIsDifference(words, init);
      var updated := DedupOf(words, ks);
      DedupOfSpec(words, init);
      assert forall j <- init :: ListOf(updated, j) == ListOf(DedupOf(words, init), j);
      FlattenFrame(updated, DedupOf(words, init), init);
    }
  }

  /** The flattened lists of the keys `ks` depend only on their lists. */
  lemma {:induction false} FlattenFrame(a: map<char, seq<string>>, b: map<char, seq<string>>, ks: seq<char>)
    requires forall k <- ks :: ListOf(a, k) == ListOf(b, k)
    ensures Flatten(a, ks) == Flatten(b, ks)
    decreases |ks|
  {
    if ks != [] {
      var init := ks[..|ks| - 1];
      assert forall k <- init :: k in ks;
      FlattenFrame(a, b, init);
    }
  }

  /** The flattened lists hold exactly the words of the lists of `ks`. */
  lemma {:induction false} FlattenMembers(m: map<char, seq<string>>, ks: seq<char>, w: string)
    ensures w in Flatten(m, ks) <==> exists k :: k in ks && w in ListOf(m, k)
    decreases |ks|
  {
    if ks != [] {
      var init := ks[..|ks| - 1];
      var last := ks[|ks| - 1];
      FlattenMembers(m, init, w);
      assert ks == init + [last];
      if w in ListOf(m, last) {
        assert w in Flatten(m, ks)[|Flatten(m, init)|..];
      }
    }
  }

  /** Each word followed by a newline splits back, on newlines, into the
      words and the empty piece after the last newline. */
  lemma {:induction false} TerminatedLines(words: seq<string>)
    requires forall w <- words :: '\n' !in w
    ensures SplitOn(Terminated(words, "\n"), '\n') == words + [""]
    decreases |words|
  {
    if words != [] {
      var tail := Terminated(words[1..], "\n");
      TerminatedLines(words[1..]);
      SplitOnPrefix(words[0], '\n', "\n" + tail);
      assert ("\n" + tail)[1..] == tail;
      assert SplitOn("\n" + tail, '\n') == [""] + words[1..] + [""];
      assert words[0] + "\n" + tail == words[0] + ("\n" + tail);
      assert words[0] + "" == words[0];
      assert words == [words[0]] + words[1..];
    }
  }

  /** The first loop of `main`: every key's list replaced by
      `sorted(set(item))`, in the dictionary's key order, with the lengths
      before and after and the running total of words removed. */
  method Deduplicate(d: Dictionary)
    returns (updated: map<char, seq<string>>, order: seq<char>, statistics: Statistics, runningTotal: int)
    ensures order == d.keys
    ensures updated == DedupOf(d.words, d.keys)
    ensures statistics == Statistics(LengthsOf(d.words, d.keys), LengthsOf(updated, d.keys))
    ensures runningTotal == Removed(d.words, d.keys)
  {
    updated := map[];
    order := [];
    var before: map<char, nat> := map[];
    var after: map<char, nat> := map[];
    runningTotal := 0;
    for i := 0 to |d.keys|
      invariant order == d.keys[..i]
      invariant Built(d.words, order, updated, before, after, runningTotal)
    {
      var key := d.keys[i];
      var item := d.words[key];
      DedupTurn(d.words, order, key, updated, before, after, runningTotal);
      assert d.keys[..i + 1] == order + [key];
      before := before[key := |item|];
      var dedup := SortedSet(item);
      updated := updated[key := dedup];
      after := after[key := |updated[key]|];
      runningTotal := runningTotal + |item| - |updated[key]|;
      order := order + [key];
    }
    assert order == d.keys;
    statistics := Statistics(before, after);
  }

  /** The second loop of `main`: the lists appended one after the other, in
      key order. */
  method Gather(updated: map<char, seq<string>>, order: seq<char>) returns (words: seq<string>)
    requires forall k <- order :: k in updated
    ensures words == Flatten(updated, order)
  {
    words := [];
    for i := 0 to |order|
      invariant words == Flatten(updated, order[..i])
    {
      var item := updated[order[i]];
      assert order[..i + 1] == order[..i] + [order[i]];
      assert order[..i + 1][..i] == order[..i];
      for j := 0 to |item|
        invariant words == Flatten(updated, order[..i]) + item[..j]
      {
        assert item[..j + 1] == item[..j] + [item[j]];
        words := words + [item[j]];
      }
      assert item[..|item|] == item;
    }
    assert order[..|order|] == order;
  }

  /** The dictionary file's new contents: each word on a line of its own. */
  method WriteLines(words: seq<string>) returns (text: string)
    ensures text == Terminated(words, "\n")
    ensures (forall w <- words :: '\n' !in w) ==> SplitOn(text, '\n') == words + [""]
  {
    text := "";
    for i := 0 to |words|
      invariant text == Terminated(words[..i], "\n")
    {
      assert words[..i + 1] == words[..i] + [words[i]];
      TerminatedSnoc(words[..i], words[i], "\n");
      text := text + words[i] + "\n";
    }
    assert words[..|words|] == words;
    if forall w <- words :: '\n' !in w {
      TerminatedLines(words);
    }
  }

  /** `main(dict_path, stat_path)` after loading: the de-duplicated lists in
      key order, the statistics, the running total, the globally sorted
      words and the text written back to the dictionary file. What these
      hold is stated by `DedupOfAllKeys`, `RemovedCount` and `CleanedWords`. */
  method Clean(d: Dictionary)
    returns (updated: map<char, seq<string>>, statistics: Statistics, runningTotal: int,
             sortedWords: seq<string>, text: string)
    ensures updated == DedupOf(d.words, d.keys)
    ensures statistics == Statistics(LengthsOf(d.words, d.keys), LengthsOf(updated, d.keys))
    ensures runningTotal == Removed(d.words, d.keys)
    ensures sortedWords == Sort(Flatten(updated, d.keys))
    ensures text == Terminated(sortedWords, "\n")
  {
    var order;
    updated, order, statistics, runningTotal := Deduplicate(d);
    DedupOfSpec(d.words, d.keys);
    var gathered := Gather(updated, order);
    sortedWords := Sort(gathered);
    text := WriteLines(sortedWords);
  }

  /** The total `main` reports is the number of words it read less the
      number it writes back, and never negative. */
  lemma RemovedCount(words: map<char, seq<string>>, ks: seq<char>)
    ensures Removed(words, ks) == |Flatten(words, ks)| - |Sort(Flatten(DedupOf(words, ks), ks))| >= 0
  {
    RemovedIsDifference(words, ks);
    SortLength(Flatten(DedupOf(words, ks), ks));
  }

  /** The words written back are in ascending order, and they are exactly
      the words of the dictionary: none is added and none is lost. */
  lemma CleanedWords(d: Dictionary, w: string)
    ensures Ascending(Sort(Flatten(DedupOf(d.words, d.keys), d.keys)))
    ensures w in Sort(Flatten(DedupOf(d.words, d.keys), d.keys)) <==> exists k :: k in d.words && w in d.words[k]
  {
    var updated := DedupOf(d.words, d.keys);
    var gathered := Flatten(updated, d.keys);
    DedupOfSpec(d.words, d.keys);
    SortAscending(gathered);
    assert w in Sort(gathered) <==> w in multiset(gathered);
    FlattenMembers(updated, d.keys, w);
    if exists k :: k in d.keys && w in ListOf(updated, k) {
      var k :| k in d.keys && w in ListOf(updated, k);
      SortedSetSpec(d.words[k]);
    }
    if exists k :: k in d.words && w in d.words[k] {
      var k :| k in d.words && w in d.words[k];
      SortedSetSpec(d.words[k]);
      assert w in ListOf(updated, k);
    }
  }
}
