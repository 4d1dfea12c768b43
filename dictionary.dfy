/** The word dictionary both the generator and the de-duplicator work on. */
module Dictionaries {

  /** A Python dict from first character to word list. Python dicts remember
      insertion order, and `random.choice(list(d.keys()))` depends on it, so
      the keys are kept as a sequence beside the map. */
  datatype RawDictionary = RawDictionary(keys: seq<char>, words: map<char, seq<string>>) {
    predicate Consistent() {
      (forall i, j :: 0 <= i < j < |keys| ==> keys[i] != keys[j]) &&
      (forall k :: k in words <==> k in keys)
    }
  }

  type Dictionary = d: RawDictionary | d.Consistent() witness RawDictionary([], map[])
}
