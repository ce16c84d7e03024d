/**
 * The `Words` class: an in-memory tally of word frequencies. Its one field,
 * a `LinkedHashMap<String, Long>`, is kept here as the map's insertion
 * order `keys` and its entries `counts`; both only ever grow.
 */
module Counter {
  import opened JavaText
  import opened Tally

  class Words {
    var keys: seq<String>
    var counts: map<String, nat>

    /** Every key is a word stored once with a positive count. */
    ghost predicate Valid()
      reads this
    {
      GetWordsMap().Valid()
    }

    /** `getWordsMap`, returned as a snapshot of the map rather than the live object. */
    function GetWordsMap(): (m: OrderedCounts)
      reads this
      ensures m.keys == keys && m.counts == counts
    {
      OrderedCounts(keys, counts)
    }

    /** A new tally holds no words. */
    constructor ()
      ensures Valid() && GetWordsMap() == Empty
    {
      keys := [];
      counts := map[];
    }

    /**
     * `wordsMap.merge(w, 1L, Long::sum)`: raises the count of `w` by one in
     * place, or appends `w` with count 1 when it is not a key yet.
     */
    method Merge(w: String)
      requires Valid() && IsWord(w)
      modifies this
      ensures Valid()
      ensures GetWordsMap() == old(GetWordsMap()).Merge(w)
    {
      if w in counts {
        counts := counts[w := counts[w] + 1];
      } else {
        keys := keys + [w];
        counts := counts[w := 1];
      }
    }

    /**
     * `addWord`: trims `word`; if what is left is non-empty and all letters,
     * raises its count by one, appending it to the order when it is new;
     * otherwise leaves the tally as it was.
     */
    method AddWord(word: String)
      requires Valid()
      modifies this
      ensures Valid()
      ensures GetWordsMap() == old(GetWordsMap()).AddWord(word)
      ensures !IsWord(Trim(word)) ==> keys == old(keys) && counts == old(counts)
    {
      var w := Trim(word);
      if IsWord(w) {
        Merge(w);
      }
    }

    /**
     * `addSentence`: splits `sentence` on `;` and adds every piece in turn,
     * which is the same as adding every `;`-separated piece, empty ones
     * included.
     */
    method AddSentence(sentence: String)
      requires Valid()
      modifies this
      ensures Valid()
      ensures GetWordsMap() == old(GetWordsMap()).AddWords(JavaSplit(sentence, Splitter))
      ensures GetWordsMap() == old(GetWordsMap()).AddWords(Split(sentence, Splitter))
    {
      var words := JavaSplit(sentence, Splitter);
      for i := 0 to |words|
        invariant Valid()
        invariant GetWordsMap() == old(GetWordsMap()).AddWords(words[..i])
      {
        assert words[..i + 1] == words[..i] + [words[i]];
        AddWordsSnoc(old(GetWordsMap()), words[..i], words[i]);
        AddWord(words[i]);
      }
      assert words[..|words|] == words;
      SentenceIsSplitThenAdd(old(GetWordsMap()), sentence);
    }

    /**
     * `getWordCount`: the stored count of exactly `word` (0 when absent), or,
     * ignoring case, the sum of the counts of every key that lower-cases like
     * `word`. Reads the tally and changes nothing.
     */
    function GetWordCount(word: String, caseSensitive: bool): (n: nat)
      requires Valid()
      reads this
      ensures n == GetWordsMap().Count(word, caseSensitive)
      ensures caseSensitive ==> (n > 0 <==> word in counts)
      ensures !caseSensitive ==> n >= GetWordsMap().Count(word, true)
      ensures !caseSensitive ==> (n == 0 <==> forall k :: k in keys ==> ToLower(k) != ToLower(word))
    {
      IgnoreCaseAtLeastExact(GetWordsMap(), word);
      IgnoreCaseZeroIff(GetWordsMap(), word);
      GetWordsMap().Count(word, caseSensitive)
    }
  }
}
