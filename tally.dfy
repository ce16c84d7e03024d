/**
 * The value the word counter keeps: an insertion-ordered map from a trimmed,
 * case-preserved word to the number of times it was added (the
 * `LinkedHashMap<String, Long>` of `Words`), with the operations the class
 * performs on it and the properties they have.
 */
module Tally {
  import opened JavaText

  /** The separator `addSentence` splits a sentence on. */
  const Splitter: char := ';'

  /** The filter `addWord` applies to a trimmed word: non-empty, letters only. */
  predicate IsWord(w: String) {
    |w| > 0 && forall i :: 0 <= i < |w| ==> IsLetter(w[i])
  }

  /** A word is already trimmed: no letter is a character `trim` strips. */
  lemma WordIsTrimmed(w: String)
    requires IsWord(w)
    ensures Trim(w) == w
  {
    LetterIsNotTrimSpace(w[0]);
    LetterIsNotTrimSpace(w[|w| - 1]);
    TrimFixed(w);
  }

  predicate Distinct(ks: seq<String>) {
    forall i, j :: 0 <= i < j < |ks| ==> ks[i] != ks[j]
  }

  /** What key `k` contributes to a case-insensitive count for the lower-cased `target`. */
  function Term(counts: map<String, nat>, k: String, target: String): nat {
    if k in counts && ToLower(k) == target then counts[k] else 0
  }

  /** The filter-and-sum of the case-insensitive lookup, over the keys `ks`. */
  function IgnoreCaseSum(ks: seq<String>, counts: map<String, nat>, target: String): nat {
    if ks == [] then 0 else IgnoreCaseSum(ks[..|ks| - 1], counts, target) + Term(counts, ks[|ks| - 1], target)
  }

  /** Number of the words whose trimmed form is `w`. */
  function Occurrences(words: seq<String>, w: String): nat {
    if words == [] then 0 else (if Trim(words[0]) == w then 1 else 0) + Occurrences(words[1..], w)
  }

  /** Number of the words that pass the filter and whose lower-cased trimmed form is `target`. */
  function FoldedOccurrences(words: seq<String>, target: String): nat {
    if words == [] then 0
    else
      var w := Trim(words[0]);
      (if IsWord(w) && ToLower(w) == target then 1 else 0) + FoldedOccurrences(words[1..], target)
  }

  /**
   * The map's contents: `keys` lists the distinct words in the order they
   * were first inserted, `counts` gives each its number of occurrences.
   */
  datatype OrderedCounts = OrderedCounts(keys: seq<String>, counts: map<String, nat>) {

    /** Every key is a word stored once, in both fields, with a positive count. */
    predicate Valid() {
      && Distinct(keys)
      && (forall k :: k in keys ==> k in counts)
      && (forall k :: k in counts ==> k in keys)
      && (forall k :: k in counts ==> IsWord(k) && counts[k] >= 1)
    }

    /** `getOrDefault(w, 0)`. */
    function Get(w: String): nat {
      if w in counts then counts[w] else 0
    }

    /** `merge(w, 1, Long::sum)`: an absent key goes in last with count 1, a present one goes up by 1. */
    function Merge(w: String): (r: OrderedCounts)
      ensures r.Get(w) == Get(w) + 1
      ensures forall k :: k != w ==> r.Get(k) == Get(k)
      ensures |keys| <= |r.keys| && r.keys[..|keys|] == keys
      ensures Valid() ==> r.keys == if w in keys then keys else keys + [w]
      ensures Valid() && IsWord(w) ==> r.Valid()
    {
      if w in counts then
        OrderedCounts(keys, counts[w := counts[w] + 1])
      else
        OrderedCounts(keys + [w], counts[w := 1])
    }

    /** `addWord`: trim, and count the result only if it passes the filter. */
    function AddWord(word: String): (r: OrderedCounts)
      ensures Valid() ==> r.Valid()
      ensures r != this <==> IsWord(Trim(word))
      ensures |keys| <= |r.keys| && r.keys[..|keys|] == keys
      ensures forall k :: Get(k) <= r.Get(k)
    {
      var w := Trim(word);
      if IsWord(w) then Merge(w) else this
    }

    /** `addWord` on each of `words`, left to right. */
    function AddWords(words: seq<String>): (r: OrderedCounts)
      ensures Valid() ==> r.Valid()
      ensures |keys| <= |r.keys| && r.keys[..|keys|] == keys
      ensures forall k :: Get(k) <= r.Get(k)
      decreases |words|
    {
      if words == [] then this else AddWord(words[0]).AddWords(words[1..])
    }

    /** `getWordCount`: an exact lookup, or the sum over every key that lower-cases like `word`. */
    function Count(word: String, caseSensitive: bool): nat {
      if caseSensitive then Get(word) else IgnoreCaseSum(keys, counts, ToLower(word))
    }
  }

  /** The map a new `Words` starts with. */
  const Empty: OrderedCounts := OrderedCounts([], map[])

  /** Adding a word that passes the filter raises its count by one and no other. */
  lemma AddValidWord(m: OrderedCounts, word: String)
    requires m.Valid() && IsWord(Trim(word))
    ensures m.AddWord(word).Get(Trim(word)) == m.Get(Trim(word)) + 1
    ensures forall k :: k != Trim(word) ==> m.AddWord(word).Get(k) == m.Get(k)
    ensures Trim(word) in m.keys ==> m.AddWord(word).keys == m.keys
    ensures Trim(word) !in m.keys ==> m.AddWord(word).keys == m.keys + [Trim(word)]
  {
  }

  /** Adding a word that fails the filter changes nothing. */
  lemma AddInvalidWord(m: OrderedCounts, word: String)
    requires !IsWord(Trim(word))
    ensures m.AddWord(word) == m
  {
  }

  /** Adding one more word after a run of additions extends the run. */
  lemma {:induction false} AddWordsSnoc(m: OrderedCounts, words: seq<String>, word: String)
    ensures m.AddWords(words + [word]) == m.AddWords(words).AddWord(word)
    decreases |words|
  {
    if words == [] {
      assert [] + [word] == [word];
    } else {
      assert (words + [word])[1..] == words[1..] + [word];
      AddWordsSnoc(m.AddWord(words[0]), words[1..], word);
    }
  }

  /** Adding a sequence then another is adding their concatenation. */
  lemma {:induction false} AddWordsConcat(m: OrderedCounts, xs: seq<String>, ys: seq<String>)
    ensures m.AddWords(xs + ys) == m.AddWords(xs).AddWords(ys)
    decreases |xs|
  {
    if xs == [] {
      assert xs + ys == ys;
    } else {
      assert (xs + ys)[1..] == xs[1..] + ys;
      AddWordsConcat(m.AddWord(xs[0]), xs[1..], ys);
    }
  }

  /** Empty pieces add nothing. */
  lemma {:induction false} AddEmptyPieces(m: OrderedCounts, words: seq<String>)
    requires forall i :: 0 <= i < |words| ==> words[i] == []
    ensures m.AddWords(words) == m
  {
    if words != [] {
      assert Trim(words[0]) == [];
      AddEmptyPieces(m, words[1..]);
    }
  }

  /** Empty pieces at the end of a sequence add nothing. */
  lemma AddWordsTrailingEmpty(m: OrderedCounts, words: seq<String>, n: nat)
    requires n <= |words|
    requires forall i :: n <= i < |words| ==> words[i] == []
    ensures m.AddWords(words) == m.AddWords(words[..n])
  {
    assert words == words[..n] + words[n..];
    AddWordsConcat(m, words[..n], words[n..]);
    AddEmptyPieces(m.AddWords(words[..n]), words[n..]);
  }

  /**
   * `addSentence` feeds `String.split`'s pieces to `addWord`; that has the
   * same effect as feeding every `;`-separated piece, empty ones included.
   */
  lemma SentenceIsSplitThenAdd(m: OrderedCounts, sentence: String)
    ensures m.AddWords(JavaSplit(sentence, Splitter)) == m.AddWords(Split(sentence, Splitter))
  {
    var r := JavaSplit(sentence, Splitter);
    AddWordsTrailingEmpty(m, Split(sentence, Splitter), |r|);
  }

  /** The exact count of a word is what the map had plus the number of times it was added. */
  lemma {:induction false} ExactCountIsOccurrences(m: OrderedCounts, words: seq<String>, w: String)
    ensures m.AddWords(words).Get(w) == m.Get(w) + (if IsWord(w) then Occurrences(words, w) else 0)
    decreases |words|
  {
    if words != [] {
      var t := Trim(words[0]);
      ExactCountIsOccurrences(m.AddWord(words[0]), words[1..], w);
      if IsWord(t) {
        assert m.AddWord(words[0]) == m.Merge(t);
      }
    }
  }

  /** A word is a key after a run of additions iff it was one before or one of them added it. */
  lemma KeysAfterAdds(m: OrderedCounts, words: seq<String>, w: String)
    requires m.Valid()
    ensures w in m.AddWords(words).keys <==> w in m.keys || (IsWord(w) && Occurrences(words, w) > 0)
  {
    ExactCountIsOccurrences(m, words, w);
  }

  /** Words that are new to the map, pairwise distinct, and pass the filter. */
  predicate FreshWords(m: OrderedCounts, words: seq<String>) {
    && Distinct(words)
    && forall i :: 0 <= i < |words| ==> IsWord(words[i]) && words[i] !in m.keys
  }

  /** After adding the first of some fresh words, the others are still fresh. */
  lemma FreshAfterFirst(m: OrderedCounts, words: seq<String>)
    requires m.Valid() && words != [] && FreshWords(m, words)
    ensures m.AddWord(words[0]).keys == m.keys + [words[0]]
    ensures FreshWords(m.AddWord(words[0]), words[1..])
  {
    var w, rest := words[0], words[1..];
    WordIsTrimmed(w);
    AddValidWord(m, w);
    forall i | 0 <= i < |rest|
      ensures IsWord(rest[i]) && rest[i] !in m.AddWord(w).keys
    {
      assert rest[i] == words[i + 1] != w;
    }
  }

  lemma AppendFirstThenRest(ks: seq<String>, words: seq<String>)
    requires words != []
    ensures ks + [words[0]] + words[1..] == ks + words
  {
    assert words == [words[0]] + words[1..];
  }

  /** Fresh words are appended to the order in the order they are added. */
  lemma {:induction false} AddFreshWords(m: OrderedCounts, words: seq<String>)
    requires m.Valid() && FreshWords(m, words)
    ensures m.AddWords(words).keys == m.keys + words
    decreases |words|
  {
    if words != [] {
      FreshAfterFirst(m, words);
      AddFreshWords(m.AddWord(words[0]), words[1..]);
      AppendFirstThenRest(m.keys, words);
    }
  }

  /** Repeating one word `n` times gives it an exact count of `n` on an empty map. */
  lemma {:induction false} RepeatedWordCount(word: String, n: nat)
    requires IsWord(word)
    ensures Empty.AddWords(seq(n, _ => word)).Count(word, true) == n
  {
    var words := seq(n, _ => word);
    ExactCountIsOccurrences(Empty, words, word);
    RepeatedOccurrences(word, n);
  }

  lemma {:induction false} RepeatedOccurrences(word: String, n: nat)
    requires IsWord(word)
    ensures Occurrences(seq(n, _ => word), word) == n
  {
    WordIsTrimmed(word);
    if n > 0 {
      assert seq(n, _ => word)[1..] == seq(n - 1, _ => word);
      RepeatedOccurrences(word, n - 1);
    }
  }

  // ---------------------------------------------------------------------------
  // The case-insensitive sum

  /** Changing the count of a key that is not listed does not change the sum. */
  lemma {:induction false} SumIgnoresUnlisted(ks: seq<String>, counts: map<String, nat>, k: String, v: nat, t: String)
    requires k !in ks
    ensures IgnoreCaseSum(ks, counts[k := v], t) == IgnoreCaseSum(ks, counts, t)
  {
    if ks != [] {
      assert ks[|ks| - 1] in ks;
      SumIgnoresUnlisted(ks[..|ks| - 1], counts, k, v, t);
    }
  }

  /** Changing the count of a key listed once swaps its term in the sum. */
  lemma {:induction false} SumUpdateListed(ks: seq<String>, counts: map<String, nat>, k: String, v: nat, t: String)
    requires Distinct(ks) && k in ks
    ensures IgnoreCaseSum(ks, counts[k := v], t) + Term(counts, k, t)
         == IgnoreCaseSum(ks, counts, t) + Term(counts[k := v], k, t)
  {
    var init := ks[..|ks| - 1];
    if ks[|ks| - 1] == k {
      assert k !in init;
      SumIgnoresUnlisted(init, counts, k, v, t);
    } else {
      assert k in init by {
        var i :| 0 <= i < |ks| && ks[i] == k;
        assert i < |ks| - 1 && init[i] == k;
      }
      SumUpdateListed(init, counts, k, v, t);
    }
  }

  /** Every listed key's term is part of the sum. */
  lemma {:induction false} SumAtLeastTerm(ks: seq<String>, counts: map<String, nat>, k: String, t: String)
    requires k in ks
    ensures IgnoreCaseSum(ks, counts, t) >= Term(counts, k, t)
  {
    var init := ks[..|ks| - 1];
    if ks[|ks| - 1] != k {
      assert k in init by {
        var i :| 0 <= i < |ks| && ks[i] == k;
        assert i < |ks| - 1 && init[i] == k;
      }
      SumAtLeastTerm(init, counts, k, t);
    }
  }

  /** With positive counts the sum is zero iff no listed key lower-cases to the target. */
  lemma {:induction false} SumZeroIff(ks: seq<String>, counts: map<String, nat>, t: String)
    requires forall k :: k in ks ==> k in counts && counts[k] >= 1
    ensures IgnoreCaseSum(ks, counts, t) == 0 <==> forall k :: k in ks ==> ToLower(k) != t
  {
    if ks != [] {
      var init, last := ks[..|ks| - 1], ks[|ks| - 1];
      assert ks == init + [last];
      assert forall k :: k in init ==> k in ks;
      SumZeroIff(init, counts, t);
      assert last in counts && counts[last] >= 1;
      assert Term(counts, last, t) == 0 <==> ToLower(last) != t;
      assert (forall k :: k in ks ==> ToLower(k) != t)
         <==> (forall k :: k in init ==> ToLower(k) != t) && ToLower(last) != t;
    }
  }

  // ---------------------------------------------------------------------------
  // getWordCount

  /** The case-insensitive count is never below the case-sensitive one. */
  lemma IgnoreCaseAtLeastExact(m: OrderedCounts, word: String)
    requires m.Valid()
    ensures m.Count(word, false) >= m.Count(word, true)
  {
    if word in m.counts {
      SumAtLeastTerm(m.keys, m.counts, word, ToLower(word));
    }
  }

  /** The case-insensitive count is zero iff no key lower-cases like the query. */
  lemma IgnoreCaseZeroIff(m: OrderedCounts, word: String)
    requires m.Valid()
    ensures m.Count(word, false) == 0 <==> forall k :: k in m.keys ==> ToLower(k) != ToLower(word)
  {
    SumZeroIff(m.keys, m.counts, ToLower(word));
  }

  /** The case-insensitive count does not depend on the query's casing. */
  lemma IgnoreCaseQueryFolding(m: OrderedCounts, word: String)
    ensures m.Count(word, false) == m.Count(ToLower(word), false)
  {
    ToLowerIdempotent(word);
  }

  /** Raising a listed key's count by one raises the sum by one iff the key matches. */
  lemma SumIncrementListed(ks: seq<String>, counts: map<String, nat>, w: String, t: String)
    requires Distinct(ks) && w in ks && w in counts
    ensures IgnoreCaseSum(ks, counts[w := counts[w] + 1], t)
         == IgnoreCaseSum(ks, counts, t) + (if ToLower(w) == t then 1 else 0)
  {
    SumUpdateListed(ks, counts, w, counts[w] + 1, t);
  }

  /** Listing a new key with count one raises the sum by one iff the key matches. */
  lemma SumAppendNew(ks: seq<String>, counts: map<String, nat>, w: String, t: String)
    requires w !in ks
    ensures IgnoreCaseSum(ks + [w], counts[w := 1], t)
         == IgnoreCaseSum(ks, counts, t) + (if ToLower(w) == t then 1 else 0)
  {
    var ks' := ks + [w];
    assert ks'[..|ks'| - 1] == ks;
    SumIgnoresUnlisted(ks, counts, w, 1, t);
  }

  /** Merging a word raises the case-insensitive sum of its lower-cased form by one. */
  lemma MergeIgnoreCaseSum(m: OrderedCounts, w: String, t: String)
    requires Distinct(m.keys) && (w in m.keys <==> w in m.counts)
    ensures var r := m.Merge(w);
      IgnoreCaseSum(r.keys, r.counts, t) == IgnoreCaseSum(m.keys, m.counts, t) + (if ToLower(w) == t then 1 else 0)
  {
    var r := m.Merge(w);
    if w in m.counts {
      assert r.keys == m.keys && r.counts == m.counts[w := m.counts[w] + 1];
      SumIncrementListed(m.keys, m.counts, w, t);
    } else {
      assert r.keys == m.keys + [w] && r.counts == m.counts[w := 1];
      SumAppendNew(m.keys, m.counts, w, t);
    }
  }

  /** Adding a word raises the case-insensitive count of every query it lower-cases like by one. */
  lemma IgnoreCaseAfterAdd(m: OrderedCounts, word: String, q: String)
    requires m.Valid()
    ensures var w := Trim(word);
      m.AddWord(word).Count(q, false)
      == m.Count(q, false) + (if IsWord(w) && ToLower(w) == ToLower(q) then 1 else 0)
  {
    var w := Trim(word);
    if IsWord(w) {
      assert w in m.keys <==> w in m.counts;
      MergeIgnoreCaseSum(m, w, ToLower(q));
    }
  }

  /**
   * After a run of additions, the case-insensitive count has grown by the
   * number of added words that pass the filter and lower-case like the query.
   */
  lemma {:induction false} IgnoreCaseCountIsFoldedOccurrences(m: OrderedCounts, words: seq<String>, q: String)
    requires m.Valid()
    ensures m.AddWords(words).Count(q, false) == m.Count(q, false) + FoldedOccurrences(words, ToLower(q))
    decreases |words|
  {
    if words != [] {
      IgnoreCaseAfterAdd(m, words[0], q);
      IgnoreCaseCountIsFoldedOccurrences(m.AddWord(words[0]), words[1..], q);
    }
  }
}
