/**
 * The behaviour the repository's unit tests expect of `Words`, stated on the
 * model of a fresh tally: first for arbitrary words of the shape each test
 * uses, then for the tests' own strings and sentences.
 */
module Scenarios {
  import opened JavaText
  import opened Tally

  // Shapes of the tests, for arbitrary words.

  /** The first word a fresh tally accepts becomes its only key, in trimmed form. */
  lemma FirstWord(x: String)
    requires IsWord(Trim(x))
    ensures Empty.AddWord(x).keys == [Trim(x)]
  {
    AddValidWord(Empty, x);
  }

  /** A string that `trim` leaves alone and that holds a non-letter is rejected. */
  lemma RejectsNonLetter(m: OrderedCounts, word: String, i: nat)
    requires i < |word| && !IsLetter(word[i])
    requires !IsTrimSpace(word[0]) && !IsTrimSpace(word[|word| - 1])
    ensures m.AddWord(word) == m
  {
    TrimFixed(word);
  }

  /** A word preceded by one space trims to the word. */
  lemma PaddedWordTrim(w: String)
    requires IsWord(w)
    ensures Trim([' '] + w) == w
  {
    var s := [' '] + w;
    assert s[1..] == w;
    LetterIsNotTrimSpace(w[0]);
    assert LeadingSpaces(w) == 0;
    assert LeadingSpaces(s) == 1;
    WordIsTrimmed(w);
  }

  /** Three different words, each added once: each is counted once. */
  lemma DistinctCounts(ws: seq<String>, a: String, b: String, c: String)
    requires ws == [a, b, c]
    requires IsWord(a) && IsWord(b) && IsWord(c) && a != b && a != c && b != c
    ensures var m := Empty.AddWords(ws);
      m.Count(a, true) == 1 && m.Count(b, true) == 1 && m.Count(c, true) == 1
  {
    WordIsTrimmed(a);
    WordIsTrimmed(b);
    WordIsTrimmed(c);
    assert ws[3..] == [];
    assert (Occurrences(ws[2..], a), Occurrences(ws[2..], b), Occurrences(ws[2..], c)) == (0, 0, 1);
    assert (Occurrences(ws[1..], a), Occurrences(ws[1..], b), Occurrences(ws[1..], c)) == (0, 1, 1);
    ExactCountIsOccurrences(Empty, ws, a);
    ExactCountIsOccurrences(Empty, ws, b);
    ExactCountIsOccurrences(Empty, ws, c);
  }

  /** a, b, a, c, a, a, b: a is counted 4 times, b twice and c once. */
  lemma MixedCounts(ws: seq<String>, a: String, b: String, c: String)
    requires ws == [a, b, a, c, a, a, b]
    requires IsWord(a) && IsWord(b) && IsWord(c) && a != b && a != c && b != c
    ensures var m := Empty.AddWords(ws);
      m.Count(a, true) == 4 && m.Count(b, true) == 2 && m.Count(c, true) == 1
  {
    WordIsTrimmed(a);
    WordIsTrimmed(b);
    WordIsTrimmed(c);
    assert ws[7..] == [];
    assert (Occurrences(ws[6..], a), Occurrences(ws[6..], b), Occurrences(ws[6..], c)) == (0, 1, 0);
    assert (Occurrences(ws[5..], a), Occurrences(ws[5..], b), Occurrences(ws[5..], c)) == (1, 1, 0);
    assert (Occurrences(ws[4..], a), Occurrences(ws[4..], b), Occurrences(ws[4..], c)) == (2, 1, 0);
    assert (Occurrences(ws[3..], a), Occurrences(ws[3..], b), Occurrences(ws[3..], c)) == (2, 1, 1);
    assert (Occurrences(ws[2..], a), Occurrences(ws[2..], b), Occurrences(ws[2..], c)) == (3, 1, 1);
    assert (Occurrences(ws[1..], a), Occurrences(ws[1..], b), Occurrences(ws[1..], c)) == (3, 2, 1);
    ExactCountIsOccurrences(Empty, ws, a);
    ExactCountIsOccurrences(Empty, ws, b);
    ExactCountIsOccurrences(Empty, ws, c);
  }

  /** Three words that all lower-case to `t` make three folded occurrences of `t`. */
  lemma FoldedThree(ws: seq<String>, a: String, b: String, c: String, t: String)
    requires ws == [a, b, c]
    requires IsWord(a) && IsWord(b) && IsWord(c)
    requires ToLower(a) == t && ToLower(b) == t && ToLower(c) == t
    ensures FoldedOccurrences(ws, t) == 3
  {
    WordIsTrimmed(a);
    WordIsTrimmed(b);
    WordIsTrimmed(c);
    assert ws[3..] == [];
    assert FoldedOccurrences(ws[2..], t) == 1;
    assert FoldedOccurrences(ws[1..], t) == 2;
  }

  /** From a fresh tally, the count ignoring case is the number of words that fold like `q`. */
  lemma FreshIgnoreCaseCount(ws: seq<String>, q: String)
    ensures Empty.AddWords(ws).Count(q, false) == FoldedOccurrences(ws, ToLower(q))
  {
    assert Empty.Valid() && Empty.Count(q, false) == 0;
    IgnoreCaseCountIsFoldedOccurrences(Empty, ws, q);
  }

  /** Adding a word twice and then another word: one key counted twice, one counted once. */
  lemma TwiceThenOnce(m: OrderedCounts, a: String, b: String)
    requires m.Valid() && m.keys == []
    requires IsWord(a) && IsWord(b) && a != b
    ensures var r := m.AddWord(a).AddWord(a).AddWord(b);
      r.keys == [a, b] && r.Count(a, true) == 2 && r.Count(b, true) == 1
  {
    WordIsTrimmed(a);
    WordIsTrimmed(b);
    assert m.Get(a) == 0 && m.Get(b) == 0;
    AddValidWord(m, a);
    var m1 := m.AddWord(a);
    assert m1.keys == [a] && m1.Get(a) == 1 && m1.Get(b) == 0;
    AddValidWord(m1, a);
    var m2 := m1.AddWord(a);
    assert m2.keys == [a] && m2.Get(a) == 2 && m2.Get(b) == 0;
    AddValidWord(m2, b);
    var m3 := m2.AddWord(b);
    assert m3.keys == [a] + [b] && m3.Get(a) == 2 && m3.Get(b) == 1;
  }

  /** Folding three words is adding them one after another. */
  lemma FoldThree(m: OrderedCounts, a: String, b: String, c: String)
    ensures m.AddWords([a, b, c]) == m.AddWord(a).AddWord(b).AddWord(c)
  {
    var ws := [a, b, c];
    assert ws[1..] == [b, c] && ws[2..] == [c] && ws[3..] == [];
    assert m.AddWords(ws) == m.AddWord(a).AddWords(ws[1..]);
    assert m.AddWord(a).AddWords([b, c]) == m.AddWord(a).AddWord(b).AddWords(ws[2..]);
    assert m.AddWord(a).AddWord(b).AddWords([c]) == m.AddWord(a).AddWord(b).AddWord(c).AddWords(ws[3..]);
  }

  /** A word whose trimmed form is not yet a key is appended to the keys. */
  lemma NewKey(m: OrderedCounts, x: String)
    requires m.Valid() && IsWord(Trim(x)) && Trim(x) !in m.keys
    ensures m.AddWord(x).Valid() && m.AddWord(x).keys == m.keys + [Trim(x)]
  {
    AddValidWord(m, x);
  }

  /** Three words with different trimmed forms become the keys in the order added. */
  lemma ThreeDistinct(m: OrderedCounts, x: String, y: String, z: String)
    requires m.Valid() && m.keys == []
    requires IsWord(Trim(x)) && IsWord(Trim(y)) && IsWord(Trim(z))
    requires Trim(x) != Trim(y) && Trim(x) != Trim(z) && Trim(y) != Trim(z)
    ensures m.AddWord(x).AddWord(y).AddWord(z).keys == [Trim(x), Trim(y), Trim(z)]
  {
    NewKey(m, x);
    var m1 := m.AddWord(x);
    assert m1.keys == [Trim(x)];
    NewKey(m1, y);
    var m2 := m1.AddWord(y);
    assert m2.keys == [Trim(x)] + [Trim(y)];
    NewKey(m2, z);
    assert m2.AddWord(z).keys == [Trim(x), Trim(y)] + [Trim(z)];
  }

  /** Folding six pieces whose second, third and fourth are rejected adds only the other three. */
  lemma SkipsRejected(m: OrderedCounts, ws: seq<String>)
    requires |ws| == 6
    requires !IsWord(Trim(ws[1])) && !IsWord(Trim(ws[2])) && !IsWord(Trim(ws[3]))
    ensures m.AddWords(ws) == m.AddWord(ws[0]).AddWord(ws[4]).AddWord(ws[5])
  {
    var m1 := m.AddWord(ws[0]);
    AddInvalidWord(m1, ws[1]);
    AddInvalidWord(m1, ws[2]);
    AddInvalidWord(m1, ws[3]);
    var m5 := m1.AddWord(ws[4]);
    var m6 := m5.AddWord(ws[5]);
    assert ws[6..] == [];
    assert m.AddWords(ws) == m1.AddWords(ws[1..]);
    assert m1.AddWords(ws[1..]) == m1.AddWords(ws[2..]);
    assert m1.AddWords(ws[2..]) == m1.AddWords(ws[3..]);
    assert m1.AddWords(ws[3..]) == m1.AddWords(ws[4..]);
    assert m1.AddWords(ws[4..]) == m5.AddWords(ws[5..]);
    assert m5.AddWords(ws[5..]) == m6.AddWords(ws[6..]);
  }

  // The tests' expectations.

  /** A word that passes the filter, possibly padded, is stored once under its trimmed form. */
  lemma WordAddedOnce(t: String, pw: String, c: String)
    requires t == "Test" && pw == " word" && c == "COUNT"
    ensures Empty.AddWord(t).keys == ["Test"]
    ensures Empty.AddWord(pw).keys == ["word"]
    ensures Empty.AddWord(c).keys == ["COUNT"]
  {
    var w := "word";
    PaddedWords(t, pw, w, c);
    FirstWord(t);
    FirstWord(pw);
    FirstWord(c);
  }

  /** Digits, punctuation, inner spaces and the empty string are rejected. */
  lemma OnlyLettersAllowed(a: String, b: String, c: String, d: String, e: String)
    requires a == "123" && b == "test-2" && c == "123TEST" && d == "" && e == "w o r d"
    ensures Empty.AddWord(a) == Empty && Empty.AddWord(b) == Empty && Empty.AddWord(c) == Empty
    ensures Empty.AddWord(d) == Empty && Empty.AddWord(e) == Empty
  {
    RejectsNonLetter(Empty, a, 0);
    RejectsNonLetter(Empty, b, 4);
    RejectsNonLetter(Empty, c, 0);
    AddInvalidWord(Empty, d);
    RejectsNonLetter(Empty, e, 1);
  }

  /** cat, dog, cat, bird, cat, cat, dog counts cat 4 times, dog twice and bird once. */
  lemma MixedWords(ws: seq<String>, a: String, b: String, c: String)
    requires a == "cat" && b == "dog" && c == "bird" && ws == [a, b, a, c, a, a, b]
    ensures var m := Empty.AddWords(ws);
      m.Count(a, true) == 4 && m.Count(b, true) == 2 && m.Count(c, true) == 1
  {
    CatDogBird(a, b, c);
    MixedCounts(ws, a, b, c);
  }

  /** cat, Cat and CAT are three keys of count 1 each. */
  lemma CaseVariantsExact(ws: seq<String>, a: String, b: String, c: String)
    requires a == "cat" && b == "Cat" && c == "CAT" && ws == [a, b, c]
    ensures var m := Empty.AddWords(ws);
      m.Count(a, true) == 1 && m.Count(b, true) == 1 && m.Count(c, true) == 1
  {
    CatCases(a, b, c);
    DistinctCounts(ws, a, b, c);
  }

  /** Ignoring case, cat, Cat and CAT together count 3 whichever casing is asked for. */
  lemma CaseVariantsIgnoreCase(ws: seq<String>, a: String, b: String, c: String)
    requires a == "cat" && b == "Cat" && c == "CAT" && ws == [a, b, c]
    ensures var m := Empty.AddWords(ws);
      m.Count(a, false) == 3 && m.Count(b, false) == 3 && m.Count(c, false) == 3
  {
    CatCases(a, b, c);
    CatLowerCase(a, b, c);
    FoldedThree(ws, a, b, c, a);
    FreshIgnoreCaseCount(ws, a);
    FreshIgnoreCaseCount(ws, b);
    FreshIgnoreCaseCount(ws, c);
  }

  /** An empty tally counts 0 for any word in either mode. */
  lemma AbsentWord(word: String)
    ensures Empty.Count(word, true) == 0 && Empty.Count(word, false) == 0
  {
  }

  /** Seven different words make seven keys, in sentence order. */
  lemma SentenceOfDistinctWords(sentence: String)
    requires sentence == "Test;sentence;with;some;words;and;separators"
    ensures Empty.AddWords(JavaSplit(sentence, Splitter)).keys
         == ["Test", "sentence", "with", "some", "words", "and", "separators"]
  {
    SplitSeven(sentence);
    SentenceIsSplitThenAdd(Empty, sentence);
    var ws := Split(sentence, Splitter);
    SevenWordsFresh(ws);
    AddFreshWords(Empty, ws);
  }

  /** A repeated word in a sentence makes one key counted twice. */
  lemma SentenceWithRepeat(sentence: String)
    requires sentence == "word;word;test"
    ensures var m := Empty.AddWords(JavaSplit(sentence, Splitter));
      m.keys == ["word", "test"] && m.Count("word", true) == 2 && m.Count("test", true) == 1
  {
    SplitRepeat(sentence);
    SentenceIsSplitThenAdd(Empty, sentence);
    var ws := Split(sentence, Splitter);
    FoldThree(Empty, ws[0], ws[1], ws[2]);
    WordAndTest(ws[0], ws[2]);
    assert Empty.Valid();
    TwiceThenOnce(Empty, ws[0], ws[2]);
  }

  /** Empty, numeric and punctuation pieces are dropped; case variants stay apart. */
  lemma SentenceWithRejectedPieces(sentence: String)
    requires sentence == "test;;123;-; word;WORD"
    ensures Empty.AddWords(JavaSplit(sentence, Splitter)).keys == ["test", "word", "WORD"]
  {
    SplitRejected(sentence);
    SentenceIsSplitThenAdd(Empty, sentence);
    var ws := Split(sentence, Splitter);
    var w := "word";
    RejectedPieces(ws[1], ws[2], ws[3]);
    KeptPieces(ws[0], ws[4], ws[5], w);
    SkipsRejected(Empty, ws);
    assert Empty.Valid();
    ThreeDistinct(Empty, ws[0], ws[4], ws[5]);
  }

  // Facts about the tests' own strings and sentences.

  lemma PaddedWords(t: String, pw: String, w: String, c: String)
    requires t == "Test" && pw == " word" && w == "word" && c == "COUNT"
    ensures IsWord(t) && Trim(t) == t
    ensures IsWord(w) && Trim(pw) == w
    ensures IsWord(c) && Trim(c) == c
  {
    WordIsTrimmed(t);
    WordIsTrimmed(c);
    assert pw == [' '] + w;
    PaddedWordTrim(w);
  }

  lemma CatDogBird(a: String, b: String, c: String)
    requires a == "cat" && b == "dog" && c == "bird"
    ensures IsWord(a) && IsWord(b) && IsWord(c) && a != b && a != c && b != c
  {
    assert a[0] != b[0] && a[0] != c[0] && b[0] != c[0];
  }

  lemma CatCases(a: String, b: String, c: String)
    requires a == "cat" && b == "Cat" && c == "CAT"
    ensures IsWord(a) && IsWord(b) && IsWord(c) && a != b && a != c && b != c
  {
    assert a[0] != b[0] && a[0] != c[0] && b[1] != c[1];
  }

  lemma CatLowerCase(a: String, b: String, c: String)
    requires a == "cat" && b == "Cat" && c == "CAT"
    ensures ToLower(a) == a && ToLower(b) == a && ToLower(c) == a
  {
  }

  lemma WordAndTest(w: String, t: String)
    requires w == "word" && t == "test"
    ensures IsWord(w) && IsWord(t) && w != t
  {
    assert w[0] != t[0];
  }

  lemma RejectedPieces(e: String, n: String, p: String)
    requires e == "" && n == "123" && p == "-"
    ensures !IsWord(Trim(e)) && !IsWord(Trim(n)) && !IsWord(Trim(p))
  {
    TrimFixed(n);
    TrimFixed(p);
    assert !IsLetter(n[0]) && !IsLetter(p[0]);
  }

  lemma KeptPieces(t: String, pw: String, c: String, w: String)
    requires t == "test" && pw == " word" && c == "WORD" && w == "word"
    ensures IsWord(t) && Trim(t) == t
    ensures IsWord(w) && Trim(pw) == w
    ensures IsWord(c) && Trim(c) == c
    ensures t != w && t != c && w != c
  {
    WordIsTrimmed(t);
    WordIsTrimmed(c);
    assert pw == [' '] + w;
    PaddedWordTrim(w);
    assert t[0] != w[0] && t[0] != c[0] && w[0] != c[0];
  }

  lemma JoinSevenFirst() ensures Join(["Test", "sentence"], Splitter) == "Test;sentence" {}
  lemma JoinSevenMiddle() ensures Join(["with", "some"], Splitter) == "with;some" {}
  lemma JoinSevenLast() ensures Join(["words", "and", "separators"], Splitter) == "words;and;separators" {}

  lemma JoinSevenFront(xs: seq<String>, ys: seq<String>, s: String)
    requires xs == ["Test", "sentence"] && ys == ["with", "some"]
    requires s == "Test;sentence;with;some"
    ensures Join(xs + ys, Splitter) == s
  {
    JoinSevenFirst();
    JoinSevenMiddle();
    JoinConcat(xs, ys, Splitter);
  }

  lemma SevenGlued(front: String, back: String, s: String)
    requires front == "Test;sentence;with;some" && back == "words;and;separators"
    requires s == "Test;sentence;with;some;words;and;separators"
    ensures front + [Splitter] + back == s
  {
  }

  lemma JoinSeven(xs: seq<String>, ys: seq<String>, zs: seq<String>, s: String)
    requires xs == ["Test", "sentence"] && ys == ["with", "some"] && zs == ["words", "and", "separators"]
    requires s == "Test;sentence;with;some;words;and;separators"
    ensures Join(xs + ys + zs, Splitter) == s
  {
    var front := "Test;sentence;with;some";
    JoinSevenFront(xs, ys, front);
    JoinSevenLast();
    JoinConcat(xs + ys, zs, Splitter);
    SevenGlued(front, Join(zs, Splitter), s);
  }

  lemma SplitSeven(s: String)
    requires s == "Test;sentence;with;some;words;and;separators"
    ensures Split(s, Splitter) == ["Test", "sentence", "with", "some", "words", "and", "separators"]
  {
    var xs, ys, zs := ["Test", "sentence"], ["with", "some"], ["words", "and", "separators"];
    JoinSeven(xs, ys, zs, s);
    assert xs + ys + zs == ["Test", "sentence", "with", "some", "words", "and", "separators"];
    JoinThenSplit(xs + ys + zs, Splitter);
  }

  lemma SplitRepeat(s: String)
    requires s == "word;word;test"
    ensures Split(s, Splitter) == ["word", "word", "test"]
  {
    assert Join(["word", "word", "test"], Splitter) == s;
    JoinThenSplit(["word", "word", "test"], Splitter);
  }

  lemma JoinRejectedFirst() ensures Join(["test", "", "123"], Splitter) == "test;;123" {}
  lemma JoinRejectedLast() ensures Join(["-", " word", "WORD"], Splitter) == "-; word;WORD" {}

  lemma JoinRejected(xs: seq<String>, ys: seq<String>, s: String)
    requires xs == ["test", "", "123"] && ys == ["-", " word", "WORD"]
    requires s == "test;;123;-; word;WORD"
    ensures Join(xs + ys, Splitter) == s
  {
    JoinRejectedFirst();
    JoinRejectedLast();
    JoinConcat(xs, ys, Splitter);
  }

  lemma SplitRejected(s: String)
    requires s == "test;;123;-; word;WORD"
    ensures Split(s, Splitter) == ["test", "", "123", "-", " word", "WORD"]
  {
    var xs, ys := ["test", "", "123"], ["-", " word", "WORD"];
    JoinRejected(xs, ys, s);
    assert xs + ys == ["test", "", "123", "-", " word", "WORD"];
    JoinThenSplit(xs + ys, Splitter);
  }

  lemma SevenWordsFresh(ws: seq<String>)
    requires ws == ["Test", "sentence", "with", "some", "words", "and", "separators"]
    ensures FreshWords(Empty, ws)
  {
  }
}
