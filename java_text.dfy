/**
 * The pieces of the Java string library that the word counter relies on:
 * `String.trim`, `Character.isLetter`, `String.toLowerCase` and
 * `String.split` with a one-character, non-meta delimiter.
 *
 * Strings are sequences of characters. `isLetter` and `toLowerCase` are
 * modelled exactly on the Latin-1 range (U+0000 to U+00FF) and
 * conservatively above it (no letters, lower-casing is the identity).
 */
module JavaText {

  type String = seq<char>

  /** The characters `String.trim` strips: every code point up to U+0020. */
  predicate IsTrimSpace(c: char) {
    c <= ' '
  }

  /** Number of characters `trim` strips from the front of `s`. */
  function LeadingSpaces(s: String): (n: nat)
    ensures n <= |s|
    ensures forall i :: 0 <= i < n ==> IsTrimSpace(s[i])
    ensures n < |s| ==> !IsTrimSpace(s[n])
  {
    if |s| > 0 && IsTrimSpace(s[0]) then 1 + LeadingSpaces(s[1..]) else 0
  }

  /** Length of `s` once `trim` has stripped its trailing characters. */
  function TrailingStart(s: String): (n: nat)
    ensures n <= |s|
    ensures forall i :: n <= i < |s| ==> IsTrimSpace(s[i])
    ensures n > 0 ==> !IsTrimSpace(s[n - 1])
  {
    if |s| > 0 && IsTrimSpace(s[|s| - 1]) then TrailingStart(s[..|s| - 1]) else |s|
  }

  /**
   * `String.trim`: the longest infix of `s` that neither starts nor ends with
   * a character up to U+0020; everything cut away is such a character.
   */
  function Trim(s: String): (r: String)
    ensures LeadingSpaces(s) + |r| <= |s|
    ensures r == s[LeadingSpaces(s)..LeadingSpaces(s) + |r|]
    ensures forall i :: 0 <= i < LeadingSpaces(s) ==> IsTrimSpace(s[i])
    ensures forall i :: LeadingSpaces(s) + |r| <= i < |s| ==> IsTrimSpace(s[i])
    ensures r != [] ==> !IsTrimSpace(r[0]) && !IsTrimSpace(r[|r| - 1])
  {
    var rest := s[LeadingSpaces(s)..];
    rest[..TrailingStart(rest)]
  }

  /** A string that `trim` leaves alone is its own trimmed form. */
  lemma TrimFixed(s: String)
    requires s != [] ==> !IsTrimSpace(s[0]) && !IsTrimSpace(s[|s| - 1])
    ensures Trim(s) == s
  {
    assert LeadingSpaces(s) == 0;
    assert TrailingStart(s) == |s|;
  }

  /** Trimming twice is trimming once. */
  lemma TrimIdempotent(s: String)
    ensures Trim(Trim(s)) == Trim(s)
  {
    TrimFixed(Trim(s));
  }

  /**
   * `Character.isLetter` on the Latin-1 range: the ASCII letters, the two
   * ordinal indicators, the micro sign and the accented letters, which leave
   * out the multiplication and division signs.
   */
  predicate IsLetter(c: char) {
    || ('A' <= c <= 'Z')
    || ('a' <= c <= 'z')
    || c == '\U{AA}' || c == '\U{B5}' || c == '\U{BA}'
    || ('\U{C0}' <= c <= '\U{D6}')
    || ('\U{D8}' <= c <= '\U{F6}')
    || ('\U{F8}' <= c <= '\U{FF}')
  }

  /** No letter is stripped by `trim`. */
  lemma LetterIsNotTrimSpace(c: char)
    requires IsLetter(c)
    ensures !IsTrimSpace(c)
  {
  }

  /** `Character.toLowerCase` on the Latin-1 range: the upper-case letters move up by 0x20. */
  function ToLowerChar(c: char): (r: char)
    ensures IsLetter(r) <==> IsLetter(c)
    ensures r != c ==> ('A' <= c <= 'Z') || ('\U{C0}' <= c <= '\U{DE}' && c != '\U{D7}')
  {
    if ('A' <= c <= 'Z') || ('\U{C0}' <= c <= '\U{DE}' && c != '\U{D7}') then
      (c as int + 0x20) as char
    else
      c
  }

  /** `String.toLowerCase`: every character is lower-cased in place. */
  function ToLower(s: String): (r: String)
    ensures |r| == |s|
    ensures forall i :: 0 <= i < |s| ==> r[i] == ToLowerChar(s[i])
  {
    if s == [] then [] else [ToLowerChar(s[0])] + ToLower(s[1..])
  }

  /** Lower-casing a character that is already lower case changes nothing. */
  lemma ToLowerCharIdempotent(c: char)
    ensures ToLowerChar(ToLowerChar(c)) == ToLowerChar(c)
  {
  }

  /** Lower-casing a lower-cased string changes nothing. */
  lemma ToLowerIdempotent(s: String)
    ensures ToLower(ToLower(s)) == ToLower(s)
  {
    var l := ToLower(s);
    forall i | 0 <= i < |s|
      ensures ToLower(l)[i] == l[i]
    {
      ToLowerCharIdempotent(s[i]);
    }
  }

  /**
   * Splits `s` at every occurrence of `d`, keeping every piece, empty ones
   * included (the plain split, without Java's trailing-piece removal).
   */
  function Split(s: String, d: char): (pieces: seq<String>)
    ensures |pieces| >= 1
    ensures forall i :: 0 <= i < |pieces| ==> d !in pieces[i]
  {
    if s == [] then
      [[]]
    else
      var rest := Split(s[1..], d);
      if s[0] == d then [[]] + rest else [[s[0]] + rest[0]] + rest[1..]
  }

  /** Glues pieces back together with `d` between each two of them. */
  function Join(pieces: seq<String>, d: char): String
    requires |pieces| >= 1
  {
    if |pieces| == 1 then pieces[0] else pieces[0] + [d] + Join(pieces[1..], d)
  }

  /** Joining the pieces of a split gives back the string. */
  lemma {:induction false} SplitThenJoin(s: String, d: char)
    ensures Join(Split(s, d), d) == s
  {
    if s != [] {
      var rest := Split(s[1..], d);
      SplitThenJoin(s[1..], d);
      if s[0] != d {
        if |rest| == 1 {
          assert Split(s, d) == [[s[0]] + rest[0]];
        } else {
          assert Join(rest, d) == rest[0] + [d] + Join(rest[1..], d);
          assert Split(s, d)[1..] == rest[1..];
        }
      }
    }
  }

  /** A string without the delimiter splits into itself alone. */
  lemma {:induction false} SplitWithoutDelimiter(s: String, d: char)
    requires d !in s
    ensures Split(s, d) == [s]
  {
    if s != [] {
      assert d !in s[1..];
      SplitWithoutDelimiter(s[1..], d);
      assert s == [s[0]] + s[1..];
    }
  }

  /** A delimiter-free prefix is glued onto the first piece of what follows it. */
  lemma {:induction false} SplitAfterPrefix(p: String, t: String, d: char)
    requires d !in p
    ensures Split(p + t, d) == [p + Split(t, d)[0]] + Split(t, d)[1..]
  {
    var rest := Split(t, d);
    if p == [] {
      assert p + t == t;
      assert p + rest[0] == rest[0];
      assert [rest[0]] + rest[1..] == rest;
    } else {
      assert p[0] in p;
      assert (p + t)[0] == p[0] && (p + t)[1..] == p[1..] + t;
      assert d !in p[1..];
      SplitAfterPrefix(p[1..], t, d);
      assert [p[0]] + (p[1..] + rest[0]) == p + rest[0];
    }
  }

  /** Splitting the join of delimiter-free pieces gives the pieces back. */
  lemma {:induction false} JoinThenSplit(pieces: seq<String>, d: char)
    requires |pieces| >= 1
    requires forall i :: 0 <= i < |pieces| ==> d !in pieces[i]
    ensures Split(Join(pieces, d), d) == pieces
  {
    if |pieces| == 1 {
      SplitWithoutDelimiter(pieces[0], d);
    } else {
      var tail := Join(pieces[1..], d);
      assert Join(pieces, d) == pieces[0] + ([d] + tail);
      JoinThenSplit(pieces[1..], d);
      assert ([d] + tail)[0] == d && ([d] + tail)[1..] == tail;
      assert Split([d] + tail, d) == [[]] + pieces[1..];
      SplitAfterPrefix(pieces[0], [d] + tail, d);
      assert pieces[0] + [] == pieces[0];
      assert [pieces[0]] + pieces[1..] == pieces;
    }
  }

  /** Joining two runs of pieces puts one delimiter between the two joins. */
  lemma {:induction false} JoinConcat(xs: seq<String>, ys: seq<String>, d: char)
    requires |xs| >= 1 && |ys| >= 1
    ensures Join(xs + ys, d) == Join(xs, d) + [d] + Join(ys, d)
    decreases |xs|
  {
    if |xs| == 1 {
      assert (xs + ys)[1..] == ys;
    } else {
      assert (xs + ys)[1..] == xs[1..] + ys;
      JoinConcat(xs[1..], ys, d);
    }
  }

  /** Drops the empty pieces at the end, as `String.split` with limit 0 does. */
  function DropTrailingEmpty(pieces: seq<String>): (r: seq<String>)
    ensures |r| <= |pieces| && r == pieces[..|r|]
    ensures forall i :: |r| <= i < |pieces| ==> pieces[i] == []
    ensures r == [] || r[|r| - 1] != []
  {
    if pieces != [] && pieces[|pieces| - 1] == [] then
      DropTrailingEmpty(pieces[..|pieces| - 1])
    else
      pieces
  }

  /**
   * `String.split(d)` for a delimiter that is not a regular-expression
   * metacharacter: a string without `d` is returned whole (even when empty);
   * otherwise the plain split with its trailing empty pieces removed.
   */
  function JavaSplit(s: String, d: char): (r: seq<String>)
    ensures d !in s ==> r == [s]
    ensures |r| <= |Split(s, d)| && r == Split(s, d)[..|r|]
    ensures forall i :: |r| <= i < |Split(s, d)| ==> Split(s, d)[i] == []
    ensures d in s && r != [] ==> r[|r| - 1] != []
  {
    if d !in s then
      SplitWithoutDelimiter(s, d);
      [s]
    else
      DropTrailingEmpty(Split(s, d))
  }
}
