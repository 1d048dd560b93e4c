/** The speech-buffer encoders: the phoneme terminator scan, the two-letter
    tag table and its lookup, and the tag tokenizer
    (src/BuzzKill.cpp:200-232; the table is src/BuzzKill.h:611).

    A C string is a `string` followed by an implied NUL: the character at
    index |s| reads as '\0', and nothing beyond it may be read. */
module Speech {

  /** The phoneme list terminator of byte phoneme arrays. */
  const Terminator: bv8 := 0xFF

  /** The longest scan for the terminator, and the "not found" result. */
  const ScanLimit: nat := 255

  /** The 55 two-letter tags, in table order; tag k is the phoneme with code k
      (the driver stores them as one 110-character string). The vowels are
      codes 0..19, the consonants and pauses 20..54. */
  const PhonemeTags: seq<(char, char)> := VowelTags + ConsonantTags

  const VowelTags: seq<(char, char)> := [
    ('O', 'W'), ('A', 'W'), ('E', 'Y'), ('A', 'I'), ('A', 'Y'), ('E', 'A'), ('O', 'Y'), ('U', 'R'),
    ('A', 'E'), ('A', 'A'), ('A', 'U'), ('E', 'H'), ('I', 'Y'), ('A', 'O'), ('E', 'R'), ('A', 'H'),
    ('U', 'W'), ('U', 'H'), ('I', 'H'), ('A', 'X')]

  const ConsonantTags: seq<(char, char)> := [
    ('S', '*'), ('S', 'H'), ('F', '*'), ('V', '*'), ('Z', '*'), ('Z', 'H'), ('T', 'H'), ('D', 'H'),
    ('M', '*'), ('N', '*'), ('N', 'G'), ('H', '*'), ('X', '*'), ('R', '*'), ('R', 'X'), ('L', '*'),
    ('L', 'X'), ('W', '*'), ('W', 'H'), ('Y', '*'), ('W', 'X'), ('Y', 'X'), ('K', 'X'), ('G', 'X'),
    ('T', '*'), ('D', '*'), ('P', '*'), ('B', '*'), ('K', '*'), ('G', '*'), ('J', '*'), ('C', 'H'),
    ('_', '1'), ('_', '2'), ('_', '3')]

  const TagCount: nat := 55

  // ---------------------------------------------------------------------------
  // addSpeechPhonemes: the terminator scan (BuzzKill.cpp:201).

  /** The scan may read the bytes it inspects: either it meets a terminator
      inside the array, or the array has the 255 bytes the scan can inspect. */
  predicate ScanReadable(p: seq<bv8>)
  {
    |p| >= ScanLimit || Terminator in p
  }

  /** The number of bytes before the first terminator among the first 255,
      or 255 when none of them is a terminator. */
  function TerminatedLength(p: seq<bv8>, from: nat): (n: nat)
    requires from <= ScanLimit
    requires |p| >= ScanLimit || (from <= |p| && Terminator in p[from..])
    requires forall k :: 0 <= k < from ==> k < |p| && p[k] != Terminator
    ensures from <= n <= ScanLimit
    ensures n < ScanLimit ==> n < |p| && p[n] == Terminator
    ensures forall k :: 0 <= k < n ==> k < |p| && p[k] != Terminator
    decreases ScanLimit - from
  {
    if from == ScanLimit then ScanLimit
    else if p[from] == Terminator then from
    else
      assert |p| < ScanLimit ==> Terminator in p[from + 1..] by {
        if |p| < ScanLimit {
          var j :| from <= j < |p| && p[j] == Terminator;
          assert p[from + 1..][j - from - 1] == Terminator;
        }
      }
      TerminatedLength(p, from + 1)
  }

  // ---------------------------------------------------------------------------
  // getPhonemeFromTag: the table lookup (BuzzKill.cpp:228-232).

  /** ASCII lower-casing, as the case-insensitive compare applies it. */
  function Lower(c: char): char
  {
    if 'A' <= c <= 'Z' then (c as int + 32) as char else c
  }

  /** Whether the two characters `c0 c1` spell `tag`, ignoring case. No
      table character is NUL, so a NUL in the tag never matches. */
  predicate Spells(c0: char, c1: char, tag: (char, char))
  {
    Lower(c0) == Lower(tag.0) && Lower(c1) == Lower(tag.1)
  }

  /** Whether `c0 c1` spells tag k of the table. */
  predicate TagMatches(c0: char, c1: char, k: nat)
    requires k < TagCount
  {
    Spells(c0, c1, PhonemeTags[k])
  }

  /** A lookup in a tag table from entry `from` on, one entry at a time,
      stopping at the first entry `c0 c1` spells, or at the table's end. */
  function Lookup(tags: seq<(char, char)>, c0: char, c1: char, from: nat): (k: nat)
    requires from <= |tags|
    ensures from <= k <= |tags|
    decreases |tags| - from
  {
    if from == |tags| then |tags|
    else if Spells(c0, c1, tags[from]) then from
    else Lookup(tags, c0, c1, from + 1)
  }

  /** The lookup in the phoneme table from tag `from` on. */
  function LookupTag(c0: char, c1: char, from: nat): (k: nat)
    requires from <= TagCount
    ensures from <= k <= TagCount
  {
    Lookup(PhonemeTags, c0, c1, from)
  }

  /** When the lookup stops before the table's end, the entry it stops at is
      one that `c0 c1` spells. */
  lemma {:induction false} LookupStopsAtMatch(tags: seq<(char, char)>, c0: char, c1: char, from: nat)
    requires from <= |tags|
    ensures Lookup(tags, c0, c1, from) < |tags| ==> Spells(c0, c1, tags[Lookup(tags, c0, c1, from)])
    decreases |tags| - from
  {
    if from < |tags| && !Spells(c0, c1, tags[from]) {
      LookupStopsAtMatch(tags, c0, c1, from + 1);
    }
  }

  /** The lookup passes over only entries that `c0 c1` does not spell, so it
      finds the first match, and the table's end means that no entry from
      `from` on matches. */
  lemma {:induction false} LookupSkipsNonMatches(tags: seq<(char, char)>, c0: char, c1: char, from: nat)
    requires from <= |tags|
    ensures forall j :: from <= j < Lookup(tags, c0, c1, from) ==> !Spells(c0, c1, tags[j])
    decreases |tags| - from
  {
    if from < |tags| && !Spells(c0, c1, tags[from]) {
      LookupSkipsNonMatches(tags, c0, c1, from + 1);
    }
  }

  /** One step of the lookup at tag k. */
  lemma LookupAt(c0: char, c1: char, k: nat)
    requires k <= TagCount
    ensures k == TagCount ==> LookupTag(c0, c1, k) == TagCount
    ensures k < TagCount && TagMatches(c0, c1, k) ==> LookupTag(c0, c1, k) == k
    ensures k < TagCount && !TagMatches(c0, c1, k) ==> LookupTag(c0, c1, k) == LookupTag(c0, c1, k + 1)
  {
  }

  /** The byte getPhonemeFromTag returns: the lookup's result, 55 meaning
      no tag matched. */
  function PhonemeCode(c0: char, c1: char): bv8
  {
    Byte(LookupTag(c0, c1, 0))
  }

  /** The code's value is the index of the tag found, or 55. */
  lemma PhonemeCodeIsLookup(c0: char, c1: char)
    ensures PhonemeCode(c0, c1) as nat == LookupTag(c0, c1, 0)
  {
  }

  /** A number below 256 as a byte, counted up one at a time so that its
      value as a number is evident. */
  function Byte(k: nat): (b: bv8)
    requires k < 256
    ensures b as nat == k
    decreases k
  {
    if k == 0 then 0 else Byte(k - 1) + 1
  }

  /** Lookup examples: the first tag, and the second in either case. */
  lemma LookupExamples()
    ensures LookupTag('O', 'W', 0) == 0
    ensures LookupTag('a', 'w', 0) == 1 && LookupTag('A', 'W', 0) == 1
  {
    assert TagMatches('O', 'W', 0);
    assert !TagMatches('a', 'w', 0) && !TagMatches('A', 'W', 0);
    assert TagMatches('a', 'w', 1) && TagMatches('A', 'W', 1);
    assert Lookup(PhonemeTags, 'a', 'w', 1) == 1 && Lookup(PhonemeTags, 'A', 'W', 1) == 1;
  }

  // ---------------------------------------------------------------------------
  // addSpeechTags: counting and tokenizing (BuzzKill.cpp:209-226).

  /** The character at i of a C string; the implied NUL at |s|. */
  function At(s: string, i: nat): char
  {
    if i < |s| then s[i] else '\0'
  }

  predicate EndsTags(c: char)
  {
    c == '\0' || c == '.'
  }

  /** The most characters the counting loop counts. */
  const CountLimit: nat := 509

  /** The non-space characters from p up to the first '.' or NUL. */
  function TagChars(s: string, p: nat): nat
    decreases |s| - p
  {
    if p >= |s| || EndsTags(s[p]) then 0
    else (if s[p] == ' ' then 0 else 1) + TagChars(s, p + 1)
  }

  /** The first non-space position from p on. */
  function SkipSpaces(s: string, p: nat): (q: nat)
    ensures p <= q && At(s, q) != ' '
    ensures p <= |s| ==> q <= |s|
    decreases |s| - p
  {
    if p < |s| && s[p] == ' ' then SkipSpaces(s, p + 1) else p
  }

  /** Everything SkipSpaces steps over is a space. */
  lemma {:induction false} SkipSpacesSkipsOnlySpaces(s: string, p: nat)
    ensures forall k :: p <= k < SkipSpaces(s, p) ==> At(s, k) == ' '
    decreases |s| - p
  {
    if p < |s| && s[p] == ' ' {
      SkipSpacesSkipsOnlySpaces(s, p + 1);
    }
  }

  /** The tokenizer reads only characters of the string or its NUL while it
      takes `n` tags from p on. */
  predicate TagsReadable(s: string, p: nat, n: nat)
    decreases n
  {
    n == 0 ||
    (p <= |s| && SkipSpaces(s, p) + 1 <= |s| && TagsReadable(s, SkipSpaces(s, p) + 2, n - 1))
  }

  /** The phoneme codes of `n` tags from p on: skip spaces, look the next two
      characters up, move past them. */
  function TagPhonemes(s: string, p: nat, n: nat): (ph: seq<bv8>)
    ensures |ph| == n
    decreases n
  {
    if n == 0 then []
    else
      var q := SkipSpaces(s, p);
      [PhonemeCode(At(s, q), At(s, q + 1))] + TagPhonemes(s, q + 2, n - 1)
  }

  /** The first of n + 1 tags, then the other n. */
  lemma TagPhonemesFirst(s: string, p: nat, n: nat)
    ensures var q := SkipSpaces(s, p);
      TagPhonemes(s, p, n + 1) == [PhonemeCode(At(s, q), At(s, q + 1))] + TagPhonemes(s, q + 2, n)
  {
  }

  /** The number of phonemes addSpeechTags sends, 0 meaning it sends nothing:
      the given length when it is not 0; otherwise half the counted non-space
      characters (at most 509 counted), or 0 when that count is 0 or odd. */
  function TagsToSend(s: string, length: bv8): (n: nat)
    ensures n < 256
    ensures length != 0 ==> n == length as nat
    ensures length == 0 && n > 0 ==> 2 * n == TagChars(s, 0) && 2 * n < CountLimit
    ensures length == 0 && TagChars(s, 0) < CountLimit && TagChars(s, 0) % 2 == 0 ==> 2 * n == TagChars(s, 0)
  {
    if length != 0 then length as nat
    else
      var count := if TagChars(s, 0) < CountLimit then TagChars(s, 0) else CountLimit;
      if count == 0 || count % 2 == 1 then 0 else count / 2
  }

  lemma TagCharsSkipSpaces(s: string, p: nat)
    requires p <= |s|
    ensures TagChars(s, SkipSpaces(s, p)) == TagChars(s, p)
    decreases |s| - p
  {
    if p < |s| && s[p] == ' ' {
      TagCharsSkipSpaces(s, p + 1);
    }
  }

  /** When at least 2n countable characters lie ahead, taking n tags stays
      before the terminator: the counting pass makes the tokenizing pass safe. */
  lemma {:induction false} CountedTagsAreReadable(s: string, p: nat, n: nat)
    requires p <= |s| && 2 * n <= TagChars(s, p)
    ensures TagsReadable(s, p, n)
    decreases n
  {
    if n > 0 {
      var q := SkipSpaces(s, p);
      TagCharsSkipSpaces(s, p);
      assert q < |s| && !EndsTags(s[q]) && s[q] != ' ';
      assert TagChars(s, q) == 1 + TagChars(s, q + 1);
      assert q + 1 < |s| && !EndsTags(s[q + 1]);
      assert TagChars(s, q + 1) <= 1 + TagChars(s, q + 2);
      CountedTagsAreReadable(s, q + 2, n - 1);
    }
  }

  /** Whenever addSpeechTags counts the tags itself, its tokenizer reads
      only the string and its NUL. */
  lemma CountedLengthIsReadable(s: string)
    ensures TagsReadable(s, 0, TagsToSend(s, 0))
  {
    CountedTagsAreReadable(s, 0, TagsToSend(s, 0));
  }

  /** Tag-string examples: spaces between tags are not counted, a '.' ends
      the count, and the tokenizer skips the spaces. */
  lemma TagExamples()
    ensures TagsToSend("OW AW.", 0) == 2
    ensures TagPhonemes("OW AW.", 0, 2) == [0, 1]
  {
    var s := "OW AW.";
    assert TagChars(s, 0) == 4 by {
      assert TagChars(s, 5) == 0 && TagChars(s, 2) == 2;
    }
    TagPhonemesExample();
  }

  lemma TagPhonemesExample()
    ensures TagPhonemes("OW AW.", 0, 2) == [0, 1]
  {
    var s := "OW AW.";
    assert SkipSpaces(s, 0) == 0;
    assert TagPhonemes(s, 0, 2) == [PhonemeCode(At(s, 0), At(s, 1))] + TagPhonemes(s, 2, 1);
    assert At(s, 0) == 'O' && At(s, 1) == 'W';
    LookupExamples();
    assert PhonemeCode('O', 'W') == 0 by { assert Byte(0) == 0; }
    SecondTagExample();
  }

  lemma SecondTagExample()
    ensures TagPhonemes("OW AW.", 2, 1) == [1]
  {
    var s := "OW AW.";
    LookupExamples();
    assert PhonemeCode('A', 'W') == 1 by { assert Byte(1) == Byte(0) + 1 == 1; }
    assert SkipSpaces(s, 2) == 3 && At(s, 3) == 'A' && At(s, 4) == 'W';
    assert TagPhonemes(s, 5, 0) == [];
  }

  /** An odd count sends nothing, and so does an empty string. */
  lemma OddTagExamples()
    ensures TagsToSend("OWA", 0) == 0
    ensures TagsToSend("", 0) == 0
  {
    assert TagChars("OWA", 0) == 3 by {
      assert TagChars("OWA", 3) == 0;
    }
  }

  /** The lookup ignores case: a tag written in either case finds the same
      entry. */
  lemma {:induction false} LookupIgnoresCase(tags: seq<(char, char)>, c0: char, c1: char, from: nat)
    requires from <= |tags|
    ensures Lookup(tags, c0, c1, from) == Lookup(tags, Lower(c0), Lower(c1), from)
    decreases |tags| - from
  {
    assert Lower(Lower(c0)) == Lower(c0) && Lower(Lower(c1)) == Lower(c1);
    if from < |tags| {
      LookupIgnoresCase(tags, c0, c1, from + 1);
    }
  }
}
