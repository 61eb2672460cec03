/** The letter side of the word engine (src/lib/words.ts): the fixed letter
    values, word scoring, the dictionary and its membership test, and the
    random draws of words and letter racks. */
module Letters {
  import opened Common

  /** Point value of each lower-case letter: common letters are cheap, rare ones dear. */
  const LetterValues: map<char, nat> := map[
    'a' := 1, 'e' := 1, 'i' := 1, 'o' := 1, 'u' := 1,
    'l' := 1, 'n' := 1, 's' := 1, 't' := 1, 'r' := 1,
    'd' := 2, 'g' := 2,
    'b' := 3, 'c' := 3, 'm' := 3, 'p' := 3,
    'f' := 4, 'h' := 4, 'v' := 4, 'w' := 4, 'y' := 4,
    'k' := 5,
    'j' := 8, 'x' := 8,
    'q' := 10, 'z' := 10
  ]

  /** The values that occur in the table. */
  const PointValues: set<nat> := {1, 2, 3, 4, 5, 8, 10}

  /** A letter on a player's rack, with its point value. */
  datatype Tile = Tile(letter: char, value: nat)

  predicate IsLowerLetter(c: char)
  {
    'a' <= c <= 'z'
  }

  /** Lower-casing of one character (ASCII letters only). */
  function LowerChar(c: char): (r: char)
    ensures 'A' <= c <= 'Z' ==> IsLowerLetter(r) && r as int == c as int + 32
    ensures !('A' <= c <= 'Z') ==> r == c
  {
    if 'A' <= c <= 'Z' then (c as int + 32) as char else c
  }

  /** `toLowerCase`, character by character. */
  function Lower(s: string): (r: string)
    ensures |r| == |s|
    ensures forall i | 0 <= i < |s| :: r[i] == LowerChar(s[i])
  {
    seq(|s|, i requires 0 <= i < |s| => LowerChar(s[i]))
  }

  lemma LowerIdempotent(s: string)
    ensures Lower(Lower(s)) == Lower(s)
  {
    assert forall i | 0 <= i < |s| :: LowerChar(LowerChar(s[i])) == LowerChar(s[i]);
  }

  /** The table defines exactly the 26 lower-case letters, each worth one of
      the values 1, 2, 3, 4, 5, 8 or 10. */
  lemma LetterTableCoversAlphabet(c: char)
    ensures c in LetterValues <==> IsLowerLetter(c)
    ensures c in LetterValues ==> LetterValues[c] in PointValues
  {
    if IsLowerLetter(c) {
      LowerLetterValued(c);
    }
  }

  /** Every lower-case letter has a value. */
  lemma LowerLetterValued(c: char)
    requires IsLowerLetter(c)
    ensures c in LetterValues
  {
    var n := c as int - 'a' as int;
    assert 0 <= n < 26;
    assert c == ('a' as int + n) as char;
  }

  /** `LETTER_VALUES[letter.toLowerCase()]`; None stands for `undefined`. */
  function LetterValue(c: char): Option<nat>
  {
    if LowerChar(c) in LetterValues then Some(LetterValues[LowerChar(c)]) else None
  }

  /** A character's value, when it has one, is between 1 and 10 points. */
  lemma LetterValueBounds(c: char)
    ensures LetterValue(c).Some? ==> 1 <= LetterValue(c).value <= 10
  {
    var l := LowerChar(c);
    if l in LetterValues {
      LetterTableCoversAlphabet(l);
    }
  }

  /** Adding two partial scores: `undefined` (None) turns the sum into NaN (None). */
  function AddScores(a: Option<nat>, b: Option<nat>): Option<nat>
  {
    if a.Some? && b.Some? then Some(a.value + b.value) else None
  }

  /** computeWordScore: the left fold `acc + LETTER_VALUES[lower(letter)]` from 0.
      None is the NaN the fold yields once a character has no value. */
  function WordScore(w: string): (score: Option<nat>)
    ensures score.Some? ==> |w| <= score.value <= 10 * |w|
  {
    if |w| == 0 then Some(0)
    else
      LetterValueBounds(w[|w| - 1]);
      AddScores(WordScore(w[..|w| - 1]), LetterValue(w[|w| - 1]))
  }

  /** The score is a number exactly when every character has a value. */
  lemma {:induction false} WordScoreDefined(w: string)
    ensures WordScore(w).Some? <==> forall i | 0 <= i < |w| :: LetterValue(w[i]).Some?
    decreases |w|
  {
    if |w| > 0 {
      var front, c := w[..|w| - 1], w[|w| - 1];
      WordScoreDefined(front);
      assert w == front + [c];
      AllValuedSnoc(front, c);
    }
  }

  lemma AllValuedSnoc(front: string, c: char)
    ensures (forall i | 0 <= i < |front + [c]| :: LetterValue((front + [c])[i]).Some?) <==>
      (forall i | 0 <= i < |front| :: LetterValue(front[i]).Some?) && LetterValue(c).Some?
  {
    assert forall i | 0 <= i < |front| :: (front + [c])[i] == front[i];
    assert (front + [c])[|front|] == c;
  }

  /** Scoring is additive over concatenation. */
  lemma {:induction false} WordScoreAppend(a: string, b: string)
    ensures WordScore(a + b) == AddScores(WordScore(a), WordScore(b))
    decreases |b|
  {
    if |b| == 0 {
      assert a + b == a;
    } else {
      var b', c := b[..|b| - 1], b[|b| - 1];
      assert (a + b)[..|a + b| - 1] == a + b';
      assert (a + b)[|a + b| - 1] == c;
      WordScoreAppend(a, b');
      AddScoresAssoc(WordScore(a), WordScore(b'), LetterValue(c));
    }
  }

  lemma AddScoresAssoc(a: Option<nat>, b: Option<nat>, c: Option<nat>)
    ensures AddScores(AddScores(a, b), c) == AddScores(a, AddScores(b, c))
  {
  }

  /** Scoring ignores the case of the word. */
  lemma {:induction false} WordScoreIgnoresCase(w: string)
    ensures WordScore(Lower(w)) == WordScore(w)
    decreases |w|
  {
    if |w| > 0 {
      var front := w[..|w| - 1];
      assert Lower(w)[..|w| - 1] == Lower(front);
      assert LowerChar(LowerChar(w[|w| - 1])) == LowerChar(w[|w| - 1]);
      WordScoreIgnoresCase(front);
    }
  }

  /** Lower-casing keeps the JavaScript length. */
  lemma {:induction false} Utf16LengthLower(w: string)
    ensures Utf16Length(Lower(w)) == Utf16Length(w)
    decreases |w|
  {
    if |w| > 0 {
      var front := w[..|w| - 1];
      assert Lower(w)[..|w| - 1] == Lower(front);
      Utf16LengthLower(front);
    }
  }

  /** The loaded word list: every entry has a JavaScript length of at most 10. */
  type Dictionary = d: seq<string> | forall w | w in d :: Utf16Length(w) <= 10

  /** The lines of the word-list file, keeping those of length at most 10. */
  function LoadWords(lines: seq<string>): (d: Dictionary)
    ensures forall w :: w in d <==> w in lines && Utf16Length(w) <= 10
    ensures |d| <= |lines|
  {
    if |lines| == 0 then []
    else
      var last := lines[|lines| - 1];
      var front := LoadWords(lines[..|lines| - 1]);
      assert forall w :: w in lines <==> w in lines[..|lines| - 1] || w == last;
      if Utf16Length(last) <= 10 then front + [last] else front
  }

  /** isWordValid: the lower-cased word is an entry of the list, so no word
      longer than 10 is valid. */
  predicate IsWordValid(dict: Dictionary, w: string): (valid: bool)
    ensures valid ==> Utf16Length(w) <= 10
  {
    Utf16LengthLower(w);
    Lower(w) in dict
  }

  /** Validity does not depend on case. */
  lemma WordValidityProperties(dict: Dictionary, w: string)
    ensures IsWordValid(dict, w) == IsWordValid(dict, Lower(w))
  {
    LowerIdempotent(w);
  }

  /** getRandomWord: some entry whose length lies in [minLength, maxLength],
      or "" when there is none. The uniform choice is left open. */
  method RandomWord(dict: Dictionary, minLength: int, maxLength: int) returns (w: string)
    ensures (exists v :: v in dict && minLength <= Utf16Length(v) <= maxLength) ==>
              w in dict && minLength <= Utf16Length(w) <= maxLength
    ensures (forall v | v in dict :: !(minLength <= Utf16Length(v) <= maxLength)) ==> w == ""
  {
    if exists i | 0 <= i < |dict| :: minLength <= Utf16Length(dict[i]) <= maxLength {
      var i :| 0 <= i < |dict| && minLength <= Utf16Length(dict[i]) <= maxLength;
      w := dict[i];
    } else {
      w := "";
    }
  }

  /** getRandomLetter: some letter of the table with its value. The weights
      (inverse of the value) are left open. */
  method RandomLetter() returns (t: Tile)
    ensures t.letter in LetterValues && t.value == LetterValues[t.letter]
  {
    LetterTableCoversAlphabet('e');
    var c :| c in LetterValues;
    t := Tile(c, LetterValues[c]);
  }

  /** A tile the table defines and that is not one of the skipped letters. */
  predicate DrawnTile(t: Tile, skipLetters: seq<char>)
  {
    t.letter in LetterValues && t.value == LetterValues[t.letter] && t.letter !in skipLetters
  }

  /** getRandomAvailableLetters: `amount` tiles, none of them a skipped letter.
      The source redraws a skipped letter until it gets another one, so it only
      returns when some letter of the table is not skipped. */
  method RandomAvailableLetters(amount: nat, skipLetters: seq<char>) returns (rack: seq<Tile>)
    requires exists c :: c in LetterValues && c !in skipLetters
    ensures |rack| == amount
    ensures forall i | 0 <= i < |rack| :: DrawnTile(rack[i], skipLetters)
  {
    rack := [];
    while |rack| < amount
      invariant |rack| <= amount
      invariant forall i | 0 <= i < |rack| :: DrawnTile(rack[i], skipLetters)
    {
      var c :| c in LetterValues && c !in skipLetters;
      rack := rack + [Tile(c, LetterValues[c])];
    }
  }
}
