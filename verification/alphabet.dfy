/**
 * The IUPAC DNA alphabet (the NC-IUB 1984 nucleotide ambiguity codes plus the
 * gap symbol), case-insensitive validation, and the byte complement table.
 */
module Alphabet {

  /** The sixteen letters, in the order the library lists them. */
  const Letters: string := "ACGTRYSWKMBDHVN-"

  /** The letters in lower case, in the same order (the gap has no case). */
  const LowerLetters: string := "acgtryswkmbdhvn-"

  /** The complement of `Letters[i]` is `ComplementLetters[i]`. */
  const ComplementLetters: string := "TGCAYRSWMKVHDBN-"

  /** The byte translation table: `TableFrom[i]` is translated to `TableTo[i]`. */
  const TableFrom: string := Letters + LowerLetters
  const TableTo: string := ComplementLetters + ComplementLetters

  /** A character that may appear in stored sequence data: one of the sixteen `Letters`. */
  predicate IsDnaLetter(c: char) {
    match c
    case 'A' | 'C' | 'G' | 'T' | 'R' | 'Y' | 'S' | 'W' | 'K' | 'M' | 'B' | 'D' | 'H' | 'V' | 'N' | '-' => true
    case _ => false
  }

  /** The predicate names exactly the characters of `Letters`. */
  lemma LettersAreDnaLetters(c: char)
    ensures IsDnaLetter(c) <==> c in Letters
  {
    if IsDnaLetter(c) {
      LetterCases(c);
      var i := if c == 'A' then 0 else if c == 'C' then 1 else if c == 'G' then 2 else if c == 'T' then 3
               else if c == 'R' then 4 else if c == 'Y' then 5 else if c == 'S' then 6 else if c == 'W' then 7
               else if c == 'K' then 8 else if c == 'M' then 9 else if c == 'B' then 10 else if c == 'D' then 11
               else if c == 'H' then 12 else if c == 'V' then 13 else if c == 'N' then 14 else 15;
      assert Letters[i] == c;
    }
    if c in Letters {
      var i :| 0 <= i < |Letters| && Letters[i] == c;
    }
  }

  /** ASCII upper-casing, as `str.upper` and `std::toupper` do on ASCII characters. */
  function Upper(c: char): char {
    if 'a' <= c <= 'z' then (c as int - 32) as char else c
  }

  /** Upper-cases a whole text, character by character. */
  function UpperText(s: string): (r: string)
    ensures |r| == |s|
    ensures forall i :: 0 <= i < |s| ==> r[i] == Upper(s[i])
  {
    if s == [] then [] else [Upper(s[0])] + UpperText(s[1..])
  }

  /** One character passes the case-insensitive character class. */
  predicate AcceptsChar(c: char) {
    IsDnaLetter(Upper(c))
  }

  /** The intended validator: every character, case-folded, is a DNA letter. */
  predicate IsDnaText(s: string) {
    forall c | c in s :: AcceptsChar(c)
  }

  /** The invariant of stored data: every character is an upper-case DNA letter. */
  predicate IsDnaData(d: string) {
    forall c | c in d :: IsDnaLetter(c)
  }

  /**
   * The validator as written: an anchored, case-insensitive regular expression
   * whose final `$` also matches just before one trailing newline. Every
   * character of an accepted text is a letter of either case, except that
   * the last one may be that newline; and every such text is accepted.
   */
  function RegexAccepts(s: string): (b: bool)
    ensures b ==> forall i :: 0 <= i < |s| - 1 ==> AcceptsChar(s[i])
    ensures b && |s| > 0 ==> AcceptsChar(s[|s| - 1]) || s[|s| - 1] == '\n'
    ensures ((forall i :: 0 <= i < |s| - 1 ==> AcceptsChar(s[i]))
             && (|s| > 0 ==> AcceptsChar(s[|s| - 1]) || s[|s| - 1] == '\n')) ==> b
  {
    RegexShape(s);
    || IsDnaText(s)
    || (|s| > 0 && s[|s| - 1] == '\n' && IsDnaText(s[..|s| - 1]))
  }

  /** The characters of a text the regular expression matches, position by position. */
  lemma RegexShape(s: string)
    ensures IsDnaText(s) ==> forall i :: 0 <= i < |s| ==> AcceptsChar(s[i])
    ensures |s| > 0 && IsDnaText(s[..|s| - 1]) ==> forall i :: 0 <= i < |s| - 1 ==> AcceptsChar(s[i])
  {
    if IsDnaText(s) {
      forall i | 0 <= i < |s| ensures AcceptsChar(s[i]) {
        assert s[i] in s;
      }
    }
    if |s| > 0 && IsDnaText(s[..|s| - 1]) {
      forall i | 0 <= i < |s| - 1 ensures AcceptsChar(s[i]) {
        assert s[..|s| - 1][i] in s[..|s| - 1];
      }
    }
  }

  /** Validating text and upper-casing it yields stored data, and only valid text does. */
  lemma UpperTextIsDnaData(s: string)
    ensures IsDnaText(s) <==> IsDnaData(UpperText(s))
  {
    var u := UpperText(s);
    if IsDnaText(s) {
      forall c | c in u ensures IsDnaLetter(c) {
        var i :| 0 <= i < |u| && u[i] == c;
        assert s[i] in s;
      }
    }
    if IsDnaData(u) {
      forall c | c in s ensures AcceptsChar(c) {
        var i :| 0 <= i < |s| && s[i] == c;
        assert u[i] in u;
      }
    }
  }

  /** Stored data is already upper case, so upper-casing it changes nothing. */
  lemma UpperTextFixesDnaData(d: string)
    requires IsDnaData(d)
    ensures UpperText(d) == d
  {
    var u := UpperText(d);
    forall i | 0 <= i < |d| ensures u[i] == d[i] {
      assert d[i] in d;
    }
  }

  /** Upper-casing is idempotent. */
  lemma UpperTextIdempotent(s: string)
    ensures UpperText(UpperText(s)) == UpperText(s)
  {
    var u := UpperText(s);
    var uu := UpperText(u);
    forall i | 0 <= i < |s| ensures uu[i] == u[i] {
    }
  }

  /** Stored data passes the validator. */
  lemma DnaDataIsDnaText(d: string)
    requires IsDnaData(d)
    ensures IsDnaText(d)
  {
    forall c | c in d ensures AcceptsChar(c) {
    }
  }

  /** The regular expression accepts every valid text. */
  lemma RegexAcceptsDnaText(s: string)
    requires IsDnaText(s)
    ensures RegexAccepts(s)
  {
  }

  /** Without a trailing newline the regular expression is exactly the intended validator. */
  lemma RegexAgreesWithoutNewline(s: string)
    requires |s| == 0 || s[|s| - 1] != '\n'
    ensures RegexAccepts(s) <==> IsDnaText(s)
  {
  }

  /**
   * The regular expression admits "ACGT\n"; upper-casing keeps the newline,
   * so the stored data would hold a character outside the alphabet.
   */
  lemma RegexAdmitsTrailingNewline()
    ensures RegexAccepts("ACGT\n")
    ensures !IsDnaText("ACGT\n")
    ensures !IsDnaData(UpperText("ACGT\n"))
  {
    assert "ACGT\n"[..4] == "ACGT";
    assert "ACGT\n"[4] == '\n';
    assert '\n' in "ACGT\n";
    assert !AcceptsChar('\n');
    UpperTextIsDnaData("ACGT\n");
  }

  /** The complement of an upper-case alphabet letter; any other character maps to itself. */
  function ComplementUpper(c: char): char {
    match c
    case 'A' => 'T'  case 'C' => 'G'  case 'G' => 'C'  case 'T' => 'A'
    case 'R' => 'Y'  case 'Y' => 'R'  case 'S' => 'S'  case 'W' => 'W'
    case 'K' => 'M'  case 'M' => 'K'  case 'B' => 'V'  case 'D' => 'H'
    case 'H' => 'D'  case 'V' => 'B'  case 'N' => 'N'  case '-' => '-'
    case _ => c
  }

  /**
   * Byte translation: a letter of either case becomes the upper-case
   * complement of its upper-case form; every other character is kept.
   */
  function Complement(c: char): (d: char)
    ensures AcceptsChar(c) ==> IsDnaLetter(d)
    ensures !AcceptsChar(c) ==> d == c
  {
    if AcceptsChar(c) then
      LetterCases(Upper(c));
      ComplementUpper(Upper(c))
    else c
  }

  /** The alphabet letters one by one. */
  lemma LetterCases(c: char)
    requires IsDnaLetter(c)
    ensures || c == 'A' || c == 'C' || c == 'G' || c == 'T' || c == 'R' || c == 'Y' || c == 'S' || c == 'W'
            || c == 'K' || c == 'M' || c == 'B' || c == 'D' || c == 'H' || c == 'V' || c == 'N' || c == '-'
  {
  }

  /** On the alphabet, upper-casing does nothing and translation is the upper-case complement. */
  lemma UpperHalf(i: int)
    requires 0 <= i < |Letters|
    ensures Upper(Letters[i]) == Letters[i]
    ensures ComplementUpper(Letters[i]) == ComplementLetters[i]
  {
  }

  /** Each lower-case letter upper-cases to the alphabet letter in the same place. */
  lemma LowerHalf(i: int)
    requires 0 <= i < |LowerLetters|
    ensures Upper(LowerLetters[i]) == Letters[i]
  {
  }

  /** Translation agrees with the 32-entry table, entry by entry. */
  lemma ComplementMatchesTable(i: int)
    requires 0 <= i < |TableFrom|
    ensures |TableTo| == |TableFrom|
    ensures Complement(TableFrom[i]) == TableTo[i]
  {
    var n := |Letters|;
    if i < n {
      UpperHalf(i);
      assert AcceptsChar(Letters[i]);
    } else {
      assert TableFrom[i] == LowerLetters[i - n] && TableTo[i] == ComplementLetters[i - n];
      LowerHalf(i - n);
      UpperHalf(i - n);
      assert AcceptsChar(LowerLetters[i - n]);
    }
  }

  /** The four bases pair as A with T and C with G. */
  lemma BasePairs()
    ensures Complement('A') == 'T' && Complement('T') == 'A'
    ensures Complement('C') == 'G' && Complement('G') == 'C'
  {
    ComplementMatchesTable(0);
    ComplementMatchesTable(1);
    ComplementMatchesTable(2);
    ComplementMatchesTable(3);
  }

  /** On the alphabet the complement is an involution that stays in the alphabet. */
  lemma ComplementInvolution(c: char)
    requires IsDnaLetter(c)
    ensures IsDnaLetter(Complement(c))
    ensures Complement(Complement(c)) == c
  {
    LetterCases(c);
  }

  /** A lower-case letter complements to the complement of its upper-case form, which is an alphabet letter. */
  lemma ComplementIgnoresCase(c: char)
    requires AcceptsChar(c)
    ensures Complement(c) == Complement(Upper(c))
    ensures IsDnaLetter(Complement(c))
  {
    LetterCases(Upper(c));
  }

  /** Characters outside the table pass through translation unchanged. */
  lemma ComplementFixesOthers(c: char)
    requires c !in TableFrom
    ensures Complement(c) == c
  {
    if AcceptsChar(c) {
      LetterCases(Upper(c));
      assert false;
    }
  }
}
