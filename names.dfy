/**
 * The string behaviour the Student record relies on: the alphabetic check that
 * guards the name setters (Python's `str.isalpha`) and the title casing every
 * getter applies (Python's `str.title`), both restricted to ASCII letters.
 */
module Names {

  /** An ASCII letter: the only characters this model treats as cased. */
  predicate IsLetter(c: char) {
    'A' <= c <= 'Z' || 'a' <= c <= 'z'
  }

  /** `str.isalpha`: at least one character, and every character a letter. */
  predicate IsAlpha(s: string) {
    |s| > 0 && forall i :: 0 <= i < |s| ==> IsLetter(s[i])
  }

  /** The guard of the first-name and last-name setters: all letters, or empty. */
  predicate ValidName(s: string)
    ensures ValidName(s) <==> forall i :: 0 <= i < |s| ==> IsLetter(s[i])
  {
    IsAlpha(s) || s == ""
  }

  /** Upper-casing of one character; anything but a lower-case letter is kept. */
  function Upper(c: char): (r: char)
    ensures IsLetter(r) <==> IsLetter(c)
    ensures !('a' <= r <= 'z')
    ensures !('a' <= c <= 'z') ==> r == c
  {
    if 'a' <= c <= 'z' then (c as int - 32) as char else c
  }

  /** Lower-casing of one character; anything but an upper-case letter is kept. */
  function Lower(c: char): (r: char)
    ensures IsLetter(r) <==> IsLetter(c)
    ensures !('A' <= r <= 'Z')
    ensures !('A' <= c <= 'Z') ==> r == c
  {
    if 'A' <= c <= 'Z' then (c as int + 32) as char else c
  }

  lemma CaseFolds(c: char)
    ensures Upper(Upper(c)) == Upper(c) && Upper(Lower(c)) == Upper(c)
    ensures Lower(Lower(c)) == Lower(c) && Lower(Upper(c)) == Lower(c)
  {
  }

  /**
   * Title casing of `s` when the character before it was (`afterLetter`) or
   * was not a letter: a character is upper-cased when the one before it is
   * not a letter, and lower-cased otherwise.
   */
  function TitleFrom(s: string, afterLetter: bool): (r: string)
    ensures |r| == |s|
    decreases |s|
  {
    if s == [] then []
    else [if afterLetter then Lower(s[0]) else Upper(s[0])] + TitleFrom(s[1..], IsLetter(s[0]))
  }

  /** `str.title` on ASCII text. */
  function Title(s: string): string {
    TitleFrom(s, false)
  }

  /** Position `i` of `s` begins a word: nothing, or a non-letter, comes before it. */
  predicate StartsWord(s: string, i: nat)
    requires i < |s|
  {
    i == 0 || !IsLetter(s[i - 1])
  }

  lemma {:induction false} TitleFromAt(s: string, afterLetter: bool, i: nat)
    requires i < |s|
    ensures TitleFrom(s, afterLetter)[i] ==
      if (if i == 0 then afterLetter else IsLetter(s[i - 1])) then Lower(s[i]) else Upper(s[i])
    decreases i
  {
    if i > 0 {
      TitleFromAt(s[1..], IsLetter(s[0]), i - 1);
    }
  }

  /**
   * The title case of a string, character by character: a word-initial
   * character is upper-cased, every other one lower-cased.
   */
  lemma TitleAt(s: string, i: nat)
    requires i < |s|
    ensures |Title(s)| == |s|
    ensures Title(s)[i] == if StartsWord(s, i) then Upper(s[i]) else Lower(s[i])
  {
    TitleFromAt(s, false, i);
  }

  /** Title casing keeps every character a letter exactly where it was one. */
  lemma TitleLetters(s: string)
    ensures |Title(s)| == |s|
    ensures forall i :: 0 <= i < |s| ==> (IsLetter(Title(s)[i]) <==> IsLetter(s[i]))
  {
    forall i | 0 <= i < |s|
      ensures IsLetter(Title(s)[i]) <==> IsLetter(s[i])
    {
      TitleAt(s, i);
    }
  }

  /** Title casing is idempotent: a value read from a getter and stored back reads the same. */
  lemma TitleIdempotent(s: string)
    ensures Title(Title(s)) == Title(s)
  {
    var t := Title(s);
    TitleLetters(s);
    forall i | 0 <= i < |t|
      ensures Title(t)[i] == t[i]
    {
      TitleAt(s, i);
      TitleAt(t, i);
      CaseFolds(s[i]);
    }
  }

  /** For a name made of letters only: the first letter upper-cased, the rest lower-cased. */
  lemma TitleOfWord(s: string)
    ensures IsAlpha(s) ==> Title(s)[0] == Upper(s[0])
    ensures IsAlpha(s) ==> forall i :: 1 <= i < |s| ==> Title(s)[i] == Lower(s[i])
  {
    if IsAlpha(s) {
      forall i | 0 <= i < |s|
        ensures Title(s)[i] == if i == 0 then Upper(s[i]) else Lower(s[i])
      {
        TitleAt(s, i);
      }
    }
  }

  /** A string passes the name guard exactly when its title case does. */
  lemma TitleKeepsNames(s: string)
    ensures ValidName(Title(s)) <==> ValidName(s)
  {
    TitleLetters(s);
  }

  /** An all-letter string written with its first letter upper-cased and the rest lower-cased is its title case. */
  lemma TitleLiteral(s: string, t: string)
    requires IsAlpha(s) && |t| == |s| && t[0] == Upper(s[0])
    requires forall i :: 1 <= i < |s| ==> t[i] == Lower(s[i])
    ensures ValidName(s) && Title(s) == t
  {
    TitleOfWord(s);
  }
}
