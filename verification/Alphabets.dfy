/** The fixed character alphabets of the generator: the curated
    ambiguity-free variants, the full canonical alphabets, and the printable
    ASCII symbols computed once from the code range 32..126. */
module Alphabets {

  /** The four character classes, in the order the generator processes them. */
  datatype CharClass = Lower | Upper | Numbers | Symbols {

    /** Position of the class in the processing order lower, upper, numbers, symbols. */
    function Index(): nat {
      match this
      case Lower => 0
      case Upper => 1
      case Numbers => 2
      case Symbols => 3
    }

    /** The name the generator reports in its per-class error message. */
    function Name(): string {
      match this
      case Lower => "lower"
      case Upper => "upper"
      case Numbers => "numbers"
      case Symbols => "symbols"
    }
  }

  /** Curated lowercase letters: a-z without i, l and o. */
  const CuratedLower: string := "abcdefghjkmnpqrstuvwxyz"
  /** Curated uppercase letters: A-Z without I, L and O. */
  const CuratedUpper: string := "ABCDEFGHJKMNPQRSTUVWXYZ"
  /** Curated digits: 2-9, without 0 and 1. */
  const CuratedNumbers: string := "23456789"

  const FullLower: string := "abcdefghijklmnopqrstuvwxyz"
  const FullUpper: string := "ABCDEFGHIJKLMNOPQRSTUVWXYZ"
  const FullNumbers: string := "0123456789"

  /** The characters the curated alphabets are meant to avoid. */
  const Ambiguous: string := "iI1lLoO0"

  /** `char.IsLetterOrDigit` restricted to ASCII codes, where it holds
      exactly of the Latin letters and the decimal digits. */
  predicate IsLetterOrDigitCode(k: int) {
    ('a' as int <= k <= 'z' as int) || ('A' as int <= k <= 'Z' as int) || ('0' as int <= k <= '9' as int)
  }

  predicate IsAsciiLetterOrDigit(c: char) {
    IsLetterOrDigitCode(c as int)
  }

  /** The codes `from`..126, in ascending order, that are not letters or
      digits: the filtered range the symbol alphabet is built from. */
  function SymbolsFrom(from: nat): (r: string)
    requires 32 <= from <= 127
    ensures forall c :: c in r <==> from <= c as int <= 126 && !IsAsciiLetterOrDigit(c)
    decreases 127 - from
  {
    if from == 127 then []
    else
      (if IsLetterOrDigitCode(from) then [] else [from as char]) + SymbolsFrom(from + 1)
  }

  /** All printable ASCII characters (codes 32..126) that are not letters
      or digits, space included, in code order. `AsciiSymbolsValue` shows it
      is the filtered code range. */
  const AsciiSymbols: string := " !\"#$%&'()*+,-./:;<=>?@[\\]^_`{|}~"

  /** The base alphabet a class draws from before exclusions. The symbol
      alphabet does not depend on `excludeAmbiguous`. */
  function BaseAlphabet(cls: CharClass, excludeAmbiguous: bool): string {
    match cls
    case Lower => if excludeAmbiguous then CuratedLower else FullLower
    case Upper => if excludeAmbiguous then CuratedUpper else FullUpper
    case Numbers => if excludeAmbiguous then CuratedNumbers else FullNumbers
    case Symbols => AsciiSymbols
  }

  /** Every character occurs at most once. */
  predicate NoDuplicates(s: string) {
    forall i, j :: 0 <= i < j < |s| ==> s[i] != s[j]
  }

  predicate StrictlyAscending(s: string) {
    forall i :: 0 <= i < |s| - 1 ==> s[i] < s[i + 1]
  }

  lemma {:induction false} AscendingHasNoDuplicates(s: string)
    requires StrictlyAscending(s)
    ensures forall i, j :: 0 <= i < j < |s| ==> s[i] < s[j]
    ensures NoDuplicates(s)
  {
    if |s| > 1 {
      var t := s[1..];
      assert StrictlyAscending(t) by {
        forall i | 0 <= i < |t| - 1 ensures t[i] < t[i + 1] {
          assert t[i] == s[i + 1] && t[i + 1] == s[i + 2];
        }
      }
      AscendingHasNoDuplicates(t);
      forall i, j | 0 <= i < j < |s| ensures s[i] < s[j] {
        if i == 0 {
          assert s[0] < s[1];
          if j > 1 { assert t[0] < t[j - 1]; }
        } else {
          assert t[i - 1] < t[j - 1];
        }
      }
    }
  }

  /** The characters with codes lo..hi-1, in ascending order. */
  function CodeRange(lo: nat, hi: nat): (r: string)
    requires lo <= hi < 128
    ensures |r| == hi - lo
    decreases hi - lo
  {
    if lo == hi then [] else [lo as char] + CodeRange(lo + 1, hi)
  }

  /** A run of letters and digits contributes nothing to the symbol alphabet. */
  lemma {:induction false} SkipLettersOrDigits(lo: nat, hi: nat)
    requires 32 <= lo <= hi <= 127
    requires forall k :: lo <= k < hi ==> IsLetterOrDigitCode(k)
    ensures SymbolsFrom(lo) == SymbolsFrom(hi)
    decreases hi - lo
  {
    if lo < hi {
      assert IsLetterOrDigitCode(lo);
      assert SymbolsFrom(lo) == [] + SymbolsFrom(lo + 1);
      SkipLettersOrDigits(lo + 1, hi);
    }
  }

  /** A run of non-alphanumeric codes is copied into the symbol alphabet verbatim. */
  lemma {:induction false} KeepSymbols(lo: nat, hi: nat)
    requires 32 <= lo <= hi <= 127
    requires forall k :: lo <= k < hi ==> !IsLetterOrDigitCode(k)
    ensures SymbolsFrom(lo) == CodeRange(lo, hi) + SymbolsFrom(hi)
    decreases hi - lo
  {
    if lo < hi {
      assert !IsLetterOrDigitCode(lo);
      KeepSymbols(lo + 1, hi);
      assert SymbolsFrom(lo) == [lo as char] + (CodeRange(lo + 1, hi) + SymbolsFrom(hi));
    } else {
      assert CodeRange(lo, hi) == [];
    }
  }

  lemma SymbolRuns()
    ensures SymbolsFrom(123) == CodeRange(123, 127)
    ensures SymbolsFrom(91) == CodeRange(91, 97) + SymbolsFrom(123)
    ensures SymbolsFrom(58) == CodeRange(58, 65) + SymbolsFrom(91)
    ensures SymbolsFrom(32) == CodeRange(32, 48) + SymbolsFrom(58)
    ensures SymbolsFrom(32) == CodeRange(32, 48) + CodeRange(58, 65) + CodeRange(91, 97) + CodeRange(123, 127)
  {
    KeepSymbols(123, 127);
    assert SymbolsFrom(127) == [];
    SkipLettersOrDigits(97, 123);
    KeepSymbols(91, 97);
    SkipLettersOrDigits(65, 91);
    KeepSymbols(58, 65);
    SkipLettersOrDigits(48, 58);
    KeepSymbols(32, 48);
  }

  lemma {:induction false} CodeRangeAt(lo: nat, hi: nat, i: nat)
    requires lo <= hi < 128 && i < hi - lo
    ensures CodeRange(lo, hi)[i] == (lo + i) as char
    decreases i
  {
    if i > 0 {
      CodeRangeAt(lo + 1, hi, i - 1);
    }
  }

  /** A string whose characters have the consecutive codes lo..hi-1 is that
      code range. */
  lemma CodeRangeSpelled(lo: nat, hi: nat, s: string)
    requires lo <= hi < 128 && |s| == hi - lo
    requires forall i :: 0 <= i < |s| ==> s[i] as int == lo + i
    ensures CodeRange(lo, hi) == s
  {
    forall i | 0 <= i < |s| ensures CodeRange(lo, hi)[i] == s[i] {
      CodeRangeAt(lo, hi, i);
    }
  }

  // The four run lemmas below take their literal as a parameter so that the
  // verifier unfolds each literal only inside its own small proof.
  lemma BracesSpelledOut(s: string)
    requires s == "{|}~"
    ensures CodeRange(123, 127) == s
  {
    CodeRangeSpelled(123, 127, s);
  }

  lemma BracketsSpelledOut(s: string)
    requires s == "[\\]^_`"
    ensures CodeRange(91, 97) == s
  {
    CodeRangeSpelled(91, 97, s);
  }

  lemma ColonToAtSpelledOut(s: string)
    requires s == ":;<=>?@"
    ensures CodeRange(58, 65) == s
  {
    CodeRangeSpelled(58, 65, s);
  }

  lemma SpaceToSlashSpelledOut(s: string)
    requires s == " !\"#$%&'()*+,-./"
    ensures CodeRange(32, 48) == s
  {
    CodeRangeSpelled(32, 48, s);
  }

  lemma ConcatenateRuns(s: string, a: string, b: string, c: string, d: string)
    requires s == a + b + c + d
    requires a == " !\"#$%&'()*+,-./" && b == ":;<=>?@" && c == "[\\]^_`" && d == "{|}~"
    ensures s == " !\"#$%&'()*+,-./:;<=>?@[\\]^_`{|}~"
  {
  }

  /** The symbol alphabet is the code range 32..126 with letters and digits
      filtered out; it has 33 characters. */
  lemma AsciiSymbolsValue()
    ensures AsciiSymbols == SymbolsFrom(32)
    ensures |AsciiSymbols| == 33
  {
    SymbolRuns();
    BracesSpelledOut("{|}~");
    BracketsSpelledOut("[\\]^_`");
    ColonToAtSpelledOut(":;<=>?@");
    SpaceToSlashSpelledOut(" !\"#$%&'()*+,-./");
    ConcatenateRuns(SymbolsFrom(32), CodeRange(32, 48), CodeRange(58, 65), CodeRange(91, 97), CodeRange(123, 127));
  }

  /** The character range a class stands for. */
  predicate InClassRange(cls: CharClass, c: char) {
    match cls
    case Lower => 'a' <= c <= 'z'
    case Upper => 'A' <= c <= 'Z'
    case Numbers => '0' <= c <= '9'
    case Symbols => 32 <= c as int <= 126 && !IsAsciiLetterOrDigit(c)
  }

  /** Every base alphabet is duplicate-free, lies in its class's range, and,
      under `excludeAmbiguous`, avoids all ambiguous characters. */
  lemma BaseAlphabetFacts(cls: CharClass, excludeAmbiguous: bool)
    ensures NoDuplicates(BaseAlphabet(cls, excludeAmbiguous))
    ensures forall c :: c in BaseAlphabet(cls, excludeAmbiguous) ==> InClassRange(cls, c)
    ensures excludeAmbiguous ==> forall c :: c in BaseAlphabet(cls, excludeAmbiguous) ==> c !in Ambiguous
  {
    var s := BaseAlphabet(cls, excludeAmbiguous);
    match cls
    case Symbols =>
      SymbolsAscending(s);
      AscendingHasNoDuplicates(s);
      SymbolsInRange(s);
      AmbiguousAreLettersOrDigits(Ambiguous);
    case _ =>
      LettersAndDigitsFacts(cls, excludeAmbiguous, s);
      AscendingHasNoDuplicates(s);
  }

  lemma SymbolsInRange(s: string)
    requires s == AsciiSymbols
    ensures forall c :: c in s ==> InClassRange(Symbols, c)
  {
    AsciiSymbolsValue();
  }

  lemma AmbiguousAreLettersOrDigits(s: string)
    requires s == Ambiguous
    ensures forall c :: c in s ==> IsAsciiLetterOrDigit(c)
  {
  }

  lemma SymbolsAscending(s: string)
    requires s == AsciiSymbols
    ensures StrictlyAscending(s)
  {
    AsciiSymbolsValue();
    AsciiSymbolsSpelledOutAscending(s);
  }

  lemma AsciiSymbolsSpelledOutAscending(s: string)
    requires s == " !\"#$%&'()*+,-./:;<=>?@[\\]^_`{|}~"
    ensures StrictlyAscending(s)
  {
  }

  lemma CuratedLowerFacts(s: string)
    requires s == CuratedLower
    ensures StrictlyAscending(s)
    ensures forall c :: c in s ==> 'a' <= c <= 'z'
    ensures forall c :: c in s ==> c !in Ambiguous
  {
  }

  lemma CuratedUpperFacts(s: string)
    requires s == CuratedUpper
    ensures StrictlyAscending(s)
    ensures forall c :: c in s ==> 'A' <= c <= 'Z'
    ensures forall c :: c in s ==> c !in Ambiguous
  {
  }

  lemma CuratedNumbersFacts(s: string)
    requires s == CuratedNumbers
    ensures StrictlyAscending(s)
    ensures forall c :: c in s ==> '0' <= c <= '9'
    ensures forall c :: c in s ==> c !in Ambiguous
  {
  }

  lemma FullLowerFacts(s: string)
    requires s == FullLower
    ensures StrictlyAscending(s)
    ensures forall c :: c in s ==> 'a' <= c <= 'z'
  {
  }

  lemma FullUpperFacts(s: string)
    requires s == FullUpper
    ensures StrictlyAscending(s)
    ensures forall c :: c in s ==> 'A' <= c <= 'Z'
  {
  }

  lemma FullNumbersFacts(s: string)
    requires s == FullNumbers
    ensures StrictlyAscending(s)
    ensures forall c :: c in s ==> '0' <= c <= '9'
  {
  }

  lemma LettersAndDigitsFacts(cls: CharClass, excludeAmbiguous: bool, s: string)
    requires cls != Symbols && s == BaseAlphabet(cls, excludeAmbiguous)
    ensures StrictlyAscending(s)
    ensures forall c :: c in s ==> InClassRange(cls, c)
    ensures excludeAmbiguous ==> forall c :: c in s ==> c !in Ambiguous
  {
    match cls
    case Lower => if excludeAmbiguous { CuratedLowerFacts(s); } else { FullLowerFacts(s); }
    case Upper => if excludeAmbiguous { CuratedUpperFacts(s); } else { FullUpperFacts(s); }
    case Numbers => if excludeAmbiguous { CuratedNumbersFacts(s); } else { FullNumbersFacts(s); }
  }

  /** Each curated alphabet is the full one with the ambiguous characters
      removed: it keeps only characters of the full alphabet, and drops
      exactly those in the ambiguous list. */
  lemma CuratedWithinFull(cls: CharClass)
    ensures forall c :: c in BaseAlphabet(cls, true) <==> c in BaseAlphabet(cls, false) && c !in Ambiguous
  {
    match cls
    case Lower =>
      CuratedLowerIsFullMinusAmbiguous(CuratedLower, FullLower);
      CuratedLowerFacts(CuratedLower);
    case Upper =>
      CuratedUpperIsFullMinusAmbiguous(CuratedUpper, FullUpper);
      CuratedUpperFacts(CuratedUpper);
    case Numbers =>
      CuratedNumbersIsFullMinusAmbiguous(CuratedNumbers, FullNumbers);
      CuratedNumbersFacts(CuratedNumbers);
    case Symbols => BaseAlphabetFacts(Symbols, true);
  }

  lemma CuratedLowerIsFullMinusAmbiguous(curated: string, full: string)
    requires curated == CuratedLower && full == FullLower
    ensures forall c :: c in curated ==> c in full
    ensures forall c :: c in full && c !in Ambiguous ==> c in curated
  {
  }

  lemma CuratedUpperIsFullMinusAmbiguous(curated: string, full: string)
    requires curated == CuratedUpper && full == FullUpper
    ensures forall c :: c in curated ==> c in full
    ensures forall c :: c in full && c !in Ambiguous ==> c in curated
  {
  }

  lemma CuratedNumbersIsFullMinusAmbiguous(curated: string, full: string)
    requires curated == CuratedNumbers && full == FullNumbers
    ensures forall c :: c in curated ==> c in full
    ensures forall c :: c in full && c !in Ambiguous ==> c in curated
  {
  }

  /** Every ambiguous character is in one of the full alphabets, so turning
      `excludeAmbiguous` off makes all of them available. */
  lemma AmbiguousInFullAlphabets(c: char)
    requires c in Ambiguous
    ensures c in BaseAlphabet(Lower, false) || c in BaseAlphabet(Upper, false) || c in BaseAlphabet(Numbers, false)
  {
    AmbiguousSpelledOut(Ambiguous, FullLower, FullUpper, FullNumbers);
  }

  lemma AmbiguousSpelledOut(a: string, lower: string, upper: string, numbers: string)
    requires a == Ambiguous && lower == FullLower && upper == FullUpper && numbers == FullNumbers
    ensures forall c :: c in a ==> c in lower || c in upper || c in numbers
  {
    assert a == ['i', 'I', '1', 'l', 'L', 'o', 'O', '0'];
    assert lower[8] == 'i' && lower[11] == 'l' && lower[14] == 'o';
    assert upper[8] == 'I' && upper[11] == 'L' && upper[14] == 'O';
    assert numbers[0] == '0' && numbers[1] == '1';
  }

  lemma BaseAlphabetNonEmpty(cls: CharClass, excludeAmbiguous: bool)
    ensures |BaseAlphabet(cls, excludeAmbiguous)| > 0
  {
    BaseAlphabetSizes();
  }

  /** Base alphabet sizes: 23/23/8 curated, 26/26/10 full, 33 symbols. */
  lemma BaseAlphabetSizes()
    ensures |BaseAlphabet(Lower, true)| == 23 && |BaseAlphabet(Lower, false)| == 26
    ensures |BaseAlphabet(Upper, true)| == 23 && |BaseAlphabet(Upper, false)| == 26
    ensures |BaseAlphabet(Numbers, true)| == 8 && |BaseAlphabet(Numbers, false)| == 10
    ensures |BaseAlphabet(Symbols, true)| == 33 && |BaseAlphabet(Symbols, false)| == 33
  {
    AsciiSymbolsValue();
  }

  /** The class ranges do not overlap. */
  lemma ClassRangesDisjoint(a: CharClass, b: CharClass, c: char)
    requires InClassRange(a, c) && InClassRange(b, c)
    ensures a == b
  {
  }
}
