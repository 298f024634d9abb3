/** The game's Morse dictionary: the letter and figure tables, the word
    vocabulary of levels 3 and 4, and the code of a word as the codes of its
    letters joined by single spaces. The letter and figure codes are those of
    International Morse code (Recommendation ITU-R M.1677-1, Annex 1,
    section 1.1). */
module Morse {
  import opened Wrappers

  /** `alpha_morse`: the codes of A to Z, in alphabet order. */
  const AlphaMorse: seq<string> := [
    ".-", "-...", "-.-.", "-..", ".", "..-.", "--.", "....", "..", ".---",
    "-.-", ".-..", "--", "-.", "---", ".--.", "--.-", ".-.", "...", "-", "..-",
    "...-", ".--", "-..-", "-.--", "--.."]

  /** `num_morse`: the codes of the figures 0 to 9. */
  const NumMorse: seq<string> := [
    "-----", ".----", "..---", "...--", "....-", ".....", "-....", "--...", "---..", "----."]

  /** `words`: the vocabulary of levels 3 and 4. */
  const Words: seq<string> := [
    "cave", "copy", "dock", "lick", "run", "owl", "free", "sink", "scold", "hold",
    "smoke", "part", "vex", "able", "bang", "nose", "tan", "van", "sob", "blue", "nap"]

  /** `words_morse` as the C initialiser denotes it. Two pairs of adjacent
      string literals have no comma between them, and C joins adjacent
      literals into one, so the array has 19 elements where the vocabulary
      has 21 words; the element for "vex" ends in a space. The model does
      not use this table: word codes come from `WordCode`. */
  const WordsMorseAsWritten: seq<string> := [
    "-.-. .- ...- .",
    "-.-. --- .--. -.---.. --- -.-. -.-",
    ".-.. .. -.-. -.-",
    ".-. ..- -.",
    "--- .-- .-..",
    "..-. .-. . .",
    "... .. -. -.-",
    "... -.-. --- .-.. -..",
    ".... --- .-.. -..",
    "... -- --- -.- .",
    ".--. .- .-. -",
    "...- . -..- ",
    ".- -... .-.. .",
    "-... .- -. --.",
    "-. --- ... .- .- -.",
    "...- .- -.",
    "... --- -...",
    "-... .-.. ..- .",
    "-. .- .--."]

  /** A code of one character: dots and dashes only, at least one of them. */
  predicate IsMorseCode(s: string) {
    |s| > 0 && forall i :: 0 <= i < |s| ==> s[i] == '.' || s[i] == '-'
  }

  predicate IsLetter(c: char) {
    'A' <= c <= 'Z' || 'a' <= c <= 'z'
  }

  predicate IsDigit(c: char) {
    '0' <= c <= '9'
  }

  predicate IsLowerWord(w: string) {
    forall i :: 0 <= i < |w| ==> 'a' <= w[i] <= 'z'
  }

  /** Position of a letter in the alphabet; Morse code does not distinguish case. */
  function AlphaIndex(c: char): (i: nat)
    requires IsLetter(c)
    ensures i < |AlphaMorse|
    ensures c == (('A' as int) + i) as char || c == (('a' as int) + i) as char
  {
    if 'a' <= c then c as int - 'a' as int else c as int - 'A' as int
  }

  function DigitIndex(c: char): (i: nat)
    requires IsDigit(c)
    ensures i < |NumMorse| && c == (('0' as int) + i) as char
  {
    c as int - '0' as int
  }

  /** The tables hold 26 and 10 codes made of dots and dashes. */
  lemma TablesWellFormed()
    ensures |AlphaMorse| == 26 && |NumMorse| == 10
    ensures forall i :: 0 <= i < |AlphaMorse| ==> IsMorseCode(AlphaMorse[i])
    ensures forall i :: 0 <= i < |NumMorse| ==> IsMorseCode(NumMorse[i])
  {
  }

  /** No two letters share a code. */
  lemma LetterCodesDistinct()
    ensures forall i, j :: 0 <= i < j < |AlphaMorse| ==> AlphaMorse[i] != AlphaMorse[j]
  {
  }

  /** No two figures share a code, and no figure shares one with a letter:
      figure codes have five symbols, letter codes at most four. */
  lemma DigitCodesDistinct()
    ensures forall i, j :: 0 <= i < j < |NumMorse| ==> NumMorse[i] != NumMorse[j]
    ensures forall i, j :: 0 <= i < |AlphaMorse| && 0 <= j < |NumMorse| ==> AlphaMorse[i] != NumMorse[j]
  {
    assert forall i :: 0 <= i < |AlphaMorse| ==> |AlphaMorse[i]| <= 4;
    assert forall j :: 0 <= j < |NumMorse| ==> |NumMorse[j]| == 5;
  }

  function LetterCode(c: char): string
    requires IsLetter(c)
  {
    AlphaMorse[AlphaIndex(c)]
  }

  function DigitCode(c: char): string
    requires IsDigit(c)
  {
    NumMorse[DigitIndex(c)]
  }

  /** The code of a letter (either case) or a figure; nothing for any other character. */
  function CharCode(c: char): (r: Option<string>)
    ensures r.Some? <==> IsLetter(c) || IsDigit(c)
    ensures r.Some? ==> IsMorseCode(r.value)
  {
    TablesWellFormed();
    if IsLetter(c) then Some(LetterCode(c))
    else if IsDigit(c) then Some(DigitCode(c))
    else None
  }

  /** Two characters share a code only when they are the same letter up to case,
      or the same figure: the code determines the character. */
  lemma CharCodeInjective(c1: char, c2: char)
    requires CharCode(c1).Some? && CharCode(c1) == CharCode(c2)
    ensures IsLetter(c1) <==> IsLetter(c2)
    ensures IsLetter(c1) ==> AlphaIndex(c1) == AlphaIndex(c2)
    ensures IsDigit(c1) ==> c1 == c2
  {
    LetterCodesDistinct();
    DigitCodesDistinct();
    if IsLetter(c1) && IsLetter(c2) {
      assert AlphaMorse[AlphaIndex(c1)] == AlphaMorse[AlphaIndex(c2)];
    } else if IsDigit(c1) && IsDigit(c2) {
      assert NumMorse[DigitIndex(c1)] == NumMorse[DigitIndex(c2)];
    }
  }

  /** The code of a word: the codes of its letters, in order, separated by
      single spaces, with no space before the first or after the last. */
  function WordCode(w: string): string
    requires forall i :: 0 <= i < |w| ==> IsLetter(w[i])
    decreases |w|
  {
    if |w| == 0 then ""
    else if |w| == 1 then LetterCode(w[0])
    else LetterCode(w[0]) + " " + WordCode(w[1..])
  }

  /** A word's code is empty only for the empty word, uses only dots, dashes
      and spaces, and neither starts nor ends with a space. */
  lemma {:induction false} WordCodeShape(w: string)
    requires forall i :: 0 <= i < |w| ==> IsLetter(w[i])
    ensures |WordCode(w)| == 0 <==> |w| == 0
    ensures forall i :: 0 <= i < |WordCode(w)| ==> WordCode(w)[i] in ".- "
    ensures |w| > 0 ==> WordCode(w)[0] != ' ' && WordCode(w)[|WordCode(w)| - 1] != ' '
    decreases |w|
  {
    TablesWellFormed();
    if |w| > 1 {
      WordCodeShape(w[1..]);
      var head, tail := LetterCode(w[0]), WordCode(w[1..]);
      assert WordCode(w) == head + " " + tail;
      forall i | 0 <= i < |WordCode(w)| ensures WordCode(w)[i] in ".- " {
        if i < |head| {
          assert WordCode(w)[i] == head[i];
        } else if i > |head| {
          assert WordCode(w)[i] == tail[i - |head| - 1];
        }
      }
    } else if |w| == 1 {
      assert IsMorseCode(LetterCode(w[0]));
    }
  }

  /** Splitting at the first space: a code followed by a space cannot be
      confused with a different code followed by a space. */
  lemma SplitAtSpace(a: string, b: string, c: string, d: string)
    requires IsMorseCode(a) && IsMorseCode(c)
    requires a + " " + b == c + " " + d
    ensures a == c && b == d
  {
    var s := a + " " + b;
    assert s[|a|] == ' ' && s[|c|] == ' ';
    assert forall i :: 0 <= i < |a| ==> s[i] == a[i];
    assert forall i :: 0 <= i < |c| ==> s[i] == c[i];
    assert |a| == |c|;
    assert a == s[..|a|] == c;
    assert b == s[|a| + 1..] == d;
  }

  /** Different lower-case words have different codes, so a word's code
      identifies the word. */
  lemma {:induction false} WordCodeInjective(u: string, v: string)
    requires IsLowerWord(u) && IsLowerWord(v)
    requires WordCode(u) == WordCode(v)
    ensures u == v
    decreases |u|
  {
    TablesWellFormed();
    WordCodeShape(u);
    WordCodeShape(v);
    if |u| == 0 || |v| == 0 {
    } else if |u| == 1 && |v| == 1 {
      CharCodeInjective(u[0], v[0]);
    } else {
      if |u| > 1 {
        assert WordCode(u)[|LetterCode(u[0])|] == ' ';
      }
      if |v| > 1 {
        assert WordCode(v)[|LetterCode(v[0])|] == ' ';
      }
      assert |u| > 1 && |v| > 1;
      SplitAtSpace(LetterCode(u[0]), WordCode(u[1..]), LetterCode(v[0]), WordCode(v[1..]));
      CharCodeInjective(u[0], v[0]);
      WordCodeInjective(u[1..], v[1..]);
      assert u == [u[0]] + u[1..] && v == [v[0]] + v[1..];
    }
  }

  /** The vocabulary: 21 distinct non-empty lower-case words. */
  lemma VocabularyWellFormed()
    ensures |Words| == 21
    ensures forall i :: 0 <= i < |Words| ==> |Words[i]| > 0 && IsLowerWord(Words[i])
    ensures forall i, j :: 0 <= i < j < |Words| ==> Words[i] != Words[j]
  {
  }

  /** Every vocabulary word has a non-empty code and no two words share one. */
  lemma WordCodesDistinct()
    ensures forall i, j :: 0 <= i < j < |Words| ==> WordCode(Words[i]) != WordCode(Words[j])
  {
    VocabularyWellFormed();
    forall i, j | 0 <= i < j < |Words|
      ensures WordCode(Words[i]) != WordCode(Words[j])
    {
      if WordCode(Words[i]) == WordCode(Words[j]) {
        WordCodeInjective(Words[i], Words[j]);
      }
    }
  }

  /** The codes of the words the as-written table gets wrong, spelled out. */
  lemma CodeOfCopy()
    ensures WordCode("copy") == "-.-. --- .--. -.--"
  {
    assert LetterCode('c') == "-.-.";
    assert LetterCode('o') == "---";
    assert LetterCode('p') == ".--.";
    assert LetterCode('y') == "-.--";
    assert "copy"[1..] == "opy" && "opy"[1..] == "py" && "py"[1..] == "y";
  }

  lemma CodeOfDock()
    ensures WordCode("dock") == "-.. --- -.-. -.-"
  {
    assert LetterCode('d') == "-..";
    assert LetterCode('o') == "---";
    assert LetterCode('c') == "-.-.";
    assert LetterCode('k') == "-.-";
    assert "dock"[1..] == "ock" && "ock"[1..] == "ck" && "ck"[1..] == "k";
  }

  lemma CodeOfLick()
    ensures WordCode("lick") == ".-.. .. -.-. -.-"
  {
    assert LetterCode('l') == ".-..";
    assert LetterCode('i') == "..";
    assert LetterCode('c') == "-.-.";
    assert LetterCode('k') == "-.-";
    assert "lick"[1..] == "ick" && "ick"[1..] == "ck" && "ck"[1..] == "k";
  }

  lemma CodeOfVex()
    ensures WordCode("vex") == "...- . -..-"
  {
    assert LetterCode('v') == "...-";
    assert LetterCode('e') == ".";
    assert LetterCode('x') == "-..-";
    assert "vex"[1..] == "ex" && "ex"[1..] == "x";
  }

  lemma CodeOfNose()
    ensures WordCode("nose") == "-. --- ... ."
  {
    assert LetterCode('n') == "-.";
    assert LetterCode('o') == "---";
    assert LetterCode('s') == "...";
    assert LetterCode('e') == ".";
    assert "nose"[1..] == "ose" && "ose"[1..] == "se" && "se"[1..] == "e";
  }

  lemma CodeOfTan()
    ensures WordCode("tan") == "- .- -."
  {
    assert LetterCode('t') == "-";
    assert LetterCode('a') == ".-";
    assert LetterCode('n') == "-.";
    assert "tan"[1..] == "an" && "an"[1..] == "n";
  }

  /** The C array is two elements short of the vocabulary, so index 19,
      which a level can draw, is past its end, and from "copy" on the element
      at a word's index belongs to a later word. */
  lemma WordsMorseAsWrittenShifted()
    ensures |WordsMorseAsWritten| == 19 && |WordsMorseAsWritten| < |Words|
    ensures WordsMorseAsWritten[2] == WordCode("lick")
    ensures WordsMorseAsWritten[2] != WordCode("dock")
  {
    CodeOfLick();
    CodeOfDock();
    assert WordsMorseAsWritten[2] == ".-.. .. -.-. -.-";
  }

  /** The element of the C array for "vex" ends in a space, so even at the
      right index it would not equal the code a player keys in. */
  lemma WordsMorseAsWrittenTrailingSpace()
    ensures WordsMorseAsWritten[11] == WordCode("vex") + " "
  {
    CodeOfVex();
    assert WordsMorseAsWritten[11] == "...- . -..- ";
  }

  /** An element of the C array fuses the codes of "copy" and "dock" with
      nothing between them. */
  lemma WordsMorseAsWrittenFusedCopyDock()
    ensures WordsMorseAsWritten[1] == WordCode("copy") + WordCode("dock")
  {
    CodeOfCopy();
    CodeOfDock();
    var fused := WordsMorseAsWritten[1];
    assert fused == "-.-. --- .--. -.---.. --- -.-. -.-";
    assert fused == "-.-. --- .--. -.--" + "-.. --- -.-. -.-";
  }

  /** Another element fuses the codes of "nose" and "tan". */
  lemma WordsMorseAsWrittenFusedNoseTan()
    ensures WordsMorseAsWritten[14] == WordCode("nose") + WordCode("tan")
  {
    CodeOfNose();
    CodeOfTan();
    var fused := WordsMorseAsWritten[14];
    assert fused == "-. --- ... .- .- -.";
    assert fused == "-. --- ... ." + "- .- -.";
  }
}
