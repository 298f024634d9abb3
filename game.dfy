/** The pure parts of the game in Assignment2Doc.c: the answer check
    `check_pattern`, the level chosen by a Morse figure in `load_level`, the
    symbols `generate_random_character` and the word levels draw, the LED
    colour `set_rgb` shows, and the success rate `print_level_stats`
    reports. */
module Game {
  import opened Wrappers
  import Morse
  import opened Hashing

  /** The four levels: 1 and 2 ask for single characters, 3 and 4 for words;
      levels 1 and 3 also show the expected code. */
  type Level = l: int | 1 <= l <= 4 witness 1

  predicate IsCharLevel(level: int) {
    level == 1 || level == 2
  }

  predicate IsWordLevel(level: int) {
    level == 3 || level == 4
  }

  /** `check_pattern`: 1 when the keyed-in `input` is the code of the symbol
      `given`, 0 otherwise. Levels 1 and 2 read the letter and figure
      tables; levels 3 and 4 look the word up in `table`, the contents of
      the word table. Any other level matches nothing.

      The C function is written as one `switch` whose cases fall through
      into each other (no `break`, and the figure loop sits outside the
      `switch`), loops over `sizeof` of the tables (bytes, not elements),
      compares the table codes with the symbol instead of looking the
      symbol up, and compares the answer with the code of the single slot
      its word hash names, never probing on (`CheckWordAsWritten`). The model is the
      dispatch those pieces evidently aim at, with the word looked up by
      probing as `search` does. */
  function CheckPattern(table: Slots, level: int, given: string, input: string): (r: int)
    requires |table| == TableSize
    ensures r == 0 || r == 1
    ensures IsCharLevel(level) && r == 1 ==> |given| == 1 && Morse.IsMorseCode(input)
    ensures IsWordLevel(level) && r == 1 ==> Holds(table, given)
    ensures !IsCharLevel(level) && !IsWordLevel(level) ==> r == 0
  {
    if IsCharLevel(level) then
      if |given| == 1 && Morse.CharCode(given[0]) == Some(input) then 1 else 0
    else if IsWordLevel(level) then
      match Lookup(table, given)
      case Some(e) => if e.morse == input then 1 else 0
      case None => 0
    else 0
  }

  /** On a character level an answer is accepted exactly when it is the
      code of the character asked. */
  lemma CheckCharacter(table: Slots, level: int, c: char, input: string)
    requires |table| == TableSize && IsCharLevel(level)
    ensures CheckPattern(table, level, [c], input) == 1 <==> Morse.CharCode(c) == Some(input)
    ensures Morse.IsLetter(c) ==> (CheckPattern(table, level, [c], input) == 1 <==> input == Morse.LetterCode(c))
  {
  }

  /** On a character level an answer is accepted for at most one symbol:
      the same letter in either case, or the same figure. */
  lemma CheckCharacterUnique(table: Slots, level: int, c1: char, c2: char, input: string)
    requires |table| == TableSize && IsCharLevel(level)
    requires CheckPattern(table, level, [c1], input) == 1 && CheckPattern(table, level, [c2], input) == 1
    ensures Morse.IsLetter(c1) <==> Morse.IsLetter(c2)
    ensures Morse.IsLetter(c1) ==> Morse.AlphaIndex(c1) == Morse.AlphaIndex(c2)
    ensures Morse.IsDigit(c1) ==> c1 == c2
  {
    assert [c1][0] == c1 && [c2][0] == c2;
    Morse.CharCodeInjective(c1, c2);
  }

  /** With the word table loaded by `InitialiseHashTable`, a word level
      accepts exactly the code of one of the twenty stored words. */
  lemma CheckWord(table: Slots, level: int, w: string, input: string)
    requires |table| == TableSize && IsWordLevel(level)
    requires LoadedWith(table, TableSize)
    ensures (Morse.VocabularyWellFormed(); CheckPattern(table, level, w, input) == 1 <==>
      w in Morse.Words[..TableSize] && input == Morse.WordCode(w))
  {
    Morse.VocabularyWellFormed();
    if w in Morse.Words[..TableSize] {
      var k :| 0 <= k < TableSize && Morse.Words[k] == w;
      assert Lookup(table, Morse.Words[k]) == Some(Entry(w, Morse.WordCode(w)));
    }
  }

  /** On a word level an answer is accepted for at most one word. */
  lemma CheckWordUnique(table: Slots, level: int, w1: string, w2: string, input: string)
    requires |table| == TableSize && IsWordLevel(level)
    requires LoadedWith(table, TableSize)
    requires CheckPattern(table, level, w1, input) == 1 && CheckPattern(table, level, w2, input) == 1
    ensures w1 == w2
  {
    CheckWord(table, level, w1, input);
    CheckWord(table, level, w2, input);
    Morse.VocabularyWellFormed();
    Morse.WordCodesDistinct();
  }

  /** The word case of `check_pattern` as written, with three corrections
      to its hash: `&given_char` read as `given_char` (the C code hashes the
      bytes of the pointer variable, not the word), the character read of
      `hashstring`, and the reduction modulo 20. Once the word is found in
      the vocabulary it compares the answer with the code of that single
      slot, the word's home slot, and never probes on. An empty home slot is
      a null dereference in C; the model rejects the answer there. */
  function CheckWordAsWritten(table: Slots, given: string, input: string): (r: int)
    requires |table| == TableSize
    ensures r == 0 || r == 1
    ensures r == 1 ==> given in Morse.Words && table[HashIndex(given)].Some?
    ensures r == 1 ==> table[HashIndex(given)].value.morse == input
  {
    if given in Morse.Words then
      match table[HashIndex(given)]
      case Some(e) => if e.morse == input then 1 else 0
      case None => 0
    else 0
  }

  /** "vex" and "tan" share a home slot, so whatever the table holds, the
      home-slot check rejects the correct code of at least one of them. */
  lemma HomeSlotCheckRejects(table: Slots)
    requires |table| == TableSize
    ensures Morse.WordCode("vex") == "...- . -..-" && Morse.WordCode("tan") == "- .- -."
    ensures CheckWordAsWritten(table, "vex", "...- . -..-") == 0 ||
      CheckWordAsWritten(table, "tan", "- .- -.") == 0
  {
    VexTanShareHome();
    Morse.CodeOfVex();
    Morse.CodeOfTan();
  }

  /** With the table loaded, `CheckPattern`, which probes on from the home
      slot as `search` does, accepts the correct codes of both. */
  lemma ProbingCheckAccepts(table: Slots, level: int)
    requires |table| == TableSize && IsWordLevel(level)
    requires LoadedWith(table, TableSize)
    ensures CheckPattern(table, level, "vex", "...- . -..-") == 1
    ensures CheckPattern(table, level, "tan", "- .- -.") == 1
  {
    Morse.CodeOfVex();
    Morse.CodeOfTan();
    Morse.VocabularyWellFormed();
    assert Morse.Words[12] == "vex" && Morse.Words[16] == "tan";
    assert Morse.Words[..TableSize][12] == "vex" && Morse.Words[..TableSize][16] == "tan";
    CheckWord(table, level, "vex", "...- . -..-");
    CheckWord(table, level, "tan", "- .- -.");
  }

  /** The level chosen in `load_level` by keying in the code of its figure;
      any other code is refused and the player asked again. */
  function SelectLevel(input: string): (r: Option<Level>)
    ensures r.Some? ==> input == Morse.NumMorse[r.value]
    ensures r.None? ==> forall l :: 1 <= l <= 4 ==> input != Morse.NumMorse[l]
  {
    if input == ".----" then Some(1)
    else if input == "..---" then Some(2)
    else if input == "...--" then Some(3)
    else if input == "....-" then Some(4)
    else None
  }

  /** Every level can be chosen, each by its own code. */
  lemma SelectEveryLevel(l: Level)
    ensures SelectLevel(Morse.NumMorse[l]) == Some(l)
  {
  }

  /** `generate_random_character`: an upper-case letter picked by the
      remainder of a random draw `r` (a non-negative `random()` value)
      divided by 26. */
  function RandomCharacter(r: nat): (c: char)
    ensures 'A' <= c <= 'Z'
    ensures Morse.IsLetter(c) && Morse.AlphaIndex(c) == r % 26
  {
    ('A' as int + r % 26) as char
  }

  /** Every letter can be drawn. */
  lemma EveryLetterDrawn(c: char)
    requires 'A' <= c <= 'Z'
    ensures RandomCharacter(Morse.AlphaIndex(c)) == c
  {
  }

  /** The word levels draw the word at the remainder of a random draw
      divided by 20, so the last word of the vocabulary is never asked. */
  function RandomWord(r: nat): (w: string)
    ensures w in Morse.Words[..TableSize]
    ensures w != Morse.Words[|Morse.Words| - 1]
  {
    Morse.VocabularyWellFormed();
    Morse.Words[r % TableSize]
  }

  /** The symbol a level asks for, drawn from `r`: a letter on levels 1
      and 2, a word of the table on levels 3 and 4. */
  function Symbol(level: Level, r: nat): (s: string)
    ensures IsCharLevel(level) ==> s == [RandomCharacter(r)] && Morse.IsLetter(s[0])
    ensures IsWordLevel(level) ==> s == RandomWord(r)
  {
    if IsCharLevel(level) then [RandomCharacter(r)] else RandomWord(r)
  }

  /** Whatever letter a character level draws, keying in its code is
      accepted. */
  lemma DrawnCharacterAnswerable(table: Slots, level: Level, r: nat)
    requires |table| == TableSize && IsCharLevel(level)
    ensures CheckPattern(table, level, Symbol(level, r), Morse.LetterCode(RandomCharacter(r))) == 1
  {
    var c := RandomCharacter(r);
    assert Symbol(level, r) == [c] && [c][0] == c;
    CheckCharacter(table, level, c, Morse.LetterCode(c));
  }

  /** Whatever word a word level draws, it is in the loaded table and
      keying in its code is accepted. */
  lemma DrawnWordAnswerable(table: Slots, level: Level, r: nat)
    requires |table| == TableSize && LoadedWith(table, TableSize) && IsWordLevel(level)
    ensures Holds(table, RandomWord(r))
    ensures (Morse.VocabularyWellFormed();
      CheckPattern(table, level, Symbol(level, r), Morse.WordCode(RandomWord(r))) == 1)
  {
    Morse.VocabularyWellFormed();
    CheckWord(table, level, RandomWord(r), Morse.WordCode(RandomWord(r)));
  }

  /** A colour as red, green and blue intensities. */
  datatype Rgb = Rgb(red: nat, green: nat, blue: nat)

  const Blue := Rgb(0x00, 0x00, 0xFF)

  /** `set_rgb`: blue before a game starts; during a game green, yellow,
      orange and red for 3, 2, 1 and 0 lives. Any other count leaves the
      LED as it was, which the model returns as `None`. */
  function LedColour(started: bool, lives: int): (c: Option<Rgb>)
    ensures !started ==> c == Some(Blue)
    ensures started ==> (c.Some? <==> 0 <= lives <= 3)
    ensures started && c.Some? ==> c.value != Blue && c.value.blue == 0 && c.value.red + c.value.green >= 0xFF
  {
    if !started then Some(Blue)
    else if lives == 3 then Some(Rgb(0x80, 0xFF, 0x00))
    else if lives == 2 then Some(Rgb(0xFF, 0xFF, 0x00))
    else if lives == 1 then Some(Rgb(0xFF, 0x80, 0x00))
    else if lives == 0 then Some(Rgb(0xFF, 0x00, 0x00))
    else None
  }

  /** The LED tells the player the number of lives: different counts show
      different colours, red is shown exactly when no life is left, and
      green tends to red as lives are lost. */
  lemma LedShowsLives(l1: int, l2: int)
    requires 0 <= l1 <= 3 && 0 <= l2 <= 3
    ensures LedColour(true, l1) == LedColour(true, l2) <==> l1 == l2
    ensures LedColour(true, l1).value.green == 0 <==> l1 == 0
    ensures l1 < l2 ==> LedColour(true, l1).value.red >= LedColour(true, l2).value.red
    ensures l1 < l2 ==> LedColour(true, l1).value.green <= LedColour(true, l2).value.green
  {
  }

  /** The success rate `print_level_stats` means to report: the whole
      percentage of successful attempts, rounded down, and 0 when there
      were no attempts. */
  function SuccessRate(wins: nat, losses: nat): (pct: nat)
    ensures pct <= 100
    ensures wins + losses == 0 ==> pct == 0
    ensures wins + losses > 0 ==> pct * (wins + losses) <= 100 * wins < (pct + 1) * (wins + losses)
  {
    if wins + losses == 0 then 0 else 100 * wins / (wins + losses)
  }

  /** `print_level_stats` as written: the count of wins divided by the count
      of attempts in integer arithmetic, which divides by zero when there
      were no attempts. */
  function WinPercentageAsWritten(wins: nat, losses: nat): (pct: nat)
    requires wins + losses > 0
    ensures pct <= 1
    ensures pct == 1 <==> losses == 0
  {
    wins / (wins + losses)
  }

  /** The printed rate is never a percentage: 3 wins and 2 losses print 0
      where 60 is meant, and a perfect round prints 1 where 100 is meant. */
  lemma WinPercentageAsWrittenIsFraction()
    ensures WinPercentageAsWritten(3, 2) == 0 && SuccessRate(3, 2) == 60
    ensures WinPercentageAsWritten(5, 0) == 1 && SuccessRate(5, 0) == 100
    ensures SuccessRate(0, 0) == 0
  {
  }
}
