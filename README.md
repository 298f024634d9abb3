# Morse code trainer: dictionary, word table and level rules

A model in Dafny of the game logic of `Assignment2Doc.c`, a Morse code
trainer for the Raspberry Pi Pico. The player keys in dots and dashes for a
letter (levels 1 and 2) or a word (levels 3 and 4); each level starts with
three lives, a correct answer regains a life up to three, a miss costs one,
the level fails when no life is left and is completed at the fifth correct
answer. An RGB LED shows the number of lives.

The project has five modules:

- `Wrappers` (`wrappers.dfy`): the `Option` type.
- `Morse` (`morse.dfy`): the letter and figure tables (`alpha_morse`,
  `num_morse`), the vocabulary (`words`), the code of a word as the codes of
  its letters joined by single spaces (`WordCode`, the code each stored
  word is meant to carry), and the `words_morse` array as its C
  initialiser actually denotes it. The letter and figure codes are those of
  International Morse code (Recommendation ITU-R M.1677-1, Annex 1,
  section 1.1).
- `Hashing` (`hashing.dfy`): the djb2 hash (`hashstring`), wrapping at 32
  bits; the 20-slot linear-probing table `hashArray` as a class over an
  array with `Search` and `Insert`; and `InitialiseHashTable`, proved to
  leave every one of the first 20 words findable with its own code and
  nothing else findable.
- `Game` (`game.dfy`): `check_pattern`, the level choice of `load_level`,
  the random symbol of each level (the random value is a parameter), the LED
  colour of `set_rgb`, and the success rate of `print_level_stats`.
- `Levels` (`levels.dfy`): the round bookkeeping of `level_1` to `level_4`
  as a `Progress` class updated answer by answer, specified by the pure
  fold `Run`; `PlayLevel` follows the C nested loops (the symbol stays while
  the player misses, a new one is drawn after each correct answer) and is
  proved to end as `Run` says on the verdicts of `CheckPattern`. `SignalOf`
  is the pair of checks after each answer (zero lives at line 685, five
  correct answers at line 696) and `OutcomeOf` turns the signal that ends
  a level into its outcome; the lemmas on `Run` and `PlayLevel` state
  their properties. Last, the level reached after a completed level,
  corrected and as written.

The C file does not compile as it stands (missing semicolons, undeclared
names, a `switch` whose cases sit outside it), so several of its functions
have no single meaning. The model keeps each function's evident intent and
records each place where it departs from the text:

- `hashstring` reads `c = word++` (the pointer, not the character); the
  model hashes the characters (`*word++`).
- `search` and `insert` start probing at the hash itself, not the hash
  modulo 20 (a Finding below). `search` compares words by pointer; the
  model compares their contents. `insert` finds a free slot but never stores
  the entry; the model stores it.
- `initialise_hash_table` stores `words_morse[i]` with `words[i]`; because
  that array is malformed (a Finding below) the model stores the code built
  from the word's letters.
- `check_pattern` falls through from case to case, loops over `sizeof` of
  each table (bytes, not elements), and compares table codes with the
  symbol; the model looks the symbol up and compares its code with the
  answer, by level.
- The word case of `check_pattern` compares the answer with the code of the
  single slot `hashArray[hashIndex]` (lines 613-614 and 629-630) and never
  probes on as `search` does. Its index is `hashstring(&given_char)`, the
  hash of the bytes of the pointer variable; with `&given_char` read as
  `given_char`, the character read and the reduction modulo 20 corrected,
  that slot is the word's home slot. A word that was moved along by an
  earlier collision is then rejected even when keyed in correctly (a
  Finding below); `CheckPattern` looks the word up with `Lookup`.
- At zero lives each level calls `game_over_failure`, which displays a
  banner, and then goes on: a new symbol is drawn, the lives go below zero
  and a fifth correct answer still completes the level (a Finding below).
  `Run` and `PlayLevel` end the level at zero lives, as the banner and the
  header of the file intend.
- `level_3` and `level_4` call `check_pattern(1, given_char, …)` with the
  character of an earlier level rather than the drawn word (lines 781 and
  833); `PlayLevel` checks the drawn symbol at the level being played.
- `level_2` tests an undeclared `num_lives` (line 745) and `set_rgb` an
  undeclared `game_start` (line 427); the model reads `lives` and the
  game-started flag `game_status`.
- The file's header says five correct answers "in a row" (line 33), but the
  code counts correct answers cumulatively and never resets the count on a
  miss (lines 669 and 678-679). The model follows the code
  (`Levels.CorrectAnswersAccumulate`).

## Model

| member | source | states |
|---|---|---|
| Morse.TablesWellFormed | microprocessors-assignment-2-main/Assignment2Doc.c:58-61 | the letter table holds 26 codes and the figure table 10, each a non-empty string of dots and dashes |
| Morse.LetterCodesDistinct | microprocessors-assignment-2-main/Assignment2Doc.c:58-60 | no two letters share a code |
| Morse.DigitCodesDistinct | microprocessors-assignment-2-main/Assignment2Doc.c:58-61 | no two figures share a code and no figure shares a code with a letter |
| Morse.AlphaIndex | microprocessors-assignment-2-main/Assignment2Doc.c:58-60 | a letter of either case indexes the letter table at its position in the alphabet |
| Morse.CharCode | microprocessors-assignment-2-main/Assignment2Doc.c:58-61 | a character has a code exactly when it is a letter or a figure, and that code is dots and dashes only |
| Morse.CharCodeInjective | microprocessors-assignment-2-main/Assignment2Doc.c:58-61 | two characters with the same code are the same letter up to case, or the same figure |
| Morse.WordCodeShape | microprocessors-assignment-2-main/Assignment2Doc.c:83-104 | a word's code is empty only for the empty word, uses only dots, dashes and spaces, and does not start or end with a space |
| Morse.WordCodeInjective | microprocessors-assignment-2-main/Assignment2Doc.c:62-104 | two lower-case words with the same code are the same word |
| Morse.VocabularyWellFormed | microprocessors-assignment-2-main/Assignment2Doc.c:62-82 | the vocabulary has 21 distinct, non-empty, lower-case words |
| Morse.WordCodesDistinct | microprocessors-assignment-2-main/Assignment2Doc.c:62-104 | no two vocabulary words have the same code |
| Morse.WordsMorseAsWrittenShifted | microprocessors-assignment-2-main/Assignment2Doc.c:83-104 | the C array has 19 elements for 21 words, and the element at the index of "dock" is the code of "lick", not of "dock" |
| Morse.WordsMorseAsWrittenTrailingSpace | microprocessors-assignment-2-main/Assignment2Doc.c:96 | the element for "vex" is its code followed by a space |
| Morse.WordsMorseAsWrittenFusedCopyDock | microprocessors-assignment-2-main/Assignment2Doc.c:85-86 | one element is the codes of "copy" and "dock" run together |
| Morse.WordsMorseAsWrittenFusedNoseTan | microprocessors-assignment-2-main/Assignment2Doc.c:99-100 | one element is the codes of "nose" and "tan" run together |
| Hashing.Djb2 | microprocessors-assignment-2-main/Assignment2Doc.c:136-145 | the hash of any string is below 2^32 |
| Hashing.ShiftAddIsTimes33 | microprocessors-assignment-2-main/Assignment2Doc.c:142 | shifting left by five and adding the hash, each step wrapping at 32 bits, is multiplying by 33 modulo 2^32 |
| Hashing.HashString | microprocessors-assignment-2-main/Assignment2Doc.c:136-145 | the C loop computes exactly the djb2 hash of the word, below 2^32 |
| Hashing.Djb2Append | microprocessors-assignment-2-main/Assignment2Doc.c:141-142 | appending a character maps the hash h to h * 33 + c modulo 2^32 |
| Hashing.AsWrittenIndexOutOfRange | microprocessors-assignment-2-main/Assignment2Doc.c:149-152 | with the character read of `hashstring` corrected, the unreduced start index of `search` for "cave" is 2090140996, outside the 20 slots, while its home slot is 16 |
| Hashing.VexTanShareHome | microprocessors-assignment-2-main/Assignment2Doc.c:136-152 | "vex" and "tan" hash to the same home slot, 12 |
| Hashing.SlotNext | microprocessors-assignment-2-main/Assignment2Doc.c:161-165 | the next probe is the next slot, wrapping from the last to the first |
| Hashing.Probe | microprocessors-assignment-2-main/Assignment2Doc.c:155-168 | a probe only finds an entry for the word sought, and one that is in the table |
| Hashing.Lookup | microprocessors-assignment-2-main/Assignment2Doc.c:149-169 | a lookup only finds an entry for the word sought, and one that is in the table |
| Hashing.LookupComplete | microprocessors-assignment-2-main/Assignment2Doc.c:149-169 | when no entry has an empty slot between its home slot and itself, every word the table holds is found |
| Hashing.FirstFree | microprocessors-assignment-2-main/Assignment2Doc.c:181-188 | insertion stops at the first empty slot after the home slot: every slot before it is occupied |
| Hashing.InsertSlots | microprocessors-assignment-2-main/Assignment2Doc.c:172-189 | inserting keeps the table at 20 slots |
| Hashing.InsertKeepsChains | microprocessors-assignment-2-main/Assignment2Doc.c:172-189 | inserting keeps the linear-probing invariant |
| Hashing.LookupAfterInsert | microprocessors-assignment-2-main/Assignment2Doc.c:149-189 | after an insert, every earlier lookup result is unchanged, the inserted word is found with its code if it was absent, and no other word becomes findable |
| Hashing.NotFullHasFree | microprocessors-assignment-2-main/Assignment2Doc.c:181-188 | a table with fewer entries than slots has an empty slot, so insertion terminates |
| Hashing.WordTable.constructor | microprocessors-assignment-2-main/Assignment2Doc.c:127 | the table starts with all 20 slots empty, satisfying the probing invariant |
| Hashing.WordTable.Search | microprocessors-assignment-2-main/Assignment2Doc.c:149-169 | the probe loop starts at the djb2 hash of the word modulo 20, its home slot, and returns exactly the entry the lookup specification finds |
| Hashing.WordTable.Insert | microprocessors-assignment-2-main/Assignment2Doc.c:172-189 | the probe loop starts at the djb2 hash of the word modulo 20, its home slot, stores the entry in the first empty slot from there, keeps the probing invariant and adds one entry |
| Hashing.LoadNext | microprocessors-assignment-2-main/Assignment2Doc.c:195-198 | inserting the next vocabulary word with its code extends the set of findable words by exactly that word |
| Hashing.InitialiseHashTable | microprocessors-assignment-2-main/Assignment2Doc.c:193-199 | afterwards each of the first 20 words is found with its own code and every other string is not found |
| Game.CheckPattern | microprocessors-assignment-2-main/Assignment2Doc.c:544-640 | the result is 0 or 1; an accepted character answer is a non-empty string of dots and dashes; an accepted word is held by the table; any other level accepts nothing |
| Game.CheckCharacter | microprocessors-assignment-2-main/Assignment2Doc.c:548-607 | on levels 1 and 2 an answer is accepted exactly when it is the code of the character asked |
| Game.CheckCharacterUnique | microprocessors-assignment-2-main/Assignment2Doc.c:548-607 | on levels 1 and 2 an answer is accepted for at most one character up to case |
| Game.CheckWord | microprocessors-assignment-2-main/Assignment2Doc.c:608-640 | on levels 3 and 4, with the table loaded, an answer is accepted exactly when the word is one of the first 20 and the answer is its code |
| Game.CheckWordUnique | microprocessors-assignment-2-main/Assignment2Doc.c:608-640 | on levels 3 and 4 an answer is accepted for at most one word |
| Game.CheckWordAsWritten | microprocessors-assignment-2-main/Assignment2Doc.c:608-640 | as written, with the hash argument, the character read and the reduction modulo 20 corrected, a word answer is accepted only if it equals the code stored in the word's home slot |
| Game.HomeSlotCheckRejects | microprocessors-assignment-2-main/Assignment2Doc.c:613-614 | whatever the table holds, the home-slot check rejects the correct code of "vex" or that of "tan" |
| Game.ProbingCheckAccepts | microprocessors-assignment-2-main/Assignment2Doc.c:608-640 | with the table loaded, the probing check accepts the correct codes of both "vex" and "tan" |
| Game.SelectLevel | microprocessors-assignment-2-main/Assignment2Doc.c:478-506 | the level chosen is the one whose figure code was keyed in; any other input chooses none |
| Game.SelectEveryLevel | microprocessors-assignment-2-main/Assignment2Doc.c:478-501 | the code of each figure 1 to 4 chooses that level |
| Game.RandomCharacter | microprocessors-assignment-2-main/Assignment2Doc.c:531-535 | the character is an upper-case letter at the draw's remainder modulo 26 in the alphabet |
| Game.EveryLetterDrawn | microprocessors-assignment-2-main/Assignment2Doc.c:531-535 | every upper-case letter can be drawn |
| Game.RandomWord | microprocessors-assignment-2-main/Assignment2Doc.c:773 | the word drawn is one of the first 20, never the last word "nap" |
| Game.Symbol | microprocessors-assignment-2-main/Assignment2Doc.c:652-826 | a character level asks for the single letter `RandomCharacter` draws (line 652); a word level asks for the word `RandomWord` draws (lines 773 and 826) |
| Game.DrawnCharacterAnswerable | microprocessors-assignment-2-main/Assignment2Doc.c:652-668 | whatever letter is drawn, keying in its code is accepted |
| Game.DrawnWordAnswerable | microprocessors-assignment-2-main/Assignment2Doc.c:773-781 | whatever word is drawn, the loaded table holds it and keying in its code is accepted |
| Game.LedColour | microprocessors-assignment-2-main/Assignment2Doc.c:424-455 | blue before the game starts; during a game a colour exactly for 0 to 3 lives, never blue and with no blue component |
| Game.LedShowsLives | microprocessors-assignment-2-main/Assignment2Doc.c:434-451 | different lives show different colours, no green exactly at 0 lives, and fewer lives never show less red or more green |
| Game.SuccessRate | microprocessors-assignment-2-main/Assignment2Doc.c:880-886 | the rate is the percentage of successful attempts rounded down, at most 100, and 0 when there were no attempts |
| Game.WinPercentageAsWritten | microprocessors-assignment-2-main/Assignment2Doc.c:881 | the C division yields 0 or 1, and 1 exactly when there was no failed attempt |
| Game.WinPercentageAsWrittenIsFraction | microprocessors-assignment-2-main/Assignment2Doc.c:881-885 | 3 wins and 2 losses print 0 where 60 is meant; 5 wins and no loss print 1 where 100 is meant |
| Levels.Apply | microprocessors-assignment-2-main/Assignment2Doc.c:668-681 | each answer counts once; a correct answer adds a correct try and regains a life without passing three; a miss costs a life and adds a failed try |
| Levels.Run | microprocessors-assignment-2-main/Assignment2Doc.c:651-701 | the ending signal agrees with the final tally, and play on only when every answer was used |
| Levels.RunAccounts | microprocessors-assignment-2-main/Assignment2Doc.c:643-701 | lives stay within 0 to 3, correct tries at most 5, every lost life is a failed try, and the final counts are the correct answers and misses among the answers used |
| Levels.EndOfLevel | microprocessors-assignment-2-main/Assignment2Doc.c:685-699 | a failed level has seen at least three misses; a completed one exactly five correct answers with a life left |
| Levels.ThreeMisses | microprocessors-assignment-2-main/Assignment2Doc.c:677-688 | with three lives, three misses in a row end the level on the third whatever follows, and two do not |
| Levels.FewerCorrectContinue | microprocessors-assignment-2-main/Assignment2Doc.c:668-675 | fewer correct answers than still missing leave the level in play, one life regained per answer up to three |
| Levels.MissingCorrectComplete | microprocessors-assignment-2-main/Assignment2Doc.c:668-700 | the correct answers still missing complete the level whatever follows |
| Levels.CorrectAnswersAccumulate | microprocessors-assignment-2-main/Assignment2Doc.c:669-680 | five correct answers with misses between them complete the level |
| Levels.RunAsWritten | microprocessors-assignment-2-main/Assignment2Doc.c:651-701 | as written, a run never ends for lack of lives: only the fifth correct answer ends it |
| Levels.MissingCorrectCompleteAsWritten | microprocessors-assignment-2-main/Assignment2Doc.c:668-700 | as written, the correct answers still missing complete the level even with no lives left |
| Levels.LivesBelowZeroAsWritten | microprocessors-assignment-2-main/Assignment2Doc.c:685-701 | as written, four misses leave -1 lives with the level going on, and five correct answers after them complete it; with the lives checked, the third miss ends the level |
| Levels.Progress.constructor | microprocessors-assignment-2-main/Assignment2Doc.c:644-646 | a level starts with three lives and no correct or failed try |
| Levels.Progress.Record | microprocessors-assignment-2-main/Assignment2Doc.c:668-681 | recording an answer updates lives and counters as `Apply` specifies |
| Levels.NextLevel | microprocessors-assignment-2-main/Assignment2Doc.c:696-700 | completing a level never fails or leaves the game unfinished |
| Levels.NextLevelAsWritten | microprocessors-assignment-2-main/Assignment2Doc.c:809-812 | completing any level as written loads another level |
| Levels.ProgressionClimbs | microprocessors-assignment-2-main/Assignment2Doc.c:756-759 | completing n levels from level l reaches level l + n, or wins once past level 4 |
| Levels.ProgressionAsWrittenLoops | microprocessors-assignment-2-main/Assignment2Doc.c:861-864 | as written, after any completed level the player is on level 2 or 3, so the win is never reached |
| Levels.JudgeStep | microprocessors-assignment-2-main/Assignment2Doc.c:779-793 | one checked answer advances the run by exactly one step with that verdict |
| Levels.AskUntilAnswered | microprocessors-assignment-2-main/Assignment2Doc.c:779-802 | the inner loop consumes answers until one is correct or the lives run out, and the rest of the run ends as before |
| Levels.PlayLevel | microprocessors-assignment-2-main/Assignment2Doc.c:764-815 | the nested loops end with the tally and outcome of `Run` on the check results of the answers against the drawn symbols |

## Left out

- The hardware and I/O: `main`, the PIO and WS2812 set-up, `put_pixel`, the
  GPIO and timer wrappers, the assembly input routine `main_asm`, every
  `printf` and `welcome_message`. Answers reach the model as strings.
- `random()`: its successive values are the parameter `draws` of
  `PlayLevel` and `r` of `RandomCharacter` and `RandomWord`.
- `malloc` and the entry structs: entries are values in the table's array.
- The recursive calls between levels and `load_level`: a level returns its
  outcome, and `Progression` models the chain of levels.
- `game_over_failure` and `game_over_success` are declared (lines 255 and
  259) but their bodies are not in the file; they are documented as
  displaying a banner. The model returns `Failed` or `Victory` and ends the
  level there, where the C level goes on after `game_over_failure` (a
  Finding below).
- Hashing.WordTable.Search: stops after 20 probes; on a full table without
  the word the C loop would never end.
- Hashing.WordTable.Insert: requires an empty slot; on a full table the C
  loop would never end. `InitialiseHashTable` only inserts 20 words into 20
  slots, so it always meets this.
- Hashing.Byte: a character counts as its code point modulo 256, the byte C
  reads for ASCII text; multi-byte encodings are not modelled.
- Hashing.Djb2: hashes every character of the string, including `'\0'`,
  where the C loop stops at the first NUL byte; the words hashed contain
  none.
- Levels.PlayLevel: requires five draws, one per symbol, the most a level
  can use; when the answers run out it returns `Unfinished`, where the C
  program would wait for more input.
- Game.LedColour: for a life count outside 0 to 3 the C code leaves the LED
  unchanged; the model returns `None`.
- The 21st word "nap": the table is loaded with the first 20 words only and
  the levels never draw it.
- Levels 1 and 2 never draw a figure, although `check_pattern` accepts
  figures; figures are modelled in `CharCode`.

## Findings

| source | as written | input that shows it | evidently intended | confidence | as-written member | corrected member |
|---|---|---|---|---|---|---|
| microprocessors-assignment-2-main/Assignment2Doc.c:83-104 | two missing commas leave 19 elements for 21 words, so from "dock" on each element sits one or two indexes before its word | `words_morse[2]`, stored with "dock", is the code of "lick"; `words_morse[19]`, drawn by `random() % 20`, is past the end | one code per word at the word's own index | high, not executed | Morse.WordsMorseAsWrittenShifted | Hashing.InitialiseHashTable |
| microprocessors-assignment-2-main/Assignment2Doc.c:85-86 | no comma after the code of "copy", so C joins it with the code of "dock" | `words_morse[1]` is the two codes run together | two separate codes | high, not executed | Morse.WordsMorseAsWrittenFusedCopyDock | Hashing.InitialiseHashTable |
| microprocessors-assignment-2-main/Assignment2Doc.c:99-100 | no comma after the code of "nose", so C joins it with the code of "tan" | `words_morse[14]` is the two codes run together | two separate codes | high, not executed | Morse.WordsMorseAsWrittenFusedNoseTan | Hashing.InitialiseHashTable |
| microprocessors-assignment-2-main/Assignment2Doc.c:96 | the code of "vex" ends in a space | answer `...- . -..-` for "vex" does not equal the stored string | the code without the space | high, not executed | Morse.WordsMorseAsWrittenTrailingSpace | Hashing.InitialiseHashTable |
| microprocessors-assignment-2-main/Assignment2Doc.c:152 | the start index is the whole hash, not the hash modulo 20 | with the character read of `hashstring` corrected, "cave" starts at 2090140996 | start at the hash modulo 20 | high, not executed | Hashing.AsWrittenIndexOutOfRange | Hashing.WordTable.Search |
| microprocessors-assignment-2-main/Assignment2Doc.c:810-812 | levels 3 and 4 load level 2 when completed | completing level 3, then 2, then 3 never reaches level 4 | level 3 leads to level 4, level 4 ends the game | high, not executed | Levels.ProgressionAsWrittenLoops | Levels.ProgressionClimbs |
| microprocessors-assignment-2-main/Assignment2Doc.c:881 | the rate is wins divided by attempts in integer arithmetic, and divides by zero with no attempts | 3 wins, 2 losses print 0%; 5 wins print 1% | 100 times wins divided by attempts, 0 with no attempts | high, not executed | Game.WinPercentageAsWrittenIsFraction | Game.SuccessRate |
| microprocessors-assignment-2-main/Assignment2Doc.c:613-614 | the word case compares the answer with the code of a single slot and never probes on; with the hash argument, the character read and the reduction modulo 20 corrected, that slot is the word's home slot | "vex" and "tan" share home slot 12, so in the loaded table one of them sits elsewhere and its correct code is compared with another word's code and rejected | look the word up by probing, as `search` does | high, not executed | Game.HomeSlotCheckRejects | Game.ProbingCheckAccepts |
| microprocessors-assignment-2-main/Assignment2Doc.c:685-701 | at zero lives `game_over_failure` is called and play goes on | four misses leave -1 lives and the level continues; five correct answers then complete it | the level ends when the lives run out | high, not executed | Levels.LivesBelowZeroAsWritten | Levels.ThreeMisses |
