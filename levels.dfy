/** The round bookkeeping shared by `level_1` to `level_4` in
    Assignment2Doc.c: three lives, a count of correct answers and a count
    of misses, a life regained for each correct answer up to three, a life
    lost for each miss; the level fails when the lives run out and is
    completed at the fifth correct answer. The symbol asked stays the same
    across misses and a new one is drawn after each correct answer.

    As written, a level only calls `game_over_failure` at zero lives and then
    plays on (`RunAsWritten`); the model ends the level there. */
module Levels {
  import opened Hashing
  import opened Game

  const MaxLives := 3
  /** Correct answers that complete a level. They need not come in a row:
      a miss does not reset the count. */
  const RoundLength := 5

  /** Lives left, correct answers and misses so far in a level. */
  datatype Tally = Tally(lives: int, correct: nat, fails: nat)

  /** What the checks after an answer decide: play on, the level is
      complete, or the lives have run out. */
  datatype Signal = Continue | Completed | OutOfLives

  /** The tally at the start of every level. */
  const Start := Tally(MaxLives, 0, 0)

  /** One answer: a correct one counts and regains a life unless the lives
      are full, a miss loses a life and counts as a failed attempt. */
  function Apply(t: Tally, ok: bool): (u: Tally)
    ensures u.correct + u.fails == t.correct + t.fails + 1
    ensures ok ==> u.correct == t.correct + 1 && u.fails == t.fails
    ensures !ok ==> u.correct == t.correct && u.fails == t.fails + 1 && u.lives == t.lives - 1
    ensures ok && 0 <= t.lives <= MaxLives ==> 1 <= u.lives <= MaxLives && t.lives <= u.lives <= t.lives + 1
    ensures ok && 0 <= t.lives < MaxLives ==> u.lives == t.lives + 1
  {
    if ok then Tally(if t.lives < MaxLives then t.lives + 1 else t.lives, t.correct + 1, t.fails)
    else Tally(t.lives - 1, t.correct, t.fails + 1)
  }

  /** The checks after an answer: out of lives first, then completion. */
  function SignalOf(t: Tally): Signal {
    if t.lives == 0 then OutOfLives
    else if t.correct == RoundLength then Completed
    else Continue
  }

  /** How a sequence of answers ends: the final tally, what ended it, and
      how many answers were used before it ended. */
  datatype Finish = Finish(tally: Tally, signal: Signal, used: nat)

  /** Answers applied one by one until a check ends the level or the
      answers run out; answers after the end are ignored. */
  function Run(t: Tally, oks: seq<bool>): (f: Finish)
    ensures f.signal == SignalOf(f.tally)
    ensures f.used <= |oks|
    ensures f.signal == Continue ==> f.used == |oks|
    ensures f.used == 0 ==> f.tally == t
    decreases |oks|
  {
    if SignalOf(t) != Continue || |oks| == 0 then Finish(t, SignalOf(t), 0)
    else
      var f := Run(Apply(t, oks[0]), oks[1..]);
      Finish(f.tally, f.signal, f.used + 1)
  }

  /** Two runs that end in the same state for the same reason. */
  predicate SameEnd(f: Finish, g: Finish) {
    f.tally == g.tally && f.signal == g.signal
  }

  /** The number of answers in `oks` equal to `ok`. */
  function Count(oks: seq<bool>, ok: bool): (n: nat)
    ensures n <= |oks|
  {
    if |oks| == 0 then 0
    else (if oks[0] == ok then 1 else 0) + Count(oks[1..], ok)
  }

  /** The states a level can be in: lives between 0 and 3, at most five
      correct answers, and every life below three paid for by a miss. */
  predicate Sane(t: Tally) {
    0 <= t.lives <= MaxLives && t.correct <= RoundLength && t.lives + t.fails >= MaxLives
  }

  /** From a sane state a run stays sane, and the final counts are the
      counts of correct answers and misses among the answers it used. */
  lemma {:induction false} RunAccounts(t: Tally, oks: seq<bool>)
    requires Sane(t)
    ensures Sane(Run(t, oks).tally)
    ensures Run(t, oks).tally.correct == t.correct + Count(oks[..Run(t, oks).used], true)
    ensures Run(t, oks).tally.fails == t.fails + Count(oks[..Run(t, oks).used], false)
    decreases |oks|
  {
    if SignalOf(t) != Continue || |oks| == 0 {
      assert oks[..0] == [];
    } else {
      var u := Apply(t, oks[0]);
      RunAccounts(u, oks[1..]);
      var n := Run(u, oks[1..]).used;
      assert oks[..n + 1] == [oks[0]] + oks[1..][..n];
      assert oks[..n + 1][1..] == oks[1..][..n];
    }
  }

  /** A level that runs out of lives has seen at least three misses, and a
      completed level has seen exactly five correct answers with at least
      one life left. */
  lemma EndOfLevel(oks: seq<bool>)
    ensures Run(Start, oks).signal == OutOfLives ==> Run(Start, oks).tally.fails >= MaxLives
    ensures Run(Start, oks).signal == Completed ==>
      Run(Start, oks).tally.correct == RoundLength && Run(Start, oks).tally.lives >= 1
    ensures Run(Start, oks).tally.correct == Count(oks[..Run(Start, oks).used], true)
  {
    RunAccounts(Start, oks);
  }

  /** With all lives left, three misses in a row end the level on the third
      one, whatever follows; two do not end it. */
  lemma ThreeMisses(t: Tally, rest: seq<bool>)
    requires t.lives == MaxLives && t.correct < RoundLength
    ensures Run(t, [false, false]).signal == Continue
    ensures Run(t, [false, false, false] + rest) == Finish(Tally(0, t.correct, t.fails + 3), OutOfLives, 3)
  {
    var t1, t2, t3 := Apply(t, false), Apply(Apply(t, false), false), Tally(0, t.correct, t.fails + 3);
    assert [false, false][1..] == [false];
    assert Run(t1, [false]).signal == Continue;
    var s := [false, false, false] + rest;
    assert s[1..] == [false, false] + rest && s[1..][1..] == [false] + rest;
    assert Run(t2, [false] + rest) == Finish(t3, OutOfLives, 1);
    assert Run(t1, [false, false] + rest) == Finish(t3, OutOfLives, 2);
  }

  /** `n` correct answers in a row. */
  function Trues(n: nat): (s: seq<bool>)
    ensures |s| == n && forall k :: 0 <= k < n ==> s[k]
  {
    seq(n, _ => true)
  }

  /** The lives after `n` correct answers from `lives`: one regained per
      answer, never more than three. */
  function Regained(lives: int, n: nat): int {
    if lives + n < MaxLives then lives + n else MaxLives
  }

  /** From a state still in play, fewer correct answers than are missing
      leave the level in play, each regaining a life up to three. */
  lemma {:induction false} FewerCorrectContinue(t: Tally, k: nat)
    requires Sane(t) && t.lives >= 1 && t.correct + k < RoundLength
    ensures Run(t, Trues(k)) == Finish(Tally(Regained(t.lives, k), t.correct + k, t.fails), Continue, k)
    decreases k
  {
    if k > 0 {
      assert Trues(k)[1..] == Trues(k - 1);
      FewerCorrectContinue(Apply(t, true), k - 1);
    }
  }

  /** From a state still in play, the correct answers still missing
      complete the level, whatever follows them. */
  lemma {:induction false} MissingCorrectComplete(t: Tally, rest: seq<bool>)
    requires Sane(t) && t.lives >= 1 && t.correct < RoundLength
    ensures var n := RoundLength - t.correct;
      Run(t, Trues(n) + rest) == Finish(Tally(Regained(t.lives, n), RoundLength, t.fails), Completed, n)
    decreases RoundLength - t.correct
  {
    var n := RoundLength - t.correct;
    var s := Trues(n) + rest;
    assert s[0];
    assert s[1..] == Trues(n - 1) + rest;
    if n > 1 {
      MissingCorrectComplete(Apply(t, true), rest);
    }
  }

  /** Correct answers need not come in a row: misses between them do not
      reset the count. */
  lemma CorrectAnswersAccumulate()
    ensures Run(Start, [true, false, true, false, true, false, true, true]) ==
      Finish(Tally(3, RoundLength, 3), Completed, 8)
  {
  }

  /** The checks after an answer as `level_1` to `level_4` make them: at
      zero lives `game_over_failure` is called, which displays a banner, and
      play goes on with a new symbol, so only the fifth correct answer ends
      the level. */
  function SignalAsWritten(t: Tally): Signal {
    if t.correct == RoundLength then Completed else Continue
  }

  /** `Run` with the checks as written: running out of lives never ends the
      level. */
  function RunAsWritten(t: Tally, oks: seq<bool>): (f: Finish)
    ensures f.signal == SignalAsWritten(f.tally) && f.signal != OutOfLives
    ensures f.used <= |oks|
    ensures f.signal == Continue ==> f.used == |oks|
    decreases |oks|
  {
    if SignalAsWritten(t) != Continue || |oks| == 0 then Finish(t, SignalAsWritten(t), 0)
    else
      var f := RunAsWritten(Apply(t, oks[0]), oks[1..]);
      Finish(f.tally, f.signal, f.used + 1)
  }

  /** As written, the correct answers still missing complete the level
      whatever the lives, even below zero. */
  lemma {:induction false} MissingCorrectCompleteAsWritten(t: Tally)
    requires t.lives <= MaxLives && t.correct < RoundLength
    ensures var n := RoundLength - t.correct;
      RunAsWritten(t, Trues(n)) == Finish(Tally(Regained(t.lives, n), RoundLength, t.fails), Completed, n)
    decreases RoundLength - t.correct
  {
    var n := RoundLength - t.correct;
    assert Trues(n)[0] && Trues(n)[1..] == Trues(n - 1);
    if n > 1 {
      MissingCorrectCompleteAsWritten(Apply(t, true));
    }
  }

  /** As written, a fourth miss takes the lives to -1 and the level goes
      on, and five correct answers after it still complete the level; with
      the lives checked, the third miss ends it. */
  lemma LivesBelowZeroAsWritten()
    ensures RunAsWritten(Start, [false, false, false, false]) == Finish(Tally(-1, 0, 4), Continue, 4)
    ensures RunAsWritten(Start, [false, false, false, false] + Trues(RoundLength)) ==
      Finish(Tally(MaxLives, RoundLength, 4), Completed, 9)
    ensures Run(Start, [false, false, false, false]) == Finish(Tally(0, 0, 3), OutOfLives, 3)
  {
    var t := Trues(RoundLength);
    var s := [false, false, false, false] + t;
    MissingCorrectCompleteAsWritten(Tally(-1, 0, 4));
    assert s[1..] == [false, false, false] + t && s[1..][1..] == [false, false] + t;
    assert s[1..][1..][1..] == [false] + t && s[1..][1..][1..][1..] == t;
    assert RunAsWritten(Tally(0, 0, 3), [false] + t) == Finish(Tally(MaxLives, RoundLength, 4), Completed, 6);
    assert RunAsWritten(Tally(1, 0, 2), [false, false] + t) == Finish(Tally(MaxLives, RoundLength, 4), Completed, 7);
    ThreeMisses(Start, [false]);
    assert [false, false, false] + [false] == [false, false, false, false];
  }

  /** The round state of a level: the global `lives` and the level's local
      `correct_try_count` and `fail_count`. */
  class Progress {
    var lives: int
    var correct: nat
    var fails: nat

    function State(): Tally
      reads this
    {
      Tally(lives, correct, fails)
    }

    /** The start of a level. */
    constructor()
      ensures State() == Start
    {
      lives := MaxLives;
      correct := 0;
      fails := 0;
    }

    /** The bookkeeping after the check of one answer. */
    method Record(ok: bool)
      modifies this
      ensures State() == Apply(old(State()), ok)
    {
      if ok {
        correct := correct + 1;
        if lives < MaxLives {
          lives := lives + 1;
        }
      } else {
        lives := lives - 1;
        fails := fails + 1;
      }
    }
  }

  /** How a level ends: the next level to load, the end of the game, a lost
      game, or a level left unfinished because the answers ran out. */
  datatype Outcome = Advance(next: Level) | Victory | Failed | Unfinished

  /** Where completing a level leads: one level up, and after level 4 the
      end of the game. */
  function NextLevel(level: Level): (o: Outcome)
    ensures o != Failed && o != Unfinished
  {
    if level < 4 then Advance(level + 1) else Victory
  }

  /** Where completing a level leads as the C code is written: levels 3 and
      4 both load level 2. */
  function NextLevelAsWritten(level: Level): (o: Outcome)
    ensures o.Advance?
  {
    if level == 1 then Advance(2) else if level == 2 then Advance(3) else Advance(2)
  }

  /** The outcome after `n` completed levels starting at `level`, following
      `next` from each level to the following one. */
  function Progression(next: Level -> Outcome, level: Level, n: nat): Outcome
    decreases n
  {
    if n == 0 then Advance(level)
    else match next(level)
      case Advance(m) => Progression(next, m, n - 1)
      case o => o
  }

  /** Completing levels one after another climbs one level each time, and
      completing level 4 wins the game. */
  lemma {:induction false} ProgressionClimbs(level: Level, n: nat)
    ensures Progression(NextLevel, level, n) == if level + n <= 4 then Advance(level + n) else Victory
    decreases n
  {
    if n > 0 && level < 4 {
      ProgressionClimbs(level + 1, n - 1);
    }
  }

  /** As written, once a level is completed the player is on level 2 or 3
      for ever: level 4 and the win are out of reach from level 1. */
  lemma {:induction false} ProgressionAsWrittenLoops(level: Level, n: nat)
    requires n > 0
    ensures Progression(NextLevelAsWritten, level, n).Advance?
    ensures Progression(NextLevelAsWritten, level, n).next in {2, 3}
    decreases n
  {
    if n > 1 {
      ProgressionAsWrittenLoops(NextLevelAsWritten(level).next, n - 1);
    }
  }

  /** What a level's ending signal means for the game. */
  function OutcomeOf(level: Level, sig: Signal): Outcome {
    match sig
    case Completed => NextLevel(level)
    case OutOfLives => Failed
    case Continue => Unfinished
  }

  /** The verdicts on `inputs[i..]`, the symbol for each answer drawn from
      `draws` at the count `c` of correct answers so far. */
  function Judge(table: Slots, level: Level, draws: seq<nat>, inputs: seq<string>, i: nat, c: nat): seq<bool>
    requires |table| == TableSize && |draws| >= RoundLength && i <= |inputs| && c <= RoundLength
    decreases |inputs| - i
  {
    if i == |inputs| || c == RoundLength then []
    else
      var ok := CheckPattern(table, level, Symbol(level, draws[c]), inputs[i]) == 1;
      [ok] + Judge(table, level, draws, inputs, i + 1, if ok then c + 1 else c)
  }

  /** One answer of a level: the verdict on the next input against the
      symbol for the current count moves the run one step on. */
  lemma JudgeStep(table: Slots, level: Level, draws: seq<nat>, inputs: seq<string>, i: nat, t: Tally)
    requires |table| == TableSize && |draws| >= RoundLength && i < |inputs| && t.correct < RoundLength
    requires SignalOf(t) == Continue
    ensures var ok := CheckPattern(table, level, Symbol(level, draws[t.correct]), inputs[i]) == 1;
      var f := Run(Apply(t, ok), Judge(table, level, draws, inputs, i + 1, Apply(t, ok).correct));
      Run(t, Judge(table, level, draws, inputs, i, t.correct)) == f.(used := f.used + 1)
  {
    var ok := CheckPattern(table, level, Symbol(level, draws[t.correct]), inputs[i]) == 1;
    var rest := Judge(table, level, draws, inputs, i + 1, Apply(t, ok).correct);
    assert Judge(table, level, draws, inputs, i, t.correct) == [ok] + rest;
    assert ([ok] + rest)[0] == ok && ([ok] + rest)[1..] == rest;
  }

  /** The inner loop of a level: read answers to `symbol` from `inputs[i..]`
      until one is correct or the lives run out. `exhausted` says the answers
      ran out first; otherwise `j` is just past the answer that ended the
      loop. The run from the new state on the remaining answers ends as the
      run from the old state did. */
  method AskUntilAnswered(p: Progress, table: Slots, level: Level, draws: seq<nat>, symbol: string,
                          inputs: seq<string>, i: nat)
      returns (j: nat, exhausted: bool)
    requires |table| == TableSize && |draws| >= RoundLength && i <= |inputs| && p.correct < RoundLength
    requires SignalOf(p.State()) == Continue && symbol == Symbol(level, draws[p.correct])
    modifies p
    ensures i <= j <= |inputs| && old(p.correct) <= p.correct <= old(p.correct) + 1
    ensures exhausted ==> j == |inputs| && SignalOf(p.State()) == Continue && p.correct == old(p.correct)
    ensures !exhausted ==> i < j && (p.lives == 0 || p.correct == old(p.correct) + 1)
    ensures SameEnd(Run(old(p.State()), Judge(table, level, draws, inputs, i, old(p.correct))),
                    Run(p.State(), Judge(table, level, draws, inputs, j, p.correct)))
  {
    j, exhausted := i, false;
    ghost var spec := Run(p.State(), Judge(table, level, draws, inputs, i, p.correct));
    ghost var c0 := p.correct;
    while true
      invariant i <= j <= |inputs| && p.correct == c0
      invariant SignalOf(p.State()) == Continue
      invariant SameEnd(spec, Run(p.State(), Judge(table, level, draws, inputs, j, p.correct)))
      decreases |inputs| - j
    {
      if j == |inputs| {
        exhausted := true;
        return;
      }
      var ok := CheckPattern(table, level, symbol, inputs[j]) == 1;
      JudgeStep(table, level, draws, inputs, j, p.State());
      p.Record(ok);
      j := j + 1;
      if ok {
        break;
      }
      if p.lives == 0 {
        break;
      }
    }
  }

  /** `level_1` to `level_4`: draw a symbol, read answers until one is
      correct or the lives run out, then check for failure and completion
      and otherwise draw again. `draws` are the successive `random()` values
      and `inputs` the successive answers; when they run out the level is
      left unfinished. The result is the outcome and final tally `Run`
      gives for the verdicts of `CheckPattern` on the answers. */
  method PlayLevel(table: WordTable, level: Level, draws: seq<nat>, inputs: seq<string>)
      returns (outcome: Outcome, tally: Tally)
    requires table.Valid() && |draws| >= RoundLength
    ensures var f := Run(Start, Judge(table.slots[..], level, draws, inputs, 0, 0));
      tally == f.tally && outcome == OutcomeOf(level, f.signal)
  {
    var contents := table.slots[..];
    var p := new Progress();
    var i := 0;
    ghost var spec := Run(Start, Judge(contents, level, draws, inputs, 0, 0));
    while true
      invariant i <= |inputs| && p.correct < RoundLength
      invariant SignalOf(p.State()) == Continue
      invariant SameEnd(spec, Run(p.State(), Judge(contents, level, draws, inputs, i, p.correct)))
      decreases |inputs| - i
    {
      var symbol := Symbol(level, draws[p.correct]);
      var exhausted;
      i, exhausted := AskUntilAnswered(p, contents, level, draws, symbol, inputs, i);
      if exhausted {
        outcome, tally := Unfinished, p.State();
        return;
      }
      if p.lives == 0 {
        outcome, tally := Failed, p.State();
        return;
      }
      if p.correct == RoundLength {
        outcome, tally := NextLevel(level), p.State();
        return;
      }
    }
  }
}
