/** The word dictionary of levels 3 and 4: the djb2 string hash and an
    open-addressed table of 20 slots with linear probing that maps each word
    to its Morse code (`hashstring`, `search`, `insert` and
    `initialise_hash_table` in Assignment2Doc.c).

    Corrections to the C code, each kept small and local:
    - `hashstring` reads `c = word++`, which assigns the pointer, not the
      character; the model reads the character (`*word++`).
    - `search` and `insert` start probing at the unreduced hash, far outside
      the 20 slots; the model starts at the hash modulo 20 (see
      `AsWrittenIndex`).
    - `search` compares the stored word and the query by pointer; the model
      compares their contents.
    - `insert` finds a free slot but never stores its entry there; the model
      stores it.
    - On a full table the C probe loops never end; `Insert` requires a free
      slot, and `Search` gives up after 20 probes. */
module Hashing {
  import opened Wrappers
  import Morse

  /** `unsigned long` on the RP2040 is 32 bits wide. */
  const WordSize: nat := 0x1_0000_0000

  /** The djb2 starting value. */
  const Seed: nat := 5381

  /** Number of slots of `hashArray`. */
  const TableSize: nat := 20

  /** The value a character contributes, read through `unsigned char`. */
  function Byte(c: char): nat {
    c as int % 256
  }

  /** The djb2 hash: starting from 5381, each character maps `h` to
      `h * 33 + c`, wrapping at 32 bits. */
  function Djb2(s: string): (h: nat)
    ensures h < WordSize
  {
    if |s| == 0 then Seed
    else (Djb2(s[..|s| - 1]) * 33 + Byte(s[|s| - 1])) % WordSize
  }

  /** One turn of the loop in `hashstring` as written, `((hash << 5) + hash) + c`,
      with every operation wrapping at 32 bits. */
  function ShiftAddStep(h: nat, c: char): nat
    requires h < WordSize
  {
    (((h * 32) % WordSize + h) % WordSize + Byte(c)) % WordSize
  }

  lemma ModAddLeft(x: nat, y: nat)
    ensures (x % WordSize + y) % WordSize == (x + y) % WordSize
  {
  }

  /** Shifting by five and adding the hash is multiplying by 33, also when
      every step wraps at 32 bits. */
  lemma ShiftAddIsTimes33(h: nat, c: char)
    requires h < WordSize
    ensures ShiftAddStep(h, c) == (h * 33 + Byte(c)) % WordSize
  {
    ModAddLeft(h * 32, h);
    ModAddLeft(h * 32 + h, Byte(c));
  }

  /** `hashstring`: the djb2 hash of a word, computed as the C loop does. */
  method HashString(word: string) returns (hash: nat)
    ensures hash == Djb2(word)
    ensures hash < WordSize
  {
    hash := Seed;
    var i := 0;
    while i < |word|
      invariant 0 <= i <= |word|
      invariant hash == Djb2(word[..i])
    {
      ShiftAddIsTimes33(hash, word[i]);
      assert word[..i + 1][..i] == word[..i];
      hash := ShiftAddStep(hash, word[i]);
      i := i + 1;
    }
    assert word[..i] == word;
  }

  /** Appending a character maps the hash `h` to `h * 33 + c`, modulo the word size. */
  lemma Djb2Append(s: string, c: char)
    ensures Djb2(s + [c]) == (Djb2(s) * 33 + Byte(c)) % WordSize
  {
    assert (s + [c])[..|s|] == s;
  }

  /** The slot a word's probe starts from: its home slot. */
  function HashIndex(w: string): (i: nat)
    ensures i < TableSize
  {
    Djb2(w) % TableSize
  }

  /** The start index as `search` and `insert` compute it, with the
      character read of `hashstring` corrected: `int hashIndex =
      hashstring(word)`, the 32-bit hash converted to a signed int and not
      reduced modulo 20. */
  function AsWrittenIndex(w: string): int {
    var h := Djb2(w);
    if h < WordSize / 2 then h else h - WordSize
  }

  /** For the first vocabulary word the unreduced index (with the character
      read of `hashstring` corrected) is already far past the last slot, so
      the first probe of `search` or `insert` reads outside `hashArray`. */
  lemma AsWrittenIndexOutOfRange()
    ensures AsWrittenIndex("cave") == 2090140996
    ensures !(0 <= AsWrittenIndex("cave") < TableSize)
    ensures HashIndex("cave") == 16
  {
    var w := "cave";
    assert w[..0] == [] && w[..1][..0] == [] && w[..1] == "c";
    assert w[..2] == "ca" && w[..2][..1] == "c";
    assert w[..3] == "cav" && w[..3][..2] == "ca";
    assert w[..4] == w && w[..4][..3] == "cav";
    assert Djb2("c") == 177672;
    assert Djb2("ca") == 5863273;
    assert Djb2("cav") == 193488127;
    assert Djb2(w) == 2090140996;
  }

  /** "vex" and "tan" share the home slot 12, so in a table holding both
      at most one of them sits in its home slot. */
  lemma VexTanShareHome()
    ensures HashIndex("vex") == 12 && HashIndex("tan") == 12
  {
    var v, t := "vex", "tan";
    assert v[..0] == [] && v[..1][..0] == [] && v[..1] == "v";
    assert v[..2] == "ve" && v[..2][..1] == "v";
    assert v[..3] == v && v[..3][..2] == "ve";
    assert Djb2("v") == 177691;
    assert Djb2("ve") == 5863904;
    assert Djb2(v) == 193508952;
    assert t[..0] == [] && t[..1][..0] == [] && t[..1] == "t";
    assert t[..2] == "ta" && t[..2][..1] == "t";
    assert t[..3] == t && t[..3][..2] == "ta";
    assert Djb2("t") == 177689;
    assert Djb2("ta") == 5863834;
    assert Djb2(t) == 193506632;
  }

  /** A slot of `hashArray`: a word and its Morse code. */
  datatype Entry = Entry(word: string, morse: string)

  type Slots = seq<Option<Entry>>

  /** The slot probed `k` steps after `h`, wrapping around the table. */
  function Slot(h: nat, k: nat): (j: nat)
    ensures j < TableSize
  {
    (h + k) % TableSize
  }

  /** How many steps after `h` the probe reaches slot `j`. */
  function Dist(h: nat, j: nat): (d: nat)
    requires h < TableSize && j < TableSize
    ensures d < TableSize && Slot(h, d) == j
  {
    if h <= j then j - h else j + TableSize - h
  }

  /** The next probe is the next slot, wrapping from the last slot to the first. */
  lemma SlotNext(h: nat, k: nat)
    ensures Slot(h, k + 1) == (Slot(h, k) + 1) % TableSize
  {
    var q := (h + k) / TableSize;
    assert h + k == q * TableSize + Slot(h, k);
    assert h + k + 1 == q * TableSize + (Slot(h, k) + 1);
  }

  /** Within one turn around the table, different steps probe different slots. */
  lemma SlotsDiffer(h: nat, k1: nat, k2: nat)
    requires h < TableSize && k1 < TableSize && k2 < TableSize && k1 != k2
    ensures Slot(h, k1) != Slot(h, k2)
  {
  }

  /** The slot an entry's probe starts from. */
  function Home(e: Entry): nat {
    HashIndex(e.word)
  }

  /** The slot at `j` is reached from its home slot through occupied slots only. */
  ghost predicate ChainOccupied(s: Slots, j: nat)
    requires |s| == TableSize && j < TableSize
  {
    s[j].Some? ==>
      forall k :: 0 <= k < Dist(Home(s[j].value), j) ==> s[Slot(Home(s[j].value), k)].Some?
  }

  /** The invariant of linear probing: no entry has an empty slot between
      its home slot and its own slot. */
  ghost predicate ProbeChains(s: Slots) {
    |s| == TableSize && forall j :: 0 <= j < TableSize ==> ChainOccupied(s, j)
  }

  predicate HasFree(s: Slots) {
    exists j :: 0 <= j < |s| && s[j].None?
  }

  /** Some slot holds an entry for `w`. */
  predicate Holds(s: Slots, w: string) {
    exists j :: 0 <= j < |s| && s[j].Some? && s[j].value.word == w
  }

  /** What `search` finds probing from step `k`: the first entry for `w`,
      or nothing once it meets an empty slot or has probed every slot. */
  function Probe(s: Slots, w: string, h: nat, k: nat): (r: Option<Entry>)
    requires |s| == TableSize && h < TableSize && k <= TableSize
    ensures r.Some? ==> r.value.word == w && r in s
    decreases TableSize - k
  {
    if k == TableSize then None
    else match s[Slot(h, k)]
      case None => None
      case Some(e) => if e.word == w then Some(e) else Probe(s, w, h, k + 1)
  }

  function Lookup(s: Slots, w: string): (r: Option<Entry>)
    requires |s| == TableSize
    ensures r.Some? ==> r.value.word == w && r in s
  {
    Probe(s, w, HashIndex(w), 0)
  }

  lemma {:induction false} ProbeReaches(s: Slots, w: string, h: nat, k: nat, d: nat)
    requires |s| == TableSize && h < TableSize && k <= d < TableSize
    requires forall i :: k <= i < d ==> s[Slot(h, i)].Some?
    requires s[Slot(h, d)].Some? && s[Slot(h, d)].value.word == w
    ensures Probe(s, w, h, k).Some?
    decreases d - k
  {
    if k < d {
      ProbeReaches(s, w, h, k + 1, d);
    }
  }

  /** Under the probing invariant every word the table holds is found. */
  lemma LookupComplete(s: Slots, w: string)
    requires ProbeChains(s) && Holds(s, w)
    ensures Lookup(s, w).Some?
  {
    var j :| 0 <= j < |s| && s[j].Some? && s[j].value.word == w;
    var h := HashIndex(w);
    assert Home(s[j].value) == h;
    assert ChainOccupied(s, j);
    assert forall i :: 0 <= i < Dist(h, j) ==> s[Slot(h, i)].Some?;
    ProbeReaches(s, w, h, 0, Dist(h, j));
  }

  /** A probe that finds an entry still finds it in a table that agrees on
      every occupied slot. */
  lemma {:induction false} ProbeAgree(s: Slots, t: Slots, w: string, h: nat, k: nat)
    requires |s| == TableSize && |t| == TableSize && h < TableSize && k <= TableSize
    requires forall j :: 0 <= j < TableSize && s[j].Some? ==> t[j] == s[j]
    requires Probe(s, w, h, k).Some?
    ensures Probe(t, w, h, k) == Probe(s, w, h, k)
    decreases TableSize - k
  {
    if s[Slot(h, k)].value.word != w {
      ProbeAgree(s, t, w, h, k + 1);
    }
  }

  /** The first empty slot at or after step `k`, in steps from `h`. */
  function FirstFree(s: Slots, h: nat, k: nat): (d: nat)
    requires |s| == TableSize && h < TableSize
    requires exists i :: k <= i < TableSize && s[Slot(h, i)].None?
    ensures k <= d < TableSize && s[Slot(h, d)].None?
    ensures forall i :: k <= i < d ==> s[Slot(h, i)].Some?
    decreases TableSize - k
  {
    if s[Slot(h, k)].None? then k else FirstFree(s, h, k + 1)
  }

  /** A table with an empty slot has one within a turn of any start. */
  lemma FreeWithinTurn(s: Slots, h: nat)
    requires |s| == TableSize && h < TableSize && HasFree(s)
    ensures exists i :: 0 <= i < TableSize && s[Slot(h, i)].None?
  {
    var j :| 0 <= j < |s| && s[j].None?;
    assert s[Slot(h, Dist(h, j))].None?;
  }

  /** The table after inserting `w` with code `m`: the entry goes into the
      first empty slot probing from the word's home slot. */
  function InsertSlots(s: Slots, w: string, m: string): (t: Slots)
    requires |s| == TableSize && HasFree(s)
    ensures |t| == TableSize
  {
    FreeWithinTurn(s, HashIndex(w));
    s[Slot(HashIndex(w), FirstFree(s, HashIndex(w), 0)) := Some(Entry(w, m))]
  }

  /** Inserting keeps the probing invariant. */
  lemma InsertKeepsChains(s: Slots, w: string, m: string)
    requires ProbeChains(s) && HasFree(s)
    ensures ProbeChains(InsertSlots(s, w, m))
  {
    var h := HashIndex(w);
    FreeWithinTurn(s, h);
    var d := FirstFree(s, h, 0);
    var t := InsertSlots(s, w, m);
    assert Dist(h, Slot(h, d)) == d by {
      if Dist(h, Slot(h, d)) != d {
        SlotsDiffer(h, d, Dist(h, Slot(h, d)));
      }
    }
    forall j | 0 <= j < TableSize
      ensures ChainOccupied(t, j)
    {
      if j != Slot(h, d) {
        assert ChainOccupied(s, j);
      }
    }
  }

  /** Inserting changes no lookup that already succeeded, makes the new
      word findable with its code when it was absent, and finds nothing new
      for any other word. */
  lemma LookupAfterInsert(s: Slots, w: string, m: string, x: string)
    requires ProbeChains(s) && HasFree(s)
    ensures Lookup(InsertSlots(s, w, m), x) ==
      if Lookup(s, x).Some? then Lookup(s, x)
      else if x == w then Some(Entry(w, m))
      else None
  {
    var t := InsertSlots(s, w, m);
    var h := HashIndex(w);
    FreeWithinTurn(s, h);
    var j0 := Slot(h, FirstFree(s, h, 0));
    assert forall j :: 0 <= j < TableSize && s[j].Some? ==> t[j] == s[j];
    if Lookup(s, x).Some? {
      ProbeAgree(s, t, x, HashIndex(x), 0);
    } else {
      if Holds(s, x) {
        LookupComplete(s, x);
      }
      InsertKeepsChains(s, w, m);
      if x == w {
        assert t[j0] == Some(Entry(w, m));
        LookupComplete(t, x);
        var r := Lookup(t, x);
        var i :| 0 <= i < |t| && t[i] == r;
        assert i == j0;
      }
    }
  }

  /** The number of occupied slots. */
  function Occupied(s: Slots): (n: nat)
    ensures n <= |s|
  {
    if |s| == 0 then 0
    else Occupied(s[..|s| - 1]) + (if s[|s| - 1].Some? then 1 else 0)
  }

  /** A table with fewer entries than slots has an empty slot. */
  lemma {:induction false} NotFullHasFree(s: Slots)
    requires Occupied(s) < |s|
    ensures HasFree(s)
  {
    if s[|s| - 1].Some? {
      NotFullHasFree(s[..|s| - 1]);
      var j :| 0 <= j < |s| - 1 && s[..|s| - 1][j].None?;
      assert s[j].None?;
    }
  }

  /** Filling an empty slot adds one entry. */
  lemma {:induction false} OccupiedFill(s: Slots, j: nat, e: Entry)
    requires j < |s| && s[j].None?
    ensures Occupied(s[j := Some(e)]) == Occupied(s) + 1
    decreases |s|
  {
    var t := s[j := Some(e)];
    if j < |s| - 1 {
      assert t[..|t| - 1] == s[..|s| - 1][j := Some(e)];
      OccupiedFill(s[..|s| - 1], j, e);
    } else {
      assert t[..|t| - 1] == s[..|s| - 1];
    }
  }

  /** `hashArray`: the word table, a fixed array of 20 slots, each empty or
      holding one entry. */
  class WordTable {
    const slots: array<Option<Entry>>

    ghost predicate Valid()
      reads this, slots
    {
      slots.Length == TableSize && ProbeChains(slots[..])
    }

    /** A table with every slot empty, as `hashArray` starts out. */
    constructor ()
      ensures Valid() && fresh(slots)
      ensures forall j :: 0 <= j < TableSize ==> slots[j].None?
      ensures Occupied(slots[..]) == 0
    {
      slots := new Option<Entry>[TableSize](_ => None);
      new;
      NoneOccupied(slots[..]);
    }

    /** `search`: probe from the word's home slot, wrapping around, and
        return the first entry for the word; stop at the first empty slot or
        after one turn of the table. */
    method Search(word: string) returns (r: Option<Entry>)
      requires Valid()
      ensures r == Lookup(slots[..], word)
    {
      var hash := HashString(word);
      var hashIndex := hash % TableSize;
      var probes := 0;
      while probes < TableSize
        invariant 0 <= probes <= TableSize
        invariant hashIndex == Slot(HashIndex(word), probes)
        invariant Probe(slots[..], word, HashIndex(word), probes) == Lookup(slots[..], word)
      {
        match slots[hashIndex]
        case None =>
          return None;
        case Some(e) =>
          if e.word == word {
            return Some(e);
          }
        SlotNext(HashIndex(word), probes);
        hashIndex := (hashIndex + 1) % TableSize;
        probes := probes + 1;
      }
      return None;
    }

    /** `insert`: probe from the word's home slot to the first empty slot and
        store the entry there. */
    method Insert(word: string, morse: string)
      requires Valid() && HasFree(slots[..])
      modifies slots
      ensures Valid()
      ensures slots[..] == InsertSlots(old(slots[..]), word, morse)
      ensures Occupied(slots[..]) == Occupied(old(slots[..])) + 1
    {
      ghost var s := slots[..];
      ghost var h := HashIndex(word);
      FreeWithinTurn(s, h);
      var hash := HashString(word);
      var hashIndex := hash % TableSize;
      ghost var probes := 0;
      while slots[hashIndex].Some?
        invariant slots[..] == s
        invariant 0 <= probes < TableSize
        invariant hashIndex == Slot(h, probes)
        invariant forall i :: 0 <= i < probes ==> s[Slot(h, i)].Some?
        invariant exists i :: probes <= i < TableSize && s[Slot(h, i)].None?
        decreases TableSize - probes
      {
        SlotNext(h, probes);
        hashIndex := (hashIndex + 1) % TableSize;
        probes := probes + 1;
      }
      assert probes == FirstFree(s, h, 0);
      slots[hashIndex] := Some(Entry(word, morse));
      InsertKeepsChains(s, word, morse);
      OccupiedFill(s, hashIndex, Entry(word, morse));
    }
  }

  lemma {:induction false} NoneOccupied(s: Slots)
    requires forall j :: 0 <= j < |s| ==> s[j].None?
    ensures Occupied(s) == 0
    ensures ProbeChains(s) <==> |s| == TableSize
  {
    if |s| > 0 {
      NoneOccupied(s[..|s| - 1]);
    }
  }

  /** The table holds the first `n` vocabulary words, each with its code,
      and nothing else. */
  ghost predicate LoadedWith(s: Slots, n: nat)
    requires |s| == TableSize && n <= TableSize
  {
    Morse.VocabularyWellFormed();
    && (forall k :: 0 <= k < n ==>
          Lookup(s, Morse.Words[k]) == Some(Entry(Morse.Words[k], Morse.WordCode(Morse.Words[k]))))
    && (forall x :: x !in Morse.Words[..n] ==> Lookup(s, x) == None)
  }

  /** Inserting the next vocabulary word extends what the table holds by that word. */
  lemma LoadNext(s: Slots, n: nat)
    requires ProbeChains(s) && HasFree(s) && n < TableSize && LoadedWith(s, n)
    ensures Morse.IsLowerWord(Morse.Words[n])
    ensures LoadedWith(InsertSlots(s, Morse.Words[n], Morse.WordCode(Morse.Words[n])), n + 1)
  {
    Morse.VocabularyWellFormed();
    var w := Morse.Words[n];
    var t := InsertSlots(s, w, Morse.WordCode(w));
    forall x
      ensures Lookup(t, x) ==
        if Lookup(s, x).Some? then Lookup(s, x)
        else if x == w then Some(Entry(w, Morse.WordCode(w)))
        else None
    {
      LookupAfterInsert(s, w, Morse.WordCode(w), x);
    }
    PrefixNext(Morse.Words, n);
    assert w !in Morse.Words[..n];
  }

  lemma PrefixNext<T>(s: seq<T>, n: nat)
    requires n < |s|
    ensures s[..n + 1] == s[..n] + [s[n]]
  {
  }

  /** `initialise_hash_table`: insert the first 20 vocabulary words, each
      with the code of its letters. The loop stops at 20, the table size, so
      the 21st word ("nap") is left out; the levels only ever draw among the
      first 20. */
  method InitialiseHashTable() returns (t: WordTable)
    ensures fresh(t) && fresh(t.slots) && t.Valid()
    ensures LoadedWith(t.slots[..], TableSize)
  {
    t := new WordTable();
    for i := 0 to TableSize
      invariant t.Valid()
      invariant Occupied(t.slots[..]) == i
      invariant LoadedWith(t.slots[..], i)
    {
      NotFullHasFree(t.slots[..]);
      LoadNext(t.slots[..], i);
      t.Insert(Morse.Words[i], Morse.WordCode(Morse.Words[i]));
    }
  }
}
