/**
 * The Quiddler deck (Deck.cs): a fixed template of 31 card types, the pile
 * `populate` expands it into, the in-place `shuffle`, dealing from a
 * cursor with `getCard`, and the letter scoring `getScore`.
 */
module Decks {
  import opened Cards
  import opened Wrappers

  /** Number of cards `populate` puts in the pile. */
  const PileSize := 118

  // ---------------------------------------------------------------------
  // The template `loadTemplate` builds, listed in four groups so that the
  // verifier can evaluate facts about each group on its own.

  function SinglesAToH(): seq<Card>
  {
    [Card("A", 10, 2), Card("B", 2, 8), Card("C", 2, 8), Card("D", 4, 5),
     Card("E", 12, 2), Card("F", 2, 6), Card("G", 4, 6), Card("H", 2, 7)]
  }

  function SinglesIToP(): seq<Card>
  {
    [Card("I", 8, 2), Card("J", 2, 13), Card("K", 2, 8), Card("L", 4, 3),
     Card("M", 2, 5), Card("N", 6, 5), Card("O", 8, 2), Card("P", 2, 6)]
  }

  function SinglesQToX(): seq<Card>
  {
    [Card("Q", 2, 15), Card("R", 6, 5), Card("S", 4, 3), Card("T", 6, 3),
     Card("U", 6, 4), Card("V", 2, 11), Card("W", 2, 10), Card("X", 2, 12)]
  }

  function SinglesYZAndPairs(): seq<Card>
  {
    [Card("Y", 4, 4), Card("Z", 2, 14), Card("CL", 2, 10), Card("ER", 2, 7),
     Card("IN", 2, 7), Card("QU", 2, 9), Card("TH", 2, 9)]
  }

  /**
   * The deck template, in the order `loadTemplate` adds the cards: the 26
   * single letters in alphabetical order, then five two-letter cards.
   */
  function Template(): (t: seq<Card>)
    ensures |t| == 31
    ensures forall i :: 0 <= i < 26 ==> t[i].Letter == [('A' as int + i) as char]
    ensures forall i :: 26 <= i < 31 ==> |t[i].Letter| == 2
  {
    SinglesAToH() + SinglesIToP() + SinglesQToX() + SinglesYZAndPairs()
  }

  // ---------------------------------------------------------------------
  // Populating

  /** `n` copies of `x` (none when `n` is not positive, as a `for` loop to `n` does). */
  function Repeat(x: string, n: int): (r: seq<string>)
    ensures |r| == if n <= 0 then 0 else n
    decreases n
  {
    if n <= 0 then [] else seq(n, _ => x)
  }

  /** One more copy is one more token at the end. */
  lemma RepeatSnoc(x: string, n: int)
    requires n > 0
    ensures Repeat(x, n) == Repeat(x, n - 1) + [x]
  {
    var a, b := Repeat(x, n), Repeat(x, n - 1) + [x];
    assert forall i :: 0 <= i < n ==> a[i] == x == b[i];
  }

  /** The pile `populate` builds: each template letter `DeckCount` times, in template order. */
  function Expand(t: seq<Card>): (r: seq<string>)
    ensures |r| == TotalCount(t)
  {
    if t == [] then []
    else
      var u := t[..|t| - 1];
      TotalCountSnoc(u, t[|t| - 1]);
      assert u + [t[|t| - 1]] == t;
      Expand(u) + Repeat(t[|t| - 1].Letter, t[|t| - 1].DeckCount)
  }

  function Copies(c: Card): nat
  {
    if c.DeckCount <= 0 then 0 else c.DeckCount
  }

  /** Number of cards the template describes. */
  function TotalCount(t: seq<Card>): nat
  {
    if t == [] then 0 else Copies(t[0]) + TotalCount(t[1..])
  }

  /** `n * v`, written as repeated addition so that the proofs about it stay linear. */
  function Times(n: nat, v: int): int
  {
    if n == 0 then 0 else Times(n - 1, v) + v
  }

  /** Points of a whole pile expanded from the template. */
  function WeightedTotal(t: seq<Card>): int
  {
    if t == [] then 0 else Times(Copies(t[0]), t[0].Value) + WeightedTotal(t[1..])
  }

  lemma {:induction false} TotalCountSnoc(t: seq<Card>, c: Card)
    ensures TotalCount(t + [c]) == TotalCount(t) + Copies(c)
    ensures WeightedTotal(t + [c]) == WeightedTotal(t) + Times(Copies(c), c.Value)
  {
    if t != [] {
      assert (t + [c])[1..] == t[1..] + [c];
      TotalCountSnoc(t[1..], c);
    } else {
      assert [c][1..] == [];
    }
  }

  lemma {:induction false} TotalCountConcat(a: seq<Card>, b: seq<Card>)
    ensures TotalCount(a + b) == TotalCount(a) + TotalCount(b)
    ensures WeightedTotal(a + b) == WeightedTotal(a) + WeightedTotal(b)
  {
    if a != [] {
      assert (a + b)[1..] == a[1..] + b;
      TotalCountConcat(a[1..], b);
    } else {
      assert a + b == b;
    }
  }


  /** Letters of the template entries. */
  predicate NamesLetter(t: seq<Card>, x: string)
  {
    exists i :: 0 <= i < |t| && t[i].Letter == x
  }

  predicate DistinctLetters(t: seq<Card>)
  {
    forall i, j :: 0 <= i < j < |t| ==> t[i].Letter != t[j].Letter
  }

  /** A letter that no template entry names is not in the pile. */
  lemma {:induction false} ExpandOnlyTemplateLetters(t: seq<Card>, x: string)
    requires !NamesLetter(t, x)
    ensures multiset(Expand(t))[x] == 0
  {
    if t != [] {
      var u := t[..|t| - 1];
      assert !NamesLetter(u, x) by {
        forall i | 0 <= i < |u| ensures u[i].Letter != x { assert u[i] == t[i]; }
      }
      ExpandOnlyTemplateLetters(u, x);
      assert t[|t| - 1].Letter != x;
      RepeatCount(t[|t| - 1].Letter, t[|t| - 1].DeckCount, x);
    }
  }

  /** With distinct letters, the pile holds each template letter exactly `DeckCount` times. */
  lemma {:induction false} ExpandCopies(t: seq<Card>, k: int)
    requires DistinctLetters(t) && 0 <= k < |t|
    ensures multiset(Expand(t))[t[k].Letter] == Copies(t[k])
  {
    var u, last := t[..|t| - 1], t[|t| - 1];
    var x := t[k].Letter;
    var rep := Repeat(last.Letter, last.DeckCount);
    assert Expand(t) == Expand(u) + rep;
    if k == |t| - 1 {
      assert !NamesLetter(u, x) by {
        forall i | 0 <= i < |u| ensures u[i].Letter != x { assert u[i] == t[i]; }
      }
      ExpandOnlyTemplateLetters(u, x);
      assert rep == Repeat(x, last.DeckCount);
      RepeatCount(x, last.DeckCount, x);
    } else {
      assert DistinctLetters(u) by {
        forall i, j | 0 <= i < j < |u| ensures u[i].Letter != u[j].Letter { assert u[i] == t[i] && u[j] == t[j]; }
      }
      ExpandCopies(u, k);
      assert u[k] == t[k];
      assert last.Letter != x;
      RepeatCount(last.Letter, last.DeckCount, x);
    }
  }

  /** `n` copies of `x` hold `x` exactly `n` times and nothing else. */
  lemma {:induction false} RepeatCount(x: string, n: int, y: string)
    ensures multiset(Repeat(x, n))[y] == if y != x || n <= 0 then 0 else n
    decreases n
  {
    if n > 0 {
      RepeatCount(x, n - 1, y);
      RepeatSnoc(x, n);
    }
  }

  /** The pile for the first `k + 1` entries extends the pile for the first `k`. */
  lemma ExpandSnoc(t: seq<Card>, k: int)
    requires 0 <= k < |t|
    ensures Expand(t[..k + 1]) == Expand(t[..k]) + Repeat(t[k].Letter, t[k].DeckCount)
  {
    assert t[..k + 1][..k] == t[..k];
  }

  // ---------------------------------------------------------------------
  // Scoring

  /** Value of the first template entry whose letter is exactly `x`; 0 when none is. */
  function FirstValue(t: seq<Card>, x: string): (v: int)
    ensures (forall i :: 0 <= i < |t| ==> t[i].Value >= 0) ==> v >= 0
  {
    if t == [] then 0 else if t[0].Letter == x then t[0].Value else FirstValue(t[1..], x)
  }

  /** What `getScore(cardsUsed)` returns: each token scored by FirstValue, duplicates counted. */
  function ScoreOf(t: seq<Card>, used: seq<string>): (score: int)
    ensures (forall i :: 0 <= i < |t| ==> t[i].Value >= 0) ==> score >= 0
  {
    if used == [] then 0 else ScoreOf(t, used[..|used| - 1]) + FirstValue(t, used[|used| - 1])
  }

  predicate PositiveEntries(t: seq<Card>)
  {
    t == [] || (t[0].DeckCount > 0 && t[0].Value > 0 && PositiveEntries(t[1..]))
  }

  lemma {:induction false} PositiveEntriesAt(t: seq<Card>, k: int)
    requires PositiveEntries(t) && 0 <= k < |t|
    ensures t[k].DeckCount > 0 && t[k].Value > 0
  {
    if k > 0 { PositiveEntriesAt(t[1..], k - 1); }
  }

  lemma {:induction false} PositiveEntriesConcat(a: seq<Card>, b: seq<Card>)
    requires PositiveEntries(a) && PositiveEntries(b)
    ensures PositiveEntries(a + b)
  {
    if a != [] {
      assert (a + b)[1..] == a[1..] + b;
      PositiveEntriesConcat(a[1..], b);
    } else {
      assert a + b == b;
    }
  }

  /** Scoring two lists of tokens together adds their scores. */
  lemma {:induction false} ScoreOfConcat(t: seq<Card>, a: seq<string>, b: seq<string>)
    ensures ScoreOf(t, a + b) == ScoreOf(t, a) + ScoreOf(t, b)
    decreases |b|
  {
    if b == [] {
      assert a + b == a;
    } else {
      var b' := b[..|b| - 1];
      ScoreOfConcat(t, a, b');
      assert (a + b)[..|a + b| - 1] == a + b';
    }
  }

  /** Scoring a list is scoring it without its `j`-th token, plus that token. */
  lemma ScoreOfRemoveAt(t: seq<Card>, b: seq<string>, j: int)
    requires 0 <= j < |b|
    ensures ScoreOf(t, b) == ScoreOf(t, b[..j] + b[j + 1..]) + FirstValue(t, b[j])
  {
    var tail := b[j..];
    assert b == b[..j] + tail;
    assert tail == [b[j]] + b[j + 1..];
    ScoreOfConcat(t, b[..j], tail);
    ScoreOfConcat(t, [b[j]], b[j + 1..]);
    ScoreOfConcat(t, b[..j], b[j + 1..]);
    assert ScoreOf(t, [b[j]]) == FirstValue(t, b[j]) by { assert [b[j]][..0] == []; }
  }

  lemma MultisetRemoveAt(b: seq<string>, j: int)
    requires 0 <= j < |b|
    ensures multiset(b[..j] + b[j + 1..]) == multiset(b) - multiset{b[j]}
  {
    assert b == b[..j] + [b[j]] + b[j + 1..];
  }

  /** The score depends on the tokens only, not on the order in which they are listed. */
  lemma {:induction false} ScoreOfPermutation(t: seq<Card>, a: seq<string>, b: seq<string>)
    requires multiset(a) == multiset(b)
    ensures ScoreOf(t, a) == ScoreOf(t, b)
    decreases |a|
  {
    if a == [] {
      assert |b| == |multiset(b)| == 0;
    } else {
      var x := a[|a| - 1];
      var a' := a[..|a| - 1];
      assert x in multiset(b) by { assert a == a' + [x]; }
      var j :| 0 <= j < |b| && b[j] == x;
      var b' := b[..j] + b[j + 1..];
      MultisetRemoveAt(a, |a| - 1);
      MultisetRemoveAt(b, j);
      assert a[..|a| - 1] + a[|a|..] == a';
      ScoreOfPermutation(t, a', b');
      ScoreOfRemoveAt(t, b, j);
    }
  }

  lemma ScoreOfRepeatStep(t: seq<Card>, x: string, n: int)
    requires n > 0
    ensures ScoreOf(t, Repeat(x, n)) == ScoreOf(t, Repeat(x, n - 1)) + FirstValue(t, x)
  {
    var r, r' := Repeat(x, n), Repeat(x, n - 1);
    RepeatSnoc(x, n);
    assert r[..|r| - 1] == r' && r[|r| - 1] == x;
  }

  /** A run of `n` copies of one token scores `n` times its value. */
  lemma {:induction false} ScoreOfRepeat(t: seq<Card>, x: string, n: nat)
    ensures ScoreOf(t, Repeat(x, n)) == Times(n, FirstValue(t, x))
  {
    if n == 0 {
      assert Repeat(x, 0) == [];
    } else {
      ScoreOfRepeat(t, x, n - 1);
      ScoreOfRepeatStep(t, x, n);
      assert Times(n, FirstValue(t, x)) == Times(n - 1, FirstValue(t, x)) + FirstValue(t, x);
    }
  }

  /** With distinct letters, a template letter scores the value of its own entry. */
  lemma {:induction false} FirstValueOfEntry(t: seq<Card>, k: int)
    requires DistinctLetters(t) && 0 <= k < |t|
    ensures FirstValue(t, t[k].Letter) == t[k].Value
  {
    if k > 0 {
      assert t[0].Letter != t[k].Letter;
      assert DistinctLetters(t[1..]) by {
        forall i, j | 0 <= i < j < |t| - 1 ensures t[1..][i].Letter != t[1..][j].Letter {
          assert t[1..][i] == t[i + 1] && t[1..][j] == t[j + 1];
        }
      }
      FirstValueOfEntry(t[1..], k - 1);
    }
  }

  /** Scoring the cards of one template entry gives that entry's share of the pile total. */
  lemma ScoreOfEntryCards(t: seq<Card>, k: int)
    requires DistinctLetters(t) && 0 <= k < |t|
    ensures ScoreOf(t, Repeat(t[k].Letter, t[k].DeckCount)) == Times(Copies(t[k]), t[k].Value)
  {
    assert Repeat(t[k].Letter, t[k].DeckCount) == Repeat(t[k].Letter, Copies(t[k]));
    ScoreOfRepeat(t, t[k].Letter, Copies(t[k]));
    FirstValueOfEntry(t, k);
  }

  /** Scoring the first `k` template groups of a freshly populated pile. */
  lemma {:induction false} ScoreOfExpandedPrefix(t: seq<Card>, k: int)
    requires DistinctLetters(t) && 0 <= k <= |t|
    ensures ScoreOf(t, Expand(t[..k])) == WeightedTotal(t[..k])
  {
    if k > 0 {
      var u, c := t[..k - 1], t[k - 1];
      assert u + [c] == t[..k];
      TotalCountSnoc(u, c);
      ScoreOfExpandedPrefix(t, k - 1);
      ExpandSnoc(t, k - 1);
      ScoreOfConcat(t, Expand(u), Repeat(c.Letter, c.DeckCount));
      ScoreOfEntryCards(t, k - 1);
    }
  }

  // ---------------------------------------------------------------------
  // Facts about the template

  /** Orders the template letters: single letters alphabetically, then the pairs. */
  function Rank(s: string): int
  {
    if |s| == 1 then s[0] as int
    else if |s| == 2 then 0x110000 + (s[0] as int) * 0x110000 + s[1] as int
    else -1
  }

  predicate RankAscending(t: seq<Card>)
  {
    |t| < 2 || (Rank(t[0].Letter) < Rank(t[1].Letter) && RankAscending(t[1..]))
  }

  lemma {:induction false} RankAscendingConcat(a: seq<Card>, b: seq<Card>)
    requires RankAscending(a) && RankAscending(b)
    requires a != [] && b != [] && Rank(a[|a| - 1].Letter) < Rank(b[0].Letter)
    ensures RankAscending(a + b)
  {
    if |a| > 1 {
      assert (a + b)[1..] == a[1..] + b;
      RankAscendingConcat(a[1..], b);
    } else {
      assert a + b == [a[0]] + b;
    }
  }

  lemma {:induction false} RankAscendingIncreasing(t: seq<Card>)
    requires RankAscending(t)
    ensures forall i, j :: 0 <= i < j < |t| ==> Rank(t[i].Letter) < Rank(t[j].Letter)
  {
    if |t| >= 2 {
      RankAscendingIncreasing(t[1..]);
      forall i, j | 0 <= i < j < |t| ensures Rank(t[i].Letter) < Rank(t[j].Letter) {
        assert t[j] == t[1..][j - 1];
        if i > 0 { assert t[i] == t[1..][i - 1]; }
        else if j > 1 { assert t[1] == t[1..][0]; }
      }
    }
  }

  /** Each group of the template, evaluated on its own: its order, then its counts. */
  lemma GroupAToH()
    ensures RankAscending(SinglesAToH()) && PositiveEntries(SinglesAToH())
    ensures TotalCount(SinglesAToH()) == 38 && WeightedTotal(SinglesAToH()) == 146
  {
    GroupAToHCounts();
  }

  lemma GroupAToHCounts()
    ensures TotalCount(SinglesAToH()) == 38 && WeightedTotal(SinglesAToH()) == 146
  {
  }

  lemma GroupIToP()
    ensures RankAscending(SinglesIToP()) && PositiveEntries(SinglesIToP())
    ensures TotalCount(SinglesIToP()) == 34 && WeightedTotal(SinglesIToP()) == 138
  {
    GroupIToPCounts();
  }

  lemma GroupIToPCounts()
    ensures TotalCount(SinglesIToP()) == 34 && WeightedTotal(SinglesIToP()) == 138
  {
  }

  lemma GroupQToX()
    ensures RankAscending(SinglesQToX()) && PositiveEntries(SinglesQToX())
    ensures TotalCount(SinglesQToX()) == 30 && WeightedTotal(SinglesQToX()) == 180
  {
    GroupQToXCounts();
  }

  lemma GroupQToXCounts()
    ensures TotalCount(SinglesQToX()) == 30 && WeightedTotal(SinglesQToX()) == 180
  {
  }

  lemma GroupYZAndPairs()
    ensures RankAscending(SinglesYZAndPairs()) && PositiveEntries(SinglesYZAndPairs())
    ensures TotalCount(SinglesYZAndPairs()) == 16 && WeightedTotal(SinglesYZAndPairs()) == 128
  {
    GroupYZAndPairsCounts();
  }

  lemma GroupYZAndPairsCounts()
    ensures TotalCount(SinglesYZAndPairs()) == 16 && WeightedTotal(SinglesYZAndPairs()) == 128
  {
  }

  lemma RankAscendingAToP()
    ensures RankAscending(SinglesAToH() + SinglesIToP())
  {
    GroupAToH(); GroupIToP();
    RankAscendingConcat(SinglesAToH(), SinglesIToP());
  }

  lemma RankAscendingAToX()
    ensures RankAscending(SinglesAToH() + SinglesIToP() + SinglesQToX())
  {
    var h := SinglesAToH() + SinglesIToP();
    RankAscendingAToP(); GroupQToX();
    assert h[|h| - 1] == Card("P", 2, 6);
    RankAscendingConcat(h, SinglesQToX());
  }

  lemma TemplateRankAscending(t: seq<Card>)
    requires t == Template()
    ensures RankAscending(t)
  {
    var h := SinglesAToH() + SinglesIToP() + SinglesQToX();
    RankAscendingAToX(); GroupYZAndPairs();
    assert h[|h| - 1] == Card("X", 2, 12);
    RankAscendingConcat(h, SinglesYZAndPairs());
  }

  lemma TemplatePositive(t: seq<Card>)
    requires t == Template()
    ensures PositiveEntries(t)
  {
    var g1, g2, g3, g4 := SinglesAToH(), SinglesIToP(), SinglesQToX(), SinglesYZAndPairs();
    GroupAToH(); GroupIToP(); GroupQToX(); GroupYZAndPairs();
    PositiveEntriesConcat(g1, g2);
    PositiveEntriesConcat(g1 + g2, g3);
    PositiveEntriesConcat(g1 + g2 + g3, g4);
  }

  /** The template lists 31 card types with pairwise distinct letters and positive counts and values. */
  lemma TemplateShape(t: seq<Card>)
    requires t == Template()
    ensures |t| == 31
    ensures DistinctLetters(t)
    ensures forall i :: 0 <= i < |t| ==> t[i].DeckCount > 0 && t[i].Value > 0
  {
    TemplateRankAscending(t);
    RankAscendingIncreasing(t);
    TemplatePositive(t);
    forall i | 0 <= i < |t| ensures t[i].DeckCount > 0 && t[i].Value > 0 {
      PositiveEntriesAt(t, i);
    }
  }

  /** The template describes 118 cards, and `populate` puts that many in the pile. */
  lemma PileSizeFact(t: seq<Card>)
    requires t == Template()
    ensures TotalCount(t) == PileSize && |Expand(t)| == PileSize
  {
    var g1, g2, g3, g4 := SinglesAToH(), SinglesIToP(), SinglesQToX(), SinglesYZAndPairs();
    GroupAToH(); GroupIToP(); GroupQToX(); GroupYZAndPairs();
    TotalCountConcat(g1, g2);
    TotalCountConcat(g1 + g2, g3);
    TotalCountConcat(g1 + g2 + g3, g4);
  }

  /** A freshly populated pile holds each template letter exactly `DeckCount` times. */
  lemma PileCopiesFact(t: seq<Card>)
    requires t == Template()
    ensures forall i :: 0 <= i < |t| ==> multiset(Expand(t))[t[i].Letter] == t[i].DeckCount
  {
    TemplateShape(t);
    forall i | 0 <= i < |t| ensures multiset(Expand(t))[t[i].Letter] == t[i].DeckCount {
      ExpandCopies(t, i);
    }
  }

  lemma TemplateWeightedTotal(t: seq<Card>)
    requires t == Template()
    ensures WeightedTotal(t) == 592
  {
    var g1, g2, g3, g4 := SinglesAToH(), SinglesIToP(), SinglesQToX(), SinglesYZAndPairs();
    GroupAToH(); GroupIToP(); GroupQToX(); GroupYZAndPairs();
    TotalCountConcat(g1, g2);
    TotalCountConcat(g1 + g2, g3);
    TotalCountConcat(g1 + g2 + g3, g4);
  }

  /** A freshly populated pile, scored as a whole, is worth 592 points. */
  lemma PileScoreFact(t: seq<Card>)
    requires t == Template()
    ensures ScoreOf(t, Expand(t)) == 592
  {
    TemplateWeightedTotal(t);
    TemplateShape(t);
    ScoreOfExpandedPrefix(t, |t|);
    assert t[..|t|] == t;
  }

  // ---------------------------------------------------------------------
  // Shuffling

  /** `rand.Next(size)` values: one per card, each a valid index. */
  predicate PicksInRange(picks: seq<int>, size: int)
  {
    forall i :: 0 <= i < |picks| ==> 0 <= picks[i] < size
  }

  /** Exchanges the elements at `i` and `j`. */
  function Swap(s: seq<string>, i: int, j: int): (r: seq<string>)
    requires 0 <= i < |s| && 0 <= j < |s|
    ensures |r| == |s| && multiset(r) == multiset(s)
    ensures r[i] == s[j] && r[j] == s[i]
    ensures forall k :: 0 <= k < |s| && k != i && k != j ==> r[k] == s[k]
  {
    s[i := s[j]][j := s[i]]
  }

  /** The pile after the first `n` steps of `shuffle`, step `i` swapping position `i` with `picks[i]`. */
  function ShufflePass(s: seq<string>, picks: seq<int>, n: int): (r: seq<string>)
    requires 0 <= n <= |picks| == |s| && PicksInRange(picks, |s|)
    ensures |r| == |s|
  {
    if n == 0 then s
    else
      var t := ShufflePass(s, picks, n - 1);
      if picks[n - 1] != n - 1 then Swap(t, n - 1, picks[n - 1]) else t
  }

  /** One step of `shuffle` keeps the same cards. */
  lemma ShufflePassStep(s: seq<string>, picks: seq<int>, n: int)
    requires 0 < n <= |picks| == |s| && PicksInRange(picks, |s|)
    ensures multiset(ShufflePass(s, picks, n)) == multiset(ShufflePass(s, picks, n - 1))
  {
    var t := ShufflePass(s, picks, n - 1);
    if picks[n - 1] != n - 1 {
      var r := Swap(t, n - 1, picks[n - 1]);
      assert multiset(r) == multiset(t);
    }
  }

  /** Shuffling only rearranges the pile: the same cards, each as often as before. */
  lemma {:induction false} ShufflePassPermutes(s: seq<string>, picks: seq<int>, n: int)
    requires 0 <= n <= |picks| == |s| && PicksInRange(picks, |s|)
    ensures multiset(ShufflePass(s, picks, n)) == multiset(s)
    decreases n
  {
    if n == 0 {
      assert ShufflePass(s, picks, 0) == s;
    } else {
      ShufflePassPermutes(s, picks, n - 1);
      ShufflePassStep(s, picks, n);
    }
  }

  // ---------------------------------------------------------------------
  // Dealing

  /** The outcome of `n` successive `getCard` calls: the cards dealt, the cursor, and whether all succeeded. */
  datatype Deal = Deal(drawn: seq<string>, cursor: int, complete: bool)

  /**
   * `n` calls of `getCard` from cursor `idx`: each call deals the card under
   * the cursor and advances it while `idx < |cards| - 1`; the first refused
   * call stops the run.
   */
  function DealRun(cards: seq<string>, idx: int, n: nat): (d: Deal)
    requires 0 <= idx
    ensures idx <= d.cursor && |d.drawn| == d.cursor - idx
    ensures forall i :: 0 <= i < |d.drawn| ==> idx + i < |cards| - 1 && d.drawn[i] == cards[idx + i]
    ensures d.complete <==> |d.drawn| == n
    ensures !d.complete ==> |d.drawn| < n && d.cursor >= |cards| - 1
    decreases n
  {
    if n == 0 then Deal([], idx, true)
    else if idx < |cards| - 1 then
      var d := DealRun(cards, idx + 1, n - 1);
      Deal([cards[idx]] + d.drawn, d.cursor, d.complete)
    else Deal([], idx, false)
  }

  /**
   * Dealing `n` cards succeeds exactly when `n` more positions remain before
   * the last card; the cards come from consecutive positions, the cursor
   * moves past each card dealt, and a refused run still consumes the cards
   * it dealt before the refusal.
   */
  lemma {:induction false} DealRunClosedForm(cards: seq<string>, idx: int, n: nat)
    requires 0 <= idx <= |cards|
    ensures var d := DealRun(cards, idx, n);
      (d.complete <==> n == 0 || idx + n <= |cards| - 1) &&
      (d.complete ==> d.cursor == idx + n && d.drawn == cards[idx..idx + n]) &&
      (!d.complete ==> d.cursor == (if idx < |cards| - 1 then |cards| - 1 else idx) &&
                       d.drawn == cards[idx..d.cursor])
    decreases n
  {
    if n > 0 && idx < |cards| - 1 {
      DealRunClosedForm(cards, idx + 1, n - 1);
      var d := DealRun(cards, idx + 1, n - 1);
      assert [cards[idx]] + cards[idx + 1..d.cursor] == cards[idx..d.cursor];
    }
  }

  /** From a freshly populated pile at most 117 cards can be dealt: the last card never is. */
  lemma DealLimit(cards: seq<string>, n: nat)
    requires |cards| == PileSize
    ensures DealRun(cards, 0, n).complete <==> n <= PileSize - 1
    ensures DealRun(cards, 0, n).cursor <= PileSize - 1
  {
    DealRunClosedForm(cards, 0, n);
  }

  // ---------------------------------------------------------------------
  // The deck object

  class Deck {
    var template: seq<Card>
    var cards: seq<string>
    var cardIdx: int

    /** `loadTemplate` has run. */
    ghost predicate TemplateLoaded()
      reads this
    {
      template == Template()
    }

    /**
     * The template is loaded, the pile is a rearrangement of the expanded
     * template and the cursor stands on a card: it never passes the last one.
     */
    ghost predicate Valid()
      reads this
    {
      TemplateLoaded() &&
      |cards| == PileSize &&
      multiset(cards) == multiset(Expand(template)) &&
      0 <= cardIdx < |cards|
    }

    /** `new Deck()`: load the template, populate, shuffle with the given random indices. */
    constructor (picks: seq<int>)
      requires |picks| == PileSize && PicksInRange(picks, PileSize)
      ensures Valid() && |Expand(template)| == PileSize
      ensures cards == ShufflePass(Expand(template), picks, PileSize) && cardIdx == 0
    {
      template := Template();
      cards := [];
      cardIdx := 0;
      new;
      Populate();
      PileSizeFact(template);
      Shuffle(picks);
    }

    /** `populate`: clear the pile and the cursor, then add each template letter `DeckCount` times. */
    method Populate()
      modifies this`cards, this`cardIdx
      ensures cards == Expand(template) && cardIdx == 0
    {
      cards := [];
      cardIdx := 0;
      var k := 0;
      while k < |template|
        invariant 0 <= k <= |template|
        invariant cards == Expand(template[..k]) && cardIdx == 0
      {
        var card := template[k];
        var i := 0;
        while i < card.DeckCount
          invariant 0 <= i <= Copies(card)
          invariant cards == Expand(template[..k]) + Repeat(card.Letter, i) && cardIdx == 0
        {
          cards := cards + [card.Letter];
          RepeatSnoc(card.Letter, i + 1);
          i := i + 1;
        }
        assert Repeat(card.Letter, i) == Repeat(card.Letter, card.DeckCount);
        ExpandSnoc(template, k);
        k := k + 1;
      }
      assert template[..k] == template;
    }

    /**
     * `shuffle`: for each position `i` in turn, swap it with the random
     * position `picks[i]` unless that is `i` itself.  The cursor is left alone.
     */
    method Shuffle(picks: seq<int>)
      requires Valid()
      requires |picks| == |cards| && PicksInRange(picks, |cards|)
      modifies this`cards
      ensures Valid()
      ensures cards == ShufflePass(old(cards), picks, |picks|)
    {
      ghost var pile := cards;
      var i := 0;
      while i < |cards|
        invariant 0 <= i <= |cards| == |picks| == |pile|
        invariant cards == ShufflePass(pile, picks, i)
      {
        var randIdx := picks[i];
        if randIdx != i {
          var temp := cards[i];
          cards := cards[i := cards[randIdx]];
          cards := cards[randIdx := temp];
        }
        i := i + 1;
      }
      ShufflePassPermutes(pile, picks, |picks|);
      assert multiset(cards) == multiset(pile);
    }

    /**
     * `getCard`: deal the card under the cursor and advance it, or refuse
     * (None, the IndexOutOfRangeException) when the cursor has reached the
     * last card, leaving the cursor where it is.
     */
    method GetCard() returns (card: Option<string>)
      requires 0 <= cardIdx
      modifies this`cardIdx
      ensures card.Some? <==> old(cardIdx) < |cards| - 1
      ensures card.Some? ==> card.value == cards[old(cardIdx)] && cardIdx == old(cardIdx) + 1
      ensures card.None? ==> cardIdx == old(cardIdx)
    {
      if cardIdx < |cards| - 1 {
        card := Some(cards[cardIdx]);
        cardIdx := cardIdx + 1;
      } else {
        card := None;
      }
    }

    /**
     * `getScore`: for every token, add the value of the first template entry
     * with exactly that letter.  Reads the deck and changes nothing.
     */
    method GetScore(cardsUsed: seq<string>) returns (score: int)
      ensures score == ScoreOf(template, cardsUsed)
    {
      score := 0;
      var i := 0;
      while i < |cardsUsed|
        invariant 0 <= i <= |cardsUsed|
        invariant score == ScoreOf(template, cardsUsed[..i])
      {
        var sCard := cardsUsed[i];
        var j := 0;
        while j < |template|
          invariant 0 <= j <= |template|
          invariant FirstValue(template, sCard) == FirstValue(template[j..], sCard)
          invariant score == ScoreOf(template, cardsUsed[..i])
        {
          if sCard == template[j].Letter {
            score := score + template[j].Value;
            break;
          }
          assert template[j..][1..] == template[j + 1..];
          j := j + 1;
        }
        assert cardsUsed[..i + 1][..i] == cardsUsed[..i];
        i := i + 1;
      }
      assert cardsUsed[..i] == cardsUsed;
    }
  }
}
