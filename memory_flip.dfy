/** Memory Flip Advanced (script.js:335-376): 24 face-down cards, two of
    each of 12 symbols, and the click handler's state machine over
    `first`, `lock` and `matched`. */
module MemoryFlip {
  import opened Scoring
  import opened Counting
  import Shuffle

  /** `emojis.length`: the number of distinct symbols, and of pairs. */
  const Symbols: int := 12
  const DeckSize: int := 24

  /** `[...emojis, ...emojis]`, before shuffling. The twelve emoji strings
      are pairwise different, which is all the game uses, so they are
      stood for by their indices 0..11. */
  function Pairs(): seq<int>
  {
    Keys(Symbols) + Keys(Symbols)
  }

  /** `shuffle([...emojis, ...emojis])` with the draws of Math.random. */
  function Deck(picks: seq<int>): seq<int>
    requires Shuffle.ValidPicks(picks, DeckSize)
  {
    Shuffle.Shuffled(Pairs(), picks)
  }

  /** However the deck is shuffled, it holds 24 cards and each symbol
      exactly twice. */
  lemma DeckHasPairs(picks: seq<int>, v: int)
    requires Shuffle.ValidPicks(picks, DeckSize)
    ensures |Deck(picks)| == DeckSize
    ensures multiset(Deck(picks))[v] == if 0 <= v < Symbols then 2 else 0
  {
    Shuffle.ShuffledPermutes(Pairs(), picks);
    KeysOnce(Symbols, v);
    assert multiset(Pairs()) == multiset(Keys(Symbols)) + multiset(Keys(Symbols));
  }

  function Flag(b: bool): nat { if b then 1 else 0 }

  /** The board: `dataset.open` per card, `first`, `lock`, `matched` and
      `last`. `flipping` is the `card` captured by the 500 ms
      timer that a mismatch arms; it is set exactly while `lock`. */
  class Board {
    const deck: seq<int>
    var open: seq<bool>
    var first: Option<nat>
    var lock: bool
    var matched: nat
    var last: real
    var flipping: Option<nat>

    /** The face-up cards are the matched pairs, the first card of a
        pending pair, and the second card of a mismatch waiting to be
        turned back; `last` is the matched share, held below one. */
    ghost predicate Valid()
      reads this
    {
      && |deck| == DeckSize && |open| == DeckSize
      && (first.Some? ==> first.value < DeckSize && open[first.value])
      && (lock <==> flipping.Some?)
      && (lock ==> first.Some? && flipping.value < DeckSize && open[flipping.value]
                   && flipping.value != first.value && deck[flipping.value] != deck[first.value])
      && CountTrue(open) == 2 * matched + Flag(first.Some?) + Flag(lock)
      && 0.0 <= last <= matched as real / Symbols as real
      && (matched < Symbols ==> last == matched as real / Symbols as real)
    }

    /** The face-up cards bound the pairs found: never more than 12. */
    lemma MatchedBound()
      requires Valid()
      ensures matched <= Symbols
    {
    }

    constructor (picks: seq<int>)
      requires Shuffle.ValidPicks(picks, DeckSize)
      ensures Valid()
      ensures deck == Deck(picks)
      ensures open == seq(DeckSize, _ => false)
      ensures first == None && !lock && matched == 0 && last == 0.0
    {
      Shuffle.ShuffledPermutes(Pairs(), picks);
      deck := Deck(picks);
      open := seq(DeckSize, _ => false);
      first := None;
      lock := false;
      matched := 0;
      last := 0.0;
      flipping := None;
      new;
      ZeroCount(DeckSize);
    }

    /** The click handler of card i. */
    method Click(i: nat) returns (finish: Option<Progress>)
      requires Valid() && i < DeckSize
      modifies this
      ensures Valid()
      ensures matched <= Symbols
      ensures old(lock) || old(open[i]) ==>
        open == old(open) && first == old(first) && lock == old(lock) && flipping == old(flipping)
        && matched == old(matched) && last == old(last) && finish == None
      ensures !old(lock) && !old(open[i]) ==> open == old(open)[i := true]
      ensures !old(lock) && !old(open[i]) && old(first).None? ==>
        first == Some(i) && !lock && matched == old(matched) && last == old(last) && finish == None
      ensures !old(lock) && !old(open[i]) && old(first).Some? && deck[old(first).value] == deck[i] ==>
        first == None && !lock && matched == old(matched) + 1
        && finish == (if matched == Symbols then Some(Number(1.0)) else None)
        && last == (if matched == Symbols then old(last) else matched as real / Symbols as real)
      ensures !old(lock) && !old(open[i]) && old(first).Some? && deck[old(first).value] != deck[i] ==>
        first == old(first) && lock && flipping == Some(i) && matched == old(matched)
        && last == old(last) && finish == None
    {
      if lock || open[i] {
        return None;
      }
      CountUpdate(open, i, true);
      open := open[i := true];
      if first.None? {
        first := Some(i);
        finish := None;
      } else if deck[first.value] == deck[i] {
        matched := matched + 1;
        first := None;
        var prog := matched as real / Symbols as real;
        if prog >= 1.0 {
          finish := Some(Number(1.0));
        } else {
          last := Max(last, prog);
          finish := None;
        }
      } else {
        lock := true;
        flipping := Some(i);
        finish := None;
      }
    }

    /** The 500 ms timer after a mismatch: both cards go face down. */
    method FlipBack()
      requires Valid() && lock
      modifies this
      ensures Valid()
      ensures open == old(open)[old(flipping).value := false][old(first).value := false]
      ensures first == None && !lock && flipping == None
      ensures matched == old(matched) && last == old(last)
    {
      var card := flipping.value;
      CountUpdate(open, card, false);
      open := open[card := false];
      CountUpdate(open, first.value, false);
      open := open[first.value := false];
      first := None;
      lock := false;
      flipping := None;
    }
  }
}
