/** Simon Says (script.js:434-481): a growing sequence of pads to repeat.
    The timers become explicit steps: `NextRound` is a `nextRound` call
    (the first one, or one a timer fires), `EndPlayback` is the last step
    of a `playSeq` run, and `PlayInput` is a pad press. */
module Simon {
  import opened Scoring

  /** A round of this length gives full progress. */
  const Goal: int := 8
  const Pads: int := 4

  /** `Math.min(1, best/8)`. */
  function RoundProgress(best: nat): real
  {
    Min(1.0, best as real / Goal as real)
  }

  /** The game's state. */
  datatype State = State(
    sequence: seq<int>,  // `seq`, pad indices 0..3
    userIndex: nat,
    accepting: bool,
    best: nat,
    last: real,
    rounds: nat,         // `nextRound` calls scheduled and not yet run
    playbacks: nat)      // `playSeq` runs under way

  /** What a press does: the new state and the finishGame call, if any. */
  datatype Press = Press(next: State, finish: Option<Progress>)

  ghost predicate Inv(s: State)
  {
    && s.userIndex <= |s.sequence|
    && s.best <= |s.sequence|
    && (forall k :: 0 <= k < |s.sequence| ==> 0 <= s.sequence[k] < Pads)
    && s.last == RoundProgress(s.best)
  }

  /** The state at the end of set-up: nothing drawn yet, and `rounds` counts
      the `nextRound()` call set-up makes, which the caller runs next as a
      `NextRound` step with the drawn colour. */
  const Initial: State := State([], 0, false, 0, 0.0, 1, 0)

  /** `nextRound` with the colour `randInt(0, 3)` drew: grow the sequence
      and start playing it back, which closes input. */
  function NextRound(s: State, colour: int): (r: State)
    requires s.rounds > 0 && 0 <= colour < Pads
    ensures r.sequence == s.sequence + [colour] && !r.accepting
    ensures r.rounds == s.rounds - 1 && r.playbacks == s.playbacks + 1
    ensures r.best == s.best && r.userIndex == s.userIndex
  {
    s.(sequence := s.sequence + [colour], accepting := false,
       rounds := s.rounds - 1, playbacks := s.playbacks + 1)
  }

  /** The final `playSeq` step: input opens at the start of the sequence. */
  function EndPlayback(s: State): (r: State)
    requires s.playbacks > 0
    ensures r.accepting && r.userIndex == 0 && r.playbacks == s.playbacks - 1
    ensures r.sequence == s.sequence && r.best == s.best && r.rounds == s.rounds
  {
    s.(accepting := true, userIndex := 0, playbacks := s.playbacks - 1)
  }

  /** `playInput` for pad `pad`. */
  function PlayInput(s: State, pad: int): Press
  {
    if !s.accepting then Press(s, None)
    else if s.userIndex < |s.sequence| && pad == s.sequence[s.userIndex] then
      var u := s.userIndex + 1;
      if u == |s.sequence| then
        var best := if s.best >= |s.sequence| then s.best else |s.sequence|;
        var prog := RoundProgress(best);
        var t := s.(userIndex := u, best := best, last := Max(s.last, prog));
        if prog >= 1.0 then Press(t, Some(Number(1.0)))
        else Press(t.(rounds := s.rounds + 1), None)
      else Press(s.(userIndex := u), None)
    else
      Press(s.(accepting := false, rounds := s.rounds + 1), None)
  }

  lemma InitialInv()
    ensures Inv(Initial)
  {
  }

  lemma NextRoundInv(s: State, colour: int)
    requires Inv(s) && s.rounds > 0 && 0 <= colour < Pads
    ensures Inv(NextRound(s, colour))
  {
  }

  lemma EndPlaybackInv(s: State)
    requires Inv(s) && s.playbacks > 0
    ensures Inv(EndPlayback(s))
  {
  }

  /** A press keeps the position within the sequence, never lowers the best
      round, and `last` stays the progress of the best round. A press
      finishes the game exactly when it completes a round of 8 or more. */
  lemma PlayInputInv(s: State, pad: int)
    requires Inv(s)
    ensures var p := PlayInput(s, pad);
      && Inv(p.next)
      && p.next.best >= s.best
      && p.next.last >= s.last
      && p.next.sequence == s.sequence
      && (p.finish.Some? <==>
            s.accepting && s.userIndex == |s.sequence| - 1 && pad == s.sequence[s.userIndex]
            && |s.sequence| >= Goal)
      && (p.finish.Some? ==> p.finish == Some(Number(1.0)))
  {
    var p := PlayInput(s, pad);
    if s.accepting && s.userIndex < |s.sequence| && pad == s.sequence[s.userIndex]
       && s.userIndex + 1 == |s.sequence| {
      var best := if s.best >= |s.sequence| then s.best else |s.sequence|;
      assert best == |s.sequence|;
      assert RoundProgress(best) >= 1.0 <==> |s.sequence| >= Goal;
    }
  }

  /** The correct pad moves one step along the sequence; a wrong pad
      closes input and schedules a new round without resetting the best. */
  lemma PressOutcome(s: State, pad: int)
    requires Inv(s) && s.accepting
    ensures var p := PlayInput(s, pad);
      if s.userIndex < |s.sequence| && pad == s.sequence[s.userIndex] then
        p.next.userIndex == s.userIndex + 1
      else
        !p.next.accepting && p.next.rounds == s.rounds + 1 && p.next.best == s.best
  {
  }

  /** After a round is repeated in full, input stays open until the next
      round plays: one more press of any pad is taken as a mistake and
      schedules a second `nextRound` beside the one already pending, so
      the sequence will grow by two colours. */
  lemma ExtraPressAddsRound(s: State, pad: int, extra: int)
    requires Inv(s) && s.accepting && s.userIndex == |s.sequence| - 1
    requires pad == s.sequence[s.userIndex] && |s.sequence| < Goal
    ensures var p := PlayInput(s, pad);
      && p.next.accepting && p.next.rounds == s.rounds + 1
      && PlayInput(p.next, extra).next.rounds == s.rounds + 2
  {
    var p := PlayInput(s, pad);
    assert p.next.userIndex == |s.sequence| && p.next.accepting;
  }

  /** The game as a class over the variables the source keeps. */
  class Game {
    var sequence: seq<int>
    var userIndex: nat
    var accepting: bool
    var best: nat
    var last: real
    ghost var rounds: nat
    ghost var playbacks: nat

    ghost function Snapshot(): State
      reads this
    {
      State(sequence, userIndex, accepting, best, last, rounds, playbacks)
    }

    ghost predicate Valid()
      reads this
    {
      Inv(Snapshot())
    }

    constructor ()
      ensures Snapshot() == Initial && Valid()
    {
      sequence := [];
      userIndex := 0;
      accepting := false;
      best := 0;
      last := 0.0;
      rounds := 1;
      playbacks := 0;
    }

    method NextRoundStep(colour: int)
      requires Valid() && rounds > 0 && 0 <= colour < Pads
      modifies this
      ensures Snapshot() == NextRound(old(Snapshot()), colour) && Valid()
    {
      NextRoundInv(Snapshot(), colour);
      sequence := sequence + [colour];
      accepting := false;
      rounds := rounds - 1;
      playbacks := playbacks + 1;
    }

    method EndPlaybackStep()
      requires Valid() && playbacks > 0
      modifies this
      ensures Snapshot() == EndPlayback(old(Snapshot())) && Valid()
    {
      EndPlaybackInv(Snapshot());
      accepting := true;
      userIndex := 0;
      playbacks := playbacks - 1;
    }

    method Input(pad: int) returns (finish: Option<Progress>)
      requires Valid()
      modifies this
      ensures Snapshot() == PlayInput(old(Snapshot()), pad).next
      ensures finish == PlayInput(old(Snapshot()), pad).finish
      ensures Valid() && best >= old(best)
    {
      PlayInputInv(Snapshot(), pad);
      finish := None;
      if !accepting {
        return;
      }
      if userIndex < |sequence| && pad == sequence[userIndex] {
        userIndex := userIndex + 1;
        if userIndex == |sequence| {
          best := if best >= |sequence| then best else |sequence|;
          var prog := Min(1.0, best as real / Goal as real);
          last := Max(last, prog);
          if prog >= 1.0 {
            finish := Some(Number(1.0));
            return;
          }
          rounds := rounds + 1;
        }
      } else {
        accepting := false;
        rounds := rounds + 1;
      }
    }
  }
}
