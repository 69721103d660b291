/** Typing Accuracy (script.js:488-515): every edit of the text area
    recounts the positions where the typed text agrees with the target. */
module Typing {
  import opened Scoring

  /** `text`, the sentence to type. */
  const Text: string := "Happiness is homemade. Type this quickly and accurately to score high."

  /** The number of positions i < n at which `typed` and `target` agree. */
  function Agreements(typed: string, target: string, n: int): (k: nat)
    requires 0 <= n <= |typed| && n <= |target|
    ensures k <= n
  {
    if n == 0 then 0
    else Agreements(typed, target, n - 1) + (if typed[n - 1] == target[n - 1] then 1 else 0)
  }

  /** The compared length: both strings are read only as far as the
      shorter one goes. */
  function Compared(typed: string): nat
  {
    if |typed| <= |Text| then |typed| else |Text|
  }

  /** Every one of the first n positions agrees exactly when the first n
      characters are the same. */
  lemma {:induction false} AllAgreeIffSamePrefix(typed: string, target: string, n: int)
    requires 0 <= n <= |typed| && n <= |target|
    ensures Agreements(typed, target, n) == n <==> typed[..n] == target[..n]
  {
    if n > 0 {
      AllAgreeIffSamePrefix(typed, target, n - 1);
      if typed[..n] == target[..n] {
        assert typed[..n - 1] == typed[..n][..n - 1] && target[..n - 1] == target[..n][..n - 1];
        assert typed[n - 1] == typed[..n][n - 1];
      }
    }
  }

  /** `update`'s counting loop. */
  method CountCorrect(typed: string) returns (correct: nat)
    ensures correct == Agreements(typed, Text, Compared(typed))
    ensures correct <= |typed| && correct <= |Text|
  {
    correct := 0;
    var i := 0;
    while i < Compared(typed)
      invariant 0 <= i <= Compared(typed)
      invariant correct == Agreements(typed, Text, i)
    {
      if typed[i] == Text[i] {
        correct := correct + 1;
      }
      i := i + 1;
    }
  }

  /** `Math.min(1, correct/text.length)`. */
  function Accuracy(correct: nat): real
  {
    if correct as real / |Text| as real <= 1.0 then correct as real / |Text| as real else 1.0
  }

  /** The count reaches the length of the sentence, and so finishes the
      game, exactly when the sentence is a prefix of what was typed: extra
      characters after it are ignored, and a single wrong or missing
      character keeps it short. */
  lemma FullIffTypedText(typed: string)
    ensures Agreements(typed, Text, Compared(typed)) == |Text| <==> Text <= typed
  {
    var n := Compared(typed);
    AllAgreeIffSamePrefix(typed, Text, n);
    if Text <= typed {
      assert n == |Text| && Text[..n] == Text;
    }
  }

  /** The score never exceeds one and is 1 only for a full count. */
  lemma AccuracyRange(correct: nat)
    requires correct <= |Text|
    ensures 0.0 <= Accuracy(correct) <= 1.0
    ensures Accuracy(correct) >= 1.0 <==> correct == |Text|
  {
  }

  /** The game's state: the best accuracy seen (`last`). */
  class TypingGame {
    var last: real

    ghost predicate Valid()
      reads this
    {
      0.0 <= last <= 1.0
    }

    constructor ()
      ensures Valid() && last == 0.0
    {
      last := 0.0;
    }

    /** `update` on the text area's new contents. */
    method Update(typed: string) returns (finish: Option<Progress>)
      requires Valid()
      modifies this
      ensures Valid()
      ensures last == Max(old(last), Accuracy(Agreements(typed, Text, Compared(typed))))
      ensures last >= old(last)
      ensures finish == (if Text <= typed then Some(Number(1.0)) else None)
    {
      var correct := CountCorrect(typed);
      var prog := if 1.0 <= correct as real / |Text| as real then 1.0 else correct as real / |Text| as real;
      last := Max(last, prog);
      FullIffTypedText(typed);
      AccuracyRange(correct);
      if prog >= 1.0 {
        finish := Some(Number(1.0));
      } else {
        finish := None;
      }
    }
  }
}
