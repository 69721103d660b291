/** Math Speed Drill (script.js:381-429): a stream of arithmetic questions,
    with `correct` and `attempted` counters and the best progress `last`. */
module MathDrill {
  import opened Scoring

  /** `target`: twenty right answers give full progress. */
  const Target: int := 20

  datatype Op = Plus | Minus | Times | Divide

  /** `ops[k]` for the index `randInt(0, 3)` draws. */
  function OpAt(k: int): Op
    requires 0 <= k < 4
  {
    [Plus, Minus, Times, Divide][k]
  }

  /** What the question line shows: `left op right = ?`. */
  datatype Question = Question(left: int, op: Op, right: int)

  /** The value of a shown question, read as exact arithmetic. */
  function Value(q: Question): real
  {
    match q.op
    case Plus => (q.left + q.right) as real
    case Minus => (q.left - q.right) as real
    case Times => (q.left * q.right) as real
    case Divide => if q.right == 0 then 0.0 else q.left as real / q.right as real
  }

  /** `newQ` given the operands `a`, `b` (each `randInt(2, 12)`) and the
      operator index: the question shown and the answer returned. For a
      division it shows `a*b ÷ b` so the answer `a` is whole. */
  function NewQuestion(a: int, b: int, k: int): (r: (Question, int))
    requires 2 <= a <= 12 && 2 <= b <= 12 && 0 <= k < 4
    ensures r.0.op == OpAt(k)
    ensures OpAt(k) != Divide ==> r.0 == Question(a, OpAt(k), b)
  {
    match OpAt(k)
    case Plus => (Question(a, Plus, b), a + b)
    case Minus => (Question(a, Minus, b), a - b)
    case Times => (Question(a, Times, b), a * b)
    case Divide => (Question(a * b, Divide, b), a)
  }

  /** Every question's answer is the exact value of what is shown, so a
      division question never has a fractional answer, and the divisor is
      never zero. */
  lemma AnswerIsExact(a: int, b: int, k: int)
    requires 2 <= a <= 12 && 2 <= b <= 12 && 0 <= k < 4
    ensures var (q, ans) := NewQuestion(a, b, k); Value(q) == ans as real
    ensures NewQuestion(a, b, k).0.op == Divide ==>
      var q := NewQuestion(a, b, k).0; q.right != 0 && q.left % q.right == 0
  {
    if k == 3 {
      assert NewQuestion(a, b, k) == (Question(a * b, Divide, b), a);
      ExactQuotient(a, b);
    }
  }

  /** `a*b ÷ b` is `a`, with nothing left over. */
  lemma ExactQuotient(a: int, b: int)
    requires b != 0
    ensures (a * b) as real / b as real == a as real
    ensures (a * b) % b == 0
  {
    assert (a * b) as real == a as real * b as real;
    assert (a * b) % b == 0 by {
      assert a * b == b * a + 0;
    }
  }

  /** The range of answers the drill can ask for. */
  lemma AnswerRange(a: int, b: int, k: int)
    requires 2 <= a <= 12 && 2 <= b <= 12 && 0 <= k < 4
    ensures -10 <= NewQuestion(a, b, k).1 <= 144
  {
  }

  /** `Math.min(1, correct/target)`. */
  function DrillProgress(correct: nat): real
  {
    Min(1.0, correct as real / Target as real)
  }

  /** Progress grows with the count of right answers, stays in [0, 1] and
      is 1 from the twentieth right answer on. */
  lemma ProgressShape(c: nat, d: nat)
    requires c <= d
    ensures 0.0 <= DrillProgress(c) <= DrillProgress(d) <= 1.0
    ensures DrillProgress(c) >= 1.0 <==> c >= Target
  {
  }

  /** The drill's state. `given` is `parseFloat(input.value)`, None for NaN. */
  class Drill {
    var correct: nat
    var attempted: nat
    var question: Question
    var answer: int
    var last: real

    /** `last` is always the progress of the current count, because the
        count never goes down; the answer is the value of the question. */
    ghost predicate Valid()
      reads this
    {
      && correct <= attempted
      && last == DrillProgress(correct)
      && Value(question) == answer as real
    }

    /** The set-up: the counters at zero and the first question. */
    constructor (a: int, b: int, k: int)
      requires 2 <= a <= 12 && 2 <= b <= 12 && 0 <= k < 4
      ensures Valid()
      ensures correct == 0 && attempted == 0 && last == 0.0
      ensures (question, answer) == NewQuestion(a, b, k)
    {
      correct := 0;
      attempted := 0;
      question, answer := NewQuestion(a, b, k).0, NewQuestion(a, b, k).1;
      last := 0.0;
      AnswerIsExact(a, b, k);
    }

    /** The Submit button (or Enter): score the answer, then ask the next
        question drawn from a, b and k. */
    method Submit(given: Option<real>, a: int, b: int, k: int) returns (finish: Option<Progress>)
      requires Valid()
      requires 2 <= a <= 12 && 2 <= b <= 12 && 0 <= k < 4
      modifies this
      ensures Valid()
      ensures attempted == old(attempted) + 1
      ensures correct == old(correct) + (if given == Some(old(answer) as real) then 1 else 0)
      ensures (question, answer) == NewQuestion(a, b, k)
      ensures last >= old(last)
      ensures finish == (if correct >= Target then Some(Number(1.0)) else None)
    {
      attempted := attempted + 1;
      if given == Some(answer as real) {
        correct := correct + 1;
      }
      question, answer := NewQuestion(a, b, k).0, NewQuestion(a, b, k).1;
      AnswerIsExact(a, b, k);
      var prog := Min(1.0, correct as real / Target as real);
      ProgressShape(old(correct), correct);
      last := Max(last, prog);
      if prog >= 1.0 {
        finish := Some(Number(1.0));
      } else {
        finish := None;
      }
    }
  }
}
