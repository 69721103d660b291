/** Progress values and the marks they are worth (finishGame, script.js:82-90). */
module Scoring {

  /** What a mini-game hands to finishGame: a number, or a falsy value
      (NaN, undefined, null) that `progress || 0` turns into 0. */
  datatype Progress = Number(value: real) | Falsy

  /** A handler's call of finishGame, if it makes one. */
  datatype Option<T> = None | Some(value: T)

  /** The largest number of marks one game can add. */
  const MaxMarks: int := 10

  /** `Math.min`, `Math.max` and `Math.abs`, as the games use them. */
  function Min(x: real, y: real): real { if x <= y then x else y }
  function Max(x: real, y: real): real { if x >= y then x else y }
  function Abs(n: int): nat { if n < 0 then -n else n }

  /** `Math.max(0, Math.min(1, progress || 0))`. */
  function Clamp(p: Progress): (c: real)
    ensures 0.0 <= c <= 1.0
    ensures p.Falsy? ==> c == 0.0
    ensures p.Number? && 0.0 <= p.value <= 1.0 ==> c == p.value
    ensures p.Number? && p.value < 0.0 ==> c == 0.0
    ensures p.Number? && 1.0 < p.value ==> c == 1.0
  {
    match p
    case Falsy => 0.0
    case Number(v) => if v < 0.0 then 0.0 else if v > 1.0 then 1.0 else v
  }

  /** JavaScript's `Math.round`: the nearest integer, halves rounded up. */
  function Round(x: real): (n: int)
    ensures n as real - 0.5 <= x < n as real + 0.5
  {
    (x + 0.5).Floor
  }

  /** `Math.round(progress * 10)` on the clamped progress. */
  function Marks(p: Progress): (m: int)
    ensures 0 <= m <= MaxMarks
    ensures m == MaxMarks <==> Clamp(p) >= 0.95
    ensures m == 0 <==> Clamp(p) < 0.05
    ensures (m as real - 0.5) / 10.0 <= Clamp(p) < (m as real + 0.5) / 10.0
  {
    Round(Clamp(p) * 10.0)
  }

  /** Marks are monotone in the clamped progress. */
  lemma MarksMonotone(p: Progress, q: Progress)
    requires Clamp(p) <= Clamp(q)
    ensures Marks(p) <= Marks(q)
  {
  }

  /** A progress of exactly k tenths is worth k marks: Marks inverts k / 10. */
  lemma MarksOfTenths(k: int)
    requires 0 <= k <= MaxMarks
    ensures Marks(Number(k as real / 10.0)) == k
  {
    var m := Marks(Number(k as real / 10.0));
    assert Clamp(Number(k as real / 10.0)) == k as real / 10.0;
    assert (m as real - 0.5) / 10.0 <= k as real / 10.0 < (m as real + 0.5) / 10.0;
    assert m as real - 0.5 <= k as real < m as real + 0.5;
  }
}
