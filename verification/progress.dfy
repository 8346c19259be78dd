/** Progress shown for a line (an order item, a purchase-order line) and for
    a whole document: the three-way status badge of a line and the summed
    percentage of a document. Percentages are kept as exact fractions; the
    floating-point division and `Math.round` of the screens are not
    modelled. */
module Progress {
  import Seqs

  /** The badge of a line in the detail dialogs. */
  datatype LineLabel = Complete | Partial | Pending

  /** A line whose done count equals its target is complete; otherwise it is
      partial once something is done, and pending before that. */
  function Label(done: nat, target: nat): (r: LineLabel)
    ensures r == Complete <==> done == target
    ensures r == Partial <==> done != target && done > 0
    ensures r == Pending <==> done != target && done == 0
  {
    if done == target then Complete else if done > 0 then Partial else Pending
  }

  /** A percentage held as the exact fraction `num / den` with `den > 0`. */
  datatype Percent = Percent(num: nat, den: nat)

  /** The share of the total that is done, in percent; a document with a
      zero total reads 0%. */
  function PercentOf(done: nat, total: nat): (r: Percent)
    ensures r.den > 0
    ensures total == 0 ==> r.num == 0
    ensures total > 0 ==> r.num * total == 100 * done * r.den
    ensures done <= total ==> r.num <= 100 * r.den
    ensures total > 0 ==> (r.num == 100 * r.den <==> done == total)
  {
    if total > 0 then Percent(100 * done, total) else Percent(0, 1)
  }

  /** When no line is over its target, every line is labelled `Complete`
      exactly when the summed progress is full. */
  lemma AllCompleteIffFull<T>(lines: seq<T>, done: T -> nat, target: T -> nat)
    requires forall i :: 0 <= i < |lines| ==> done(lines[i]) <= target(lines[i])
    ensures (forall i :: 0 <= i < |lines| ==> Label(done(lines[i]), target(lines[i])) == Complete)
      <==> Seqs.Sum(lines, done) == Seqs.Sum(lines, target)
    ensures Seqs.Sum(lines, done) <= Seqs.Sum(lines, target)
  {
    Seqs.SumCompare(lines, done, target);
  }
}
