/** How long a runner thread sleeps, and the order in which the shortest sleep wins (`src/util.rs`). */
module WaitPeriods {

  datatype WaitPeriod = Wait | AtMost(dur: nat) | NoWait

  datatype Ordering = Less | Equal | Greater

  function Cmp(a: WaitPeriod, b: WaitPeriod): Ordering {
    match (a, b)
    case (Wait, Wait) => Equal
    case (NoWait, NoWait) => Equal
    case (Wait, _) => Greater
    case (_, NoWait) => Greater
    case (_, Wait) => Less
    case (NoWait, _) => Less
    case (AtMost(x), AtMost(y)) => if x < y then Less else if x == y then Equal else Greater
  }

  function Min(a: WaitPeriod, b: WaitPeriod): WaitPeriod {
    if Cmp(a, b) == Greater then b else a
  }

  /** Does a thread that sleeps for `w` certainly wake within `d` even if nothing happens? */
  predicate WakesWithin(w: WaitPeriod, d: nat) {
    w.NoWait? || (w.AtMost? && w.dur <= d)
  }

  /** The comparison is a total order, and the smaller of two periods is the one that wakes first. */
  lemma CmpIsTotalOrder(a: WaitPeriod, b: WaitPeriod, c: WaitPeriod)
    ensures Cmp(a, b) == Equal <==> a == b
    ensures Cmp(a, b) == Less <==> Cmp(b, a) == Greater
    ensures Cmp(a, b) == Less && Cmp(b, c) == Less ==> Cmp(a, c) == Less
    ensures Cmp(NoWait, AtMost(0)) == Less && (b.AtMost? ==> Cmp(b, Wait) == Less)
    ensures forall d :: WakesWithin(Min(a, b), d) <==> WakesWithin(a, d) || WakesWithin(b, d)
  {
  }
}
