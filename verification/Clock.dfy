// The monotonic clock arithmetic of refresh_dcptime (dcptool/dcp.c).

module DcpClock {
  datatype Timespec = Timespec(sec: int, nsec: int) {
    predicate Normalised() { 0 <= nsec < 1_000_000_000 }
    predicate AtMost(later: Timespec) {
      sec < later.sec || (sec == later.sec && nsec <= later.nsec)
    }
    ghost function Nanos(): int { sec * 1_000_000_000 + nsec }
  }

  // C's integer division truncates toward zero.
  function TruncDiv(a: int, b: int): int
    requires b > 0
  {
    if a >= 0 then a / b else -((-a) / b)
  }

  function Millis(before: Timespec, now: Timespec): int {
    (now.sec - before.sec) * 1000 + TruncDiv(now.nsec - before.nsec, 1_000_000)
  }

  ghost predicate Monotone(ts: seq<Timespec>) {
    && (forall i :: 0 <= i < |ts| ==> ts[i].Normalised())
    && (forall i :: 0 < i < |ts| ==> ts[i - 1].AtMost(ts[i]))
  }

  ghost function TotalMillis(ts: seq<Timespec>): int {
    if |ts| < 2 then 0
    else TotalMillis(ts[..|ts| - 1]) + Millis(ts[|ts| - 2], ts[|ts| - 1])
  }

  // One measurement is off by less than a millisecond, for any two clock values: rounded
  // down when the nanosecond part grew, rounded up when it borrowed. It is never negative
  // unless the clock went back.
  lemma MillisAccurate(before: Timespec, now: Timespec)
    ensures before.Normalised() && now.Normalised() && before.AtMost(now) ==> Millis(before, now) >= 0
    ensures var err := now.Nanos() - before.Nanos() - Millis(before, now) * 1_000_000;
            if now.nsec >= before.nsec then 0 <= err < 1_000_000 else -1_000_000 < err <= 0
  {
    var d := now.nsec - before.nsec;
    if d < 0 && before.Normalised() && now.Normalised() {
      assert (-d) / 1_000_000 <= 999;
    }
  }

  // Over n measurements the errors do not accumulate beyond n milliseconds.
  lemma {:induction false} TotalAccurate(ts: seq<Timespec>)
    requires |ts| >= 2 && Monotone(ts)
    ensures TotalMillis(ts) >= 0
    ensures var n := |ts| - 1;
            var elapsed := ts[n].Nanos() - ts[0].Nanos();
            -n * 1_000_000 < elapsed - TotalMillis(ts) * 1_000_000 < n * 1_000_000
  {
    var n := |ts| - 1;
    MillisAccurate(ts[n - 1], ts[n]);
    var front := ts[..n];
    if n > 1 {
      TotalAccurate(front);
    } else {
      assert TotalMillis(front) == 0;
    }
  }
}
