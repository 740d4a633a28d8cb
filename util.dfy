/** Utility functions for working with the DW1000: wrap-around-safe durations
    over the 40-bit system clock and the `block_timeout!` polling loop. */
module Util {
  import opened Wrappers

  /** The largest value of the DW1000's 40-bit system time. */
  const TIME_MAX: u64 := 0xFF_FFFF_FFFF

  /** The number of distinct 40-bit time stamps, 2^40. */
  const TIME_MODULUS: int := TIME_MAX as int + 1

  /** A 64-bit value that fits in the 40 bits of a system time stamp. */
  predicate IsTimestamp(t: u64) {
    t <= TIME_MAX
  }

  /** `duration_between`: the time that passes from `earlier` to `later` on a
      clock that wraps around after TIME_MAX. Out-of-range inputs make the
      source panic, so they are excluded here. Because the body computes in
      `u64`, Dafny also checks that `TIME_MAX - earlier + later + 1` neither
      underflows nor overflows at any step. */
  function DurationBetween(earlier: u64, later: u64): (d: u64)
    requires IsTimestamp(earlier) && IsTimestamp(later)
    ensures d <= TIME_MAX
    ensures (earlier as int + d as int) % TIME_MODULUS == later as int
  {
    if later >= earlier then
      later - earlier
    else
      TIME_MAX - earlier + later + 1
  }

  /** The forward modular difference is the only 40-bit value that takes
      `earlier` to `later`: DurationBetween is modular subtraction. */
  lemma DurationBetweenUnique(earlier: u64, later: u64, d: int)
    requires IsTimestamp(earlier) && IsTimestamp(later)
    requires 0 <= d <= TIME_MAX as int
    requires (earlier as int + d) % TIME_MODULUS == later as int
    ensures d == DurationBetween(earlier, later) as int
  {
    var e, dd := earlier as int, DurationBetween(earlier, later) as int;
    ModEqualInWindow(e + d, e + dd);
  }

  /** Two values less than two clock periods apart that agree modulo 2^40 are equal. */
  lemma ModEqualInWindow(x: int, y: int)
    requires 0 <= x < 2 * TIME_MODULUS && 0 <= y < 2 * TIME_MODULUS
    requires -TIME_MODULUS < x - y < TIME_MODULUS
    requires x % TIME_MODULUS == y % TIME_MODULUS
    ensures x == y
  {
    assert x % TIME_MODULUS == if x < TIME_MODULUS then x else x - TIME_MODULUS;
    assert y % TIME_MODULUS == if y < TIME_MODULUS then y else y - TIME_MODULUS;
  }

  /** Without a wrap, the duration is the plain difference. */
  lemma DurationBetweenForward(earlier: u64, later: u64)
    requires IsTimestamp(earlier) && IsTimestamp(later)
    requires earlier <= later
    ensures DurationBetween(earlier, later) == later - earlier
  {
  }

  /** With a wrap, the duration counts the ticks to the end of the 40-bit
      range and then the ticks from zero up to `later`. */
  lemma DurationBetweenWrapped(earlier: u64, later: u64)
    requires IsTimestamp(earlier) && IsTimestamp(later)
    requires later < earlier
    ensures DurationBetween(earlier, later) as int == TIME_MODULUS - earlier as int + later as int
    ensures DurationBetween(earlier, later) > 0
  {
  }

  /** No time passes between a time stamp and itself. */
  lemma DurationBetweenSelf(t: u64)
    requires IsTimestamp(t)
    ensures DurationBetween(t, t) == 0
  {
  }

  /** Durations along one clock add up modulo 2^40; when the sum does not
      itself pass a whole clock period it is the duration between the ends. */
  lemma DurationBetweenAdditive(a: u64, b: u64, c: u64)
    requires IsTimestamp(a) && IsTimestamp(b) && IsTimestamp(c)
    ensures (DurationBetween(a, b) as int + DurationBetween(b, c) as int) % TIME_MODULUS
            == DurationBetween(a, c) as int
    ensures DurationBetween(a, b) as int + DurationBetween(b, c) as int <= TIME_MAX as int
            ==> DurationBetween(a, b) + DurationBetween(b, c) == DurationBetween(a, c)
  {
    var ab, bc := DurationBetween(a, b) as int, DurationBetween(b, c) as int;
    var s := (ab + bc) % TIME_MODULUS;
    assert (a as int + ab) % TIME_MODULUS == b as int;
    assert (b as int + bc) % TIME_MODULUS == c as int;
    calc {
      (a as int + s) % TIME_MODULUS;
      { ModAddMod(a as int, ab + bc); }
      (a as int + ab + bc) % TIME_MODULUS;
      { ModAddMod(bc, a as int + ab); }
      (b as int + bc) % TIME_MODULUS;
    }
    DurationBetweenUnique(a, c, s);
  }

  /** Reducing one summand modulo 2^40 does not change the sum modulo 2^40. */
  lemma ModAddMod(x: int, y: int)
    ensures (x + y % TIME_MODULUS) % TIME_MODULUS == (x + y) % TIME_MODULUS
  {
    var q := y / TIME_MODULUS;
    assert x + y == (x + y % TIME_MODULUS) + q * TIME_MODULUS;
  }

  /** The error `block_timeout!` returns: the timer ran out, or the operation failed. */
  datatype TimeoutError<+E> = Timeout | Other(error: E)

  /** One poll of the timer: `Ok(())` once it has expired, `WouldBlock` before.
      The timer's other error is `unreachable!()` in the source and has no
      counterpart here. */
  datatype TimerPoll = Expired | Running

  /** What `block_timeout!` returns when the i-th poll of the timer gives
      `timer[i]` and the i-th evaluation of the operation gives `ops[i]`;
      None when the loop is still running once the observations run out. */
  function BlockTimeoutOutcome<T, E>(timer: seq<TimerPoll>, ops: seq<NbResult<T, E>>)
    : Option<Result<T, TimeoutError<E>>>
    decreases |timer|
  {
    if timer == [] then None
    else if timer[0] == Expired then Some(Err(Timeout))
    else if ops == [] then None
    else
      match ops[0]
      case Ready(x) => Some(Ok(x))
      case Other(e) => Some(Err(TimeoutError.Other(e)))
      case WouldBlock => BlockTimeoutOutcome(timer[1..], ops[1..])
  }

  /** The first k iterations found the timer running and the operation not done. */
  ghost predicate PendingThrough<T, E>(timer: seq<TimerPoll>, ops: seq<NbResult<T, E>>, k: nat) {
    k <= |timer| && k <= |ops| &&
    forall j :: 0 <= j < k ==> timer[j] == Running && ops[j] == WouldBlock
  }

  /** `block_timeout!`: poll the timer, then the operation, until one of them
      ends the loop. */
  method BlockTimeout<T, E>(timer: seq<TimerPoll>, ops: seq<NbResult<T, E>>)
    returns (r: Option<Result<T, TimeoutError<E>>>)
    ensures r == BlockTimeoutOutcome(timer, ops)
  {
    var i := 0;
    while i < |timer|
      invariant i <= |timer| && i <= |ops|
      invariant BlockTimeoutOutcome(timer[i..], ops[i..]) == BlockTimeoutOutcome(timer, ops)
    {
      if timer[i] == Expired {
        return Some(Err(Timeout));
      }
      if i == |ops| {
        return None;
      }
      match ops[i] {
        case Ready(x) =>
          return Some(Ok(x));
        case Other(e) =>
          return Some(Err(TimeoutError.Other(e)));
        case WouldBlock =>
      }
      assert timer[i..][1..] == timer[i + 1..] && ops[i..][1..] == ops[i + 1..];
      i := i + 1;
    }
    return None;
  }

  /** The timer is checked before the operation: once it has expired, the
      result is Timeout even if the operation would have succeeded. */
  lemma {:induction false} BlockTimeoutExpiry<T, E>(timer: seq<TimerPoll>, ops: seq<NbResult<T, E>>, k: nat)
    requires PendingThrough(timer, ops, k) && k < |timer| && timer[k] == Expired
    ensures BlockTimeoutOutcome(timer, ops) == Some(Err(Timeout))
  {
    if k > 0 {
      assert timer[0] == Running && ops[0] == WouldBlock;
      BlockTimeoutExpiry(timer[1..], ops[1..], k - 1);
    }
  }

  /** While the timer runs, `Ok(r)` ends the loop with `Ok(r)` and `Other(e)`
      with `TimeoutError::Other(e)`. */
  lemma {:induction false} BlockTimeoutCompletes<T, E>(timer: seq<TimerPoll>, ops: seq<NbResult<T, E>>, k: nat)
    requires PendingThrough(timer, ops, k) && k < |timer| && k < |ops|
    requires timer[k] == Running && !ops[k].WouldBlock?
    ensures ops[k].Ready? ==> BlockTimeoutOutcome(timer, ops) == Some(Ok(ops[k].value))
    ensures ops[k].Other? ==> BlockTimeoutOutcome(timer, ops) == Some(Err(TimeoutError.Other(ops[k].error)))
  {
    if k > 0 {
      assert timer[0] == Running && ops[0] == WouldBlock;
      BlockTimeoutCompletes(timer[1..], ops[1..], k - 1);
    }
  }

  /** Conversely, every finished loop ended at some iteration k before which
      everything was pending, either on the timer or on the operation. */
  lemma {:induction false} BlockTimeoutWitness<T, E>(timer: seq<TimerPoll>, ops: seq<NbResult<T, E>>)
    returns (k: nat)
    requires BlockTimeoutOutcome(timer, ops).Some?
    ensures PendingThrough(timer, ops, k) && k < |timer|
    ensures timer[k] == Expired || (k < |ops| && !ops[k].WouldBlock?)
  {
    if timer[0] == Expired || !ops[0].WouldBlock? {
      k := 0;
    } else {
      var k' := BlockTimeoutWitness(timer[1..], ops[1..]);
      k := k' + 1;
      forall j | 0 <= j < k
        ensures timer[j] == Running && ops[j] == WouldBlock
      {
        if j > 0 {
          assert timer[j] == timer[1..][j - 1] && ops[j] == ops[1..][j - 1];
        }
      }
    }
  }
}
