/** The 64-bit counter arithmetic of the SYNC extension, and the four trigger tests. */
module SyncValues {
  const MIN_VALUE: int := -0x8000_0000_0000_0000
  const MAX_VALUE: int := 0x7fff_ffff_ffff_ffff

  type Int64 = v: int | MIN_VALUE <= v <= MAX_VALUE

  predicate Fits(n: int) {
    MIN_VALUE <= n <= MAX_VALUE
  }

  /** Two's complement reduction to 64 bits. */
  function Wrap(n: int): Int64 {
    (n - MIN_VALUE) % 0x1_0000_0000_0000_0000 + MIN_VALUE
  }

  /** The value and the overflow flag that 64-bit addition delivers. */
  function Add(a: Int64, b: Int64): (Int64, bool) {
    (Wrap(a + b), !Fits(a + b))
  }

  /** The value and the overflow flag that 64-bit subtraction delivers. */
  function Subtract(a: Int64, b: Int64): (Int64, bool) {
    (Wrap(a - b), !Fits(a - b))
  }

  lemma WrapExact(n: int)
    requires Fits(n)
    ensures Wrap(n) == n
  {
  }

  /** test_type. A client may store any code in the field; only four are accepted. */
  datatype TestType =
    | PositiveTransition
    | NegativeTransition
    | PositiveComparison
    | NegativeComparison
    | UnknownTest(code: nat)

  predicate IsComparison(tt: TestType) {
    tt.PositiveComparison? || tt.NegativeComparison?
  }

  /** The four CheckTrigger functions for a trigger that names a counter: the counter went from
      `prev` to `now`. */
  predicate Holds(check: TestType, test: Int64, prev: Int64, now: Int64) {
    match check
    case PositiveComparison => now >= test
    case NegativeComparison => now <= test
    case PositiveTransition => prev < test <= now
    case NegativeTransition => prev > test >= now
    case UnknownTest(_) => false
  }

  /** What the four tests are: a comparison is true from its test value on, upwards or downwards; a transition is true
      when the comparison of its direction becomes true. No other code is ever true. */
  lemma TestsMean(test: Int64, prev: Int64, now: Int64, code: nat)
    ensures Holds(PositiveComparison, test, prev, test) && Holds(NegativeComparison, test, prev, test)
    ensures now < test ==> !Holds(PositiveComparison, test, prev, now) && Holds(NegativeComparison, test, prev, now)
    ensures now > test ==> Holds(PositiveComparison, test, prev, now) && !Holds(NegativeComparison, test, prev, now)
    ensures Holds(PositiveTransition, test, prev, now)
            <==> Holds(PositiveComparison, test, prev, now) && !Holds(PositiveComparison, test, prev, prev)
    ensures Holds(NegativeTransition, test, prev, now)
            <==> Holds(NegativeComparison, test, prev, now) && !Holds(NegativeComparison, test, prev, prev)
    ensures !Holds(UnknownTest(code), test, prev, now)
  {
  }
}
