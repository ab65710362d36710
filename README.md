# elliptic_curve: primality tests and curve arithmetic in Dafny

This project models the integer-arithmetic engine of the `Elliptic` package in
Dafny and proves properties of it. The package has two parts.

- **Primality helpers** (`Elliptic/simplicityTests.py`):
  - `gcd`, the Euclidean loop;
  - `find_representation`, which splits v into 2^s * t with t odd;
  - `yakoby_symbol`, a recursive Jacobi-like symbol;
  - the Fermat, "Nightingale–Strassen" (Solovay–Strassen) and Miller–Rabin probabilistic tests;
  - the table of Carmichael numbers.
- **Curve arithmetic** (`Elliptic/elliptic.py`) for y^2 = x^3 + a*x + b over the integers modulo `field`:
  - the discriminant;
  - the existence check;
  - the ordinate (the right-hand side at x);
  - the enumeration of points into an x -> [y...] table;
  - `add_points`.

Modules:

- `PyInt` (`python_int.dfy`) models Python's floor `//` and `%`, and powers. Dafny's own operators are Euclidean and differ for negative divisors.
- `Outcomes` (`outcomes.dfy`) holds `Option` and `Outcome`. `Outcome` is `Ok(v)` or `Err(msg)`, matching the source's habit of returning `(ValueError, "msg")` as a value.
- `SimplicityTests` (`simplicity_tests.dfy`) holds the primality helpers.
  - `gcd`, `find_representation` and the three tests are `method`s with loops, as in the source.
  - Each method is proved equal to a specification function.
  - Lemmas state what each function means.
- `Elliptic` (`elliptic.dfy`) holds the curve functions.
  - `find_points` is a `method` whose loop fills the table.
  - The other curve functions are pure functions.

Randomness is factored out. A test that draws random bases takes them as a sequence `ws` instead:

- one base per round;
- each base in [1, n] and coprime to n (`SimplicityTests.Witnesses`), which is what the source's resampling loop guarantees.

The square-root routine that `find_points` calls is a parameter `root`. It returns the roots it found, or `None` when it fails.

Behaviour of the code worth knowing, all modelled as written:

- `gcd` of a negative argument is negative (`GcdNegative`). So `yakoby_symbol` reports "not mutually simple" for every negative argument when neither argument is 0 (a zero argument gives 0 first).
- `yakoby_symbol(1, n)` for n > 1 and `yakoby_symbol(a, 1)` for a > 1 are 0, not 1. `yakoby_symbol(1, 1)` falls off the end and returns `None`.
- A Solovay–Strassen round compares d mod n, which lies in [0, n), with a symbol in {-1, 0, 1}. It passes only when both are 1. A base of 1 always fails its round.
- In `miller_rabin_test`, the guard `n is CARMICHAEL_NUMBERS` compares an int with a list by identity and never fires. With base 1, 561 passes Miller–Rabin but is rejected by the Fermat test.
- `add_points` takes its slope by floor division, not a modular inverse. The result is neither commutative nor closed on the curve (`AddPointsNotCommutative`). The doubling branch uses two different slopes for x and for y.

## Model

| member | source | states |
|---|---|---|
| PyInt.PyFloorDiv | Elliptic/elliptic.py:151-152 | Python's `a // b`: the floor quotient, b*q <= a < b*q + b for b > 0 and the mirror for b < 0 |
| PyInt.PyMod | Elliptic/elliptic.py:151-152 | Python's `a % b`: congruent to a modulo b, in [0, b) for b > 0 and in (b, 0] for b < 0 |
| SimplicityTests.CarmichaelNumbersOddComposite | Elliptic/simplicityTests.py:10-13 | every entry of the Carmichael table is odd and has a proper factor |
| SimplicityTests.Gcd | Elliptic/simplicityTests.py:17-34 | the swap-then-Euclid loop ends with the value of the recursive definition; for non-negative inputs that value is the greatest common divisor |
| SimplicityTests.GcdLoopIsGcd | Elliptic/simplicityTests.py:30-34 | for non-negative inputs the Euclid loop returns a common divisor that every common divisor divides |
| SimplicityTests.PyGcd | Elliptic/simplicityTests.py:17-34 | `gcd(a, b)`: swap, then Euclid with Python's `%`; for a, b >= 0 the result divides both and is divisible by every positive common divisor |
| SimplicityTests.GcdWithZero | Elliptic/simplicityTests.py:27-34 | the initial swap makes `gcd(0, n) == gcd(n, 0) == n` for every n |
| SimplicityTests.GcdNegative | Elliptic/simplicityTests.py:27-34 | with both arguments non-zero and one negative, `gcd` is negative |
| SimplicityTests.GcdExamples | Elliptic/simplicityTests_test.py:17-21 | gcd(3,5) = gcd(3,137) = gcd(7,137) = gcd(5,7) = 1 |
| SimplicityTests.Representation | Elliptic/simplicityTests.py:39-54 | for v != 0, (s, t) with 2^s * t == v and t odd |
| SimplicityTests.RepresentationUnique | Elliptic/simplicityTests.py:39-54 | the pair (s, t) with 2^s * t == v and t odd is unique |
| SimplicityTests.FindRepresentation | Elliptic/simplicityTests.py:39-54 | the halving loop returns 2^s * t == v with t odd, the unique such pair |
| SimplicityTests.CoprimeArgumentsPositive | Elliptic/simplicityTests.py:73-74 | non-zero arguments that pass the coprimality check are both positive |
| SimplicityTests.Yakoby | Elliptic/simplicityTests.py:58-91 | `yakoby_symbol(a, n)`: a number is always in {-1, 0, 1}, an error always carries "Given number are not mutually simple", and `None` happens only at (1, 1); the full case list is `YakobySymbolCases` |
| SimplicityTests.YakobySymbolCases | Elliptic/simplicityTests.py:58-91 | 0 when an argument is 0; the error when gcd != 1 (so for any negative argument); `None` at (1, 1); 0 at (1, n) and (a, 1); otherwise 1 or -1 |
| SimplicityTests.YakobyUnit | Elliptic/simplicityTests.py:76-91 | for coprime a, n > 1 the recursion ends in 1 or -1 |
| SimplicityTests.GcdRemainderStep | Elliptic/simplicityTests.py:80 | replacing the larger argument by its remainder keeps `gcd` |
| SimplicityTests.Ferma | Elliptic/simplicityTests.py:95-140 | `ferma_test` with the drawn bases: errors carry only the two messages, a table entry is never declared prime, and True past 2 and 3 means every base passed its round |
| SimplicityTests.FermaFixedCases | Elliptic/simplicityTests.py:106-120 | n in {2, 3} gives True, a table entry False, 1 and even n the two error messages, in that order; errors exactly for 1 and even n != 2 |
| SimplicityTests.FermaRoundsVerdict | Elliptic/simplicityTests.py:123-140 | the rounds fail exactly when some base w has w^(n-1) mod n != 1 |
| SimplicityTests.FermaVerdict | Elliptic/simplicityTests.py:123-140 | past the fixed cases: False iff some base fails, True iff every base passes |
| SimplicityTests.FermaTest | Elliptic/simplicityTests.py:95-140 | the loop with early `return False` computes the Fermat verdict |
| SimplicityTests.SolovayStrassen | Elliptic/simplicityTests.py:144-193 | `nightingale_strassen_test` with the drawn bases: errors carry only the two messages, a table entry is never declared prime, and True past 2 and 3 means every base passed its round |
| SimplicityTests.SolovayStrassenFixedCases | Elliptic/simplicityTests.py:155-170 | the same fixed cases as the Fermat test, in the same order |
| SimplicityTests.SolovayStrassenRoundExact | Elliptic/simplicityTests.py:184-189 | a round with d = w^((n-1)//2) passes iff d mod n == 1 and the symbol of d is 1 |
| SimplicityTests.SolovayStrassenBaseOneFails | Elliptic/simplicityTests.py:184-189 | a round with base 1 always fails |
| SimplicityTests.SolovayStrassenRoundsVerdict | Elliptic/simplicityTests.py:173-193 | the rounds fail exactly when some base fails its round |
| SimplicityTests.SolovayStrassenVerdict | Elliptic/simplicityTests.py:173-193 | past the fixed cases: False iff some base fails; any base 1 gives False |
| SimplicityTests.SolovayStrassenTest | Elliptic/simplicityTests.py:144-193 | the loop with early `return False` computes the Solovay–Strassen verdict |
| SimplicityTests.OddPartPositive | Elliptic/simplicityTests.py:228 | when a base is drawn, n >= 5 and the odd part of n - 1 is positive |
| SimplicityTests.MillerRabin | Elliptic/simplicityTests.py:197-258 | `miller_rabin_test` with the drawn bases: errors carry only the two messages, and True past 2 and 3 needs at least one round (with none the flag stays False) |
| SimplicityTests.MillerRabinFixedCases | Elliptic/simplicityTests.py:208-225 | n in {2, 3} gives True, 1 and even n the error messages, no table check; no rounds gives False |
| SimplicityTests.MillerRabinIgnoresCarmichaelTable | Elliptic/simplicityTests.py:211-212 | 561 is in the table and Fermat rejects it, but Miller–Rabin with base 1 answers True |
| SimplicityTests.SquaringsFirstHit | Elliptic/simplicityTests.py:245-256 | the inner loop stops at the first j whose remainder is 1 (False) or n - 1 (witness) |
| SimplicityTests.SquaringsNoHit | Elliptic/simplicityTests.py:245-256 | with no remainder in {1, n - 1}, the inner loop ends inconclusive |
| SimplicityTests.SquaringsNeverTrue | Elliptic/simplicityTests.py:245-256 | the inner loop never returns True |
| SimplicityTests.MillerRabinRoundTrue | Elliptic/simplicityTests.py:241-244 | a round returns True iff w^t mod n == 1 |
| SimplicityTests.MillerRabinRoundFirstHit | Elliptic/simplicityTests.py:241-256 | otherwise the first squaring hit decides: 1 gives False (at a power later than w^t), n - 1 sets the flag |
| SimplicityTests.MillerRabinRoundInconclusive | Elliptic/simplicityTests.py:241-256 | a round with no hit leaves the flag unchanged |
| SimplicityTests.MillerRabinFirstDecision | Elliptic/simplicityTests.py:231-258 | the first round that returns True or False decides the call |
| SimplicityTests.MillerRabinNoDecision | Elliptic/simplicityTests.py:231-258 | with no deciding round the answer is the flag: True iff some round reached n - 1 |
| SimplicityTests.MillerRabinTest | Elliptic/simplicityTests.py:197-258 | the nested loops with the witness flag compute the Miller–Rabin verdict |
| Elliptic.FindDiscriminant | Elliptic/elliptic.py:13-28 | congruent to 4a^3 + 27b^2 modulo field, in [0, field) for field > 0; zero iff field divides 4a^3 + 27b^2 |
| Elliptic.IsCurveExist | Elliptic/elliptic.py:31-59 | the result is True or one of the two error messages, never False |
| Elliptic.IsCurveExistVerdict | Elliptic/elliptic.py:46-59 | the field error iff the Fermat test (7 rounds by default) does not say True; True iff it does and field does not divide 4a^3 + 27b^2 |
| Elliptic.IsCurveExistExample | Elliptic/elliptic.py:31-59 | y^2 = x^3 + 2x + 3 over 13 exists with the default seven rounds |
| Elliptic.FindOrdinate | Elliptic/elliptic.py:62-77 | congruent to x^3 + a*x + b modulo field, in [0, field) for field > 0 |
| Elliptic.OnCurveCongruence | Elliptic/elliptic.py:62-77 | comparing `y*y % p` with the ordinate is the congruence y^2 = x^3 + a*x + b (mod p) |
| Elliptic.FindPoints | Elliptic/elliptic.py:80-119 | keys in [0, field), strictly increasing; each x's entry is [0] for a zero ordinate, the returned roots in order, or absent when the root routine fails or finds none |
| Elliptic.LookupAppend | Elliptic/elliptic.py:107 | appending an entry for a new key leaves the other keys' lists as they were |
| Elliptic.EntriesOnCurve | Elliptic/elliptic.py:99-119 | with a sound root routine, every listed (x, y) is on the curve |
| Elliptic.ChordSlope | Elliptic/elliptic.py:151-152 | the floor-quotient slope lies in [0, p) for p > 0 |
| Elliptic.AddChord | Elliptic/elliptic.py:149-154 | the general branch: bare ValueError exactly when field is 0 or the x coordinates are equal, else a point in [0, p)^2 |
| Elliptic.AddTangent | Elliptic/elliptic.py:147-148 | the doubling branch: ZeroDivisionError exactly when field is 0 or (2y) % field is 0, else a point in [0, p)^2 |
| Elliptic.AddPoints | Elliptic/elliptic.py:122-156 | equal points with y = 0 give the denominator message; other equal points give a point or ZeroDivisionError (exactly when field is 0 or (2y) % field is 0); distinct points give a point or a bare ValueError (exactly when field is 0 or the x coordinates are equal); points lie in the field's residue range |
| Elliptic.AddPointsChord | Elliptic/elliptic.py:151-156 | for distinct x: rx = m^2 - (px + qx), ry = -py + m*(px - rx) modulo p with the floor-quotient slope m, both in [0, p) |
| Elliptic.AddPointsTangent | Elliptic/elliptic.py:144-148 | doubling: rx uses ((3x^2 + a) % p // 2) * y, ry uses (3x^2 + a) % p // ((2y) % p), both in [0, p) |
| Elliptic.AddPointsForward | Elliptic/elliptic.py:151-156 | on y^2 = x^3 + 2x + 3 over 13, (0, 4) + (3, 6) = (10, 9) |
| Elliptic.AddPointsBackward | Elliptic/elliptic.py:151-156 | on the same curve, (3, 6) + (0, 4) = (0, 8), using the floor of 11 // -3 |
| Elliptic.AddPointsNotCommutative | Elliptic/elliptic.py:122-156 | for two curve points, P + Q != Q + P and P + Q is off the curve |

## Left out

- Randomness: `seed` and `randint` are not modelled. The bases are the parameter `ws`, each in [1, n] and coprime to n. The resampling loops that draw them are not modelled.
- For an n < 1 that reaches the rounds, `randint(1, n)` raises on every draw, so the resampling loop never ends. The preconditions admit only zero rounds there.
- NumPy arrays at Elliptic/simplicityTests.py:133, :184 and :246 are built with `dtype='object'` before the remainder is taken. Each holds one Python integer, so the model's exact `int` arithmetic matches them.
- The Miller–Rabin primary check at Elliptic/simplicityTests.py:241-242 is not built that way: `%` runs on a plain NumPy array before `dtype='object'` applies. When w^t lies in [2^63, 2^64), NumPy stores it as uint64, and uint64 % int64 is computed in float64 on w^t rounded to 53 bits. The model uses the exact remainder everywhere. The lines below name each member this affects.
- SimplicityTests.MillerRabin: uses the exact w^t mod n for the primary check, not the float64 value the source tests when w^t lies in [2^63, 2^64). For n = 31 and base 19, 19^15 lies in that band and its exact remainder is 1, so the model answers True. The source's float check sees 15.0, and its exact squaring loop then finds 1 and answers False.
- SimplicityTests.MillerRabinTest: computes the same exact primary remainder as `MillerRabin`, with the same gap in the [2^63, 2^64) band.
- SimplicityTests.MillerRabinRoundTrue: "True iff w^t mod n == 1" is about the exact remainder. When w^t lies in [2^63, 2^64), the source's float check can differ, as in the case n = 31, w = 19.
- SimplicityTests.MillerRabinRoundFirstHit: its premise and conclusion use the exact primary remainder. For n = 105 and w = 29 (29^13 lies in the band), the exact remainder is 29 and the lemma concludes False at j = 1. The source's float remainder is 1.0, so it returns True.
- SimplicityTests.MillerRabinRoundInconclusive: its premise uses the exact primary remainder, not the float64 value the source tests in the [2^63, 2^64) band.
- SimplicityTests.FindRepresentation: `value /= 2` produces a float in the source. The model halves exactly, so float rounding for large values is not captured. v = 0 never terminates in the source, so it is excluded by `requires v != 0`.
- The `is 0` comparisons on remainders of 2 are modelled as `== 0` (CPython caches small integers).
- SimplicityTests.SolovayStrassenVerdict: the model does not prove that the symbol of w^k is a number rather than the error. That would need w^k to stay coprime to n.
- Primality theorems beyond the code (that primes pass, the error bounds of the tests) are not stated. They need Fermat's little theorem.
- Elliptic.FindDiscriminant / Elliptic.FindOrdinate: require a non-zero field. For field 0 the source raises ZeroDivisionError, which these two do not model. No modelled caller reaches that case: the existence check rejects 0 as even first, and `find_points` visits no x for field 0.
- Elliptic.AddPoints: the default `a_value=None` is not modelled; `a` is an int. With `None`, the doubling branch raises TypeError.
- Elliptic.AddPoints: points are modelled as pairs. Malformed tuples are not modelled.
- Group laws (commutativity, associativity, closure) are not claimed, because the code does not satisfy them.
- Elliptic.FindPoints: the table is a sequence of (x, ys) rows in insertion order instead of a defaultdict of lists. The square-root routine is not part of this model and is the parameter `root`. A TypeError it raises and a `None` it returns are both its `None`.
- `multiply_point` is not part of this model: it calls `find_point_representation`, which is not defined in these files. `root_computation`, `create_point`, `is_point_exist` and `diffy_hellman` are not part of this model either.
- `main.py` is not part of this model: it is the interactive menu, prompts and plotting.
