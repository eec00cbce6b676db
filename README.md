# Transcript, PLONK parameter and hex-conversion model of eigen-zkvm

This project is a Dafny model of three pieces of eigen-zkvm, with proofs about each:

- **starky's `TranscriptGL`** is the Goldilocks Poseidon sponge used as a Fiat-Shamir transcript.
  - It has a 4-element `state`, a `pending` input block that is permuted when it reaches 8 elements, and an `out` buffer of squeezed elements.
  - `add_1` and `put` absorb input. `get_fields1` and `get_field` squeeze output.
  - `get_permutations` squeezes `ceil(n*nbits/63)` elements. It then cuts their low 63 bits, least-significant first, into `n` integers of `nbits` bits.
- **plonky's PLONK lifecycle parameters** cover four things:
  - the SRS power range `[10, 26]`;
  - the setup power `max(trailing_zeros(next_power_of_two(n)), 10)`;
  - the size of the derived Lagrange-form SRS;
  - the dispatch from a transcript token (`"keccak"`, `"rescue"`, anything else) to a proving or verifying routine.
- **algebraic's `repr_to_big`** drops the first two characters of its input, parses the rest as hexadecimal and prints the value in decimal.

Layout:

- `wrappers.dfy` holds `Option` and `Result`.
- `bits.dfy` holds `Pow2` and the division and remainder facts the bit proofs need.
- `transcript_spec.dfy` holds the sponge as pure functions on a `Sponge` value, plus the lemmas about it.
- `index_sampling.dfy` holds the bit layout behind `get_permutations`.
- `transcript.dfy` holds the class `TranscriptGL`:
  - its methods update `state`, `pending` and `out` in place;
  - each method is proved to produce exactly the state and result that the function in `transcript_spec.dfy` gives.
- `plonk.dfy` holds the pure range, size and dispatch logic. Foreign cryptographic calls are parameters.
- `utils.dfy` holds `repr_to_big`, including the `BigUint::from_str_radix` grammar it relies on.

`Poseidon::hash` is a parameter of the transcript constructor. It is an arbitrary total function that either fails or returns 12 elements. A field element is a natural number below 2^64.

For the `"rescue"` token the source passes `RescueTranscriptForRNS` with the default Rescue and RNS parameters (68, 110, 4); the model records this as the `RescueForRns` transcript kind.

## Model

| member | source | states |
|---|---|---|
| Transcript.TranscriptGL.constructor | starky/src/transcript.rs:39-46 | a new transcript has the all-zero 4-element state, no pending input and no buffered output, and satisfies the sponge invariant |
| TranscriptSpec.Fresh | starky/src/transcript.rs:39-46 | the initial sponge satisfies the invariant: pending below 8, at most 12 buffered, no buffered output while input is pending |
| TranscriptSpec.Padded | starky/src/transcript.rs:17-19 | the padding loop extends the pending block with zeros to exactly 8 and keeps the original elements as a prefix |
| Transcript.TranscriptGL.UpdateState | starky/src/transcript.rs:16-25 | the new fields and the result are exactly `Flush`: pad to 8, hash with the state, keep the 12-element digest as output and its first 4 elements as state, empty pending; on a hash error pending stays padded and state and output are untouched |
| TranscriptSpec.FlushSpec | starky/src/transcript.rs:16-25 | a flush succeeds iff the hash does; on success the state is the digest's first 4 elements, output is the whole digest, pending is empty and the invariant holds; on failure only pending changes (to its padded form) and the hash's error is returned |
| Transcript.TranscriptGL.Add1 | starky/src/transcript.rs:26-34 | the new fields and the result are exactly `Absorb`: output cleared, element appended, flushed when the block reaches 8 |
| TranscriptSpec.AbsorbSpec | starky/src/transcript.rs:26-34 | absorbing discards all buffered output; below 8 elements the element is just appended with state unchanged; at 8 the full block is permuted without padding; success preserves the invariant (pending below 8) |
| TranscriptSpec.Leftover | starky/src/transcript.rs:26-34 | what stays pending after whole blocks of 8 are cut off is shorter than 8 |
| TranscriptSpec.AbsorbStepPending | starky/src/transcript.rs:26-34 | one successful absorb keeps the invariant, carries the leftover of the total input forward, leaves the state alone while no block completes, and leaves pending empty exactly when a 12-element digest is buffered |
| TranscriptSpec.AbsorbAllPending | starky/src/transcript.rs:26-34 | after absorbing any input successfully, the invariant holds, pending is exactly the tail of all input left after whole blocks of 8, the state is unchanged if no block completed, and pending is empty exactly when a full digest is buffered |
| Transcript.TranscriptGL.Put | starky/src/transcript.rs:65-72 | `put` leaves the fields and result exactly as `add_1` on every element of the concatenated batches, in order, stopping at the first error |
| TranscriptSpec.AbsorbAllAppend | starky/src/transcript.rs:65-72 | absorbing `xs ++ ys` is absorbing `xs` and then, if that succeeded, `ys` |
| TranscriptSpec.FlattenAppend | starky/src/transcript.rs:65-72 | concatenating the batches of two batch lists is concatenating their flattenings |
| TranscriptSpec.PutTwice | starky/src/transcript.rs:65-72 | two successive `put`s have exactly the effect of one `put` of all their batches |
| Transcript.TranscriptGL.GetFields1 | starky/src/transcript.rs:55-63 | the new fields and the result are exactly `Squeeze`: pop the first buffered element, or flush once and pop from the fresh digest |
| TranscriptSpec.SqueezeSpec | starky/src/transcript.rs:55-63 | with buffered output the first element is returned and removed and nothing else changes; with none the permutation runs once, the squeeze fails iff the hash fails, and it returns the digest's first element (also the new state's first) while keeping the other 11; success keeps the invariant |
| TranscriptSpec.SqueezeNFromBuffer | starky/src/transcript.rs:55-63 | with at least `k` elements buffered, `k` squeezes return the first `k` buffered elements in order and leave the rest |
| Transcript.TranscriptGL.GetField | starky/src/transcript.rs:48-53 | `get_field` consumes exactly three successive squeezes and returns their values in order as the three coefficients |
| TranscriptSpec.SqueezeNSplit | starky/src/transcript.rs:48-53 | `a+b` squeezes are `a` squeezes followed by `b` more, with their outputs concatenated |
| TranscriptSpec.SqueezeNShape | starky/src/transcript.rs:78-81 | `k` successful squeezes return exactly `k` elements and preserve the invariant |
| Transcript.TranscriptGL.SqueezeFields | starky/src/transcript.rs:78-81 | the first loop of `get_permutations` leaves the fields and result exactly as `k` successive squeezes, and returns `k` elements |
| Transcript.TranscriptGL.GetPermutations | starky/src/transcript.rs:74-103 | the new fields and the result are exactly `SamplePermutations`: `NumFields(n*nbits)` squeezes, then the `n` bit windows cut from them |
| Transcript.CutIndices | starky/src/transcript.rs:82-102 | the nested bit-cutting loops, with the (field, bit) cursor carried across results, produce exactly `Indices(fields, n, nbits)` |
| Transcript.CutOne | starky/src/transcript.rs:86-99 | the inner loop accumulates exactly the `nbits`-bit window at the cursor, and moves the (field, bit) cursor forward `nbits` bits, wrapping at bit 63 |
| TranscriptSpec.SamplePermutationsSpec | starky/src/transcript.rs:74-103 | `get_permutations` squeezes exactly `NumFields(n*nbits)` elements, succeeds iff those squeezes do, and returns exactly `n` values, each below `2^nbits` |
| TranscriptSpec.SamplePermutationsBit | starky/src/transcript.rs:84-99 | bit `j` of result `i` is bit `(i*nbits+j) % 63` of squeezed element `(i*nbits+j) / 63`, and that element exists |
| IndexSampling.NumFields | starky/src/transcript.rs:75-76 | `(total-1)/63+1` is the fewest 63-bit windows that cover `total` bits |
| IndexSampling.BitAt | starky/src/transcript.rs:89-91 | the extracted value `(x >> cur_bit) & 1` is a single bit |
| IndexSampling.Indices | starky/src/transcript.rs:82-101 | the windowing produces exactly `n` values |
| IndexSampling.WindowExtend | starky/src/transcript.rs:89-98 | one inner-loop step adds `2^j` exactly when the bit at the cursor is set, and the cursor's field index is in bounds |
| IndexSampling.WindowBound | starky/src/transcript.rs:87-93 | a value assembled from `len` bits is below `2^len` |
| IndexSampling.WindowBit | starky/src/transcript.rs:88-93 | bit `j` of an assembled window is window bit `start + j` |
| IndexSampling.IndicesAt | starky/src/transcript.rs:82-101 | result `i` is the window starting at bit `i*nbits`, and that window lies inside the squeezed bits |
| IndexSampling.IndicesBounded | starky/src/transcript.rs:86-101 | every result is below `2^nbits` |
| IndexSampling.IndicesBit | starky/src/transcript.rs:84-99 | bit `j` of result `i` is bit `(i*nbits+j) % 63` of element `(i*nbits+j) / 63`, which is in bounds |
| IndexSampling.IndicesIgnoreTopBit | starky/src/transcript.rs:94-98 | squeezed elements that agree on bits 0..62 yield the same results: bit 63 is never read |
| Plonk.Pow2Bounds | plonky/src/plonk.rs:30-31 | the supported SRS sizes run from 2^10 = 1024 to 2^26 = 67108864 |
| Plonk.GenKeyMonomialForm | plonky/src/plonk.rs:34-60 | a refused power is reported as an `OutOfRangeError` that carries the power |
| Plonk.GenKeyRange | plonky/src/plonk.rs:35-43 | generation succeeds iff the SRS size `2^power` is between 1024 and 67108864 (power in 10..26), yielding a `crs_42` key of size `2^power`; otherwise the error is `OutOfRangeError(10, 26, power)` |
| Plonk.GenKeyBoundaries | plonky/src/plonk.rs:271-274 | power 10 is accepted with size 1024; powers 9 and 27 are refused |
| Plonk.NextPowerOfTwoIsLeast | plonky/src/plonk.rs:121 | `next_power_of_two(n)` is at least `n` and half of it is below `n`, so it is the least power of two not below `n` |
| Plonk.TrailingZerosPow2 | plonky/src/plonk.rs:121 | the trailing zeros of `2^k` are `k`, so `size` is the base-2 logarithm of the next power of two |
| Plonk.SetupPowerOfTwo | plonky/src/plonk.rs:121-127 | the setup power is at least 10 and `2^power >= n`; it is the least such power (either 10, or `2^(power-1) < n`) |
| Plonk.SetupPowerInRange | plonky/src/plonk.rs:127-136 | the setup power is in range iff `n <= 2^26` |
| Plonk.PrepareSetupForProver | plonky/src/plonk.rs:109-144 | a prepared setup keeps the transpiler's hints and both keys, has at most 2^26 gates, and its setup power is in 10..26 with an SRS of `2^power` covering all `n` gates |
| Plonk.PrepareSetupOutcome | plonky/src/plonk.rs:109-144 | transpiler and setup errors propagate unchanged; otherwise preparation succeeds iff `n <= 67108864` and keeps polynomials, hints and both keys; a failure reports `OutOfRangeError(10, 26, power)` with power above 26, so the lower bound never fires |
| Plonk.GetSrsLagrangeFormFromMonomialForm | plonky/src/plonk.rs:218-224 | the Lagrange-form SRS is derived (`from_powers`) from the setup's own monomial key, at a size that covers all `n` gates |
| Plonk.LagrangeSizeFits | plonky/src/plonk.rs:218-224 | the Lagrange SRS is derived from the monomial key at the least power of two not below `n`, which never exceeds the `2^power` SRS that setup checked |
| Plonk.DefaultRescueTranscriptParams | plonky/src/plonk.rs:253-265 | the checked 2-into-1 BN256 Rescue parameters with RNS parameters (68, 110, 4), whose four 68-bit limbs span the 254-bit base field |
| Plonk.ProveDispatch | plonky/src/plonk.rs:168-214 | a routine is selected iff the token is `"keccak"`, or `"rescue"` without a Lagrange key; the selected transcript is keccak exactly for `"keccak"`; the fast prover is used exactly when a Lagrange key is present |
| Plonk.Prove | plonky/src/plonk.rs:162-215 | `prove` panics iff the witness check fails or the dispatch finds no routine, and the panic is the witness failure exactly when the check failed (the check comes first) |
| Plonk.VerifyDispatch | plonky/src/plonk.rs:233-250 | a verifier configuration is selected iff the token is `"keccak"` or `"rescue"`; keccak exactly for `"keccak"`, Rescue parameters exactly for `"rescue"` |
| Plonk.Verify | plonky/src/plonk.rs:228-251 | `verify` panics (unimplemented) iff the token is neither `"keccak"` nor `"rescue"` |
| Plonk.ProveDispatchTable | plonky/src/plonk.rs:168-214 | `prove` dispatches iff the token is `"keccak"`, or `"rescue"` without a Lagrange key; with a Lagrange key it is the fast prover with keccak and that key; without, `"keccak"` selects the step-by-step prover with keccak and no Rescue parameters, and `"rescue"` the step-by-step prover with the Rescue transcript and RNS (68, 110, 4) |
| Plonk.ProveVerifyAgree | plonky/src/plonk.rs:228-251 | `verify` accepts exactly the tokens the key-less `prove` accepts, with the same transcript and Rescue parameters; any token `prove` accepts is accepted by `verify` with the same transcript |
| Plonk.ProveOutcomes | plonky/src/plonk.rs:162-215 | an unsatisfied witness panics whatever the token; with a satisfied witness a token the dispatch rejects (any token but `"keccak"` with a Lagrange key, any but `"keccak"`/`"rescue"` without) panics without consulting the prover; otherwise the prover's result is returned unchanged |
| Plonk.VerifyOutcomes | plonky/src/plonk.rs:228-251 | `verify` panics on any token but `"keccak"` and `"rescue"`, which run the verifier with the keccak transcript, or the Rescue transcript with RNS (68, 110, 4), and return its result unchanged |
| AlgebraicUtils.DigitValue | algebraic/src/utils.rs:10 | a character's digit value is below 36 or marks a non-digit, and is below 10 exactly for `'0'..'9'` |
| AlgebraicUtils.ReprToBig | algebraic/src/utils.rs:9-13 | the output is a canonical decimal numeral (digits only, no leading zero) whose decimal value is the hex value of the input after its first two characters |
| AlgebraicUtils.ParseDigitsDefined | algebraic/src/utils.rs:10-11 | the digit part parses iff every character is a digit below the radix or `_` |
| AlgebraicUtils.FromStrRadixDefined | algebraic/src/utils.rs:10-11 | parsing, so `unwrap`, succeeds iff after an optional single `+` the text is non-empty, does not start with `_`, and has only accepted characters |
| AlgebraicUtils.DecimalDigitsValue | algebraic/src/utils.rs:12 | the printed decimal digits parse back to the value |
| AlgebraicUtils.DecimalDigitsShape | algebraic/src/utils.rs:12 | the printed digits are decimal digits, none for zero and no leading zero otherwise |
| AlgebraicUtils.DecimalRoundTrip | algebraic/src/utils.rs:12 | printing in decimal and parsing back gives the same number, and the printed form is canonical |
| AlgebraicUtils.DecimalDigitsUnique | algebraic/src/utils.rs:12 | a decimal digit string without leading zero is exactly the printed form of its value |
| AlgebraicUtils.CanonicalDecimalUnique | algebraic/src/utils.rs:12 | every canonical decimal numeral is the printed form of its value |
| AlgebraicUtils.ReprToBigUnique | algebraic/src/utils.rs:10-12 | the output is the only canonical decimal numeral whose value equals the input's hex value |
| AlgebraicUtils.ReprToBigIgnoresPrefix | algebraic/src/utils.rs:10 | the first two characters are dropped unchecked: any two give the same output |
| AlgebraicUtils.LeadingZeroDigit | algebraic/src/utils.rs:10-11 | a leading zero digit does not change the parsed value |
| AlgebraicUtils.ReprToBigLeadingZero | algebraic/src/utils.rs:10-12 | a leading zero in the hex digits changes neither parsability nor the output |

## Left out

- `Poseidon::hash` internals: it is a foreign permutation. It is a constructor parameter, an arbitrary function returning 12 elements or an error.
- Goldilocks arithmetic and `as_int`: a field element is a natural below 2^64. Only its bits are used.
- Transcript.TranscriptGL.GetField: the `unwrap` panics of `get_field` are modelled as an `Err` result. `F::from_vec` is modelled as the `Cubic` triple.
- Transcript.TranscriptGL.GetPermutations: `n * nbits >= 1` is required because `total_bits - 1` underflows (panics) at zero.
- Transcript.TranscriptGL.GetPermutations: `nbits <= 64` is required because `1 << j` overflows beyond bit 63.
- Transcript.TranscriptGL.GetPermutations: `usize` overflow of `n * nbits` is not modelled, because integers are unbounded here.
- `get_permutations` keeps its fields as `BigUint` and its results as `usize`. Both are modelled as unbounded naturals, and every result is proved below `2^nbits`.
- Logging (`log::trace!`) is left out throughout.
- The SRS timing estimate in `gen_key_monomial_form` (plonky/src/plonk.rs:46-54) is left out. It uses the wall clock and `f64` and is diagnostic only.
- `crs_42`, `from_powers`, `transpile_with_gates_count`, `setup`, `prove`, `prove_by_steps`, `is_satisfied_using_one_shot_check` and the bellman verifier are foreign cryptographic code. They are parameters, or constructors naming the routine and its arguments.
- `make_verification_key` and `validate_witness` are left out. Each only forwards one foreign call's result.
- `analyse` is left out. It counts what the foreign transpiler produces and serialises the counts.
- Plonk.PrepareSetupForProver: `setup` is a function of the hints alone, because the circuit is fixed for one call.
- Plonk.PrepareSetupForProver: `u32` and `usize` widths of `n` and of the power are not modelled.
- zkvm/vm/evm/src/lib.rs is not part of this model. It is an EVM state-test harness over host I/O and foreign libraries.
- plonky/src/tests.rs is not part of this model. It checks proofs against binary fixture files.
- AlgebraicUtils.ReprToBig: the input is the text of `format!("{}", r)` as a string of characters. Slicing at a byte offset that is not a character boundary, which panics in the source, is not distinguished.
- AlgebraicUtils.FromStrRadix: the grammar follows num-bigint's documented `from_str_radix`, whose source is not part of this model. Its two error kinds are merged into `None`.
- AlgebraicUtils.ToStrRadix10: only radix 10 is modelled, the one `repr_to_big` uses.
