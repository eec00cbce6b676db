/**
 * The parameter checks and transcript dispatch of plonky's PLONK lifecycle: the SRS power range,
 * the setup-size arithmetic, and which proving/verifying routine each transcript token selects.
 * The cryptographic routines themselves (transpiler, setup, prover, verifier) are parameters.
 */
module Plonk {
  import opened Wrappers
  import opened Bits

  const SETUP_MIN_POW2: nat := 10
  const SETUP_MAX_POW2: nat := 26

  datatype EigenError =
    | OutOfRangeError(expectedMin: nat, expectedMax: nat, found: nat)
    | AlgorithmError(reason: string)

  /** A monomial-form SRS: read from a key file, or generated by `crs_42` for a given size. */
  datatype MonomialKey = LoadedMonomialKey(id: nat) | Crs42(size: nat)

  /** A Lagrange-form SRS: read from a key file, or derived from a monomial key by `from_powers`. */
  datatype LagrangeKey = LoadedLagrangeKey(id: nat) | FromPowers(monomial: MonomialKey, size: nat)

  /** One transpilation hint (gate index and transpilation variant), opaque here. */
  datatype Hint = Hint(gate: nat, variant: nat)

  /** What `transpile_with_gates_count` returns. */
  datatype TranspileOutput = TranspileOutput(gatesCount: nat, hints: seq<Hint>)

  /** The setup polynomials; only their size `n` matters to the lifecycle. */
  datatype SetupPolynomials = SetupPolynomials(n: nat, id: nat)

  datatype SetupForProver = SetupForProver(
    setupPolynomials: SetupPolynomials,
    hints: seq<Hint>,
    keyMonomialForm: MonomialKey,
    keyLagrangeForm: Option<LagrangeKey>)

  datatype Proof = Proof(id: nat)
  datatype VerificationKey = VerificationKey(id: nat)

  /** The SRS sizes at the two ends of the supported range. */
  lemma Pow2Bounds()
    ensures Pow2(SETUP_MIN_POW2) == 1024 && Pow2(SETUP_MAX_POW2) == 67108864
  {
    assert Pow2(13) == 8192;
    Pow2Add(13, 13);
  }

  predicate InSetupRange(power: nat)
  {
    SETUP_MIN_POW2 <= power <= SETUP_MAX_POW2
  }

  function RangeError(found: nat): EigenError
  {
    OutOfRangeError(SETUP_MIN_POW2, SETUP_MAX_POW2, found)
  }

  // ---------------------------------------------------------------------------------------------
  // Monomial-form SRS generation

  /** `gen_key_monomial_form`: an SRS of `2^power` elements, for powers 10..26 only. */
  function GenKeyMonomialForm(power: nat): (r: Result<MonomialKey, EigenError>)
    ensures r.Err? ==> r.error.OutOfRangeError? && r.error.found == power
  {
    if !InSetupRange(power) then Err(RangeError(power))
    else Ok(Crs42(Pow2(power)))
  }

  /**
   * Generation succeeds exactly for SRS sizes from 1024 to 67,108,864 (2^10..2^26); a refused
   * power is reported with the expected range and the power itself.
   */
  lemma GenKeyRange(power: nat)
    ensures var r := GenKeyMonomialForm(power);
      (r.Ok? <==> 1024 <= Pow2(power) <= 67108864) &&
      (r.Ok? ==> r.value == Crs42(Pow2(power))) &&
      (r.Err? ==> r.error == OutOfRangeError(10, 26, power))
  {
    Pow2Bounds();
    if power < 10 {
      Pow2Monotone(power, 9);
    } else if power > 26 {
      Pow2Monotone(27, power);
    } else {
      Pow2Monotone(10, power);
      Pow2Monotone(power, 26);
    }
  }

  /** The boundary cases: 10 is accepted, 9 and 27 are refused. */
  lemma GenKeyBoundaries()
    ensures GenKeyMonomialForm(10) == Ok(Crs42(1024))
    ensures GenKeyMonomialForm(9) == Err(OutOfRangeError(10, 26, 9))
    ensures GenKeyMonomialForm(27) == Err(OutOfRangeError(10, 26, 27))
  {
  }

  // ---------------------------------------------------------------------------------------------
  // Setup-size arithmetic

  /** The number of doublings needed to reach at least `n`, starting from 1. */
  function CeilLog2(n: nat): nat
  {
    if n <= 1 then 0 else 1 + CeilLog2((n + 1) / 2)
  }

  /** `usize::next_power_of_two` (1 for 0). */
  function NextPowerOfTwo(n: nat): nat
  {
    Pow2(CeilLog2(n))
  }

  /** `next_power_of_two(n)` is the least power of two that is at least `n`. */
  lemma {:induction false} NextPowerOfTwoIsLeast(n: nat)
    ensures n <= NextPowerOfTwo(n)
    ensures CeilLog2(n) == 0 || Pow2(CeilLog2(n) - 1) < n
  {
    if n > 1 {
      var m := (n + 1) / 2;
      NextPowerOfTwoIsLeast(m);
      var k := CeilLog2(m);
      assert CeilLog2(n) == k + 1;
      if k > 0 {
        assert Pow2(k) == 2 * Pow2(k - 1);
      }
    }
  }

  /** `trailing_zeros`: the number of low zero bits of a positive integer. */
  function TrailingZeros(x: nat): nat
    requires x >= 1
  {
    if x % 2 == 1 then 0 else 1 + TrailingZeros(x / 2)
  }

  lemma {:induction false} TrailingZerosPow2(k: nat)
    ensures TrailingZeros(Pow2(k)) == k
  {
    if k > 0 {
      TrailingZerosPow2(k - 1);
      assert Pow2(k) / 2 == Pow2(k - 1);
    }
  }

  /**
   * The setup power of `prepare_setup_for_prover`,
   * `max(trailing_zeros(next_power_of_two(n)), 10)`: the least power of two of at least 10 whose
   * SRS holds `n` elements.
   */
  function SetupPowerOfTwo(n: nat): (p: nat)
    ensures SETUP_MIN_POW2 <= p && n <= Pow2(p)
    ensures p == SETUP_MIN_POW2 || Pow2(p - 1) < n
  {
    TrailingZerosPow2(CeilLog2(n));
    NextPowerOfTwoIsLeast(n);
    var size := TrailingZeros(NextPowerOfTwo(n));
    if size > SETUP_MIN_POW2 then size
    else Pow2Monotone(size, SETUP_MIN_POW2); SETUP_MIN_POW2
  }

  /** The setup power stays within the supported range exactly when `n <= 2^26`. */
  lemma SetupPowerInRange(n: nat)
    ensures InSetupRange(SetupPowerOfTwo(n)) <==> n <= Pow2(SETUP_MAX_POW2)
  {
    var p := SetupPowerOfTwo(n);
    if p <= SETUP_MAX_POW2 {
      Pow2Monotone(p, SETUP_MAX_POW2);
    } else {
      Pow2Monotone(SETUP_MAX_POW2, p - 1);
    }
  }

  /**
   * `prepare_setup_for_prover`, with the transpiler's outcome and the foreign `setup` (a function
   * of the hints) as parameters.
   */
  function PrepareSetupForProver(
    transpiled: Result<TranspileOutput, EigenError>,
    setup: seq<Hint> -> Result<SetupPolynomials, EigenError>,
    keyMonomialForm: MonomialKey,
    keyLagrangeForm: Option<LagrangeKey>): (r: Result<SetupForProver, EigenError>)
    ensures r.Ok? ==>
      (transpiled.Ok? && r.value.hints == transpiled.value.hints &&
       r.value.keyMonomialForm == keyMonomialForm && r.value.keyLagrangeForm == keyLagrangeForm)
    ensures r.Ok? ==>
      (var n := r.value.setupPolynomials.n;
       n <= 67108864 && InSetupRange(SetupPowerOfTwo(n)) && n <= Pow2(SetupPowerOfTwo(n)))
  {
    Pow2Bounds();
    match transpiled
    case Err(e) => Err(e)
    case Ok(t) =>
      match setup(t.hints)
      case Err(e) => Err(e)
      case Ok(polys) =>
        var power := SetupPowerOfTwo(polys.n);
        SetupPowerInRange(polys.n);
        if !InSetupRange(power) then Err(RangeError(power))
        else Ok(SetupForProver(polys, t.hints, keyMonomialForm, keyLagrangeForm))
  }

  /**
   * Transpiler and setup errors propagate unchanged; otherwise preparation succeeds exactly when
   * the circuit has at most 2^26 gates, and a failure always reports a power above 26 (the lower
   * bound can never trigger).
   */
  lemma PrepareSetupOutcome(
    transpiled: Result<TranspileOutput, EigenError>,
    setup: seq<Hint> -> Result<SetupPolynomials, EigenError>,
    keyMonomialForm: MonomialKey,
    keyLagrangeForm: Option<LagrangeKey>)
    ensures var r := PrepareSetupForProver(transpiled, setup, keyMonomialForm, keyLagrangeForm);
      (transpiled.Err? ==> r == Err(transpiled.error)) &&
      (transpiled.Ok? && setup(transpiled.value.hints).Err? ==>
        r == Err(setup(transpiled.value.hints).error)) &&
      (transpiled.Ok? && setup(transpiled.value.hints).Ok? ==>
        var polys := setup(transpiled.value.hints).value;
        (r.Ok? <==> polys.n <= 67108864) &&
        (r.Ok? ==> r.value == SetupForProver(polys, transpiled.value.hints, keyMonomialForm, keyLagrangeForm)) &&
        (r.Err? ==> r.error == OutOfRangeError(10, 26, SetupPowerOfTwo(polys.n)) &&
                    SetupPowerOfTwo(polys.n) > 26))
  {
    if transpiled.Ok? && setup(transpiled.value.hints).Ok? {
      Pow2Bounds();
      SetupPowerInRange(setup(transpiled.value.hints).value.n);
    }
  }

  /** `get_srs_lagrange_form_from_monomial_form`: derive at size `next_power_of_two(n)`. */
  function GetSrsLagrangeFormFromMonomialForm(s: SetupForProver): (k: LagrangeKey)
    ensures k.FromPowers? && k.monomial == s.keyMonomialForm
    ensures s.setupPolynomials.n <= k.size
  {
    NextPowerOfTwoIsLeast(s.setupPolynomials.n);
    FromPowers(s.keyMonomialForm, NextPowerOfTwo(s.setupPolynomials.n))
  }

  /**
   * The derived Lagrange key has the least power-of-two size holding the `n` setup gates, and
   * that size never exceeds the `2^power` SRS that setup checked.
   */
  lemma LagrangeSizeFits(s: SetupForProver)
    ensures var k := GetSrsLagrangeFormFromMonomialForm(s); var n := s.setupPolynomials.n;
      k.monomial == s.keyMonomialForm &&
      k.size == Pow2(CeilLog2(n)) && n <= k.size && (k.size == 1 || k.size / 2 < n) &&
      k.size <= Pow2(SetupPowerOfTwo(n))
  {
    var n := s.setupPolynomials.n;
    NextPowerOfTwoIsLeast(n);
    TrailingZerosPow2(CeilLog2(n));
    Pow2Monotone(CeilLog2(n), SetupPowerOfTwo(n));
    if CeilLog2(n) > 0 {
      assert Pow2(CeilLog2(n)) / 2 == Pow2(CeilLog2(n) - 1);
    }
  }

  // ---------------------------------------------------------------------------------------------
  // Transcript dispatch

  /** The Fiat-Shamir transcript a proving or verifying routine is instantiated with. */
  datatype TranscriptKind = RollingKeccak | RescueForRns

  /** `RnsParameters::new_for_field(limb size, intermediate limb capacity, binary limbs)`. */
  datatype RnsParameters = RnsParameters(limbSize: nat, intermediateLimbCapacity: nat, numBinaryLimbs: nat)

  datatype RescueParams = Bn256RescueChecked2Into1

  datatype RescueTranscriptParams = RescueTranscriptParams(rescue: RescueParams, rns: RnsParameters)

  /**
   * `get_default_rescue_transcript_params`: the checked 2-into-1 Rescue parameters, and RNS
   * parameters whose four 68-bit binary limbs span the 254-bit BN254 base field.
   */
  function DefaultRescueTranscriptParams(): (p: RescueTranscriptParams)
    ensures p.rescue == Bn256RescueChecked2Into1
    ensures p.rns == RnsParameters(68, 110, 4)
    ensures p.rns.limbSize * p.rns.numBinaryLimbs >= 254
  {
    RescueTranscriptParams(Bn256RescueChecked2Into1, RnsParameters(68, 110, 4))
  }

  /** Which foreign proving routine `prove` calls, with its transcript and extra parameters. */
  datatype ProverCall =
    | ProveFast(transcript: TranscriptKind, lagrange: LagrangeKey)
    | ProveBySteps(transcript: TranscriptKind, rescue: Option<RescueTranscriptParams>)

  /** The transcript and extra parameters `verify` hands to the foreign verifier. */
  datatype VerifierCall = VerifyWith(transcript: TranscriptKind, rescue: Option<RescueTranscriptParams>)

  /** The routine selected by `prove`'s match; `None` is `unimplemented!`. */
  function ProveDispatch(keyLagrangeForm: Option<LagrangeKey>, transcript: string): (c: Option<ProverCall>)
    ensures c.Some? <==> transcript == "keccak" || (keyLagrangeForm.None? && transcript == "rescue")
    ensures c.Some? ==> (c.value.transcript == RollingKeccak <==> transcript == "keccak")
    ensures c.Some? ==> (c.value.ProveFast? <==> keyLagrangeForm.Some?)
  {
    match keyLagrangeForm
    case Some(k) =>
      if transcript == "keccak" then Some(ProveFast(RollingKeccak, k)) else None
    case None =>
      if transcript == "keccak" then Some(ProveBySteps(RollingKeccak, None))
      else if transcript == "rescue" then Some(ProveBySteps(RescueForRns, Some(DefaultRescueTranscriptParams())))
      else None
  }

  /** The routine selected by `verify`'s match; `None` is `unimplemented!`. */
  function VerifyDispatch(transcript: string): (c: Option<VerifierCall>)
    ensures c.Some? <==> transcript == "keccak" || transcript == "rescue"
    ensures c.Some? ==> (c.value.transcript == RollingKeccak <==> transcript == "keccak")
    ensures c.Some? ==> (c.value.rescue.Some? <==> transcript == "rescue")
  {
    if transcript == "keccak" then Some(VerifyWith(RollingKeccak, None))
    else if transcript == "rescue" then Some(VerifyWith(RescueForRns, Some(DefaultRescueTranscriptParams())))
    else None
  }

  /** The dispatch table of `prove`: the token set it accepts and the routine each token selects. */
  lemma ProveDispatchTable(keyLagrangeForm: Option<LagrangeKey>, transcript: string)
    ensures var c := ProveDispatch(keyLagrangeForm, transcript);
      (c.Some? <==> transcript == "keccak" || (keyLagrangeForm.None? && transcript == "rescue")) &&
      (c.Some? && keyLagrangeForm.Some? ==> c.value == ProveFast(RollingKeccak, keyLagrangeForm.value)) &&
      (keyLagrangeForm.None? && transcript == "keccak" ==> c == Some(ProveBySteps(RollingKeccak, None))) &&
      (keyLagrangeForm.None? && transcript == "rescue" ==>
        c == Some(ProveBySteps(RescueForRns, Some(RescueTranscriptParams(Bn256RescueChecked2Into1, RnsParameters(68, 110, 4))))))
  {
  }

  /**
   * `verify` accepts exactly the tokens the step-by-step prover accepts, with the same transcript
   * and the same Rescue parameters, so a proof from `prove` can be checked with the same token.
   */
  lemma ProveVerifyAgree(keyLagrangeForm: Option<LagrangeKey>, transcript: string)
    ensures VerifyDispatch(transcript).Some? <==> ProveDispatch(None, transcript).Some?
    ensures ProveDispatch(keyLagrangeForm, transcript).Some? ==>
      VerifyDispatch(transcript).Some? &&
      VerifyDispatch(transcript).value.transcript == ProveDispatch(keyLagrangeForm, transcript).value.transcript
    ensures ProveDispatch(None, transcript).Some? ==>
      VerifyDispatch(transcript).value.rescue == ProveDispatch(None, transcript).value.rescue
  {
  }

  /** What `prove` or `verify` does: abort the process, or return a result. */
  datatype Panic = WitnessUnsatisfied | UnimplementedTranscript
  datatype Outcome<T> = Panicked(panic: Panic) | Returned(result: Result<T, EigenError>)

  /**
   * `prove`: the witness check (`is_satisfied_using_one_shot_check`, given as `witnessCheck`)
   * runs first and aborts on failure; then the token selects the routine `prover` runs.
   */
  function Prove(
    s: SetupForProver,
    witnessCheck: Result<(), EigenError>,
    transcript: string,
    prover: (SetupForProver, ProverCall) -> Result<Proof, EigenError>): (r: Outcome<Proof>)
    ensures r.Panicked? <==> witnessCheck.Err? || ProveDispatch(s.keyLagrangeForm, transcript).None?
    ensures r.Panicked? ==> (r.panic == WitnessUnsatisfied <==> witnessCheck.Err?)
  {
    if witnessCheck.Err? then Panicked(WitnessUnsatisfied)
    else
      match ProveDispatch(s.keyLagrangeForm, transcript)
      case None => Panicked(UnimplementedTranscript)
      case Some(call) => Returned(prover(s, call))
  }

  /**
   * An unsatisfied witness aborts whatever the token; an unknown token aborts without consulting
   * the prover at all; otherwise the prover's result is returned unchanged.
   */
  lemma ProveOutcomes(
    s: SetupForProver,
    witnessCheck: Result<(), EigenError>,
    transcript: string,
    prover: (SetupForProver, ProverCall) -> Result<Proof, EigenError>,
    otherProver: (SetupForProver, ProverCall) -> Result<Proof, EigenError>)
    ensures witnessCheck.Err? ==> Prove(s, witnessCheck, transcript, prover) == Panicked(WitnessUnsatisfied)
    ensures witnessCheck.Ok? && ProveDispatch(s.keyLagrangeForm, transcript).None? ==>
      Prove(s, witnessCheck, transcript, prover) == Panicked(UnimplementedTranscript) ==
      Prove(s, witnessCheck, transcript, otherProver)
    ensures witnessCheck.Ok? && ProveDispatch(s.keyLagrangeForm, transcript).Some? ==>
      Prove(s, witnessCheck, transcript, prover) ==
      Returned(prover(s, ProveDispatch(s.keyLagrangeForm, transcript).value))
  {
  }

  /** `verify`: the token selects the transcript the foreign verifier runs with. */
  function Verify(
    vk: VerificationKey,
    proof: Proof,
    transcript: string,
    verifier: (VerificationKey, Proof, VerifierCall) -> Result<bool, EigenError>): (r: Outcome<bool>)
    ensures r.Panicked? <==> transcript != "keccak" && transcript != "rescue"
    ensures r.Panicked? ==> r.panic == UnimplementedTranscript
  {
    match VerifyDispatch(transcript)
    case None => Panicked(UnimplementedTranscript)
    case Some(call) => Returned(verifier(vk, proof, call))
  }

  /** An unknown token aborts `verify` without running the verifier; a known one passes its result through. */
  lemma VerifyOutcomes(
    vk: VerificationKey,
    proof: Proof,
    transcript: string,
    verifier: (VerificationKey, Proof, VerifierCall) -> Result<bool, EigenError>)
    ensures transcript != "keccak" && transcript != "rescue" ==>
      Verify(vk, proof, transcript, verifier) == Panicked(UnimplementedTranscript)
    ensures transcript == "keccak" ==>
      Verify(vk, proof, transcript, verifier) == Returned(verifier(vk, proof, VerifyWith(RollingKeccak, None)))
    ensures transcript == "rescue" ==>
      Verify(vk, proof, transcript, verifier) ==
      Returned(verifier(vk, proof, VerifyWith(RescueForRns, Some(RescueTranscriptParams(Bn256RescueChecked2Into1, RnsParameters(68, 110, 4))))))
  {
  }
}
