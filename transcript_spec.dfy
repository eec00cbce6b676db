/**
 * The Goldilocks Fiat-Shamir sponge of starky's `TranscriptGL`, as pure functions on a snapshot
 * of its three buffers. The class in module Transcript is proved against these functions; the
 * lemmas here state what the sponge guarantees.
 *
 * Sponge geometry: a 4-element state (capacity), an 8-element pending block (rate) and a
 * width-12 permutation whose whole output becomes the squeeze buffer.
 */
module TranscriptSpec {
  import opened Wrappers
  import opened Bits
  import opened IndexSampling

  /** A Goldilocks field element, seen through its canonical 64-bit integer representation. */
  type Felt = x: nat | x < 0x1_0000_0000_0000_0000

  type State4 = s: seq<Felt> | |s| == 4 witness [0, 0, 0, 0]

  /** The output of one Poseidon call: exactly 12 field elements. */
  type Digest = s: seq<Felt> | |s| == 12 witness [0, 0, 0, 0, 0, 0, 0, 0, 0, 0, 0, 0]

  datatype TranscriptError = HashError(reason: string)

  /**
   * `Poseidon::hash(pending, state, 12)`: a foreign permutation, taken as an arbitrary total
   * function that either fails or returns 12 elements.
   */
  type Poseidon = (seq<Felt>, State4) -> Result<Digest, TranscriptError>

  /** Number of elements absorbed per permutation call. */
  const RATE: nat := 8

  /** The three fields of a transcript at one moment. */
  datatype Sponge = Sponge(state: State4, pending: seq<Felt>, out: seq<Felt>)

  /** The transcript after an operation together with what the operation returned. */
  datatype Step<T> = Step(after: Sponge, result: Result<T, TranscriptError>)

  /**
   * What holds between public calls that succeeded: the pending block is below capacity, the
   * squeeze buffer holds at most one digest, and pending input means no stale output.
   */
  ghost predicate Inv(s: Sponge)
  {
    |s.pending| < RATE && |s.out| <= 12 && (s.pending != [] ==> s.out == [])
  }

  /** A freshly constructed transcript. */
  function Fresh(): (s: Sponge)
    ensures Inv(s)
  {
    Sponge([0, 0, 0, 0], [], [])
  }

  /** The pending block extended with zeros up to the rate (unchanged when already that long). */
  function Padded(p: seq<Felt>): (q: seq<Felt>)
    ensures |q| == if |p| < RATE then RATE else |p|
    ensures q[..|p|] == p
    ensures forall i :: |p| <= i < |q| ==> q[i] == 0
  {
    if |p| < RATE then p + seq(RATE - |p|, _ => 0) else p
  }

  /** `update_state`: pad, permute `pending ++ state`, keep the digest and its first 4 elements. */
  function Flush(s: Sponge, hash: Poseidon): Step<()>
  {
    var p := Padded(s.pending);
    match hash(p, s.state)
    case Err(e) => Step(s.(pending := p), Err(e))
    case Ok(d) => Step(Sponge(d[..4], [], d), Ok(()))
  }

  /** `add_1`: drop stale output, append, and flush when the block is full. */
  function Absorb(s: Sponge, e: Felt, hash: Poseidon): Step<()>
  {
    var t := s.(out := [], pending := s.pending + [e]);
    if |t.pending| == RATE then Flush(t, hash) else Step(t, Ok(()))
  }

  /** `add_1` on each element in turn, stopping at the first error. */
  function AbsorbAll(s: Sponge, xs: seq<Felt>, hash: Poseidon): Step<()>
    decreases |xs|
  {
    if xs == [] then Step(s, Ok(()))
    else
      var st := Absorb(s, xs[0], hash);
      if st.result.Err? then st else AbsorbAll(st.after, xs[1..], hash)
  }

  /** The batches handed to `put`, concatenated in order. */
  function Flatten(es: seq<seq<Felt>>): seq<Felt>
  {
    if es == [] then [] else es[0] + Flatten(es[1..])
  }

  /** `get_fields1`: the next buffered element, flushing first when the buffer is empty. */
  function Squeeze(s: Sponge, hash: Poseidon): Step<Felt>
  {
    if s.out != [] then Step(s.(out := s.out[1..]), Ok(s.out[0]))
    else
      var f := Flush(s, hash);
      if f.result.Err? then Step(f.after, Err(f.result.error))
      else Step(f.after.(out := f.after.out[1..]), Ok(f.after.out[0]))
  }

  /** `vs` put in front of the values a successful step returned. */
  function Prefixed(vs: seq<Felt>, st: Step<seq<Felt>>): Step<seq<Felt>>
  {
    if st.result.Err? then st else Step(st.after, Ok(vs + st.result.value))
  }

  /** `k` successive squeezes, stopping at the first error. */
  function SqueezeN(s: Sponge, k: nat, hash: Poseidon): Step<seq<Felt>>
    decreases k
  {
    if k == 0 then Step(s, Ok([]))
    else
      var st := Squeeze(s, hash);
      if st.result.Err? then Step(st.after, Err(st.result.error))
      else Prefixed([st.result.value], SqueezeN(st.after, k - 1, hash))
  }

  // ---------------------------------------------------------------------------------------------
  // One permutation call

  /**
   * A flush that succeeds consumes the padded block, exposes the whole digest as output and keeps
   * its first four elements as the new state; one that fails leaves state and output untouched.
   */
  lemma FlushSpec(s: Sponge, hash: Poseidon)
    ensures var st := Flush(s, hash); var h := hash(Padded(s.pending), s.state);
      (st.result.Ok? <==> h.Ok?) &&
      (h.Ok? ==> st.after == Sponge(h.value[..4], [], h.value) && Inv(st.after)) &&
      (h.Err? ==> st.after == s.(pending := Padded(s.pending)) && st.result.error == h.error)
  {
  }

  // ---------------------------------------------------------------------------------------------
  // Absorbing

  /**
   * One absorbed element: any buffered output is discarded, the element is appended, and the
   * permutation runs on exactly the full block (no padding) precisely when the block reaches 8.
   */
  lemma AbsorbSpec(s: Sponge, e: Felt, hash: Poseidon)
    requires Inv(s)
    ensures var st := Absorb(s, e, hash); var block := s.pending + [e];
      (|block| < RATE ==> st == Step(Sponge(s.state, block, []), Ok(()))) &&
      (|block| == RATE ==> Padded(block) == block &&
                           st == Flush(Sponge(s.state, block, []), hash)) &&
      (st.result.Ok? ==> Inv(st.after))
  {
  }

  /** Absorbing `xs ++ ys` is absorbing `xs` and then, if that succeeded, `ys`. */
  lemma {:induction false} AbsorbAllAppend(s: Sponge, xs: seq<Felt>, ys: seq<Felt>, hash: Poseidon)
    ensures AbsorbAll(s, xs + ys, hash) ==
      var st := AbsorbAll(s, xs, hash);
      if st.result.Err? then st else AbsorbAll(st.after, ys, hash)
    decreases |xs|
  {
    if xs == [] {
      assert xs + ys == ys;
    } else {
      assert (xs + ys)[0] == xs[0];
      assert (xs + ys)[1..] == xs[1..] + ys;
      var st := Absorb(s, xs[0], hash);
      if st.result.Ok? {
        AbsorbAllAppend(st.after, xs[1..], ys, hash);
      }
    }
  }

  lemma {:induction false} FlattenAppend(xss: seq<seq<Felt>>, yss: seq<seq<Felt>>)
    ensures Flatten(xss + yss) == Flatten(xss) + Flatten(yss)
    decreases |xss|
  {
    if xss == [] {
      assert xss + yss == yss;
    } else {
      assert (xss + yss)[0] == xss[0];
      assert (xss + yss)[1..] == xss[1..] + yss;
      FlattenAppend(xss[1..], yss);
    }
  }

  /** Two successive `put`s absorb exactly what one `put` of all their batches does. */
  lemma PutTwice(s: Sponge, xss: seq<seq<Felt>>, yss: seq<seq<Felt>>, hash: Poseidon)
    ensures AbsorbAll(s, Flatten(xss + yss), hash) ==
      var st := AbsorbAll(s, Flatten(xss), hash);
      if st.result.Err? then st else AbsorbAll(st.after, Flatten(yss), hash)
  {
    FlattenAppend(xss, yss);
    AbsorbAllAppend(s, Flatten(xss), Flatten(yss), hash);
  }

  /** What remains of `all` once its whole blocks of 8 have been cut off the front. */
  function Leftover(all: seq<Felt>): (r: seq<Felt>)
    ensures |r| < RATE
  {
    all[|all| - |all| % RATE..]
  }

  lemma LeftoverAfterBlock(block: seq<Felt>, rest: seq<Felt>)
    requires |block| == RATE
    ensures Leftover(block + rest) == Leftover(rest)
  {
    var all := block + rest;
    assert |all| % RATE == |rest| % RATE;
    assert all[|all| - |all| % RATE..] == rest[|rest| - |rest| % RATE..];
  }

  /** One absorbed element, in the terms `AbsorbAllPending` chains together. */
  lemma AbsorbStepPending(s: Sponge, x: Felt, rest: seq<Felt>, hash: Poseidon)
    requires Inv(s)
    requires Absorb(s, x, hash).result.Ok?
    ensures var b := Absorb(s, x, hash).after;
      Inv(b) &&
      Leftover(s.pending + ([x] + rest)) == Leftover(b.pending + rest) &&
      (|s.pending| + 1 < RATE ==> b.state == s.state && b.pending == s.pending + [x]) &&
      (b.pending == [] <==> |b.out| == 12)
  {
    AbsorbSpec(s, x, hash);
    var block := s.pending + [x];
    assert s.pending + ([x] + rest) == block + rest;
    if |block| == RATE {
      FlushSpec(Sponge(s.state, block, []), hash);
      assert [] + rest == rest;
      LeftoverAfterBlock(block, rest);
    }
  }

  /**
   * After absorbing `xs` successfully, the pending block is the tail of `pending ++ xs` left over
   * after whole blocks of 8 were permuted; the state only moves when a block was completed; and
   * the output buffer holds a fresh digest exactly when the last element completed a block.
   */
  lemma {:induction false} AbsorbAllPending(s: Sponge, xs: seq<Felt>, hash: Poseidon)
    requires Inv(s)
    requires AbsorbAll(s, xs, hash).result.Ok?
    ensures var a := AbsorbAll(s, xs, hash).after;
      Inv(a) &&
      a.pending == Leftover(s.pending + xs) &&
      (|s.pending| + |xs| < RATE ==> a.state == s.state) &&
      (xs != [] ==> (a.pending == [] <==> |a.out| == 12))
    decreases |xs|
  {
    if xs == [] {
      assert s.pending + xs == s.pending;
    } else {
      var b := Absorb(s, xs[0], hash).after;
      AbsorbStepPending(s, xs[0], xs[1..], hash);
      assert [xs[0]] + xs[1..] == xs;
      AbsorbAllPending(b, xs[1..], hash);
    }
  }

  // ---------------------------------------------------------------------------------------------
  // Squeezing

  /**
   * One squeeze: a buffered element is returned and removed without calling the permutation;
   * with an empty buffer the permutation runs once and the first digest element, which is also
   * the new state's first element, is returned while the other 11 stay buffered.
   */
  lemma SqueezeSpec(s: Sponge, hash: Poseidon)
    requires Inv(s)
    ensures var st := Squeeze(s, hash);
      (s.out != [] ==> st == Step(Sponge(s.state, s.pending, s.out[1..]), Ok(s.out[0]))) &&
      (s.out == [] ==>
        var h := hash(Padded(s.pending), s.state);
        (st.result.Ok? <==> h.Ok?) &&
        (h.Ok? ==> st.result.value == h.value[0] == st.after.state[0] &&
                   st.after == Sponge(h.value[..4], [], h.value[1..]))) &&
      (st.result.Ok? ==> Inv(st.after))
  {
  }

  /** `k` squeezes that succeed return exactly `k` elements, and keep the invariant. */
  lemma {:induction false} SqueezeNShape(s: Sponge, k: nat, hash: Poseidon)
    ensures var st := SqueezeN(s, k, hash);
      st.result.Ok? ==> |st.result.value| == k && (Inv(s) ==> Inv(st.after))
    decreases k
  {
    if k > 0 {
      var st := Squeeze(s, hash);
      if st.result.Ok? {
        if Inv(s) {
          SqueezeSpec(s, hash);
        }
        SqueezeNShape(st.after, k - 1, hash);
      }
    }
  }

  /** The first of `k` squeezes, split off: an error stops everything, a value heads the rest. */
  lemma SqueezeNFirst(s: Sponge, k: nat, hash: Poseidon)
    requires k > 0
    ensures var st := Squeeze(s, hash);
      SqueezeN(s, k, hash) ==
        if st.result.Err? then Step(st.after, Err(st.result.error))
        else Prefixed([st.result.value], SqueezeN(st.after, k - 1, hash))
  {
  }

  /** Prefixing twice is prefixing once with the concatenation. */
  lemma PrefixedTwice(vs: seq<Felt>, ws: seq<Felt>, st: Step<seq<Felt>>)
    ensures Prefixed(vs, Prefixed(ws, st)) == Prefixed(vs + ws, st)
  {
    if st.result.Ok? {
      assert vs + (ws + st.result.value) == (vs + ws) + st.result.value;
    }
  }

  /** With at least `k` elements buffered, `k` squeezes just take them, in order, from the front. */
  lemma {:induction false} SqueezeNFromBuffer(s: Sponge, k: nat, hash: Poseidon)
    requires k <= |s.out|
    ensures SqueezeN(s, k, hash) == Step(s.(out := s.out[k..]), Ok(s.out[..k]))
    decreases k
  {
    if k > 0 {
      var t := s.(out := s.out[1..]);
      SqueezeNFromBuffer(t, k - 1, hash);
      assert t.out[k - 1..] == s.out[k..];
      assert [s.out[0]] + t.out[..k - 1] == s.out[..k];
    }
  }

  /** `a + b` squeezes are `a` squeezes followed by `b` more, their outputs concatenated. */
  lemma {:induction false} SqueezeNSplit(s: Sponge, a: nat, b: nat, hash: Poseidon)
    ensures SqueezeN(s, a + b, hash) ==
      var first := SqueezeN(s, a, hash);
      if first.result.Err? then first else Prefixed(first.result.value, SqueezeN(first.after, b, hash))
    decreases a
  {
    if a == 0 {
      var rest := SqueezeN(s, b, hash);
      if rest.result.Ok? {
        assert [] + rest.result.value == rest.result.value;
      }
    } else {
      var st := Squeeze(s, hash);
      if st.result.Ok? {
        assert a + b - 1 == (a - 1) + b;
        SqueezeNSplit(st.after, a - 1, b, hash);
        var mid := SqueezeN(st.after, a - 1, hash);
        if mid.result.Ok? {
          var tail := SqueezeN(mid.after, b, hash);
          if tail.result.Ok? {
            assert [st.result.value] + (mid.result.value + tail.result.value) ==
                   ([st.result.value] + mid.result.value) + tail.result.value;
          }
        }
      }
    }
  }

  // ---------------------------------------------------------------------------------------------
  // Index permutations

  /**
   * `get_permutations(n, nbits)`: squeeze just enough elements for `n * nbits` bits and cut
   * them into `n` integers of `nbits` bits.
   */
  function SamplePermutations(s: Sponge, n: nat, nbits: nat, hash: Poseidon): Step<seq<nat>>
    requires n * nbits >= 1
  {
    var st := SqueezeN(s, NumFields(n * nbits), hash);
    if st.result.Err? then Step(st.after, Err(st.result.error))
    else
      SqueezeNShape(s, NumFields(n * nbits), hash);
      Step(st.after, Ok(Indices(st.result.value, n, nbits)))
  }

  /**
   * A successful `get_permutations(n, nbits)` consumes exactly `NumFields(n * nbits)` squeezes
   * and returns `n` indices, each below `2^nbits`.
   */
  lemma SamplePermutationsSpec(s: Sponge, n: nat, nbits: nat, hash: Poseidon)
    requires n * nbits >= 1
    ensures var st := SamplePermutations(s, n, nbits, hash);
      var sq := SqueezeN(s, NumFields(n * nbits), hash);
      st.after == sq.after && (st.result.Ok? <==> sq.result.Ok?) &&
      (st.result.Ok? ==>
        |sq.result.value| == NumFields(n * nbits) && |st.result.value| == n &&
        forall i :: 0 <= i < n ==> st.result.value[i] < Pow2(nbits))
  {
    var sq := SqueezeN(s, NumFields(n * nbits), hash);
    if sq.result.Ok? {
      SqueezeNShape(s, NumFields(n * nbits), hash);
      IndicesBounded(sq.result.value, n, nbits);
    }
  }

  /**
   * Bit `j` of index `i` from a successful `get_permutations(n, nbits)` is bit
   * `(i*nbits + j) % 63` of squeezed element number `(i*nbits + j) / 63`, which exists.
   */
  lemma SamplePermutationsBit(s: Sponge, n: nat, nbits: nat, hash: Poseidon, i: nat, j: nat)
    requires n * nbits >= 1
    requires i < n && j < nbits
    requires SamplePermutations(s, n, nbits, hash).result.Ok?
    ensures var idx := SamplePermutations(s, n, nbits, hash).result.value;
      var fields := SqueezeN(s, NumFields(n * nbits), hash).result.value;
      |idx| == n && (i * nbits + j) / BITS_PER_FIELD < |fields| &&
      (idx[i] / Pow2(j)) % 2 ==
        (fields[(i * nbits + j) / BITS_PER_FIELD] / Pow2((i * nbits + j) % BITS_PER_FIELD)) % 2
  {
    var sq := SqueezeN(s, NumFields(n * nbits), hash);
    SqueezeNShape(s, NumFields(n * nbits), hash);
    IndicesBit(sq.result.value, n, nbits, i, j);
  }
}
