/**
 * starky's `TranscriptGL`: the Goldilocks Poseidon sponge used as a Fiat-Shamir transcript.
 * The object updates its `state`, `pending` and `out` fields in place; every method is proved
 * to leave them exactly as the corresponding function of module TranscriptSpec says.
 */
module Transcript {
  import opened Wrappers
  import opened Bits
  import opened TranscriptSpec
  import opened IndexSampling

  /** An extension-field challenge built from three successive base-field squeezes. */
  datatype Cubic = Cubic(c0: Felt, c1: Felt, c2: Felt)

  class TranscriptGL {
    var state: State4
    var pending: seq<Felt>
    var out: seq<Felt>
    /** The sponge permutation (`Poseidon::hash`), fixed at construction. */
    const poseidon: Poseidon

    /** The three buffers as a value. */
    function Snapshot(): Sponge
      reads this
    {
      Sponge(state, pending, out)
    }

    /** `new`: all-zero state, nothing pending, nothing to squeeze. */
    constructor (poseidon: Poseidon)
      ensures Snapshot() == Fresh() && Inv(Snapshot())
      ensures this.poseidon == poseidon
    {
      state := [0, 0, 0, 0];
      this.poseidon := poseidon;
      pending := [];
      out := [];
    }

    /** `update_state`: zero-pad the pending block to 8 and run the permutation. */
    method UpdateState() returns (r: Result<(), TranscriptError>)
      modifies this
      ensures Snapshot() == Flush(old(Snapshot()), poseidon).after
      ensures r == Flush(old(Snapshot()), poseidon).result
    {
      while |pending| < RATE
        invariant state == old(state) && out == old(out)
        invariant |old(pending)| <= |pending|
        invariant |old(pending)| < RATE ==> |pending| <= RATE
        invariant |old(pending)| >= RATE ==> pending == old(pending)
        invariant pending[..|old(pending)|] == old(pending)
        invariant forall i :: |old(pending)| <= i < |pending| ==> pending[i] == 0
        decreases RATE - |pending|
      {
        pending := pending + [0];
      }
      assert |pending| == |Padded(old(pending))|;
      assert pending == Padded(old(pending));
      var h := poseidon(pending, state);
      if h.Err? {
        r := Err(h.error);
        return;
      }
      out := h.value;
      pending := [];
      state := out[..4];
      r := Ok(());
    }

    /** `add_1`: absorb one element, flushing when the pending block fills up. */
    method Add1(e: Felt) returns (r: Result<(), TranscriptError>)
      modifies this
      ensures Snapshot() == Absorb(old(Snapshot()), e, poseidon).after
      ensures r == Absorb(old(Snapshot()), e, poseidon).result
    {
      out := [];
      pending := pending + [e];
      if |pending| == RATE {
        r := UpdateState();
      } else {
        r := Ok(());
      }
    }

    /** `get_fields1`: squeeze one base-field element. */
    method GetFields1() returns (r: Result<Felt, TranscriptError>)
      modifies this
      ensures Snapshot() == Squeeze(old(Snapshot()), poseidon).after
      ensures r == Squeeze(old(Snapshot()), poseidon).result
      decreases if out == [] then 1 else 0
    {
      if out != [] {
        var v := out[0];
        out := out[1..];
        return Ok(v);
      }
      var u := UpdateState();
      if u.Err? {
        return Err(u.error);
      }
      r := GetFields1();
    }

    /** `get_field`: three successive squeezes composed into one extension-field element. */
    method GetField() returns (r: Result<Cubic, TranscriptError>)
      modifies this
      ensures var st := SqueezeN(old(Snapshot()), 3, poseidon);
        Snapshot() == st.after &&
        r == if st.result.Err? then Err(st.result.error)
             else Ok(Cubic(st.result.value[0], st.result.value[1], st.result.value[2]))
    {
      ghost var s0 := Snapshot();
      var a := GetFields1();
      if a.Err? {
        return Err(a.error);
      }
      ghost var s1 := Snapshot();
      var b := GetFields1();
      if b.Err? {
        return Err(b.error);
      }
      ghost var s2 := Snapshot();
      var c := GetFields1();
      if c.Err? {
        return Err(c.error);
      }
      assert SqueezeN(Snapshot(), 0, poseidon) == Step(Snapshot(), Ok([]));
      assert [c.value] + [] == [c.value];
      assert SqueezeN(s2, 1, poseidon) == Step(Snapshot(), Ok([c.value]));
      assert SqueezeN(s1, 2, poseidon) == Step(Snapshot(), Ok([b.value] + [c.value]));
      assert SqueezeN(s0, 3, poseidon) == Step(Snapshot(), Ok([a.value] + ([b.value] + [c.value])));
      r := Ok(Cubic(a.value, b.value, c.value));
    }

    /** `put`: absorb every element of every batch, in order, stopping at the first error. */
    method Put(es: seq<seq<Felt>>) returns (r: Result<(), TranscriptError>)
      modifies this
      ensures Snapshot() == AbsorbAll(old(Snapshot()), Flatten(es), poseidon).after
      ensures r == AbsorbAll(old(Snapshot()), Flatten(es), poseidon).result
    {
      ghost var goal := AbsorbAll(Snapshot(), Flatten(es), poseidon);
      var k := 0;
      while k < |es|
        invariant 0 <= k <= |es|
        invariant goal == AbsorbAll(Snapshot(), Flatten(es[k..]), poseidon)
      {
        assert es[k..][0] == es[k] && es[k..][1..] == es[k + 1..];
        var batch := es[k];
        var t := 0;
        while t < |batch|
          invariant 0 <= t <= |batch|
          invariant goal == AbsorbAll(Snapshot(), batch[t..] + Flatten(es[k + 1..]), poseidon)
        {
          var rest := batch[t..] + Flatten(es[k + 1..]);
          assert rest[0] == batch[t] && rest[1..] == batch[t + 1..] + Flatten(es[k + 1..]);
          var x := Add1(batch[t]);
          if x.Err? {
            return x;
          }
          t := t + 1;
        }
        assert batch[t..] + Flatten(es[k + 1..]) == Flatten(es[k + 1..]);
        k := k + 1;
      }
      r := Ok(());
    }

    /**
     * `get_permutations`: squeeze `NumFields(n * nbits)` elements and cut their low 63 bits,
     * least-significant first, into `n` integers of `nbits` bits each.
     */
    method GetPermutations(n: nat, nbits: nat) returns (r: Result<seq<nat>, TranscriptError>)
      requires 1 <= n * nbits
      requires nbits <= 64
      modifies this
      ensures var st := SamplePermutations(old(Snapshot()), n, nbits, poseidon);
        Snapshot() == st.after && r == st.result
    {
      var nFields := NumFields(n * nbits);
      var f := SqueezeFields(nFields);
      if f.Err? {
        return Err(f.error);
      }
      var fields := f.value;
      var res := CutIndices(fields, n, nbits);
      r := Ok(res);
    }

    /** The first loop of `get_permutations`: `k` successive `get_fields1` calls, collected in order. */
    method SqueezeFields(k: nat) returns (r: Result<seq<Felt>, TranscriptError>)
      modifies this
      ensures var st := SqueezeN(old(Snapshot()), k, poseidon);
        Snapshot() == st.after && r == st.result
      ensures r.Ok? ==> |r.value| == k
    {
      ghost var goal := SqueezeN(Snapshot(), k, poseidon);
      var fields: seq<Felt> := [];
      var i := 0;
      assert goal.result.Ok? ==> [] + goal.result.value == goal.result.value;
      while i < k
        invariant 0 <= i <= k && |fields| == i
        invariant goal == Prefixed(fields, SqueezeN(Snapshot(), k - i, poseidon))
      {
        ghost var before := Snapshot();
        SqueezeNFirst(before, k - i, poseidon);
        var e := GetFields1();
        if e.Err? {
          return Err(e.error);
        }
        PrefixedTwice(fields, [e.value], SqueezeN(Snapshot(), k - i - 1, poseidon));
        fields := fields + [e.value];
        i := i + 1;
      }
      assert fields + [] == fields;
      assert goal == Step(Snapshot(), Ok(fields));
      r := Ok(fields);
    }
  }

  /**
   * The bit-cutting loops of `get_permutations`: walk the low 63 bits of each field element,
   * least-significant first, filling `n` integers of `nbits` bits each.
   */
  method CutIndices(fields: seq<Felt>, n: nat, nbits: nat) returns (res: seq<nat>)
    requires n * nbits <= BITS_PER_FIELD * |fields|
    ensures res == Indices(fields, n, nbits)
  {
    res := [];
    var curField := 0;
    var curBit := 0;
    var i := 0;
    ghost var pos: nat := 0;
    while i < n
      invariant 0 <= i <= n
      invariant pos == i * nbits && pos <= n * nbits
      invariant CursorAt(curField, curBit, pos)
      invariant res == Indices(fields, i, nbits)
    {
      MulStep(i, nbits);
      MulMonotone(i + 1, n, nbits);
      var a;
      a, curField, curBit := CutOne(fields, pos, nbits, curField, curBit);
      res := res + [a];
      i := i + 1;
      pos := pos + nbits;
    }
  }

  /**
   * The inner loop of `get_permutations`: read `nbits` bits from the cursor
   * (`curField`, `curBit`), which stands at bit `start` of the windows, and advance it.
   */
  method CutOne(fields: seq<Felt>, ghost start: nat, nbits: nat, field0: nat, bit0: nat)
    returns (a: nat, curField: nat, curBit: nat)
    requires start + nbits <= BITS_PER_FIELD * |fields|
    requires CursorAt(field0, bit0, start)
    ensures a == Window(fields, start, nbits)
    ensures CursorAt(curField, curBit, start + nbits)
  {
    a := 0;
    curField, curBit := field0, bit0;
    var j := 0;
    while j < nbits
      invariant 0 <= j <= nbits
      invariant CursorAt(curField, curBit, start + j)
      invariant a == Window(fields, start, j)
    {
      WindowExtend(fields, start, j, curField, curBit);
      CursorStep(curField, curBit, start + j);
      if (fields[curField] / Pow2(curBit)) % 2 == 1 {
        a := a + Pow2(j);
      }
      curBit := curBit + 1;
      if curBit == BITS_PER_FIELD {
        curBit := 0;
        curField := curField + 1;
      }
      j := j + 1;
    }
  }
}
