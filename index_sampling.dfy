/**
 * The bit layout behind `get_permutations`: squeezed field elements are read as consecutive
 * 63-bit windows, least-significant bit first, and cut into `n` integers of `nbits` bits each.
 */
module IndexSampling {
  import opened Bits

  /** Usable pseudorandom bits per squeezed Goldilocks element (bit 63 is never read). */
  const BITS_PER_FIELD: nat := 63

  /** How many elements are squeezed for `totalBits` bits: the fewest whose windows cover them. */
  function NumFields(totalBits: nat): (k: nat)
    requires totalBits >= 1
    ensures k >= 1
    ensures BITS_PER_FIELD * (k - 1) < totalBits <= BITS_PER_FIELD * k
  {
    (totalBits - 1) / BITS_PER_FIELD + 1
  }

  /** Bit `k` of the concatenated windows: bit `k % 63` of element `k / 63`. */
  function BitAt(fields: seq<nat>, k: nat): (b: nat)
    requires k < BITS_PER_FIELD * |fields|
    ensures b <= 1
  {
    (fields[k / BITS_PER_FIELD] / Pow2(k % BITS_PER_FIELD)) % 2
  }

  /** The integer whose bit `j` is window bit `start + j`, for `j < len`. */
  function Window(fields: seq<nat>, start: nat, len: nat): nat
    requires start + len <= BITS_PER_FIELD * |fields|
  {
    if len == 0 then 0
    else if BitAt(fields, start + len - 1) == 1 then Window(fields, start, len - 1) + Pow2(len - 1)
    else Window(fields, start, len - 1)
  }

  /** The cursor of `get_permutations`: bit `bit` of element `field` is window bit `pos`. */
  predicate CursorAt(field: nat, bit: nat, pos: nat)
  {
    field * BITS_PER_FIELD + bit == pos && bit < BITS_PER_FIELD
  }

  /** Advancing the cursor by one bit, wrapping to the next element after bit 62. */
  lemma CursorStep(field: nat, bit: nat, pos: nat)
    requires CursorAt(field, bit, pos)
    ensures bit + 1 < BITS_PER_FIELD ==> CursorAt(field, bit + 1, pos + 1)
    ensures bit + 1 == BITS_PER_FIELD ==> CursorAt(field + 1, 0, pos + 1)
  {
  }

  /**
   * One more bit of a window, located by field index `q` and bit offset `r` as the cursor of
   * `get_permutations` tracks them.
   */
  lemma WindowExtend(fields: seq<nat>, start: nat, j: nat, q: nat, r: nat)
    requires start + j + 1 <= BITS_PER_FIELD * |fields|
    requires q * BITS_PER_FIELD + r == start + j && r < BITS_PER_FIELD
    ensures q < |fields|
    ensures (fields[q] / Pow2(r)) % 2 == 1 ==> Window(fields, start, j + 1) == Window(fields, start, j) + Pow2(j)
    ensures (fields[q] / Pow2(r)) % 2 != 1 ==> Window(fields, start, j + 1) == Window(fields, start, j)
  {
    DivModUnique(start + j, BITS_PER_FIELD, q, r);
    assert BitAt(fields, start + j) == (fields[q] / Pow2(r)) % 2;
  }

  lemma MulStep(i: nat, nbits: nat)
    ensures (i + 1) * nbits == i * nbits + nbits
  {
  }

  lemma MulMonotone(i: nat, n: nat, nbits: nat)
    requires i <= n
    ensures i * nbits <= n * nbits
  {
  }

  /** The `n` integers of `nbits` bits taken one after another from the windows. */
  function Indices(fields: seq<nat>, n: nat, nbits: nat): (r: seq<nat>)
    requires n * nbits <= BITS_PER_FIELD * |fields|
    ensures |r| == n
  {
    if n == 0 then []
    else
      MulStep(n - 1, nbits);
      Indices(fields, n - 1, nbits) + [Window(fields, (n - 1) * nbits, nbits)]
  }

  // ---------------------------------------------------------------------------------------------

  /** A window of `len` bits is below `2^len`. */
  lemma {:induction false} WindowBound(fields: seq<nat>, start: nat, len: nat)
    requires start + len <= BITS_PER_FIELD * |fields|
    ensures Window(fields, start, len) < Pow2(len)
  {
    if len > 0 {
      WindowBound(fields, start, len - 1);
      assert Pow2(len) == 2 * Pow2(len - 1);
    }
  }

  /** Unfolding `Window` once: the last bit sits above all the earlier ones. */
  lemma WindowLast(fields: seq<nat>, start: nat, len: nat)
    requires start + len <= BITS_PER_FIELD * |fields|
    requires len > 0
    ensures Window(fields, start, len) ==
            Window(fields, start, len - 1) + BitAt(fields, start + len - 1) * Pow2(len - 1)
    ensures Window(fields, start, len - 1) < Pow2(len - 1)
  {
    WindowBound(fields, start, len - 1);
    if BitAt(fields, start + len - 1) == 1 {
      assert BitAt(fields, start + len - 1) * Pow2(len - 1) == Pow2(len - 1);
    } else {
      assert BitAt(fields, start + len - 1) * Pow2(len - 1) == 0;
    }
  }

  lemma WindowTopBit(fields: seq<nat>, start: nat, len: nat)
    requires start + len <= BITS_PER_FIELD * |fields|
    requires len > 0
    ensures (Window(fields, start, len) / Pow2(len - 1)) % 2 == BitAt(fields, start + len - 1)
  {
    WindowLast(fields, start, len);
    QuotientTop(Window(fields, start, len), Window(fields, start, len - 1),
                BitAt(fields, start + len - 1), Pow2(len - 1));
  }

  lemma WindowLowerBit(fields: seq<nat>, start: nat, len: nat, j: nat)
    requires start + len <= BITS_PER_FIELD * |fields|
    requires j < len - 1
    ensures (Window(fields, start, len) / Pow2(j)) % 2 == (Window(fields, start, len - 1) / Pow2(j)) % 2
  {
    WindowLast(fields, start, len);
    Pow2Split(j, len - 1);
    HighBitIgnored(Window(fields, start, len), Window(fields, start, len - 1), BitAt(fields, start + len - 1),
                   Pow2(len - 2 - j), Pow2(j), Pow2(len - 1));
  }

  /** Bit `j` of a window is bit `start + j` of the concatenated fields. */
  lemma {:induction false} WindowBit(fields: seq<nat>, start: nat, len: nat, j: nat)
    requires start + len <= BITS_PER_FIELD * |fields|
    requires j < len
    ensures (Window(fields, start, len) / Pow2(j)) % 2 == BitAt(fields, start + j)
  {
    if j == len - 1 {
      WindowTopBit(fields, start, len);
    } else {
      WindowBit(fields, start, len - 1, j);
      WindowLowerBit(fields, start, len, j);
    }
  }

  /** Result `i` is the window that starts at bit `i * nbits`. */
  lemma {:induction false} IndicesAt(fields: seq<nat>, n: nat, nbits: nat, i: nat)
    requires n * nbits <= BITS_PER_FIELD * |fields|
    requires i < n
    ensures 0 <= i * nbits && i * nbits + nbits <= BITS_PER_FIELD * |fields|
    ensures Indices(fields, n, nbits)[i] == Window(fields, i * nbits, nbits)
  {
    MulMonotone(0, i, nbits);
    MulStep(i, nbits);
    MulMonotone(i + 1, n, nbits);
    if i < n - 1 {
      MulStep(n - 1, nbits);
      IndicesAt(fields, n - 1, nbits, i);
    }
  }

  /** Every produced index is below `2^nbits`. */
  lemma IndicesBounded(fields: seq<nat>, n: nat, nbits: nat)
    requires n * nbits <= BITS_PER_FIELD * |fields|
    ensures forall i :: 0 <= i < n ==> Indices(fields, n, nbits)[i] < Pow2(nbits)
  {
    forall i | 0 <= i < n
      ensures Indices(fields, n, nbits)[i] < Pow2(nbits)
    {
      IndicesAt(fields, n, nbits, i);
      WindowBound(fields, i * nbits, nbits);
    }
  }

  /**
   * Bit `j` of index `i` is bit `(i*nbits + j) % 63` of squeezed element `(i*nbits + j) / 63`,
   * and that element exists.
   */
  lemma IndicesBit(fields: seq<nat>, n: nat, nbits: nat, i: nat, j: nat)
    requires n * nbits <= BITS_PER_FIELD * |fields|
    requires i < n && j < nbits
    ensures (i * nbits + j) / BITS_PER_FIELD < |fields|
    ensures (Indices(fields, n, nbits)[i] / Pow2(j)) % 2 ==
            (fields[(i * nbits + j) / BITS_PER_FIELD] / Pow2((i * nbits + j) % BITS_PER_FIELD)) % 2
  {
    IndicesAt(fields, n, nbits, i);
    WindowBit(fields, i * nbits, nbits, j);
  }

  /** Two field sequences that agree on bits 0..62 of every element. */
  ghost predicate SameLow63(f: seq<nat>, g: seq<nat>)
  {
    |f| == |g| && forall k :: 0 <= k < |f| ==> f[k] % Pow2(BITS_PER_FIELD) == g[k] % Pow2(BITS_PER_FIELD)
  }

  /** Below bit `m`, a number and its remainder modulo `2^m` have the same bits. */
  lemma ModPow2Bit(x: nat, m: nat, b: nat)
    requires b < m
    ensures ((x % Pow2(m)) / Pow2(b)) % 2 == (x / Pow2(b)) % 2
  {
    Pow2Split(b, m);
    QuotientParityMod(x, Pow2(m - 1 - b), Pow2(b), Pow2(m));
  }

  lemma BitAtLow63(f: seq<nat>, g: seq<nat>, k: nat)
    requires SameLow63(f, g)
    requires k < BITS_PER_FIELD * |f|
    ensures BitAt(f, k) == BitAt(g, k)
  {
    var q, r := k / BITS_PER_FIELD, k % BITS_PER_FIELD;
    ModPow2Bit(f[q], BITS_PER_FIELD, r);
    ModPow2Bit(g[q], BITS_PER_FIELD, r);
  }

  lemma {:induction false} WindowLow63(f: seq<nat>, g: seq<nat>, start: nat, len: nat)
    requires SameLow63(f, g)
    requires start + len <= BITS_PER_FIELD * |f|
    ensures Window(f, start, len) == Window(g, start, len)
  {
    if len > 0 {
      WindowLow63(f, g, start, len - 1);
      BitAtLow63(f, g, start + len - 1);
    }
  }

  lemma {:induction false} IndexLow63(f: seq<nat>, g: seq<nat>, n: nat, nbits: nat, i: nat)
    requires SameLow63(f, g)
    requires n * nbits <= BITS_PER_FIELD * |f|
    requires i < n
    ensures Indices(f, n, nbits)[i] == Indices(g, n, nbits)[i]
  {
    IndicesAt(f, n, nbits, i);
    IndicesAt(g, n, nbits, i);
    var start := i * nbits;
    WindowLow63(f, g, start, nbits);
    assert Indices(f, n, nbits)[i] == Window(f, start, nbits);
    assert Indices(g, n, nbits)[i] == Window(g, start, nbits);
  }

  /** Bit 63 (and above) of a squeezed element never influences the produced indices. */
  lemma IndicesIgnoreTopBit(f: seq<nat>, g: seq<nat>, n: nat, nbits: nat)
    requires SameLow63(f, g)
    requires n * nbits <= BITS_PER_FIELD * |f|
    ensures Indices(f, n, nbits) == Indices(g, n, nbits)
  {
    forall i | 0 <= i < n
      ensures Indices(f, n, nbits)[i] == Indices(g, n, nbits)[i]
    {
      IndexLow63(f, g, n, nbits, i);
    }
  }
}
