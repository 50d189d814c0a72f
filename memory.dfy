/** Heap buffers as the shell grows them: `realloc` to a larger size keeps the
    old contents and gives a buffer of the requested size. */
module Memory {

  /** The size of a buffer that starts at `chunk` elements and grows by
      `chunk` whenever its `n` stored elements fill it: the least size of the
      form `chunk`, `2 * chunk`, ... above `n`. */
  function GrownSize(n: nat, chunk: nat): (size: nat)
    requires chunk > 0
    ensures n < size <= n + chunk
    decreases n
  {
    if n < chunk then chunk else chunk + GrownSize(n - chunk, chunk)
  }

  /** The size is a whole number of chunks. */
  lemma {:induction false} GrownSizeIsMultiple(n: nat, chunk: nat)
    requires chunk > 0
    ensures GrownSize(n, chunk) % chunk == 0
    decreases n
  {
    if n < chunk {
      assert chunk == 1 * chunk;
      MultipleMod(1, chunk);
    } else {
      GrownSizeIsMultiple(n - chunk, chunk);
      var r := GrownSize(n - chunk, chunk);
      var k := r / chunk;
      assert r == k * chunk;
      assert chunk + r == (k + 1) * chunk;
      MultipleMod(k + 1, chunk);
    }
  }

  /** Storing one more element keeps the size, unless the buffer is now full,
      in which case it grows by one chunk. */
  lemma {:induction false} GrowStep(n: nat, chunk: nat)
    requires chunk > 0
    ensures GrownSize(n + 1, chunk) ==
            if n + 1 < GrownSize(n, chunk) then GrownSize(n, chunk) else GrownSize(n, chunk) + chunk
    decreases n
  {
    if n >= chunk {
      GrowStep(n - chunk, chunk);
    }
  }

  /** A multiple of `m` leaves no remainder. */
  lemma MultipleMod(k: nat, m: nat)
    requires m > 0
    ensures (k * m) % m == 0
  {
    var q, r := (k * m) / m, (k * m) % m;
    assert k * m == q * m + r && 0 <= r < m;
    assert (k - q) * m == r;
    if k - q >= 1 {
      assert false;
    } else if k - q <= -1 {
      assert false;
    }
  }

  /** `realloc(a, size)` with `size >= a.Length`, allocation taken to succeed.
      The model always moves the data to a new block; the cells past the old
      length hold the type's default value where C leaves them indeterminate. */
  method Realloc<T(0)>(a: array<T>, size: nat) returns (b: array<T>)
    requires a.Length <= size
    ensures fresh(b)
    ensures b.Length == size
    ensures b[..a.Length] == a[..]
  {
    b := new T[size];
    var i := 0;
    while i < a.Length
      invariant 0 <= i <= a.Length
      invariant forall k :: 0 <= k < i ==> b[k] == a[k]
    {
      b[i] := a[i];
      i := i + 1;
    }
  }
}
