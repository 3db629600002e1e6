/** The spectrum ring buffer as a value: FFT_SIZE slots and a write index that
    advances by one slot per rendered frame, modulo FFT_SIZE. */
module Ring {

  /** FFT_SIZE: the ring capacity and the analysis window. */
  const N: nat := 1024

  /** The ring after writing `vals` one per slot starting at slot `idx`,
      wrapping modulo N (value t goes to Slot(idx, t)); written from the end
      so that one loop step is one unfolding. */
  function Write(ring: seq<int>, idx: nat, vals: seq<int>): (r: seq<int>)
    requires |ring| == N && idx < N
    ensures |r| == N
    decreases |vals|
  {
    if vals == [] then ring
    else Write(ring, idx, vals[..|vals| - 1])[Slot(idx, |vals| - 1) := vals[|vals| - 1]]
  }

  /** One more value goes into the slot after the last one written. */
  lemma WriteSnoc(ring: seq<int>, idx: nat, vals: seq<int>, x: int)
    requires |ring| == N && idx < N
    ensures Write(ring, idx, vals + [x]) == Write(ring, idx, vals)[Slot(idx, |vals|) := x]
  {
    assert (vals + [x])[..|vals|] == vals;
  }

  /** The slot `t` steps after `idx`, advancing one slot at a time as
      `(idx + 1) % FFT_SIZE` does. */
  function Slot(idx: nat, t: nat): (j: nat)
    requires idx < N
    ensures j < N
  {
    if t == 0 then idx else Next(Slot(idx, t - 1))
  }

  /** The slot after slot j: `(j + 1) % FFT_SIZE`. */
  function Next(j: nat): (k: nat)
    requires j < N
    ensures k < N
  {
    (j + 1) % N
  }

  lemma {:induction false} SlotIsMod(idx: nat, t: nat)
    requires idx < N
    ensures Slot(idx, t) == (idx + t) % N
  {
    if t > 0 {
      SlotIsMod(idx, t - 1);
      ModShift(idx + t - 1, 1);
    }
  }

  /** Advancing a steps and then b steps is advancing a + b steps. */
  lemma {:induction false} SlotAdd(idx: nat, a: nat, b: nat)
    requires idx < N
    ensures Slot(Slot(idx, a), b) == Slot(idx, a + b)
  {
    if b > 0 {
      SlotAdd(idx, a, b - 1);
    }
  }

  lemma ModShift(t: nat, d: nat)
    ensures (t % N + d) % N == (t + d) % N
  {
    var q := t / N;
    assert t == q * N + t % N;
    assert t + d == q * N + (t % N + d);
  }

  /** Writing `a` and then `b` from where `a` ended is writing `a + b`: the
      chunks of one nFillBuffer call compose into one run. */
  lemma {:induction false} WriteAppend(ring: seq<int>, idx: nat, a: seq<int>, b: seq<int>)
    requires |ring| == N && idx < N
    ensures Write(ring, idx, a + b) == Write(Write(ring, idx, a), Slot(idx, |a|), b)
    decreases |b|
  {
    if b == [] {
      assert a + b == a;
    } else {
      var front, x := b[..|b| - 1], b[|b| - 1];
      var j := Slot(idx, |a|);
      var wa := Write(ring, idx, a);
      assert (a + b)[..|a + b| - 1] == a + front;
      assert (a + b)[|a + b| - 1] == x;
      WriteAppend(ring, idx, a, front);
      var slot := Slot(idx, |a| + |front|);
      assert |a + b| - 1 == |a| + |front| && |b| - 1 == |front|;
      SlotAdd(idx, |a|, |front|);
      calc {
        Write(ring, idx, a + b);
        Write(ring, idx, a + front)[slot := x];
        Write(wa, j, front)[slot := x];
        Write(wa, j, b);
      }
    }
  }

  /** Within one turn of the ring, frame t of `vals` lands in slot
      (idx + t) % N, and a slot that no frame reaches keeps its old sample. */
  lemma {:induction false} WriteAt(ring: seq<int>, idx: nat, vals: seq<int>, p: nat)
    requires |ring| == N && idx < N && |vals| <= N && p < N
    ensures (p - idx) % N < |vals| ==> Write(ring, idx, vals)[p] == vals[(p - idx) % N]
    ensures (p - idx) % N >= |vals| ==> Write(ring, idx, vals)[p] == ring[p]
    decreases |vals|
  {
    if vals != [] {
      var front, t := vals[..|vals| - 1], |vals| - 1;
      WriteAt(ring, idx, front, p);
      SlotHits(idx, t, p);
      assert Write(ring, idx, vals) == Write(ring, idx, front)[Slot(idx, t) := vals[t]];
    }
  }

  /** Value t of a run written from `idx` lands in slot p exactly when p is
      t slots after idx. */
  lemma SlotHits(idx: nat, t: nat, p: nat)
    requires idx < N && t < N && p < N
    ensures Slot(idx, t) == p <==> (p - idx) % N == t
  {
    SlotIsMod(idx, t);
    if idx + t < N {
      assert (idx + t) % N == idx + t;
    } else {
      assert (idx + t) % N == idx + t - N;
    }
    if p >= idx {
      assert (p - idx) % N == p - idx;
    } else {
      assert (p - idx) % N == p - idx + N;
    }
  }

  /** The window a spectrum snapshot reads: slot (idx + i) % N at position i. */
  function Rotation(ring: seq<int>, idx: nat): (w: seq<int>)
    requires |ring| == N && idx < N
    ensures |w| == N
  {
    seq(N, i requires 0 <= i < N => ring[(idx + i) % N])
  }

  /** The rotation is the two halves of the ring swapped: the slots from the
      write index on (the oldest samples) come first. */
  lemma RotationSplit(ring: seq<int>, idx: nat)
    requires |ring| == N && idx < N
    ensures Rotation(ring, idx) == ring[idx..] + ring[..idx]
  {
    var w := Rotation(ring, idx);
    forall i | 0 <= i < N
      ensures w[i] == (ring[idx..] + ring[..idx])[i]
    {
      if idx + i < N {
        assert (idx + i) % N == idx + i;
      } else {
        assert (idx + i) % N == idx + i - N;
      }
    }
  }

  /** Every slot is read exactly once: the snapshot holds the same multiset of
      samples as the ring. */
  lemma RotationIsPermutation(ring: seq<int>, idx: nat)
    requires |ring| == N && idx < N
    ensures multiset(Rotation(ring, idx)) == multiset(ring)
  {
    RotationSplit(ring, idx);
    assert ring == ring[..idx] + ring[idx..];
  }

  /** Slot p appears in the snapshot at position (p - idx) mod N. */
  lemma RotationFindsSlot(ring: seq<int>, idx: nat, p: nat)
    requires |ring| == N && idx < N && p < N
    ensures Rotation(ring, idx)[(p - idx) % N] == ring[p]
  {
    var i := (p - idx) % N;
    if p >= idx {
      assert i == p - idx;
    } else {
      assert i == p - idx + N;
    }
  }

  /** A snapshot taken one write later: the oldest sample drops off the front
      and the new one is last. */
  lemma RotationStep(ring: seq<int>, idx: nat, x: int)
    requires |ring| == N && idx < N
    ensures Rotation(ring[idx := x], Next(idx)) == Rotation(ring, idx)[1..] + [x]
  {
    var lhs := Rotation(ring[idx := x], Next(idx));
    var rhs := Rotation(ring, idx)[1..] + [x];
    forall i | 0 <= i < N
      ensures lhs[i] == rhs[i]
    {
      var slot := ((idx + 1) % N + i) % N;
      assert slot == (idx + (i + 1)) % N;
      if i < N - 1 {
        assert slot != idx;
      } else {
        assert slot == idx;
      }
    }
  }

  /** The sliding window: after writing `vals` from the write index, the
      snapshot at the new write index is the old snapshot followed by `vals`,
      minus as many of the oldest samples as were written. */
  lemma {:induction false} WriteSlides(ring: seq<int>, idx: nat, vals: seq<int>)
    requires |ring| == N && idx < N
    ensures Rotation(Write(ring, idx, vals), Slot(idx, |vals|))
         == (Rotation(ring, idx) + vals)[|vals|..]
    decreases |vals|
  {
    if vals != [] {
      var front, x := vals[..|vals| - 1], vals[|vals| - 1];
      var k := Slot(idx, |front|);
      WriteSlides(ring, idx, front);
      RotationStep(Write(ring, idx, front), k, x);
      assert Slot(idx, |vals|) == Next(k);
      assert Write(ring, idx, vals) == Write(ring, idx, front)[k := x];
      var before := Rotation(ring, idx) + front;
      assert before[|front|..][1..] + [x] == (before + [x])[|vals|..];
      assert before + [x] == Rotation(ring, idx) + vals;
    }
  }

  /** Once at least N frames have been written, the snapshot is exactly the
      last N mono samples, oldest first, whatever the ring held before. */
  lemma WindowIsLatest(ring: seq<int>, idx: nat, vals: seq<int>)
    requires |ring| == N && idx < N && |vals| >= N
    ensures Rotation(Write(ring, idx, vals), (idx + |vals|) % N) == vals[|vals| - N..]
  {
    WriteSlides(ring, idx, vals);
    SlotIsMod(idx, |vals|);
    assert (Rotation(ring, idx) + vals)[|vals|..] == vals[|vals| - N..];
  }

  /** Writing exactly N frames brings the write index back where it was, so
      the snapshot starts at the same slot again. */
  lemma FullTurn(idx: nat, written: nat)
    requires idx < N
    ensures (idx + written) % N == idx <==> written % N == 0
  {
  }
}
