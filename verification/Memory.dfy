/** The chunked memory routines: sixteen bytes at a time, then byte by byte. */
module Memory {
  import opened Prelude
  import opened Text
  import opened Evidence

  const VEC_SIZE := 16

  // ----- Copy and set -----

  /** `simdCopyNeon`. Zig slices carry no promise about `dest` beyond `src`; both
      may be the same. */
  method SimdCopyNeon(dest: array<Byte>, src: array<Byte>)
    requires src.Length <= dest.Length
    modifies dest
    ensures dest[..] == old(src[..]) + old(dest[..])[src.Length..]
  {
    ghost var given, was := src[..], dest[..];
    NothingCopied(given, was);
    var i := CopyVectors(dest, src, given, was);
    while i < src.Length
      invariant i <= src.Length
      invariant src[..] == given && Copied(given, was, i, dest[..])
    {
      CopyByte(dest, src, i, given, was);
      i := i + 1;
    }
    AllCopied(given, was, dest[..]);
  }

  /** The loop over whole vectors. */
  method CopyVectors(dest: array<Byte>, src: array<Byte>, ghost given: seq<Byte>, ghost was: seq<Byte>)
    returns (i: nat)
    requires src[..] == given && Copied(given, was, 0, dest[..])
    modifies dest
    ensures i == src.Length / VEC_SIZE * VEC_SIZE && i <= src.Length
    ensures src[..] == given && Copied(given, was, i, dest[..])
  {
    var vecCount := src.Length / VEC_SIZE;
    i := 0;
    while i < vecCount * VEC_SIZE
      invariant 0 <= i <= vecCount * VEC_SIZE && i % VEC_SIZE == 0
      invariant src[..] == given && Copied(given, was, i, dest[..])
    {
      NextVector(i, vecCount);
      CopyVector(dest, src, i, given, was);
      i := i + VEC_SIZE;
    }
  }

  lemma NothingCopied(given: seq<Byte>, was: seq<Byte>)
    requires |given| <= |was|
    ensures Copied(given, was, 0, was)
  {
    AppendNothing(was);
  }

  lemma AllCopied(given: seq<Byte>, was: seq<Byte>, now: seq<Byte>)
    requires Copied(given, was, |given|, now)
    ensures now == given + was[|given|..]
  {
    TakeAll(given);
  }

  /** The vectors stay aligned and within the whole ones. */
  lemma NextVector(i: nat, count: nat)
    requires i % VEC_SIZE == 0 && i < count * VEC_SIZE
    ensures i + VEC_SIZE <= count * VEC_SIZE && (i + VEC_SIZE) % VEC_SIZE == 0
  {
  }

  /** One vector: load sixteen bytes, store them. */
  method CopyVector(dest: array<Byte>, src: array<Byte>, at: nat, ghost given: seq<Byte>, ghost was: seq<Byte>)
    requires src[..] == given && Copied(given, was, at, dest[..]) && at + VEC_SIZE <= src.Length
    modifies dest
    ensures src[..] == given && Copied(given, was, at + VEC_SIZE, dest[..])
  {
    var vec := src[at..at + VEC_SIZE];
    ghost var now := dest[..];
    SliceOf(src, at, given);
    ChunkCopied(given, was, at, vec, now);
    SameLength(given, was, at, now, dest == src);
    StoreVector(dest, at, vec);
    OntoItself(given, was, at + VEC_SIZE);
  }

  method CopyByte(dest: array<Byte>, src: array<Byte>, at: nat, ghost given: seq<Byte>, ghost was: seq<Byte>)
    requires src[..] == given && Copied(given, was, at, dest[..]) && at < src.Length
    modifies dest
    ensures src[..] == given && Copied(given, was, at + 1, dest[..])
  {
    ByteCopied(given, was, at, dest[..]);
    SameLength(given, was, at, dest[..], dest == src);
    dest[at] := src[at];
    OntoItself(given, was, at + 1);
  }

  lemma SliceOf(src: array<Byte>, at: nat, given: seq<Byte>)
    requires src[..] == given && at + VEC_SIZE <= src.Length
    ensures src[at..at + VEC_SIZE] == given[at..at + VEC_SIZE]
  {
  }

  /** When both arrays are one, what it was is what is given. */
  lemma SameLength(given: seq<Byte>, was: seq<Byte>, i: nat, now: seq<Byte>, one: bool)
    requires Copied(given, was, i, now) && (one ==> now == given)
    ensures one ==> given[i..] == was[i..]
  {
    if one {
      assert now[i..] == was[i..];
    }
  }

  /** The first `i` bytes are copied, the rest is as it was. */
  ghost predicate Copied(given: seq<Byte>, was: seq<Byte>, i: nat, now: seq<Byte>) {
    i <= |given| <= |was| && now == given[..i] + was[i..]
  }

  lemma ChunkCopied(given: seq<Byte>, was: seq<Byte>, i: nat, vec: seq<Byte>, now: seq<Byte>)
    requires Copied(given, was, i, now) && i + VEC_SIZE <= |given| && vec == given[i..i + VEC_SIZE]
    ensures Copied(given, was, i + VEC_SIZE, now[..i] + vec + now[i + VEC_SIZE..])
  {
    var j := i + VEC_SIZE;
    assert now[..i] == given[..i] && now[j..] == was[j..];
    assert given[..j] == given[..i] + vec;
  }

  lemma ByteCopied(given: seq<Byte>, was: seq<Byte>, i: nat, now: seq<Byte>)
    requires Copied(given, was, i, now) && i < |given|
    ensures Copied(given, was, i + 1, now[i := given[i]])
  {
    TakeNext(given, i);
    assert now[i := given[i]] == given[..i + 1] + was[i + 1..];
  }

  /** Copying bytes onto themselves changes nothing. */
  lemma OntoItself(given: seq<Byte>, was: seq<Byte>, i: nat)
    requires i <= |given| <= |was|
    ensures given[i..] == was[i..] ==> given[..i] + was[i..] == given
  {
    if given[i..] == was[i..] {
      TakeDrop(given, i);
    }
  }

  /** One vector store: sixteen bytes at `at`, nothing else. */
  method StoreVector(dest: array<Byte>, at: nat, vec: seq<Byte>)
    requires |vec| == VEC_SIZE && at + VEC_SIZE <= dest.Length
    modifies dest
    ensures dest[..] == old(dest[..])[..at] + vec + old(dest[..])[at + VEC_SIZE..]
  {
    forall k | 0 <= k < VEC_SIZE {
      dest[at + k] := vec[k];
    }
  }

  method SimdSetNeon(dest: array<Byte>, value: Byte)
    modifies dest
    ensures AllSet(dest[..], dest.Length, value)
  {
    var vecCount := dest.Length / VEC_SIZE;
    var pattern := seq(VEC_SIZE, k => value);
    var i := 0;
    while i < vecCount * VEC_SIZE
      invariant 0 <= i <= vecCount * VEC_SIZE && i % VEC_SIZE == 0
      invariant AllSet(dest[..], i, value)
    {
      NextVector(i, vecCount);
      VectorSet(dest[..], i, value, pattern);
      StoreVector(dest, i, pattern);
      i := i + VEC_SIZE;
    }
    while i < dest.Length
      invariant vecCount * VEC_SIZE <= i <= dest.Length
      invariant AllSet(dest[..], i, value)
    {
      dest[i] := value;
      i := i + 1;
    }
  }

  /** The first `n` bytes have the value. */
  ghost predicate AllSet(bytes: seq<Byte>, n: nat, value: Byte) {
    n <= |bytes| && forall k :: 0 <= k < n ==> bytes[k] == value
  }

  lemma VectorSet(bytes: seq<Byte>, i: nat, value: Byte, pattern: seq<Byte>)
    requires AllSet(bytes, i, value) && i + VEC_SIZE <= |bytes| && |pattern| == VEC_SIZE
    requires forall k :: 0 <= k < VEC_SIZE ==> pattern[k] == value
    ensures AllSet(bytes[..i] + pattern + bytes[i + VEC_SIZE..], i + VEC_SIZE, value)
  {
  }

  // ----- Compare -----

  function MinLength(a: seq<Byte>, b: seq<Byte>): nat {
    if |a| < |b| then |a| else |b|
  }

  /** The first difference at or after `i`, within the common length. */
  function DifferenceFrom(a: seq<Byte>, b: seq<Byte>, i: nat): Option<nat>
    decreases MinLength(a, b) - i
  {
    if i >= MinLength(a, b) then None else if a[i] != b[i] then Some(i) else DifferenceFrom(a, b, i + 1)
  }

  lemma {:induction false} SkipEqual(a: seq<Byte>, b: seq<Byte>, i: nat, j: nat)
    requires i <= j <= MinLength(a, b) && forall k :: i <= k < j ==> a[k] == b[k]
    ensures DifferenceFrom(a, b, i) == DifferenceFrom(a, b, j)
    decreases j - i
  {
    if i < j {
      SkipEqual(a, b, i + 1, j);
    }
  }

  /** It is the least differing index below both lengths, or there is none. */
  lemma {:induction false} DifferenceIsLeast(a: seq<Byte>, b: seq<Byte>, i: nat)
    ensures match DifferenceFrom(a, b, i)
            case Some(d) => i <= d < MinLength(a, b) && a[d] != b[d] && forall k :: i <= k < d ==> a[k] == b[k]
            case None => forall k :: i <= k < MinLength(a, b) ==> a[k] == b[k]
    decreases MinLength(a, b) - i
  {
    if i < MinLength(a, b) && a[i] == b[i] {
      DifferenceIsLeast(a, b, i + 1);
    }
  }

  method SimdCompareNeon(a: seq<Byte>, b: seq<Byte>) returns (r: Option<nat>)
    ensures r == DifferenceFrom(a, b, 0)
  {
    var vecCount := MinLength(a, b) / VEC_SIZE;
    var i := 0;
    while i < vecCount * VEC_SIZE
      invariant 0 <= i <= vecCount * VEC_SIZE && i % VEC_SIZE == 0
      invariant DifferenceFrom(a, b, 0) == DifferenceFrom(a, b, i)
    {
      NextVector(i, vecCount);
      var va := a[i..i + VEC_SIZE];
      var vb := b[i..i + VEC_SIZE];
      if va != vb {
        ghost var d := FindDifference(va, vb);
        ghost var last := i + d;
        assert a[last] != b[last];
        while i < vecCount * VEC_SIZE
          invariant 0 <= i <= last
          invariant DifferenceFrom(a, b, 0) == DifferenceFrom(a, b, i)
        {
          if a[i] != b[i] {
            return Some(i);
          }
          i := i + 1;
        }
      } else {
        assert forall k :: i <= k < i + VEC_SIZE ==> a[k] == va[k - i] && b[k] == vb[k - i];
        SkipEqual(a, b, i, i + VEC_SIZE);
        i := i + VEC_SIZE;
      }
    }
    while i < |a| && i < |b|
      invariant vecCount * VEC_SIZE <= i <= MinLength(a, b)
      invariant DifferenceFrom(a, b, 0) == DifferenceFrom(a, b, i)
    {
      if a[i] != b[i] {
        return Some(i);
      }
      i := i + 1;
    }
    return None;
  }

  ghost function FindDifference(va: seq<Byte>, vb: seq<Byte>): (d: nat)
    requires |va| == |vb| && va != vb
    ensures d < |va| && va[d] != vb[d]
  {
    if va[0] != vb[0] then 0 else
      assert va == [va[0]] + va[1..] && vb == [vb[0]] + vb[1..];
      1 + FindDifference(va[1..], vb[1..])
  }

  /** How the scalar fallback ends: with an answer, or by indexing past `b`. */
  datatype ScalarOutcome = Compared(difference: Option<nat>) | Overrun(index: nat)

  /** The fallback indexes `b` for every byte of `a` until they differ. It runs off
      the end of `b` exactly when `b` is a proper prefix of `a`; otherwise it agrees
      with the chunked form. */
  method SimdCompareScalar(a: seq<Byte>, b: seq<Byte>) returns (r: ScalarOutcome)
    ensures r.Overrun? <==> b < a
    ensures r.Overrun? ==> r.index == |b|
    ensures r.Compared? ==> r.difference == DifferenceFrom(a, b, 0)
  {
    for i := 0 to |a|
      invariant i <= |b| && a[..i] == b[..i] && DifferenceFrom(a, b, 0) == DifferenceFrom(a, b, i)
    {
      if i >= |b| {
        assert a[..i] == b;
        return Overrun(i);
      }
      if a[i] != b[i] {
        return Compared(Some(i));
      }
    }
    return Compared(None);
  }

  /** Where the fallback overruns, the chunked form answers that there is no
      difference. */
  lemma ChunkedMissesOverrun(a: seq<Byte>, b: seq<Byte>)
    requires b < a
    ensures DifferenceFrom(a, b, 0) == None
  {
    DifferenceIsLeast(a, b, 0);
  }
}
