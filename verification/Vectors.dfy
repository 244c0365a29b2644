/** The vectors of a vectored write, and the bytes they stand for. */
module Vectors {
  import opened Words

  function Concat(vs: seq<seq<byte>>): seq<byte> {
    if vs == [] then [] else vs[0] + Concat(vs[1..])
  }

  /** The number of bytes in the first n vectors. */
  function Before(vs: seq<seq<byte>>, n: nat): nat
    requires n <= |vs|
  {
    if n == 0 then 0 else Before(vs, n - 1) + |vs[n - 1]|
  }

  lemma {:induction false} BeforeTail(vs: seq<seq<byte>>, n: nat)
    requires 0 < n <= |vs|
    ensures Before(vs, n) == |vs[0]| + Before(vs[1..], n - 1)
  {
    if n > 1 {
      BeforeTail(vs, n - 1);
      assert vs[1..][n - 2] == vs[n - 1];
    }
  }

  lemma {:induction false} ConcatLength(vs: seq<seq<byte>>)
    ensures |Concat(vs)| == Before(vs, |vs|)
  {
    if vs != [] {
      ConcatLength(vs[1..]);
      BeforeTail(vs, |vs|);
    }
  }

  lemma {:induction false} BeforeMonotone(vs: seq<seq<byte>>, i: nat, j: nat)
    requires i <= j <= |vs|
    ensures Before(vs, i) <= Before(vs, j)
    decreases j
  {
    if i < j {
      BeforeMonotone(vs, i, j - 1);
    }
  }

  /** A vector occupies its own stretch of the concatenation. */
  lemma {:induction false} VectorInConcat(vs: seq<seq<byte>>, i: nat)
    requires i < |vs|
    ensures Before(vs, i) + |vs[i]| <= |Concat(vs)|
    ensures Concat(vs)[Before(vs, i)..Before(vs, i) + |vs[i]|] == vs[i]
  {
    if i > 0 {
      VectorInConcat(vs[1..], i - 1);
      BeforeTail(vs, i);
      var b := Before(vs[1..], i - 1);
      SliceOfTail(vs[0], Concat(vs[1..]), b, |vs[i]|);
    } else {
      assert Concat(vs)[0..|vs[0]|] == vs[0];
    }
  }

  lemma SliceOfTail(x: seq<byte>, y: seq<byte>, b: nat, n: nat)
    requires b + n <= |y|
    ensures (x + y)[|x| + b..|x| + b + n] == y[b..b + n]
  {
    var l, r := (x + y)[|x| + b..|x| + b + n], y[b..b + n];
    assert forall k | 0 <= k < n :: l[k] == r[k];
  }

  /** Extending a prefix of the concatenation by a stretch of the current vector. */
  lemma ExtendPrefix(vs: seq<seq<byte>>, i: nat, off: nat, n: nat)
    requires i < |vs| && off + n <= |vs[i]|
    ensures Before(vs, i) + off + n <= |Concat(vs)|
    ensures Concat(vs)[..Before(vs, i) + off] + vs[i][off..off + n] == Concat(vs)[..Before(vs, i) + off + n]
  {
    hide Concat, Before;
    VectorInConcat(vs, i);
    ExtendSlice(Concat(vs), Before(vs, i), |vs[i]|, off, n);
  }

  lemma ExtendSlice(whole: seq<byte>, b: nat, length: nat, off: nat, n: nat)
    requires b + length <= |whole| && off + n <= length
    ensures whole[..b + off] + whole[b..b + length][off..off + n] == whole[..b + off + n]
  {
    var part := whole[b..b + length];
    var l, r := part[off..off + n], whole[b + off..b + off + n];
    assert forall k | 0 <= k < n :: l[k] == r[k];
    assert l == r;
  }

  lemma {:induction false} ConcatLast(fs: seq<seq<byte>>, f: seq<byte>)
    ensures Concat(fs + [f]) == Concat(fs) + f
  {
    if fs == [] {
      assert [f][1..] == [] && [] + [f] == [f];
    } else {
      assert (fs + [f])[1..] == fs[1..] + [f];
      ConcatLast(fs[1..], f);
    }
  }

  lemma {:induction false} ConcatBoth(a: seq<seq<byte>>, b: seq<seq<byte>>)
    ensures Concat(a + b) == Concat(a) + Concat(b)
  {
    if a == [] {
      assert a + b == b;
    } else {
      assert (a + b)[1..] == a[1..] + b;
      ConcatBoth(a[1..], b);
    }
  }

  // ---- Where the 16-bit comparison of a write goes wrong ----

  /** Writing up to `target` bytes leaves a rest of vector j that is a multiple of 65536 bytes. */
  predicate SticksIn(vs: seq<seq<byte>>, j: nat, target: nat)
    requires j < |vs|
  {
    Before(vs, j) <= target < Before(vs, j + 1) && (Before(vs, j + 1) - target) % 0x1_0000 == 0
  }

  /** It does so in a vector that is not the last. */
  ghost predicate Sticks(vs: seq<seq<byte>>, target: nat) {
    exists j :: 0 <= j < |vs| - 1 && SticksIn(vs, j, target)
  }

  /** Within a vector its own rest decides. */
  lemma SticksHere(vs: seq<seq<byte>>, i: nat, off: nat, target: nat)
    requires i < |vs| && off < |vs[i]| && target == Before(vs, i) + off
    ensures Sticks(vs, target) <==> i < |vs| - 1 && (|vs[i]| - off) % 0x1_0000 == 0
  {
    assert Before(vs, i + 1) - target == |vs[i]| - off;
    assert i < |vs| - 1 && (|vs[i]| - off) % 0x1_0000 == 0 ==> SticksIn(vs, i, target);
    forall j | 0 <= j < |vs| - 1 && SticksIn(vs, j, target) ensures j == i {
      if j < i {
        BeforeMonotone(vs, j + 1, i);
      } else if i < j {
        BeforeMonotone(vs, i + 1, j);
      }
    }
  }

  lemma NoStickBeyond(vs: seq<seq<byte>>, target: nat)
    requires target >= |Concat(vs)|
    ensures !Sticks(vs, target)
  {
    ConcatLength(vs);
    forall j | 0 <= j < |vs| - 1 ensures !SticksIn(vs, j, target) {
      BeforeMonotone(vs, j + 1, |vs|);
    }
  }

  /** Vectors are safe, however much is written at a time, exactly when all but the last fit in 16 bits. */
  lemma SafeVectors(vs: seq<seq<byte>>)
    ensures (forall target: nat :: !Sticks(vs, target)) <==> (forall j | 0 <= j < |vs| - 1 :: |vs[j]| <= 0xFFFF)
  {
    hide Before;
    forall j | 0 <= j < |vs| - 1 && |vs[j]| > 0xFFFF ensures exists target: nat :: Sticks(vs, target) {
      var off := |vs[j]| - 0x1_0000;
      SticksHere(vs, j, off, Before(vs, j) + off);
    }
    forall target: nat, j | 0 <= j < |vs| - 1 && SticksIn(vs, j, target) ensures |vs[j]| > 0xFFFF {
      NextBefore(vs, j);
    }
  }

  lemma NextBefore(vs: seq<seq<byte>>, j: nat)
    requires j < |vs|
    ensures Before(vs, j + 1) == Before(vs, j) + |vs[j]|
  {
  }

  /** The first of several vectors is a non-zero multiple of 65536 bytes long. */
  predicate LongFirst(vs: seq<seq<byte>>) {
    |vs| > 1 && |vs[0]| > 0 && |vs[0]| % 0x1_0000 == 0
  }

  lemma LongFirstSticks(vs: seq<seq<byte>>)
    requires LongFirst(vs)
    ensures Sticks(vs, 0)
  {
    SticksHere(vs, 0, 0, 0);
  }
}
