/**
 * Shape arithmetic of the network: the reshaping helpers used by the
 * multi-headed self-attention (split the last dimension, merge the last
 * dimensions), the width and time arithmetic of the Listener's three
 * convolution/pooling stages, and the time-distributed application of a
 * row-wise module (SequenceWise).
 */
module Shapes {
  import opened Wrappers

  // ---------------------------------------------------------------------------
  // Products and counts over shapes
  // ---------------------------------------------------------------------------

  /** Number of elements of a tensor of the given shape. */
  function Prod(s: seq<int>): int
  {
    if s == [] then 1 else Prod(s[..|s| - 1]) * s[|s| - 1]
  }

  lemma {:induction false} ProdAppend(a: seq<int>, b: seq<int>)
    ensures Prod(a + b) == Prod(a) * Prod(b)
    decreases |b|
  {
    if b != [] {
      var b' := b[..|b| - 1];
      assert (a + b)[..|a + b| - 1] == a + b';
      ProdAppend(a, b');
      var l := b[|b| - 1];
      assert Prod(a + b) == Prod(a + b') * l;
      assert Prod(b) == Prod(b') * l;
      assert (Prod(a) * Prod(b')) * l == Prod(a) * (Prod(b') * l);
    } else {
      assert a + b == a;
    }
  }

  lemma {:induction false} ProdNonNegative(s: seq<int>)
    requires forall j :: 0 <= j < |s| ==> 0 <= s[j]
    ensures 0 <= Prod(s)
  {
    if s != [] {
      ProdNonNegative(s[..|s| - 1]);
    }
  }

  function Count(s: seq<int>, x: int): nat
  {
    if s == [] then 0 else Count(s[..|s| - 1], x) + (if s[|s| - 1] == x then 1 else 0)
  }

  lemma {:induction false} CountZero(s: seq<int>, x: int)
    ensures Count(s, x) == 0 <==> x !in s
  {
    if s != [] {
      CountZero(s[..|s| - 1], x);
      assert s == s[..|s| - 1] + [s[|s| - 1]];
    }
  }

  /** The first position of x in s (list.index). */
  function IndexOf(s: seq<int>, x: int): (i: nat)
    requires x in s
    ensures i < |s| && s[i] == x && forall j :: 0 <= j < i ==> s[j] != x
  {
    if s[0] == x then 0 else 1 + IndexOf(s[1..], x)
  }

  /** Python's int() of a true division: the quotient truncated toward zero. */
  function TruncDiv(a: int, b: int): int
    requires b != 0
  {
    var q := (if a < 0 then -a else a) / (if b < 0 then -b else b);
    if (a < 0) == (b < 0) then q else -q
  }

  // ---------------------------------------------------------------------------
  // split_last / merge_last
  // ---------------------------------------------------------------------------

  /**
   * The shape of `x.view(*x.size()[:-1], *shape)` after the single -1 entry of
   * shape (if any) is replaced by int(last / -prod(shape)). None stands for
   * the failing assertion on the number of -1 entries, a division by zero, a
   * negative extent, and a view whose element count differs from x's.
   */
  function SplitLast(dims: seq<nat>, shape: seq<int>): (r: Option<seq<nat>>)
    requires 1 <= |dims|
    ensures r.Some? ==> |r.value| == |dims| - 1 + |shape|
    ensures r.Some? ==> r.value[..|dims| - 1] == dims[..|dims| - 1]
    ensures r.Some? ==> Prod(r.value) == Prod(dims)
    ensures r.Some? ==> forall j :: 0 <= j < |shape| && shape[j] != -1 ==> r.value[|dims| - 1 + j] == shape[j]
    ensures Count(shape, -1) > 1 ==> r.None?
  {
    if Count(shape, -1) > 1 then None
    else
      var last := dims[|dims| - 1];
      var resolved :=
        if -1 in shape then
          var others := -Prod(shape);
          if others == 0 then None
          else Some(shape[IndexOf(shape, -1) := TruncDiv(last, others)])
        else Some(shape);
      if resolved.None? then None
      else if exists j :: 0 <= j < |resolved.value| && resolved.value[j] < 0 then None
      else
        var s: seq<nat> := resolved.value;
        var newDims := dims[..|dims| - 1] + s;
        if Prod(newDims) == Prod(dims) then Some(newDims) else None
  }

  /** The shape of `x.view(*s[:-n], -1)`, after the assertion 1 < n < len(s); -1 is ambiguous for an empty prefix product. */
  function MergeLast(dims: seq<nat>, n: int): (r: Option<seq<nat>>)
    ensures r.Some? <==> 1 < n < |dims| && Prod(dims[..|dims| - n]) != 0
    ensures r.Some? ==> r.value == dims[..|dims| - n] + [Prod(dims[|dims| - n..])]
    ensures r.Some? ==> Prod(r.value) == Prod(dims)
  {
    if !(1 < n < |dims|) then None
    else
      var pre := dims[..|dims| - n];
      var suf := dims[|dims| - n..];
      ProdAppend(pre, suf);
      assert pre + suf == dims;
      ProdNonNegative(suf);
      ProdNonNegative(pre);
      if Prod(pre) == 0 then None
      else
        MulDivCancel(Prod(pre), Prod(suf));
        var inferred := Prod(dims) / Prod(pre);
        ProdAppend(pre, [inferred]);
        assert Prod([inferred]) == inferred by { assert [inferred][..0] == []; }
        Some(pre + [inferred])
  }

  lemma MulDivCancel(a: int, b: int)
    requires 0 < a
    ensures (a * b) / a == b
  {
    var q := (a * b) / a;
    var r := (a * b) % a;
    assert a * b == a * q + r && 0 <= r < a;
    assert a * (b - q) == r;
    if b - q >= 1 {
      MulAtLeast(a, b - q);
    } else if b - q <= -1 {
      MulAtLeast(a, q - b);
    }
  }

  lemma {:induction false} MulAtLeast(a: nat, k: int)
    requires 1 <= k
    ensures a <= a * k
    decreases k
  {
    if k > 1 {
      MulAtLeast(a, k - 1);
      assert a * k == a * (k - 1) + a;
    }
  }

  /** Splitting without -1 succeeds with exactly the requested shape when its product is the last extent. */
  lemma SplitExact(dims: seq<nat>, shape: seq<int>)
    requires 1 <= |dims| && -1 !in shape
    requires forall j :: 0 <= j < |shape| ==> 0 <= shape[j]
    requires Prod(shape) == dims[|dims| - 1]
    ensures SplitLast(dims, shape) == Some(dims[..|dims| - 1] + shape)
  {
    CountZero(shape, -1);
    var pre := dims[..|dims| - 1];
    ProdAppend(pre, shape);
    ProdAppend(pre, [dims[|dims| - 1]]);
    assert pre + [dims[|dims| - 1]] == dims;
    assert Prod([dims[|dims| - 1]]) == dims[|dims| - 1] by { assert [dims[|dims| - 1]][..0] == []; }
  }

  /**
   * The head split of the self-attention: (B, S, D) with heads H dividing D
   * becomes (B, S, H, D/H).
   */
  lemma SplitHeads(b: nat, s: nat, d: nat, h: nat)
    requires 0 < h && d % h == 0
    ensures SplitLast([b, s, d], [h as int, -1]) == Some([b, s, h, d / h])
  {
    var shape: seq<int> := [h as int, -1];
    var one: seq<int> := [h as int];
    var none: seq<int> := [];
    assert shape[..1] == one && one[..0] == none;
    assert Count(one, -1) == Count(none, -1) + 0 == 0;
    assert Count(shape, -1) == Count(one, -1) + 1 == 1;
    assert -1 in shape && IndexOf(shape, -1) == 1;
    assert Prod(one) == Prod(none) * h == h;
    assert Prod(shape) == Prod(one) * -1 == -(h as int);
    assert TruncDiv(d, h) == d / h;
    var s': seq<nat> := [h, d / h];
    assert shape[1 := TruncDiv(d, h)] == s';
    assert forall j :: 0 <= j < |s'| ==> s'[j] >= 0;
    var pre: seq<nat> := [b, s];
    var last: seq<nat> := [d];
    assert [b, s, d][..2] == pre && pre + last == [b, s, d];
    ProdAppend(pre, s');
    ProdAppend(pre, last);
    assert Prod(last) == d by { assert last[..0] == []; }
    var h1: seq<nat> := [h];
    assert s'[..1] == h1 && h1[..0] == [];
    assert Prod(s') == h * (d / h) == d;
    assert pre + s' == [b, s, h, d / h];
  }

  /** merge_last undoes split_last whenever the split succeeded and the untouched dimensions hold elements. */
  lemma MergeAfterSplit(dims: seq<nat>, shape: seq<int>)
    requires 2 <= |dims| && 2 <= |shape|
    requires SplitLast(dims, shape).Some?
    requires Prod(dims[..|dims| - 1]) != 0
    ensures MergeLast(SplitLast(dims, shape).value, |shape|) == Some(dims)
  {
    var split := SplitLast(dims, shape).value;
    var pre := dims[..|dims| - 1];
    var s := split[|dims| - 1..];
    assert split == pre + s;
    assert split[..|split| - |shape|] == pre;
    assert split[|split| - |shape|..] == s;
    ProdAppend(pre, s);
    ProdAppend(pre, [dims[|dims| - 1]]);
    assert pre + [dims[|dims| - 1]] == dims;
    assert Prod([dims[|dims| - 1]]) == dims[|dims| - 1] by { assert [dims[|dims| - 1]][..0] == []; }
    MulCancel(Prod(pre), Prod(s), dims[|dims| - 1]);
    assert MergeLast(split, |shape|) == Some(pre + [Prod(s)]);
    assert pre + [dims[|dims| - 1]] == dims;
  }

  lemma MulCancel(a: int, x: int, y: int)
    requires a != 0 && a * x == a * y
    ensures x == y
  {
    assert a * (x - y) == 0;
  }

  /** split_last with the merged dimensions' own extents undoes merge_last. */
  lemma SplitAfterMerge(dims: seq<nat>, n: int)
    requires MergeLast(dims, n).Some?
    ensures SplitLast(MergeLast(dims, n).value, dims[|dims| - n..]) == Some(dims)
  {
    var m := MergeLast(dims, n).value;
    var suf := dims[|dims| - n..];
    assert forall j :: 0 <= j < |suf| ==> suf[j] >= 0;
    assert -1 !in suf;
    SplitExact(m, suf);
    assert m[..|m| - 1] + suf == dims;
  }

  // ---------------------------------------------------------------------------
  // Listener width arithmetic
  // ---------------------------------------------------------------------------

  /** Output extent of a convolution or pooling along one axis: (in - kernel + 2 pad) // stride + 1. */
  function ConvOut(w: int, kernel: int, pad: int, stride: nat): int
    requires 0 < stride
  {
    (w - kernel + 2 * pad) / stride + 1
  }

  /** A feature map of one sample: channels x frequency x time. */
  datatype FeatureMap = FeatureMap(channels: int, freq: int, time: int)

  /**
   * One stage: a (11, 3) convolution with padding (5, 1) and stride 1, then a
   * (3, 1) average pooling with stride (2, 1) and padding (1, 0).
   */
  function Stage(m: FeatureMap, channelsOut: int): FeatureMap
  {
    FeatureMap(channelsOut,
               ConvOut(ConvOut(m.freq, 11, 5, 1), 3, 1, 2),
               ConvOut(ConvOut(m.time, 3, 1, 1), 1, 0, 1))
  }

  /** The feature extractor: three stages with 64, 128 and 256 output channels. */
  function ListenerFeatures(inputFolding: int, freq: int, time: int): (m: FeatureMap)
    ensures m.channels == 256
    ensures m.time == time
    ensures m.freq == HalveN(freq, 3)
  {
    assert HalveN(freq, 3) == Halve(Halve(Halve(freq)));
    Stage(Stage(Stage(FeatureMap(2 * inputFolding, freq, time), 64), 128), 256)
  }

  /** The pooled frequency extent after one stage. */
  function Halve(w: int): int
  {
    ConvOut(w, 3, 1, 2)
  }

  function HalveN(w: int, n: nat): int
    decreases n
  {
    if n == 0 then w else HalveN(Halve(w), n - 1)
  }

  function Pow2(n: nat): nat
  {
    if n == 0 then 1 else 2 * Pow2(n - 1)
  }

  /** n stages take an extent of 2^n m + 1 to m + 1. */
  lemma {:induction false} HalveNPow(m: nat, n: nat)
    ensures HalveN(Pow2(n) * m + 1, n) == m + 1
  {
    if n > 0 {
      var k := Pow2(n - 1) * m;
      assert Pow2(n) * m == 2 * k;
      assert Halve(2 * k + 1) == k + 1;
      HalveNPow(m, n - 1);
    }
  }

  /**
   * A 129-bin spectrogram ends with 17 frequency bins of 256 channels, so the
   * collapsed per-step feature width is 256 * 17, the recurrent input width H0.
   */
  lemma ListenerWidth(inputFolding: int, time: int)
    ensures ListenerFeatures(inputFolding, 129, time) == FeatureMap(256, 17, time)
    ensures ListenerFeatures(inputFolding, 129, time).channels * ListenerFeatures(inputFolding, 129, time).freq == 4352
  {
    HalveNPow(16, 3);
    assert Pow2(3) * 16 + 1 == 129;
  }

  // ---------------------------------------------------------------------------
  // SequenceWise
  // ---------------------------------------------------------------------------

  /** Row-major flattening of (T, N) to T*N. */
  function Flatten<X>(x: seq<seq<X>>): seq<X>
  {
    if x == [] then [] else Flatten(x[..|x| - 1]) + x[|x| - 1]
  }

  lemma {:induction false} FlattenLength<X>(x: seq<seq<X>>, n: nat)
    requires forall i :: 0 <= i < |x| ==> |x[i]| == n
    ensures |Flatten(x)| == |x| * n
  {
    if x != [] {
      FlattenLength(x[..|x| - 1], n);
    }
  }

  /** Reshaping T*N rows back to (T, N). */
  function Unflatten<X>(rows: seq<X>, t: nat, n: nat): (r: seq<seq<X>>)
    requires |rows| == t * n
    ensures |r| == t && forall i :: 0 <= i < t ==> |r[i]| == n
  {
    if t == 0 then []
    else
      assert (t - 1) * n == t * n - n;
      Unflatten(rows[..(t - 1) * n], t - 1, n) + [rows[(t - 1) * n..]]
  }

  function MapRows<X, Y>(f: X -> Y, s: seq<X>): (r: seq<Y>)
    ensures |r| == |s| && forall i :: 0 <= i < |s| ==> r[i] == f(s[i])
  {
    seq(|s|, i requires 0 <= i < |s| => f(s[i]))
  }

  /**
   * Flatten (T, N, .) to (T*N, .), apply the row-wise module, and reshape to
   * (T, N, .): the result is the module applied to every element of every time step.
   */
  function SequenceWise<X, Y>(x: seq<seq<X>>, n: nat, f: X -> Y): (r: seq<seq<Y>>)
    requires 0 < |x| && 0 < n
    requires forall i :: 0 <= i < |x| ==> |x[i]| == n
    ensures |r| == |x|
    ensures forall i :: 0 <= i < |x| ==> |r[i]| == n
    ensures forall i, j :: 0 <= i < |x| && 0 <= j < n ==> r[i][j] == f(x[i][j])
  {
    UnflattenMapFlatten(x, n, f);
    Unflatten(MapRows(f, Flatten(x)), |x|, n)
  }

  lemma {:induction false} UnflattenMapFlatten<X, Y>(x: seq<seq<X>>, n: nat, f: X -> Y)
    requires forall i :: 0 <= i < |x| ==> |x[i]| == n
    ensures |MapRows(f, Flatten(x))| == |x| * n
    ensures Unflatten(MapRows(f, Flatten(x)), |x|, n) == seq(|x|, i requires 0 <= i < |x| => MapRows(f, x[i]))
    decreases |x|
  {
    FlattenLength(x, n);
    if x != [] {
      var t := |x|;
      var x' := x[..t - 1];
      UnflattenMapFlatten(x', n, f);
      FlattenLength(x', n);
      var a := MapRows(f, Flatten(x'));
      var b := MapRows(f, x[t - 1]);
      assert MapRows(f, Flatten(x)) == a + b;
      assert |a| == (t - 1) * n;
      assert (a + b)[..(t - 1) * n] == a;
      assert (a + b)[(t - 1) * n..] == b;
    }
  }
}
