/** Strided per-lane dot products and the halving shuffle reduction of a warp. */
module WarpDot {
  import opened Bits

  /** The products of positions `a..n` in order: what the scalar loop adds up. */
  function Dot(q: seq<real>, k: seq<real>, a: nat): real
    requires |q| == |k|
    decreases |q| - a
  {
    if a >= |q| then 0.0 else q[a] * k[a] + Dot(q, k, a + 1)
  }

  /** What one lane adds up: every `w`-th product from `d` on. */
  function Strided(q: seq<real>, k: seq<real>, d: nat, w: nat): real
    requires |q| == |k| && w > 0
    decreases |q| - d
  {
    if d >= |q| then 0.0 else q[d] * k[d] + Strided(q, k, d + w, w)
  }

  function Sum(s: seq<real>): real {
    if s == [] then 0.0 else s[0] + Sum(s[1..])
  }

  /** The partial sums of `n` neighbouring lanes, from lane `a` on. */
  function Lanes(q: seq<real>, k: seq<real>, a: nat, n: nat, w: nat): real
    requires |q| == |k| && w > 0
    decreases n
  {
    if n == 0 then 0.0 else Lanes(q, k, a, n - 1, w) + Strided(q, k, a + (n - 1), w)
  }

  lemma {:induction false} LanesFromSecond(q: seq<real>, k: seq<real>, a: nat, n: nat, w: nat)
    requires |q| == |k| && w > 0
    ensures Lanes(q, k, a, n + 1, w) == Strided(q, k, a, w) + Lanes(q, k, a + 1, n, w)
    decreases n
  {
    if n > 0 {
      LanesFromSecond(q, k, a, n - 1, w);
    }
  }

  lemma {:induction false} NothingLeft(q: seq<real>, k: seq<real>, a: nat, n: nat, w: nat)
    requires |q| == |k| && w > 0 && a >= |q|
    ensures Lanes(q, k, a, n, w) == 0.0
    decreases n
  {
    if n > 0 {
      NothingLeft(q, k, a, n - 1, w);
    }
  }

  /** The lanes of a whole warp together add up every product exactly once. */
  lemma {:induction false} LanesCoverAll(q: seq<real>, k: seq<real>, a: nat, w: nat)
    requires |q| == |k| && w > 0
    ensures Lanes(q, k, a, w, w) == Dot(q, k, a)
    decreases |q| - a
  {
    if a >= |q| {
      NothingLeft(q, k, a, w, w);
    } else {
      LanesCoverAll(q, k, a + 1, w);
      LanesFromSecond(q, k, a, w - 1, w);
    }
  }

  lemma {:induction false} SumAppend(s: seq<real>, x: real)
    ensures Sum(s + [x]) == Sum(s) + x
  {
    if s != [] {
      SumAppend(s[1..], x);
      assert (s + [x])[1..] == s[1..] + [x];
    }
  }

  lemma {:induction false} SumOfLanes(q: seq<real>, k: seq<real>, dots: seq<real>, n: nat, w: nat)
    requires |q| == |k| && w > 0 && n <= |dots|
    requires forall l | 0 <= l < n :: dots[l] == Strided(q, k, l, w)
    ensures Sum(dots[..n]) == Lanes(q, k, 0, n, w)
    decreases n
  {
    if n > 0 {
      SumOfLanes(q, k, dots, n - 1, w);
      assert dots[..n] == dots[..n - 1] + [dots[n - 1]];
      SumAppend(dots[..n - 1], dots[n - 1]);
    }
  }

  /** One lane's loop. */
  method LaneDot(q: seq<real>, k: seq<real>, tid: nat, w: nat) returns (dot: real)
    requires |q| == |k| && w > 0
    ensures dot == Strided(q, k, tid, w)
  {
    dot := 0.0;
    var d := tid;
    while d < |q|
      invariant Strided(q, k, tid, w) == dot + Strided(q, k, d, w)
    {
      dot := dot + q[d] * k[d];
      d := d + w;
    }
  }

  /** Adding lane `l + n` to lane `l`, for `l < n`, keeps the sum over the lower lanes. */
  lemma {:induction false} FoldHalves(s: seq<real>, t: seq<real>, n: nat)
    requires |s| == |t| && 2 * n <= |s|
    requires forall l | 0 <= l < n :: t[l] == s[l] + s[l + n]
    ensures Sum(t[..n]) == Sum(s[..2 * n])
  {
    FoldPrefix(s, t, n, n);
    SumConcat(s[..n], s[n..2 * n]);
    assert s[..n] + s[n..2 * n] == s[..2 * n];
  }

  lemma {:induction false} FoldPrefix(s: seq<real>, t: seq<real>, n: nat, i: nat)
    requires |s| == |t| && 2 * n <= |s| && i <= n
    requires forall l | 0 <= l < n :: t[l] == s[l] + s[l + n]
    ensures Sum(t[..i]) == Sum(s[..i]) + Sum(s[n..n + i])
    decreases i
  {
    if i > 0 {
      FoldPrefix(s, t, n, i - 1);
      assert t[..i] == t[..i - 1] + [t[i - 1]] && s[..i] == s[..i - 1] + [s[i - 1]];
      assert s[n..n + i] == s[n..n + i - 1] + [s[n + i - 1]];
      SumAppend(t[..i - 1], t[i - 1]);
      SumAppend(s[..i - 1], s[i - 1]);
      SumAppend(s[n..n + i - 1], s[n + i - 1]);
    }
  }

  lemma {:induction false} SumConcat(a: seq<real>, b: seq<real>)
    ensures Sum(a + b) == Sum(a) + Sum(b)
  {
    if a == [] {
      assert a + b == b;
    } else {
      SumConcat(a[1..], b);
      assert (a + b)[1..] == a[1..] + b;
    }
  }

  /** One shuffle, all lanes in lockstep: a lane whose partner is out of range reads itself. */
  method Shuffle(dots: array<real>, offset: nat)
    requires 0 < 2 * offset <= dots.Length
    modifies dots
    ensures Sum(dots[..offset]) == Sum(old(dots[..2 * offset]))
  {
    ghost var before := dots[..];
    forall l | 0 <= l < dots.Length {
      dots[l] := dots[l] + dots[if l + offset < dots.Length then l + offset else l];
    }
    FoldHalves(before, dots[..], offset);
    assert before[..2 * offset] == old(dots[..2 * offset]) && dots[..][..offset] == dots[..offset];
  }

  /** The shuffle loop: lane 0 ends with the sum over the warp. */
  method WarpReduce(dots: array<real>, k: nat)
    requires dots.Length == Pow2(k)
    modifies dots
    ensures dots[0] == Sum(old(dots[..]))
  {
    var offset := dots.Length / 2;
    ghost var total, j := Sum(dots[..]), k;
    assert dots[..Pow2(k)] == dots[..];
    while offset > 0
      invariant 0 <= j <= k && offset == Pow2(j) / 2 && Pow2(j) <= dots.Length
      invariant Sum(dots[..Pow2(j)]) == total
      decreases offset
    {
      assert 2 * offset == Pow2(j) && offset == Pow2(j - 1);
      Shuffle(dots, offset);
      offset := offset / 2;
      j := j - 1;
    }
    assert Pow2(j) == 1 && dots[..1] == [dots[0]];
  }

  /** Strided partial products and the reduction leave the full dot product in lane 0, for
      every vector length and every power-of-two warp width. */
  method WarpDotProduct(q: seq<real>, kv: seq<real>, k: nat) returns (dot: real)
    requires |q| == |kv|
    ensures dot == Dot(q, kv, 0)
  {
    var w := Pow2(k);
    var dots := new real[w](_ => 0.0);
    var tid := 0;
    while tid < w
      invariant 0 <= tid <= w
      invariant forall l | 0 <= l < tid :: dots[l] == Strided(q, kv, l, w)
    {
      var lane := LaneDot(q, kv, tid, w);
      dots[tid] := lane;
      tid := tid + 1;
    }
    SumOfLanes(q, kv, dots[..], w, w);
    assert dots[..][..w] == dots[..];
    LanesCoverAll(q, kv, 0, w);
    WarpReduce(dots, k);
    dot := dots[0];
  }
}
