/**
 * How the MPI programs cut the population into per-rank shards and put it
 * back together. `main` computes `n_local = N / size`; MPI_Scatter hands
 * rank k the k-th block of `n_local` agents of the root's buffer, and
 * MPI_Gather writes rank k's block back at offset `k * n_local` of the
 * root's buffer (sections 5.5 and 5.6 of the MPI 3.1 standard). Both are
 * modelled by the sequences they produce.
 */
module Partition {
  import opened Population

  /**
   * `n_local = N / size`: the ranks together hold the largest multiple of
   * `size` that does not exceed `n`.
   */
  function LocalCount(n: nat, size: nat): (width: nat)
    requires size >= 1
    ensures size * width <= n < size * (width + 1)
  {
    n / size
  }

  /** Blocks 0 .. count-1 of `width` consecutive agents of `g`, in index order. */
  function Blocks(g: seq<Agent>, width: nat, count: nat): (bs: seq<seq<Agent>>)
    requires count * width <= |g|
    ensures |bs| == count
    ensures forall r :: 0 <= r < count ==> |bs[r]| == width
    decreases count
  {
    if count == 0 then []
    else Blocks(g, width, count - 1) + [g[(count - 1) * width .. count * width]]
  }

  /** What MPI_Scatter delivers: entry k is rank k's shard. */
  function Scatter(g: seq<Agent>, size: nat): (shards: seq<seq<Agent>>)
    requires size >= 1
    ensures |shards| == size
    ensures forall r :: 0 <= r < size ==> |shards[r]| == LocalCount(|g|, size)
  {
    Blocks(g, LocalCount(|g|, size), size)
  }

  /** The shards laid end to end in rank order. */
  function Concat(bs: seq<seq<Agent>>): seq<Agent>
  {
    if |bs| == 0 then [] else Concat(bs[..|bs| - 1]) + bs[|bs| - 1]
  }

  /**
   * The root's buffer after MPI_Gather: the ranks' shards in rank order, then
   * whatever the buffer already held beyond them.
   */
  function Gather(g: seq<Agent>, bs: seq<seq<Agent>>): (r: seq<Agent>)
    requires |Concat(bs)| <= |g|
    ensures |r| == |g|
    ensures r[|Concat(bs)|..] == g[|Concat(bs)|..]
  {
    Concat(bs) + g[|Concat(bs)|..]
  }

  /** Sum over ranks of the count of `st` in each shard. */
  function SumCount(bs: seq<seq<Agent>>, st: int): nat
  {
    if |bs| == 0 then 0 else SumCount(bs[..|bs| - 1], st) + Count(bs[|bs| - 1], st)
  }

  // ---------------------------------------------------------------------

  lemma {:induction false} BlockAt(g: seq<Agent>, width: nat, count: nat, k: nat)
    requires count * width <= |g| && k < count
    ensures (k + 1) * width <= |g|
    ensures Blocks(g, width, count)[k] == g[k * width .. (k + 1) * width]
    decreases count
  {
    if k < count - 1 {
      BlockAt(g, width, count - 1, k);
    }
  }

  lemma {:induction false} ConcatBlocks(g: seq<Agent>, width: nat, count: nat)
    requires count * width <= |g|
    ensures Concat(Blocks(g, width, count)) == g[..count * width]
    decreases count
  {
    if count > 0 {
      var bs := Blocks(g, width, count);
      ConcatBlocks(g, width, count - 1);
      assert bs[..count - 1] == Blocks(g, width, count - 1);
      assert g[..count * width] == g[..(count - 1) * width] + g[(count - 1) * width .. count * width];
    }
  }

  /** Rank k receives agents `k * n_local .. (k + 1) * n_local - 1` of the global population. */
  lemma ScatterShard(g: seq<Agent>, size: nat, k: nat)
    requires 1 <= size && k < size
    ensures |Scatter(g, size)| == size
    ensures (k + 1) * LocalCount(|g|, size) <= |g|
    ensures Scatter(g, size)[k] == g[k * LocalCount(|g|, size) .. (k + 1) * LocalCount(|g|, size)]
  {
    BlockAt(g, LocalCount(|g|, size), size, k);
  }

  /**
   * The shards together are exactly the first `N - N mod size` agents: the
   * trailing `N mod size` agents are given to no rank.
   */
  lemma ScatterCoverage(g: seq<Agent>, size: nat)
    requires 1 <= size
    ensures Concat(Scatter(g, size)) == g[..|g| - |g| % size]
  {
    var width := LocalCount(|g|, size);
    ConcatBlocks(g, width, size);
    assert size * width == |g| - |g| % size;
  }

  /** Shards of equal width `width` laid end to end: position `k * width + m` is agent m of rank k. */
  lemma ConcatAt(bs: seq<seq<Agent>>, width: nat, k: nat, m: nat)
    requires forall r :: 0 <= r < |bs| ==> |bs[r]| == width
    requires k < |bs| && m < width
    ensures |Concat(bs)| == |bs| * width
    ensures k * width + m < |bs| * width
    ensures Concat(bs)[k * width + m] == bs[k][m]
  {
    BelowProduct(k, m, width, |bs|);
    var front, rest := bs[..k], bs[k + 1..];
    var before := Concat(front);
    assert Concat(bs) == before + (bs[k] + Concat(rest)) by {
      assert bs == front + [bs[k]] + rest;
      ConcatAppend(front + [bs[k]], rest);
      ConcatAppend(front, [bs[k]]);
      assert Concat([bs[k]]) == bs[k] by {
        assert [bs[k]][..0] == [];
      }
    }
    assert |before| == k * width by {
      ConcatLength(front, width);
    }
    assert |Concat(bs)| == |bs| * width by {
      ConcatLength(bs, width);
    }
  }

  /** Concatenation of shard lists distributes over `Concat`. */
  lemma {:induction false} ConcatAppend(a: seq<seq<Agent>>, b: seq<seq<Agent>>)
    ensures Concat(a + b) == Concat(a) + Concat(b)
    decreases |b|
  {
    if |b| == 0 {
      assert a + b == a;
    } else {
      ConcatAppend(a, b[..|b| - 1]);
      assert (a + b)[..|a + b| - 1] == a + b[..|b| - 1];
    }
  }

  lemma {:induction false} ConcatLength(bs: seq<seq<Agent>>, width: nat)
    requires forall r :: 0 <= r < |bs| ==> |bs[r]| == width
    ensures |Concat(bs)| == |bs| * width
  {
    if |bs| > 0 {
      ConcatLength(bs[..|bs| - 1], width);
    }
  }

  /** Scattering and gathering back without an update restores the root's buffer. */
  lemma GatherScatter(g: seq<Agent>, size: nat)
    requires 1 <= size
    ensures |Concat(Scatter(g, size))| <= |g|
    ensures Gather(g, Scatter(g, size)) == g
  {
    ScatterCoverage(g, size);
    var w := |g| - |g| % size;
    assert Concat(Scatter(g, size)) + g[w..] == g[..w] + g[w..] == g;
  }

  /**
   * MPI_Gather with shards of `width` agents each puts agent m of rank k at
   * position `k * width + m` of the root's buffer.
   */
  lemma GatherAt(g: seq<Agent>, bs: seq<seq<Agent>>, width: nat, k: nat, m: nat)
    requires forall r :: 0 <= r < |bs| ==> |bs[r]| == width
    requires |bs| * width <= |g| && k < |bs| && m < width
    ensures |Concat(bs)| == |bs| * width
    ensures k * width + m < |bs| * width
    ensures Gather(g, bs)[k * width + m] == bs[k][m]
  {
    ConcatAt(bs, width, k, m);
    BelowProduct(k, m, width, |bs|);
    var c := Concat(bs);
    assert Gather(g, bs)[k * width + m] == c[k * width + m];
  }

  /** ... and leaves every position from `|bs| * width` on as it was. */
  lemma GatherTail(g: seq<Agent>, bs: seq<seq<Agent>>, width: nat)
    requires forall r :: 0 <= r < |bs| ==> |bs[r]| == width
    requires |bs| * width <= |g|
    ensures |Concat(bs)| <= |g|
    ensures |Gather(g, bs)| == |g|
    ensures Gather(g, bs)[|bs| * width..] == g[|bs| * width..]
  {
    ConcatLength(bs, width);
  }

  lemma BelowProduct(k: nat, m: nat, width: nat, count: nat)
    requires k < count && m < width
    ensures k * width + m < count * width
  {
    assert (k + 1) * width <= count * width;
  }

  /** Every step's gather overwrites the previous step's in full. */
  lemma GatherTwice(g: seq<Agent>, bs: seq<seq<Agent>>, cs: seq<seq<Agent>>)
    requires |Concat(bs)| == |Concat(cs)| <= |g|
    ensures Gather(Gather(g, bs), cs) == Gather(g, cs)
  {
  }

  /** Counting the gathered buffer is the reduction of the per-rank counts plus the untouched tail. */
  lemma {:induction false} CountConcat(bs: seq<seq<Agent>>, st: int)
    ensures Count(Concat(bs), st) == SumCount(bs, st)
  {
    if |bs| > 0 {
      CountConcat(bs[..|bs| - 1], st);
      CountAppend(Concat(bs[..|bs| - 1]), bs[|bs| - 1], st);
    }
  }

  lemma CountGather(g: seq<Agent>, bs: seq<seq<Agent>>, st: int)
    requires |Concat(bs)| <= |g|
    ensures Count(Gather(g, bs), st) == SumCount(bs, st) + Count(g[|Concat(bs)|..], st)
  {
    CountConcat(bs, st);
    CountAppend(Concat(bs), g[|Concat(bs)|..], st);
  }

  lemma {:induction false} ConcatProgressed(bs: seq<seq<Agent>>, cs: seq<seq<Agent>>)
    requires |bs| == |cs|
    requires forall r :: 0 <= r < |bs| ==> Progressed(bs[r], cs[r])
    ensures Progressed(Concat(bs), Concat(cs))
  {
    if |bs| > 0 {
      var last := |bs| - 1;
      ConcatProgressed(bs[..last], cs[..last]);
      AppendProgressed(Concat(bs[..last]), Concat(cs[..last]), bs[last], cs[last]);
    }
  }

  lemma AppendProgressed(a: seq<Agent>, b: seq<Agent>, c: seq<Agent>, d: seq<Agent>)
    requires Progressed(a, b) && Progressed(c, d)
    ensures Progressed(a + c, b + d)
  {
    forall k | 0 <= k < |a + c|
      ensures (b + d)[k].x == (a + c)[k].x && (b + d)[k].y == (a + c)[k].y
      ensures Advanced((a + c)[k].status, (b + d)[k].status)
    {
      if k >= |a| {
        assert (a + c)[k] == c[k - |a|] && (b + d)[k] == d[k - |a|];
      }
    }
  }

  /**
   * If every rank's shard only moved forward, so did the root's gathered
   * view, and its part past the shards is the one it started with.
   */
  lemma GatherProgressed(g: seq<Agent>, bs: seq<seq<Agent>>, cs: seq<seq<Agent>>)
    requires |bs| == |cs| && |Concat(bs)| <= |g|
    requires forall r :: 0 <= r < |bs| ==> Progressed(bs[r], cs[r])
    ensures |Concat(cs)| <= |g|
    ensures Progressed(Gather(g, bs), Gather(g, cs))
  {
    ConcatProgressed(bs, cs);
    var tail := g[|Concat(bs)|..];
    AppendProgressed(Concat(bs), Concat(cs), tail, tail);
  }
}
