/**
 * The frame chunker: `get_chunks(count, start, end)` hands the frames
 * `range(start, end + 1)` to `numpy.array_split` and turns every group into
 * its `(first, last)` pair.
 */
module Chunker {
  import opened Wrappers

  /** One worker's share of the frame range, both bounds inclusive. */
  datatype Chunk = Chunk(first: int, last: int)

  /** Why `get_chunks` raises instead of returning a chunk list. */
  datatype ChunkError =
    | NoSections   // array_split raises ValueError for fewer than one section
    | EmptyChunk   // an empty group makes `chunk[0]` raise IndexError

  /** Python's `range(lo, hi)`. */
  function Range(lo: int, hi: int): (r: seq<int>)
    ensures |r| == if lo < hi then hi - lo else 0
    ensures forall i :: 0 <= i < |r| ==> r[i] == lo + i
    decreases hi - lo
  {
    if hi <= lo then [] else [lo] + Range(lo + 1, hi)
  }

  /** Number of frames in `range(start, end + 1)`. */
  function FrameTotal(start: int, end: int): nat
  {
    if start <= end then end - start + 1 else 0
  }

  /**
   * Index at which group `k` begins when `n` items are split into `sections`
   * groups the way `array_split` does: the first `n % sections` groups take
   * one item more than the others.
   */
  function Offset(n: nat, sections: nat, k: nat): nat
    requires 1 <= sections
  {
    k * (n / sections) + (if k < n % sections then k else n % sections)
  }

  lemma OffsetStep(n: nat, sections: nat, k: nat)
    requires 1 <= sections && k < sections
    ensures Offset(n, sections, k + 1)
         == Offset(n, sections, k) + n / sections + (if k < n % sections then 1 else 0)
  {
    assert (k + 1) * (n / sections) == k * (n / sections) + n / sections;
  }

  lemma MulMono(a: nat, b: nat, c: nat)
    requires a <= b
    ensures a * c <= b * c
  {
    assert b * c == a * c + (b - a) * c;
  }

  lemma OffsetBounds(n: nat, sections: nat, k: nat)
    requires 1 <= sections && k < sections
    ensures Offset(n, sections, k) <= Offset(n, sections, k + 1) <= n
  {
    OffsetStep(n, sections, k);
    var q, r := n / sections, n % sections;
    MulMono(k + 1, sections, q);
    assert Offset(n, sections, k + 1) <= sections * q + r;
    assert sections * q + r == n;
  }

  lemma OffsetLast(n: nat, sections: nat)
    requires 1 <= sections
    ensures Offset(n, sections, sections) == n
  {
    assert sections * (n / sections) + n % sections == n;
  }

  /** Group `k` of `array_split(xs, sections)`. */
  function Section<T>(xs: seq<T>, sections: nat, k: nat): (g: seq<T>)
    requires 1 <= sections && k < sections
    ensures |g| == |xs| / sections + (if k < |xs| % sections then 1 else 0)
  {
    OffsetBounds(|xs|, sections, k);
    OffsetStep(|xs|, sections, k);
    xs[Offset(|xs|, sections, k)..Offset(|xs|, sections, k + 1)]
  }

  /**
   * `numpy.array_split(xs, sections)`: exactly `sections` groups whose sizes
   * differ by at most one, larger groups first; ValueError for `sections < 1`.
   */
  function ArraySplit<T>(xs: seq<T>, sections: int): (r: Result<seq<seq<T>>, ChunkError>)
    ensures r.Failure? <==> sections < 1
    ensures r.Failure? ==> r.error == NoSections
    ensures r.Success? ==> |r.value| == sections
    ensures r.Success? ==> forall k :: 0 <= k < sections ==>
              |r.value[k]| == |xs| / sections + (if k < |xs| % sections then 1 else 0)
  {
    if sections < 1 then Failure(NoSections)
    else Success(seq(sections, k requires 0 <= k < sections => Section(xs, sections, k)))
  }

  /** Concatenation of a sequence of groups. */
  function Flatten<T>(groups: seq<seq<T>>): seq<T>
  {
    if groups == [] then [] else Flatten(groups[..|groups| - 1]) + groups[|groups| - 1]
  }

  /** `array_split` neither drops, repeats nor reorders items. */
  lemma {:induction false} ArraySplitFlatten<T>(xs: seq<T>, sections: int)
    requires 1 <= sections
    ensures Flatten(ArraySplit(xs, sections).value) == xs
  {
    var groups := ArraySplit(xs, sections).value;
    var n := |xs|;
    var j := 0;
    while j < sections
      invariant 0 <= j <= sections
      invariant Offset(n, sections, j) <= n
      invariant Flatten(groups[..j]) == xs[..Offset(n, sections, j)]
    {
      OffsetBounds(n, sections, j);
      assert groups[..j + 1][..j] == groups[..j];
      assert groups[j] == xs[Offset(n, sections, j)..Offset(n, sections, j + 1)];
      assert xs[..Offset(n, sections, j + 1)]
          == xs[..Offset(n, sections, j)] + xs[Offset(n, sections, j)..Offset(n, sections, j + 1)];
      j := j + 1;
    }
    OffsetLast(n, sections);
    assert groups[..sections] == groups;
    assert xs[..n] == xs;
  }

  /**
   * What `get_chunks(count, start, end)` returns, stated arithmetically: chunk
   * `k` covers frames `start + Offset(k)` up to `start + Offset(k + 1) - 1`.
   */
  function Chunks(count: int, start: int, end: int): (r: Result<seq<Chunk>, ChunkError>)
    ensures r.Failure? <==> count < 1 || count > FrameTotal(start, end)
    ensures r.Success? ==> |r.value| == count && r.value[0].first == start
  {
    var n := FrameTotal(start, end);
    if count < 1 then Failure(NoSections)
    else if count > n then Failure(EmptyChunk)
    else Success(seq(count, k requires 0 <= k < count =>
                   Chunk(start + Offset(n, count, k), start + Offset(n, count, k + 1) - 1)))
  }

  /**
   * `get_chunks`: split the frames with `array_split`, then append the first
   * and last frame of each group; the first empty group raises.
   */
  method GetChunks(count: int, start: int, end: int) returns (r: Result<seq<Chunk>, ChunkError>)
    ensures r == Chunks(count, start, end)
  {
    var frames := Range(start, end + 1);
    var n := FrameTotal(start, end);
    assert |frames| == n;
    var split := ArraySplit(frames, count);
    if split.Failure? {
      return Failure(NoSections);
    }
    var groups := split.value;
    var frameChunks: seq<Chunk> := [];
    for i := 0 to |groups|
      invariant |frameChunks| == i
      invariant forall k :: 0 <= k < i ==> |groups[k]| > 0
      invariant forall k :: 0 <= k < i ==>
                  frameChunks[k] == Chunk(start + Offset(n, count, k), start + Offset(n, count, k + 1) - 1)
    {
      var chunk := groups[i];
      if |chunk| == 0 {
        EmptyGroupMeansTooMany(n, count, i);
        return Failure(EmptyChunk);
      }
      GroupEnds(start, end, count, i);
      frameChunks := frameChunks + [Chunk(chunk[0], chunk[|chunk| - 1])];
    }
    assert |groups[count - 1]| > 0;
    LastGroupNonEmpty(n, count);
    ChunksFromBounds(count, start, end, frameChunks);
    return Success(frameChunks);
  }

  /** The first and last frame of a non-empty group of `array_split(range(start, end + 1), count)`. */
  lemma GroupEnds(start: int, end: int, count: int, k: nat)
    requires 1 <= count && k < count
    requires |ArraySplit(Range(start, end + 1), count).value[k]| > 0
    ensures var g := ArraySplit(Range(start, end + 1), count).value[k];
            var n := FrameTotal(start, end);
            g[0] == start + Offset(n, count, k) && g[|g| - 1] == start + Offset(n, count, k + 1) - 1
  {
    var frames := Range(start, end + 1);
    var n := FrameTotal(start, end);
    OffsetBounds(n, count, k);
    OffsetStep(n, count, k);
    var g := ArraySplit(frames, count).value[k];
    assert g == frames[Offset(n, count, k)..Offset(n, count, k + 1)];
  }

  lemma ChunksFromBounds(count: int, start: int, end: int, cs: seq<Chunk>)
    requires 1 <= count <= FrameTotal(start, end) && |cs| == count
    requires forall k :: 0 <= k < count ==>
               cs[k] == Chunk(start + Offset(FrameTotal(start, end), count, k),
                              start + Offset(FrameTotal(start, end), count, k + 1) - 1)
    ensures Chunks(count, start, end) == Success(cs)
  {
    var n := FrameTotal(start, end);
    var expected := seq(count, k requires 0 <= k < count =>
                      Chunk(start + Offset(n, count, k), start + Offset(n, count, k + 1) - 1));
    assert Chunks(count, start, end) == Success(expected);
    assert forall k :: 0 <= k < count ==> expected[k] == cs[k];
    assert expected == cs;
  }

  lemma EmptyGroupMeansTooMany(n: nat, count: nat, k: nat)
    requires 1 <= count && k < count
    requires n / count + (if k < n % count then 1 else 0) == 0
    ensures count > n
  {
    assert count * (n / count) + n % count == n;
  }

  lemma LastGroupNonEmpty(n: nat, count: nat)
    requires 1 <= count
    requires n / count + (if count - 1 < n % count then 1 else 0) > 0
    ensures count <= n
  {
    var q := n / count;
    assert count * q + n % count == n;
    if q >= 1 {
      assert count * q >= count * 1;
    }
  }

  // ---------------------------------------------------------------------
  // Properties of the chunk list

  /** Number of frames a chunk covers. */
  function Size(c: Chunk): int
  {
    c.last - c.first + 1
  }

  /**
   * `cs` splits `[start, end]` into non-empty contiguous ranges: it starts at
   * `start`, ends at `end`, and each chunk begins right after the previous one.
   */
  predicate ValidPartition(cs: seq<Chunk>, start: int, end: int)
  {
    |cs| >= 1 && cs[0].first == start && cs[|cs| - 1].last == end &&
    (forall i :: 0 <= i < |cs| ==> cs[i].first <= cs[i].last) &&
    (forall i :: 0 <= i < |cs| - 1 ==> cs[i].last + 1 == cs[i + 1].first)
  }

  /** Chunk sizes never grow along the list and differ by at most one. */
  predicate Balanced(cs: seq<Chunk>)
  {
    forall i, j :: 0 <= i <= j < |cs| ==> Size(cs[j]) <= Size(cs[i]) <= Size(cs[j]) + 1
  }

  /** The frames of the chunks, in chunk order. */
  function Expand(cs: seq<Chunk>): seq<int>
  {
    if cs == [] then []
    else Expand(cs[..|cs| - 1]) + Range(cs[|cs| - 1].first, cs[|cs| - 1].last + 1)
  }

  /** `get_chunks` succeeds exactly for `1 <= count <= frames`, and then partitions the range into `count` chunks. */
  lemma ChunksPartition(count: int, start: int, end: int)
    ensures Chunks(count, start, end).Success? <==> 1 <= count <= FrameTotal(start, end)
    ensures Chunks(count, start, end).Failure? && count < 1 ==> Chunks(count, start, end).error == NoSections
    ensures Chunks(count, start, end).Failure? && count >= 1 ==> Chunks(count, start, end).error == EmptyChunk
    ensures Chunks(count, start, end).Success? ==>
              |Chunks(count, start, end).value| == count && ValidPartition(Chunks(count, start, end).value, start, end)
  {
    if 1 <= count <= FrameTotal(start, end) {
      var n := FrameTotal(start, end);
      var cs := Chunks(count, start, end).value;
      OffsetLast(n, count);
      forall i | 0 <= i < count ensures cs[i].first <= cs[i].last {
        GroupNonEmpty(n, count, i);
      }
    }
  }

  /** With no more sections than items, every group of `array_split` holds at least one item. */
  lemma GroupNonEmpty(n: nat, count: nat, i: nat)
    requires 1 <= count <= n && i < count
    ensures Offset(n, count, i) < Offset(n, count, i + 1)
  {
    OffsetStep(n, count, i);
    assert i < n % count || n / count >= 1 by {
      assert count * (n / count) + n % count == n;
    }
  }

  /** The first `n % count` chunks hold one frame more than the rest, as `array_split` promises. */
  lemma ChunksBalanced(count: int, start: int, end: int)
    requires 1 <= count <= FrameTotal(start, end)
    ensures var cs := Chunks(count, start, end).value;
            var n := FrameTotal(start, end);
            forall k :: 0 <= k < count ==> Size(cs[k]) == n / count + (if k < n % count then 1 else 0)
    ensures Balanced(Chunks(count, start, end).value)
  {
    var cs := Chunks(count, start, end).value;
    var n := FrameTotal(start, end);
    forall k | 0 <= k < count
      ensures Size(cs[k]) == n / count + (if k < n % count then 1 else 0)
    {
      OffsetStep(n, count, k);
    }
  }

  lemma RangeAppend(a: int, b: int, c: int)
    requires a <= b <= c
    ensures Range(a, b) + Range(b, c) == Range(a, c)
  {
    assert forall i :: 0 <= i < c - a ==> (Range(a, b) + Range(b, c))[i] == a + i;
  }

  /** A valid partition of `[start, end]` lists exactly the frames `start, ..., end`, in order, once each. */
  lemma {:induction false} PartitionCovers(cs: seq<Chunk>, start: int, end: int)
    requires ValidPartition(cs, start, end)
    ensures Expand(cs) == Range(start, end + 1)
    decreases |cs|
  {
    var last := cs[|cs| - 1];
    var init := cs[..|cs| - 1];
    if |cs| == 1 {
      assert Expand(cs) == Expand([]) + Range(last.first, last.last + 1);
    } else {
      assert ValidPartition(init, start, init[|init| - 1].last);
      PartitionCovers(init, start, init[|init| - 1].last);
      PartitionBounds(init, start, init[|init| - 1].last, |init| - 1);
      RangeAppend(start, last.first, end + 1);
    }
  }

  lemma {:induction false} PartitionBounds(cs: seq<Chunk>, start: int, end: int, k: nat)
    requires ValidPartition(cs, start, end) && k < |cs|
    ensures start <= cs[k].first && cs[k].last <= end
    decreases |cs| - k
  {
    if k + 1 < |cs| {
      PartitionBounds(cs, start, end, k + 1);
    }
    if k > 0 {
      PartitionOrdered(cs, start, end, 0, k);
    }
  }

  /** Earlier chunks lie strictly below later ones, so no frame is in two chunks. */
  lemma {:induction false} PartitionOrdered(cs: seq<Chunk>, start: int, end: int, i: nat, j: nat)
    requires ValidPartition(cs, start, end) && i < j < |cs|
    ensures cs[i].last < cs[j].first
    decreases j - i
  {
    if i + 1 < j {
      PartitionOrdered(cs, start, end, i + 1, j);
    }
  }

  lemma {:induction false} ExpandMember(cs: seq<Chunk>, f: int)
    ensures f in Expand(cs) <==> exists i :: 0 <= i < |cs| && cs[i].first <= f <= cs[i].last
    decreases |cs|
  {
    if cs != [] {
      var last := cs[|cs| - 1];
      var init := cs[..|cs| - 1];
      ExpandMember(init, f);
      var r := Range(last.first, last.last + 1);
      assert f in r <==> last.first <= f <= last.last by {
        if last.first <= f <= last.last { assert r[f - last.first] == f; }
      }
      assert Expand(cs) == Expand(init) + r;
      assert f in Expand(cs) <==> f in Expand(init) || f in r;
      if exists i :: 0 <= i < |init| && init[i].first <= f <= init[i].last {
        var i :| 0 <= i < |init| && init[i].first <= f <= init[i].last;
        assert cs[i] == init[i];
      }
      if exists i :: 0 <= i < |cs| && cs[i].first <= f <= cs[i].last {
        var i :| 0 <= i < |cs| && cs[i].first <= f <= cs[i].last;
        if i < |init| { assert init[i] == cs[i]; }
      }
    }
  }

  /** Every frame of `[start, end]` is in exactly one chunk, and no other frame is in any. */
  lemma PartitionLocates(cs: seq<Chunk>, start: int, end: int, f: int)
    requires ValidPartition(cs, start, end)
    ensures start <= f <= end <==> exists i :: 0 <= i < |cs| && cs[i].first <= f <= cs[i].last
    ensures forall i, j ::
              0 <= i < |cs| && 0 <= j < |cs| && cs[i].first <= f <= cs[i].last && cs[j].first <= f <= cs[j].last
              ==> i == j
  {
    PartitionCovers(cs, start, end);
    ExpandMember(cs, f);
    var r := Range(start, end + 1);
    assert f in r <==> start <= f <= end by {
      if start <= f <= end { assert r[f - start] == f; }
    }
    forall i, j | 0 <= i < |cs| && 0 <= j < |cs| &&
                  cs[i].first <= f <= cs[i].last && cs[j].first <= f <= cs[j].last
      ensures i == j
    {
      if i < j { PartitionOrdered(cs, start, end, i, j); }
      if j < i { PartitionOrdered(cs, start, end, j, i); }
    }
  }

  /** `get_chunks(3, 1, 10)`: sizes 4, 3, 3. */
  lemma ChunksExample()
    ensures Chunks(3, 1, 10) == Success([Chunk(1, 4), Chunk(5, 7), Chunk(8, 10)])
  {
    assert FrameTotal(1, 10) == 10 && 10 / 3 == 3 && 10 % 3 == 1;
    assert Offset(10, 3, 1) == 4 && Offset(10, 3, 2) == 7 && Offset(10, 3, 3) == 10;
    var cs := Chunks(3, 1, 10).value;
    assert |cs| == 3;
    assert cs[0] == Chunk(1, 4) && cs[1] == Chunk(5, 7) && cs[2] == Chunk(8, 10);
    assert cs == [Chunk(1, 4), Chunk(5, 7), Chunk(8, 10)];
  }
}
