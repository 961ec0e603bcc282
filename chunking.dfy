/** How the upload loop cuts the byte range `[start, rangeEnd)` into
    chunks: the boundary of one chunk, and the sequence of chunks the loop
    walks through when nothing stops it early. */
module Chunking {
  import opened Http
  import opened Source
  import opened Text

  /** The exclusive end of the chunk that begins at `start`: `chunkSize`
      bytes on, cut short at the end of the range. */
  function ChunkEnd(start: nat, chunkSize: nat, rangeEnd: nat): (end: nat)
    requires start < rangeEnd
    ensures start <= end <= rangeEnd
    ensures end - start == Min(chunkSize, rangeEnd - start)
    ensures chunkSize > 0 ==> start < end
  {
    if start + chunkSize > rangeEnd then start + (rangeEnd - start) else start + chunkSize
  }

  /** The Content-Range of every chunk from `start` on, in the order the
      loop sends them when every read fills its buffer: a chunk begins
      `chunkSize` bytes after the previous one began. With a chunk size of
      zero the loop sends a single empty chunk. */
  function Plan(start: nat, rangeEnd: nat, chunkSize: nat): (p: seq<ContentRange>)
    decreases if start <= rangeEnd then rangeEnd - start else 0
  {
    if start >= rangeEnd then []
    else
      [ContentRange(start, ChunkEnd(start, chunkSize, rangeEnd), rangeEnd)]
      + (if chunkSize == 0 then [] else Plan(start + chunkSize, rangeEnd, chunkSize))
  }

  /** Each chunk in the plan lies inside the range, is non-empty, names the
      range end as total, and every chunk but the last is exactly
      `chunkSize` long; consecutive chunks touch, the first begins at
      `start` and the last ends at `rangeEnd`. */
  lemma {:induction false} PlanTiles(start: nat, rangeEnd: nat, chunkSize: nat)
    requires chunkSize > 0
    ensures Tiles(Plan(start, rangeEnd, chunkSize), start, rangeEnd, chunkSize)
    decreases if start <= rangeEnd then rangeEnd - start else 0
  {
    if start < rangeEnd {
      var head := ContentRange(start, ChunkEnd(start, chunkSize, rangeEnd), rangeEnd);
      var q := Plan(start + chunkSize, rangeEnd, chunkSize);
      assert Plan(start, rangeEnd, chunkSize) == [head] + q;
      PlanTiles(start + chunkSize, rangeEnd, chunkSize);
      TilesCons(head, q, start, rangeEnd, chunkSize);
    }
  }

  /** The list `p` tiles the range from `start` to `rangeEnd` in chunks
      of `chunkSize`: it is empty exactly when the range is, each chunk is
      a non-empty part of the range of at most `chunkSize` bytes naming the
      range end as total, every chunk but the last is exactly `chunkSize`
      long, consecutive chunks touch, the first begins at `start` and the
      last ends at `rangeEnd`. */
  predicate Tiles(p: seq<ContentRange>, start: nat, rangeEnd: nat, chunkSize: nat)
  {
    (|p| == 0 <==> start >= rangeEnd) &&
    (|p| > 0 ==> p[0].first == start && p[|p| - 1].last == rangeEnd) &&
    (forall i :: 0 <= i < |p| ==>
       start <= p[i].first < p[i].last <= rangeEnd && p[i].total == rangeEnd &&
       p[i].last - p[i].first <= chunkSize) &&
    (forall i :: 0 <= i < |p| - 1 ==>
       p[i].last == p[i + 1].first && p[i].last - p[i].first == chunkSize)
  }

  /** The first chunk of the range put in front of a tiling of the rest is
      a tiling of the whole range. */
  lemma TilesCons(head: ContentRange, q: seq<ContentRange>, start: nat, rangeEnd: nat, chunkSize: nat)
    requires chunkSize > 0 && start < rangeEnd
    requires head == ContentRange(start, ChunkEnd(start, chunkSize, rangeEnd), rangeEnd)
    requires Tiles(q, start + chunkSize, rangeEnd, chunkSize)
    ensures Tiles([head] + q, start, rangeEnd, chunkSize)
  {
    var p := [head] + q;
    forall i | 1 <= i < |p|
      ensures start <= p[i].first < p[i].last <= rangeEnd && p[i].total == rangeEnd &&
              p[i].last - p[i].first <= chunkSize
    {
      assert p[i] == q[i - 1];
    }
    forall i | 0 <= i < |p| - 1
      ensures p[i].last == p[i + 1].first && p[i].last - p[i].first == chunkSize
    {
      assert p[i + 1] == q[i];
      if i > 0 {
        assert p[i] == q[i - 1];
      }
    }
    if q != [] {
      assert p[|p| - 1] == q[|q| - 1];
    }
  }

  /** Whatever the chunk size, even zero, each chunk of the plan lies
      inside the range, is at most `chunkSize` long and names the range end
      as total, and the first begins at `start`. */
  lemma {:induction false} PlanBounds(start: nat, rangeEnd: nat, chunkSize: nat)
    ensures var p := Plan(start, rangeEnd, chunkSize);
      (|p| > 0 ==> p[0].first == start) &&
      forall i :: 0 <= i < |p| ==>
        start <= p[i].first <= p[i].last <= rangeEnd && p[i].last - p[i].first <= chunkSize &&
        p[i].total == rangeEnd
    decreases if start <= rangeEnd then rangeEnd - start else 0
  {
    var p := Plan(start, rangeEnd, chunkSize);
    if start < rangeEnd && chunkSize > 0 {
      var q := Plan(start + chunkSize, rangeEnd, chunkSize);
      PlanBounds(start + chunkSize, rangeEnd, chunkSize);
      assert p == [p[0]] + q;
      forall i | 1 <= i < |p|
        ensures start <= p[i].first <= p[i].last <= rangeEnd && p[i].last - p[i].first <= chunkSize &&
                p[i].total == rangeEnd
      {
        assert p[i] == q[i - 1];
      }
    }
  }

  /** Every position of the range falls in a chunk of the plan, and no
      chunk reaches outside the range. */
  lemma {:induction false} PlanCovers(start: nat, rangeEnd: nat, chunkSize: nat, pos: nat)
    requires chunkSize > 0
    ensures var p := Plan(start, rangeEnd, chunkSize);
      start <= pos < rangeEnd <==> exists i :: 0 <= i < |p| && p[i].first <= pos < p[i].last
    decreases if start <= rangeEnd then rangeEnd - start else 0
  {
    var p := Plan(start, rangeEnd, chunkSize);
    PlanBounds(start, rangeEnd, chunkSize);
    if start < rangeEnd {
      var q := Plan(start + chunkSize, rangeEnd, chunkSize);
      PlanUnfold(start, rangeEnd, chunkSize);
      PlanCovers(start + chunkSize, rangeEnd, chunkSize, pos);
      if start <= pos < p[0].last {
        assert p[0].first <= pos < p[0].last;
      } else if p[0].last <= pos < rangeEnd {
        var k :| 0 <= k < |q| && q[k].first <= pos < q[k].last;
        assert p[k + 1] == q[k];
      }
    }
  }

  /** Chunks of the plan never overlap: each ends before any later one
      begins. */
  lemma {:induction false} PlanDisjoint(start: nat, rangeEnd: nat, chunkSize: nat)
    requires chunkSize > 0
    ensures Disjoint(Plan(start, rangeEnd, chunkSize))
    decreases if start <= rangeEnd then rangeEnd - start else 0
  {
    if start < rangeEnd {
      var head := ContentRange(start, ChunkEnd(start, chunkSize, rangeEnd), rangeEnd);
      PlanUnfold(start, rangeEnd, chunkSize);
      PlanDisjoint(start + chunkSize, rangeEnd, chunkSize);
      PlanStartsFrom(start + chunkSize, rangeEnd, chunkSize, head.last);
      DisjointCons(head, Plan(start + chunkSize, rangeEnd, chunkSize));
    }
  }

  /** Chunk k of the plan, for a positive chunk size, begins k chunks
      after `start` and ends one chunk later or at `rangeEnd`, whichever
      comes first. */
  lemma {:induction false} PlanAt(start: nat, rangeEnd: nat, chunkSize: nat, k: nat)
    requires chunkSize > 0 && k < |Plan(start, rangeEnd, chunkSize)|
    ensures var p := Plan(start, rangeEnd, chunkSize);
      p[k].first == start + k * chunkSize &&
      p[k].last == (if start + (k + 1) * chunkSize > rangeEnd then rangeEnd else start + (k + 1) * chunkSize)
    decreases k
  {
    PlanUnfold(start, rangeEnd, chunkSize);
    if k > 0 {
      var q := Plan(start + chunkSize, rangeEnd, chunkSize);
      assert Plan(start, rangeEnd, chunkSize)[k] == q[k - 1];
      PlanAt(start + chunkSize, rangeEnd, chunkSize, k - 1);
      MulStep(k, chunkSize);
    }
  }

  lemma MulStep(k: nat, c: nat)
    requires k > 0
    ensures c + (k - 1) * c == k * c && c + k * c == (k + 1) * c
  {
  }

  /** One step of the plan: its first chunk, then the plan from one chunk
      further on. */
  lemma PlanUnfold(start: nat, rangeEnd: nat, chunkSize: nat)
    requires chunkSize > 0 && start < rangeEnd
    ensures Plan(start, rangeEnd, chunkSize) ==
      [ContentRange(start, ChunkEnd(start, chunkSize, rangeEnd), rangeEnd)] + Plan(start + chunkSize, rangeEnd, chunkSize)
  {
  }

  /** No chunk of the plan from `start` begins before `pos <= start`. */
  lemma PlanStartsFrom(start: nat, rangeEnd: nat, chunkSize: nat, pos: nat)
    requires pos <= start
    ensures StartsFrom(Plan(start, rangeEnd, chunkSize), pos)
  {
    PlanBounds(start, rangeEnd, chunkSize);
  }

  /** Each chunk of `p` ends before any later one begins. */
  predicate Disjoint(p: seq<ContentRange>)
  {
    forall i, j :: 0 <= i < j < |p| ==> p[i].last <= p[j].first
  }

  /** No chunk of `p` begins before `pos`. */
  predicate StartsFrom(p: seq<ContentRange>, pos: nat)
  {
    forall k :: 0 <= k < |p| ==> pos <= p[k].first
  }

  /** A chunk that ends before every chunk of a disjoint list begins can
      be put in front of it. */
  lemma DisjointCons(head: ContentRange, q: seq<ContentRange>)
    requires Disjoint(q) && StartsFrom(q, head.last)
    ensures Disjoint([head] + q)
  {
    var p := [head] + q;
    forall i, j | 0 <= i < j < |p|
      ensures p[i].last <= p[j].first
    {
      assert p[j] == q[j - 1];
      if i > 0 {
        assert p[i] == q[i - 1];
      }
    }
  }

  lemma MulDiff(a: int, b: int, c: int)
    ensures a * c - b * c == (a - b) * c
  {
  }

  lemma MulAtLeast(k: int, c: int)
    requires k >= 1 && c > 0
    ensures k * c >= c
  {
    assert k * c == (k - 1) * c + c;
  }

  /** Division and remainder are determined by any quotient and remainder
      that fit. */
  lemma DivModOfMultiple(q: nat, c: nat, r: nat)
    requires c > 0 && r < c
    ensures (q * c + r) / c == q && (q * c + r) % c == r
  {
    var x := q * c + r;
    var q0, r0 := x / c, x % c;
    assert x == q0 * c + r0;
    MulDiff(q0, q, c);
    if q0 > q {
      MulAtLeast(q0 - q, c);
      assert false;
    } else if q0 < q {
      MulAtLeast(q - q0, c);
      MulDiff(q, q0, c);
      assert false;
    }
  }

  /** Ceiling division and the length of the final chunk, one chunk
      further on. */
  lemma CeilStep(len: nat, c: nat)
    requires 0 < c < len
    ensures (len + c - 1) / c == (len - c + c - 1) / c + 1
    ensures len % c == (len - c) % c
  {
    var rest := len - c;
    var k, m := (rest + c - 1) / c, (rest + c - 1) % c;
    DivModOfMultiple(k + 1, c, m);
    assert len + c - 1 == (k + 1) * c + m;
    var a, b := rest / c, rest % c;
    DivModOfMultiple(a + 1, c, b);
    assert len == (a + 1) * c + b;
  }

  /** Ceiling division and the final chunk when one chunk is left. */
  lemma CeilLast(len: nat, c: nat)
    requires 0 < len <= c
    ensures (len + c - 1) / c == 1
    ensures (if len % c == 0 then c else len % c) == len
  {
    DivModOfMultiple(1, c, len - 1);
    if len == c {
      DivModOfMultiple(1, c, 0);
    } else {
      DivModOfMultiple(0, c, len);
    }
  }

  /** The plan has ceil((rangeEnd - start) / chunkSize) chunks; the last one
      is a full chunk when chunkSize divides the range length and is the
      remainder otherwise. */
  lemma {:induction false} PlanCount(start: nat, rangeEnd: nat, chunkSize: nat)
    requires chunkSize > 0
    ensures var p := Plan(start, rangeEnd, chunkSize);
      var len := if start <= rangeEnd then rangeEnd - start else 0;
      |p| == (len + chunkSize - 1) / chunkSize &&
      (|p| > 0 ==>
         p[|p| - 1].last - p[|p| - 1].first == if len % chunkSize == 0 then chunkSize else len % chunkSize)
    decreases if start <= rangeEnd then rangeEnd - start else 0
  {
    var p := Plan(start, rangeEnd, chunkSize);
    if start >= rangeEnd {
      DivModOfMultiple(0, chunkSize, chunkSize - 1);
    } else {
      var len := rangeEnd - start;
      var q := Plan(start + chunkSize, rangeEnd, chunkSize);
      PlanCount(start + chunkSize, rangeEnd, chunkSize);
      assert p == [p[0]] + q;
      if start + chunkSize >= rangeEnd {
        CeilLast(len, chunkSize);
      } else {
        CeilStep(len, chunkSize);
        assert p[|p| - 1] == q[|q| - 1];
      }
    }
  }

  /** A range of 150 bytes from offset 100 in chunks of 100: two
      requests, `bytes 100-200/250` and `bytes 200-250/250`, the second
      one 50 bytes long. */
  lemma PlanExample()
    ensures Plan(100, 250, 100) == [ContentRange(100, 200, 250), ContentRange(200, 250, 250)]
    ensures Format(ContentRange(100, 200, 250)) == "bytes 100-200/250"
    ensures Format(ContentRange(200, 250, 250)) == "bytes 200-250/250"
  {
    assert Plan(200, 250, 100) == [ContentRange(200, 250, 250)] by {
      assert Plan(300, 250, 100) == [];
    }
    ExampleHeaders();
  }

  /** The headers of the two chunks of the example. */
  lemma ExampleHeaders()
    ensures Format(ContentRange(100, 200, 250)) == "bytes 100-200/250"
    ensures Format(ContentRange(200, 250, 250)) == "bytes 200-250/250"
  {
    ShownBounds();
  }

  /** The decimal forms of the three offsets of the example. */
  lemma ShownBounds()
    ensures ShowNat(100) == "100" && ShowNat(200) == "200" && ShowNat(250) == "250"
  {
    assert ShowNat(10) == "10" && ShowNat(20) == "20" && ShowNat(25) == "25";
  }
}
