/** Splitting a document into overlapping fixed-size windows before it is
    embedded (chunk_text in main.py).

    Each window is `chunkSize` characters long, except that the last one stops
    at the end of the text; each window starts `chunkSize - overlap` characters
    after the previous one, and the windows are numbered 1, 2, 3, ... */
module Chunking {

  /** One entry of the list chunk_text returns: a record with a chunk id and
      the chunk's text. */
  datatype Chunk = Chunk(chunkId: nat, text: string)

  /** The defaults chunk_text is called with by the ingestion endpoint. */
  const DefaultChunkSize: nat := 1024
  const DefaultOverlap: int := 128

  /** The defaults meet ChunkText's precondition, and the stronger one of
      the coverage and overlap lemmas, so the endpoint's call is covered. */
  lemma DefaultsAreValid()
    ensures 0 <= DefaultOverlap < DefaultChunkSize
  {
  }

  function Min(a: int, b: int): int { if a <= b then a else b }

  /** Python's slice `s[lo:hi]` for non-negative bounds: both bounds are
      clamped to the length of `s`, and an empty range gives the empty string. */
  function PySlice(s: string, lo: nat, hi: nat): (r: string)
    ensures |r| == if lo < Min(hi, |s|) then Min(hi, |s|) - lo else 0
    ensures forall j :: 0 <= j < |r| ==> r[j] == s[lo + j]
  {
    var a := Min(lo, |s|);
    var b := Min(hi, |s|);
    if a <= b then s[a..b] else []
  }

  /** The distance between the starts of two consecutive windows. */
  function Step(chunkSize: nat, overlap: int): nat
    requires overlap < chunkSize
  {
    chunkSize - overlap
  }

  /** Where window k starts: k steps after the start of the text.  Written
      as repeated addition, the way the loop computes it; StartIsProduct
      shows it is k * step. */
  function Start(k: nat, step: nat): nat
  {
    if k == 0 then 0 else Start(k - 1, step) + step
  }

  lemma {:induction false} StartIsProduct(k: nat, step: nat)
    ensures Start(k, step) == k * step
  {
    if k > 0 {
      StartIsProduct(k - 1, step);
    }
  }

  lemma {:induction false} StartMonotone(j: nat, k: nat, step: nat)
    requires j <= k
    ensures Start(j, step) <= Start(k, step)
    decreases k
  {
    if j < k {
      StartMonotone(j, k - 1, step);
    }
  }

  /** Ceiling of a / b. */
  function CeilDiv(a: nat, b: nat): (n: nat)
    requires b > 0
    ensures n * b >= a
    ensures n > 0 ==> (n - 1) * b < a
  {
    var q := (a + b - 1) / b;
    assert a + b - 1 == q * b + (a + b - 1) % b;
    q
  }

  /** CeilDiv(a, b) is the least n with n steps of b reaching a. */
  lemma CeilDivIsLeast(a: nat, b: nat, n: nat)
    requires b > 0
    ensures n == CeilDiv(a, b) <==> Start(n, b) >= a && (n > 0 ==> Start(n - 1, b) < a)
  {
    var q := CeilDiv(a, b);
    StartIsProduct(n, b);
    StartIsProduct(q, b);
    if n > 0 {
      StartIsProduct(n - 1, b);
    }
    if q > 0 {
      StartIsProduct(q - 1, b);
    }
    if Start(n, b) >= a && (n > 0 ==> Start(n - 1, b) < a) {
      if n < q {
        StartMonotone(n, q - 1, b);
      } else if q < n {
        StartMonotone(q, n - 1, b);
      }
    }
  }

  /** The block of text starting at position i belongs to window i / step. */
  lemma DivBounds(i: nat, step: nat)
    requires step > 0
    ensures Start(i / step, step) <= i < Start(i / step, step) + step
  {
    StartIsProduct(i / step, step);
    assert i == (i / step) * step + i % step;
  }

  /** The chunks the loop of chunk_text appends from the moment its window
      start is `start` and its next id is `id` until the start passes the end
      of the text. */
  function ChunksFrom(text: string, chunkSize: nat, overlap: int, start: nat, id: nat): seq<Chunk>
    requires overlap < chunkSize
    decreases |text| - start
  {
    if start >= |text| then []
    else
      [Chunk(id, PySlice(text, start, start + chunkSize))]
      + ChunksFrom(text, chunkSize, overlap, start + Step(chunkSize, overlap), id + 1)
  }

  /** The list chunk_text(text, chunkSize, overlap) returns.  An empty text
      returns before the loop, so any parameters do for it. */
  function Chunks(text: string, chunkSize: nat, overlap: int): (r: seq<Chunk>)
    requires |text| == 0 || overlap < chunkSize
    ensures |r| == 0 <==> |text| == 0
  {
    if |text| == 0 then [] else ChunksFrom(text, chunkSize, overlap, 0, 1)
  }

  /** Chunk k of the loop's output from a given start: it starts k steps
      later and carries id `id + k`. */
  lemma {:induction false} ChunkAt(text: string, chunkSize: nat, overlap: int, start: nat, id: nat, k: nat)
    requires overlap < chunkSize
    requires k < |ChunksFrom(text, chunkSize, overlap, start, id)|
    ensures var s := start + Start(k, Step(chunkSize, overlap));
            s < |text| &&
            ChunksFrom(text, chunkSize, overlap, start, id)[k] == Chunk(id + k, PySlice(text, s, s + chunkSize))
    decreases |text| - start
  {
    if k > 0 {
      var step := Step(chunkSize, overlap);
      ChunkAt(text, chunkSize, overlap, start + step, id + 1, k - 1);
      StartShift(k, step);
    }
  }

  lemma StartShift(k: nat, step: nat)
    requires k > 0
    ensures Start(k, step) == step + Start(k - 1, step)
  {
  }

  /** The loop stops as soon as the start passes the end of the text: there
      are just enough chunks for the last one to start inside the text. */
  lemma {:induction false} ChunkCountFrom(text: string, chunkSize: nat, overlap: int, start: nat, id: nat)
    requires overlap < chunkSize
    ensures var n := |ChunksFrom(text, chunkSize, overlap, start, id)|;
            var step := Step(chunkSize, overlap);
            start + Start(n, step) >= |text| && (n > 0 ==> start + Start(n - 1, step) < |text|)
    decreases |text| - start
  {
    var step := Step(chunkSize, overlap);
    if start < |text| {
      var tail := |ChunksFrom(text, chunkSize, overlap, start + step, id + 1)|;
      ChunkCountFrom(text, chunkSize, overlap, start + step, id + 1);
      StartShift(tail + 1, step);
      if tail > 0 {
        StartShift(tail, step);
      }
    }
  }

  /** Chunk k of chunk_text's output: it has id k + 1 and is the window of
      the text that starts k steps in, which lies inside the text. */
  lemma {:induction false} ChunkWindow(text: string, chunkSize: nat, overlap: int, k: nat)
    requires overlap < chunkSize
    requires k < |Chunks(text, chunkSize, overlap)|
    ensures var r := Chunks(text, chunkSize, overlap);
            var s := Start(k, Step(chunkSize, overlap));
            s < |text| &&
            r[k] == Chunk(k + 1, PySlice(text, s, s + chunkSize)) &&
            |r[k].text| == Min(chunkSize, |text| - s)
  {
    var r := ChunksFrom(text, chunkSize, overlap, 0, 1);
    assert |text| > 0;
    assert Chunks(text, chunkSize, overlap) == r;
    ChunkAt(text, chunkSize, overlap, 0, 1, k);
    var s := Start(k, Step(chunkSize, overlap));
    var w := PySlice(text, s, s + chunkSize);
    assert r[k] == Chunk(k + 1, w);
    assert |w| == Min(chunkSize, |text| - s);
  }

  /** chunk_text, property by property: there are ceil(|text| / step) chunks,
      and chunk k (counting from 0) has id k + 1 and is the window of the text
      that starts at k * step, a position inside the text. */
  lemma ChunksClosedForm(text: string, chunkSize: nat, overlap: int)
    requires overlap < chunkSize
    ensures var r := Chunks(text, chunkSize, overlap);
            var step := Step(chunkSize, overlap);
            |r| == CeilDiv(|text|, step) &&
            forall k :: 0 <= k < |r| ==>
              k * step < |text| &&
              r[k] == Chunk(k + 1, PySlice(text, k * step, k * step + chunkSize))
  {
    var r := Chunks(text, chunkSize, overlap);
    var step := Step(chunkSize, overlap);
    if |text| > 0 {
      ChunkCountFrom(text, chunkSize, overlap, 0, 1);
    }
    CeilDivIsLeast(|text|, step, |r|);
    forall k | 0 <= k < |r|
      ensures k * step < |text|
      ensures r[k] == Chunk(k + 1, PySlice(text, k * step, k * step + chunkSize))
    {
      ChunkWindow(text, chunkSize, overlap, k);
      StartIsProduct(k, step);
    }
  }

  /** Every chunk is the rest of the text from its start, cut at chunkSize:
      so it is at most chunkSize long, and holds at least one character when
      chunkSize is positive. */
  lemma ChunkLengths(text: string, chunkSize: nat, overlap: int)
    requires overlap < chunkSize
    ensures var r := Chunks(text, chunkSize, overlap);
            forall k :: 0 <= k < |r| ==>
              |r[k].text| == Min(chunkSize, |text| - Start(k, Step(chunkSize, overlap))) &&
              |r[k].text| <= chunkSize &&
              (chunkSize > 0 ==> |r[k].text| > 0)
  {
    var r := Chunks(text, chunkSize, overlap);
    forall k | 0 <= k < |r|
      ensures Start(k, Step(chunkSize, overlap)) < |text|
      ensures |r[k].text| == Min(chunkSize, |text| - Start(k, Step(chunkSize, overlap)))
    {
      ChunkWindow(text, chunkSize, overlap, k);
    }
  }

  /** With a non-negative overlap the windows reach the end of the text: the
      last chunk ends exactly at |text|. */
  lemma LastChunkReachesEnd(text: string, chunkSize: nat, overlap: int)
    requires 0 <= overlap < chunkSize
    requires |text| > 0
    ensures var r := Chunks(text, chunkSize, overlap);
            var last := |r| - 1;
            |r| > 0 && Start(last, Step(chunkSize, overlap)) + |r[last].text| == |text|
  {
    var r := Chunks(text, chunkSize, overlap);
    var step := Step(chunkSize, overlap);
    ChunkCountFrom(text, chunkSize, overlap, 0, 1);
    ChunkWindow(text, chunkSize, overlap, |r| - 1);
    StartShift(|r|, step);
  }

  /** Position i of the text lies in chunk i / step. */
  lemma CoveredAt(text: string, chunkSize: nat, overlap: int, i: nat)
    requires 0 <= overlap < chunkSize
    requires i < |text|
    ensures var r := Chunks(text, chunkSize, overlap);
            var k := i / Step(chunkSize, overlap);
            var s := Start(k, Step(chunkSize, overlap));
            k < |r| && s <= i < s + |r[k].text| && r[k].text[i - s] == text[i]
  {
    var r := Chunks(text, chunkSize, overlap);
    var step := Step(chunkSize, overlap);
    var k := i / step;
    DivBounds(i, step);
    ChunkCountFrom(text, chunkSize, overlap, 0, 1);
    if |r| <= k {
      StartMonotone(|r|, k, step);
      assert false;
    }
    ChunkWindow(text, chunkSize, overlap, k);
  }

  /** With a non-negative overlap every character of the text lies in some
      chunk: chunk i / step covers position i and holds text[i] there. */
  lemma Coverage(text: string, chunkSize: nat, overlap: int)
    requires 0 <= overlap < chunkSize
    ensures var r := Chunks(text, chunkSize, overlap);
            var step := Step(chunkSize, overlap);
            forall i :: 0 <= i < |text| ==>
              i / step < |r| &&
              Start(i / step, step) <= i < Start(i / step, step) + |r[i / step].text| &&
              r[i / step].text[i - Start(i / step, step)] == text[i]
  {
    var r := Chunks(text, chunkSize, overlap);
    var step := Step(chunkSize, overlap);
    forall i | 0 <= i < |text|
      ensures i / step < |r| &&
              Start(i / step, step) <= i < Start(i / step, step) + |r[i / step].text| &&
              r[i / step].text[i - Start(i / step, step)] == text[i]
    {
      CoveredAt(text, chunkSize, overlap, i);
    }
  }

  /** Neighbouring chunks overlap: chunk k + 1 starts inside the text, and
      what chunk k holds past its first step characters is a prefix of chunk
      k + 1 that is `overlap` characters long, or what is left of the text
      when that is less. */
  lemma NeighbourOverlap(text: string, chunkSize: nat, overlap: int, k: nat)
    requires 0 <= overlap < chunkSize
    requires k + 1 < |Chunks(text, chunkSize, overlap)|
    ensures var r := Chunks(text, chunkSize, overlap);
            var step := Step(chunkSize, overlap);
            var next := Start(k + 1, step);
            next < |text| &&
            |r[k].text| == step + Min(overlap, |text| - next) &&
            r[k].text[step..] <= r[k + 1].text
  {
    var r := Chunks(text, chunkSize, overlap);
    var step := Step(chunkSize, overlap);
    ChunkWindow(text, chunkSize, overlap, k);
    ChunkWindow(text, chunkSize, overlap, k + 1);
    StartShift(k + 1, step);
    var tail := r[k].text[step..];
    forall j | 0 <= j < |tail| ensures tail[j] == r[k + 1].text[j] {
      assert tail[j] == text[Start(k, step) + step + j];
    }
  }

  /** chunk_text as the source writes it: an early return on empty text, then
      a loop that appends one window per iteration, moving the start by
      chunkSize - overlap and the id by one. */
  method ChunkText(text: string, chunkSize: nat, overlap: int) returns (chunks: seq<Chunk>)
    requires |text| == 0 || overlap < chunkSize
    ensures chunks == Chunks(text, chunkSize, overlap)
  {
    if |text| == 0 {
      return [];
    }
    assert Chunks(text, chunkSize, overlap) == ChunksFrom(text, chunkSize, overlap, 0, 1);
    chunks := [];
    var start: nat := 0;
    var chunkId: nat := 1;
    while start < |text|
      invariant chunks + ChunksFrom(text, chunkSize, overlap, start, chunkId) == Chunks(text, chunkSize, overlap)
      decreases |text| - start
    {
      var end := start + chunkSize;
      chunks := chunks + [Chunk(chunkId, PySlice(text, start, end))];
      start := start + (chunkSize - overlap);
      chunkId := chunkId + 1;
    }
  }

  /** A worked example: ten characters, windows of four overlapping by one.
      The loop stops only once the start passes the end, so a fourth chunk
      "j" follows even though "ghij" already reached the end. */
  lemma ChunkExample()
    ensures Chunks("abcdefghij", 4, 1) == [Chunk(1, "abcd"), Chunk(2, "defg"), Chunk(3, "ghij"), Chunk(4, "j")]
  {
    var t := "abcdefghij";
    assert PySlice(t, 9, 13) == "j";
    assert PySlice(t, 6, 10) == "ghij";
    assert PySlice(t, 3, 7) == "defg";
    assert PySlice(t, 0, 4) == "abcd";
    assert ChunksFrom(t, 4, 1, 12, 5) == [];
    assert ChunksFrom(t, 4, 1, 9, 4) == [Chunk(4, "j")];
    assert ChunksFrom(t, 4, 1, 6, 3) == [Chunk(3, "ghij"), Chunk(4, "j")];
    assert ChunksFrom(t, 4, 1, 3, 2) == [Chunk(2, "defg"), Chunk(3, "ghij"), Chunk(4, "j")];
  }
}
