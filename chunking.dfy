/**
 * `chunk_text`: a sliding window of `chunk_size` words whose start advances by
 * `chunk_size - overlap` words, each window joined with single spaces.
 */
module Chunking {
  import opened Strings

  const DefaultChunkSize: int := 500
  const DefaultOverlap: int := 50

  function Min(a: int, b: int): (m: int) {
    if a < b then a else b
  }

  /** How far the loop index advances after each chunk. */
  function Step(chunkSize: int, overlap: int): (step: nat)
    requires overlap < chunkSize
  {
    chunkSize - overlap
  }

  /** ceil(n / step): the number of window starts 0, step, 2*step, ... below n. */
  function WindowCount(n: nat, step: nat): (count: nat)
    requires step > 0
  {
    (n + step - 1) / step
  }

  function WindowStart(step: nat, k: nat): (start: nat) {
    k * step
  }

  /** The exclusive end of window k: Python's slice `[start:start+size]` clipped at n. */
  function WindowEnd(n: nat, size: nat, step: nat, k: nat): (end: int) {
    Min(WindowStart(step, k) + size, n)
  }

  /** The words of window k, `words[k*step : k*step+size]`. */
  function WindowAt(words: seq<string>, size: nat, step: nat, k: nat): (window: seq<string>)
    requires WindowStart(step, k) < |words|
  {
    words[WindowStart(step, k) .. WindowEnd(|words|, size, step, k)]
  }

  lemma MulLeft(a: nat, b: nat, s: nat)
    requires a <= b
    ensures a * s <= b * s
  {
    assert b * s == a * s + (b - a) * s;
  }

  /** Every window that is counted starts inside the text. */
  lemma StartBelow(n: nat, step: nat, k: nat)
    requires step > 0 && k < WindowCount(n, step)
    ensures WindowStart(step, k) < n
  {
    var c := WindowCount(n, step);
    assert c * step <= n + step - 1;
    MulLeft(k, c - 1, step);
    assert (c - 1) * step == c * step - step;
  }

  lemma MulCancel(a: nat, b: nat, s: nat)
    requires a * s < b * s
    ensures a < b
  {
    if a >= b {
      MulLeft(b, a, s);
    }
  }

  /** A count m whose windows reach n but whose last window starts below n is the ceiling. */
  lemma CeilingUnique(n: nat, step: nat, m: nat)
    requires step > 0
    requires m * step >= n
    requires m == 0 || (m - 1) * step < n
    ensures m == WindowCount(n, step)
  {
    var q, r := (n + step - 1) / step, (n + step - 1) % step;
    assert n + step - 1 == q * step + r;
    assert (m + 1) * step == m * step + step;
    MulCancel(q, m + 1, step);
    if m > 0 {
      MulCancel(m - 1, q, step);
    }
  }

  /** The chunks `chunk_text` promises: window k of the words, joined with single spaces. */
  function Chunks(words: seq<string>, chunkSize: int, overlap: int): (chunks: seq<string>)
    requires 0 <= chunkSize && (words != [] ==> overlap < chunkSize)
  {
    if words == [] then []
    else
      var step := Step(chunkSize, overlap);
      var count := WindowCount(|words|, step);
      seq(count, k requires 0 <= k < count =>
        StartBelow(|words|, step, k);
        Join(WindowAt(words, chunkSize, step, k)))
  }

  /**
   * `chunk_text(text, chunk_size, overlap)`. Once there is a word, Python loops forever
   * unless the step `chunk_size - overlap` is positive.
   */
  method ChunkText(text: string, chunkSize: int, overlap: int) returns (chunks: seq<string>)
    requires 0 <= chunkSize && (!AllSpace(text) ==> overlap < chunkSize)
    ensures chunks == Chunks(Split(text), chunkSize, overlap)
    ensures chunks == [] <==> AllSpace(text)
  {
    chunks := [];
    var words := Split(text);
    var step := chunkSize - overlap;
    var i := 0;
    while i < |words|
      invariant words == [] ==> i == 0 && chunks == []
      invariant words != [] ==> step > 0 && i == WindowStart(step, |chunks|)
      invariant words != [] ==> |chunks| == 0 || WindowStart(step, |chunks| - 1) < |words|
      invariant words != [] ==> forall k :: 0 <= k < |chunks| ==>
        WindowStart(step, k) < |words| && chunks[k] == Join(WindowAt(words, chunkSize, step, k))
    {
      assert words[i .. Min(i + chunkSize, |words|)] == WindowAt(words, chunkSize, step, |chunks|);
      assert WindowStart(step, |chunks| + 1) == i + step;
      chunks := chunks + [Join(words[i .. Min(i + chunkSize, |words|)])];
      i := i + step;
    }
    if words != [] {
      CeilingUnique(|words|, step, |chunks|);
      assert |chunks| == |Chunks(words, chunkSize, overlap)|;
    }
  }

  /** The number of chunks is ceil(n / step); there are none exactly when there are no words. */
  lemma ChunkCount(words: seq<string>, chunkSize: int, overlap: int)
    requires 0 <= chunkSize && overlap < chunkSize
    ensures var c, step := |Chunks(words, chunkSize, overlap)|, Step(chunkSize, overlap);
      WindowStart(step, c) >= |words| && (c == 0 || WindowStart(step, c - 1) < |words|)
    ensures Chunks(words, chunkSize, overlap) == [] <==> words == []
  {
    var step := Step(chunkSize, overlap);
    var n := |words|;
    var c := WindowCount(n, step);
    var q, r := (n + step - 1) / step, (n + step - 1) % step;
    assert n + step - 1 == q * step + r;
    if c > 0 {
      StartBelow(n, step, c - 1);
    }
  }

  /**
   * Chunk k holds exactly the words k*step .. k*step+chunkSize-1 (clipped): at most chunkSize
   * words, at least one when chunkSize is positive, and none (an empty string) when it is 0.
   */
  lemma ChunkWords(words: seq<string>, chunkSize: int, overlap: int, k: nat)
    requires 0 <= chunkSize && overlap < chunkSize && AllWords(words)
    requires k < |Chunks(words, chunkSize, overlap)|
    ensures var step := Step(chunkSize, overlap);
      WindowStart(step, k) < |words|
      && Split(Chunks(words, chunkSize, overlap)[k]) == words[WindowStart(step, k) .. WindowEnd(|words|, chunkSize, step, k)]
    ensures |Split(Chunks(words, chunkSize, overlap)[k])| <= chunkSize
    ensures chunkSize > 0 ==> 1 <= |Split(Chunks(words, chunkSize, overlap)[k])|
    ensures chunkSize == 0 ==> Chunks(words, chunkSize, overlap)[k] == ""
  {
    var step := Step(chunkSize, overlap);
    StartBelow(|words|, step, k);
    var w := WindowAt(words, chunkSize, step, k);
    assert AllWords(w) by {
      forall i | 0 <= i < |w| ensures IsWord(w[i]) {
        assert w[i] == words[WindowStart(step, k) + i];
      }
    }
    SplitJoin(w);
  }

  /** With a non-negative overlap every word position lies inside some chunk's window. */
  lemma Coverage(words: seq<string>, chunkSize: int, overlap: int, p: nat)
    requires 0 < chunkSize && 0 <= overlap < chunkSize && p < |words|
    ensures var step := Step(chunkSize, overlap);
      exists k :: 0 <= k < |Chunks(words, chunkSize, overlap)|
        && WindowStart(step, k) <= p < WindowEnd(|words|, chunkSize, step, k)
  {
    var step := Step(chunkSize, overlap);
    var k := p / step;
    assert p == k * step + p % step;
    ChunkCount(words, chunkSize, overlap);
    var c := |Chunks(words, chunkSize, overlap)|;
    if k >= c {
      MulLeft(c, k, step);
      assert false;
    }
    assert WindowStart(step, k) <= p < WindowEnd(|words|, chunkSize, step, k);
  }

  /** The first chunk starts at word 0 and, with a non-negative overlap, the last ends at the final word. */
  lemma FirstAndLastChunk(words: seq<string>, chunkSize: int, overlap: int)
    requires 0 < chunkSize && 0 <= overlap < chunkSize && words != []
    ensures var c, step := |Chunks(words, chunkSize, overlap)|, Step(chunkSize, overlap);
      c > 0 && WindowStart(step, 0) == 0 && WindowEnd(|words|, chunkSize, step, c - 1) == |words|
  {
    var step := Step(chunkSize, overlap);
    ChunkCount(words, chunkSize, overlap);
    var c := |Chunks(words, chunkSize, overlap)|;
    assert WindowStart(step, c) == WindowStart(step, c - 1) + step;
  }

  /** Consecutive windows share min(overlap, words left) words: the tail of window k opens window k+1. */
  lemma ConsecutiveOverlap(words: seq<string>, chunkSize: int, overlap: int, k: nat)
    requires 0 < chunkSize && 0 <= overlap < chunkSize
    requires k + 1 < |Chunks(words, chunkSize, overlap)|
    ensures var step := Step(chunkSize, overlap);
      WindowStart(step, k + 1) < |words|
      && var shared := WindowEnd(|words|, chunkSize, step, k) - WindowStart(step, k + 1);
      shared == Min(overlap, |words| - WindowStart(step, k + 1))
      && WindowAt(words, chunkSize, step, k)[step..] == WindowAt(words, chunkSize, step, k + 1)[..shared]
  {
    var step := Step(chunkSize, overlap);
    StartBelow(|words|, step, k + 1);
    var s0, s1 := WindowStart(step, k), WindowStart(step, k + 1);
    assert s1 == s0 + step;
    var shared := WindowEnd(|words|, chunkSize, step, k) - s1;
    assert shared == Min(overlap, |words| - s1);
    var w0, w1 := WindowAt(words, chunkSize, step, k), WindowAt(words, chunkSize, step, k + 1);
    assert w0[step..] == words[s1 .. s1 + shared];
    assert w1[..shared] == words[s1 .. s1 + shared];
  }

  /** The quirk of `while i < len(words)`: a last window can lie wholly inside the previous one. */
  lemma TrailingChunkInsidePrevious(words: seq<string>, chunkSize: int, overlap: int)
    requires 0 < chunkSize && 0 <= overlap < chunkSize
    requires var c := |Chunks(words, chunkSize, overlap)|;
      c >= 2 && WindowEnd(|words|, chunkSize, Step(chunkSize, overlap), c - 2) == |words|
    ensures var c, step := |Chunks(words, chunkSize, overlap)|, Step(chunkSize, overlap);
      WindowStart(step, c - 1) < |words|
      && WindowAt(words, chunkSize, step, c - 2)[step..] == WindowAt(words, chunkSize, step, c - 1)
  {
    var c, step := |Chunks(words, chunkSize, overlap)|, Step(chunkSize, overlap);
    ConsecutiveOverlap(words, chunkSize, overlap, c - 2);
    ChunkCount(words, chunkSize, overlap);
  }

  /** With the defaults, 460 words give two chunks and the second, words 450..459, repeats the first's tail. */
  lemma DefaultsOn460Words(words: seq<string>)
    requires |words| == 460 && AllWords(words)
    ensures var cs := Chunks(words, DefaultChunkSize, DefaultOverlap);
      |cs| == 2 && Split(cs[0]) == words && Split(cs[1]) == words[450..]
  {
    var cs := Chunks(words, DefaultChunkSize, DefaultOverlap);
    assert |cs| == 2;
    ChunkWords(words, DefaultChunkSize, DefaultOverlap, 0);
    ChunkWords(words, DefaultChunkSize, DefaultOverlap, 1);
    assert words[0..460] == words;
  }
}
