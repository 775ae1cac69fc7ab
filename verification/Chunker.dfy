/** Splitting text into overlapping windows of characters. */
module Chunker {
  import opened Common

  type Vector = seq<real>

  datatype Chunk = Chunk(content: string, tokenCount: nat, index: nat, embedding: Vector)

  datatype ChunkConfig = ChunkConfig(size: int, overlap: int)

  const DEFAULT_CONFIG := ChunkConfig(2000, 200)

  /** A size of zero or less selects the default configuration, overlap included. */
  function Effective(cfg: ChunkConfig): (r: ChunkConfig)
    ensures r.size > 0
  {
    if cfg.size <= 0 then DEFAULT_CONFIG else cfg
  }

  /** Distance between the starts of consecutive chunks. */
  function Stride(cfg: ChunkConfig): (step: int)
    ensures step > 0
  {
    var c := Effective(cfg);
    if c.size - c.overlap <= 0 then c.size else c.size - c.overlap
  }

  /** Where chunk `i` starts: `i` strides into the text. */
  ghost function StartOf(i: nat, step: nat): nat {
    if i == 0 then 0 else StartOf(i - 1, step) + step
  }

  lemma {:induction false} StartIsMultiple(i: nat, step: nat)
    ensures StartOf(i, step) == i * step
  {
    if i > 0 {
      StartIsMultiple(i - 1, step);
      ScaledStep(step, i - 1);
    }
  }

  lemma {:induction false} StartsIncrease(i: nat, j: nat, step: nat)
    requires i <= j
    ensures StartOf(i, step) <= StartOf(j, step)
    ensures i < j ==> StartOf(i, step) + step <= StartOf(j, step)
  {
    if i < j {
      StartsIncrease(i, j - 1, step);
    }
  }

  /** Characters `start` to `start + size`, as far as the text has them. */
  ghost function Piece(text: string, start: nat, size: nat): string {
    text[Min(start, |text|)..Min(start + size, |text|)]
  }

  /**
   * Chunk `k` is the last one: it starts inside the text, the one before did not reach the end, and
   * either this one does or the next would start beyond it.
   */
  ghost predicate LastIndex(total: nat, size: nat, step: nat, k: nat) {
    && StartOf(k, step) < total
    && (k > 0 ==> StartOf(k - 1, step) + size < total)
    && (StartOf(k, step) + size >= total || StartOf(k + 1, step) >= total)
  }

  ghost function ChunkAt(text: string, size: nat, step: nat, i: nat): Chunk {
    var content := Piece(text, StartOf(i, step), size);
    Chunk(content, |content| / 4, i, [])
  }

  ghost predicate Windows(text: string, size: nat, step: nat, chunks: seq<Chunk>) {
    && (text == [] <==> chunks == [])
    && (chunks != [] ==> LastIndex(|text|, size, step, |chunks| - 1))
    && forall i :: 0 <= i < |chunks| ==> chunks[i] == ChunkAt(text, size, step, i)
  }

  ghost predicate IsChunking(text: string, cfg: ChunkConfig, chunks: seq<Chunk>) {
    Windows(text, Effective(cfg).size, Stride(cfg), chunks)
  }

  lemma EarlierStarts(j: nat, k: nat, step: nat)
    requires j < k
    ensures StartOf(j, step) <= StartOf(k - 1, step) && StartOf(j + 1, step) <= StartOf(k, step)
  {
    StartsIncrease(j, k - 1, step);
    StartsIncrease(j + 1, k, step);
  }

  lemma LastIndexUnique(total: nat, size: nat, step: nat, j: nat, k: nat)
    requires LastIndex(total, size, step, j) && LastIndex(total, size, step, k)
    ensures j == k
  {
    if j < k {
      EarlierStarts(j, k, step);
    } else if k < j {
      EarlierStarts(k, j, step);
    }
  }

  /** Text and configuration determine the chunks. */
  lemma ChunkingUnique(text: string, cfg: ChunkConfig, a: seq<Chunk>, b: seq<Chunk>)
    requires IsChunking(text, cfg, a) && IsChunking(text, cfg, b)
    ensures a == b
  {
    if text != [] {
      LastIndexUnique(|text|, Effective(cfg).size, Stride(cfg), |a| - 1, |b| - 1);
    }
  }

  method Split(text: string, cfg: ChunkConfig) returns (chunks: seq<Chunk>)
    ensures IsChunking(text, cfg, chunks)
  {
    var size := Effective(cfg).size;
    var step := size - Effective(cfg).overlap;
    if step <= 0 {
      step := size;
    }
    chunks := SlideWindow(text, size, step);
  }

  method SlideWindow(text: string, size: nat, step: nat) returns (chunks: seq<Chunk>)
    requires size > 0 && step > 0
    ensures Windows(text, size, step, chunks)
  {
    var total := |text|;
    chunks := [];
    if total == 0 {
      return;
    }
    var start, idx := 0, 0;
    while start < total
      invariant idx == |chunks| && start == StartOf(idx, step)
      invariant idx > 0 ==> StartOf(idx - 1, step) + size < total
      invariant forall i :: 0 <= i < idx ==> chunks[i] == ChunkAt(text, size, step, i)
      decreases total - start
    {
      var chunk, end := CutChunk(text, start, size, idx);
      chunks := chunks + [chunk];
      if end == total {
        return;
      }
      start, idx := start + step, idx + 1;
    }
    if idx > 1 {
      EarlierStarts(idx - 2, idx - 1, step);
    }
  }

  /** The chunk that starts at `start`, and where it ends. */
  method CutChunk(text: string, start: nat, size: nat, idx: nat) returns (chunk: Chunk, end: nat)
    requires start < |text|
    ensures end == Min(start + size, |text|)
    ensures chunk == Chunk(Piece(text, start, size), |Piece(text, start, size)| / 4, idx, [])
  {
    end := start + size;
    if end > |text| {
      end := |text|;
    }
    var content := text[start..end];
    chunk := Chunk(content, |content| / 4, idx, []);
  }

  /** Every chunk starts inside the text, and every chunk but the last stops short of its end. */
  lemma ChunkBounds(text: string, size: nat, step: nat, chunks: seq<Chunk>, i: nat)
    requires Windows(text, size, step, chunks) && i < |chunks|
    ensures StartOf(i, step) < |text|
    ensures i > 0 ==> StartOf(i - 1, step) + size < |text|
  {
    StartsIncrease(i, |chunks| - 1, step);
    if i > 0 {
      StartsIncrease(i - 1, |chunks| - 2, step);
    }
  }

  function CeilDiv(a: nat, b: nat): (q: nat)
    requires b > 0
    ensures q * b >= a && (q > 0 ==> (q - 1) * b < a)
  {
    CeilDivBounds(a, b);
    (a + b - 1) / b
  }

  lemma CeilDivBounds(a: nat, b: nat)
    requires b > 0
    ensures var q := (a + b - 1) / b; q * b >= a && (q > 0 ==> (q - 1) * b < a)
  {
    var q, r := (a + b - 1) / b, (a + b - 1) % b;
    assert q * b + r == a + b - 1;
    assert (q - 1) * b == q * b - b;
  }

  /** With a non-negative overlap: one chunk if the text fits, else one more per stride still uncovered. */
  lemma CountForOverlap(text: string, cfg: ChunkConfig, chunks: seq<Chunk>)
    requires IsChunking(text, cfg, chunks) && text != [] && Effective(cfg).overlap >= 0
    ensures |chunks| == if |text| <= Effective(cfg).size then 1
                        else 1 + CeilDiv(|text| - Effective(cfg).size, Stride(cfg))
  {
    var size, step, total := Effective(cfg).size, Stride(cfg), |text|;
    var k := if total <= size then 0 else CeilDiv(total - size, step);
    StartIsMultiple(k, step);
    if k > 0 {
      StartIsMultiple(k - 1, step);
    }
    assert LastIndex(total, size, step, k);
    LastIndexUnique(total, size, step, |chunks| - 1, k);
  }

  /** The first chunk followed by what every later chunk adds. */
  ghost function Reassembled(chunks: seq<Chunk>, shared: nat): string {
    if chunks == [] then []
    else if |chunks| == 1 then chunks[0].content
    else
      var last := chunks[|chunks| - 1].content;
      Reassembled(chunks[..|chunks| - 1], shared) + last[Min(shared, |last|)..]
  }

  /** What two windows one stride apart share, and what the second adds. */
  lemma NeighbouringPieces(text: string, start: nat, size: nat, step: nat)
    requires 0 < step <= size && start + size < |text|
    ensures var a, b := Piece(text, start, size), Piece(text, start + step, size);
            && |a| == size && |b| > size - step
            && a[step..] == b[..size - step]
            && text[..start + size] + b[size - step..] == text[..Min(start + step + size, |text|)]
  {
    var end := Min(start + step + size, |text|);
    var a, b := text[start..start + size], text[start + step..end];
    assert Piece(text, start, size) == a && Piece(text, start + step, size) == b;
    assert a[step..] == text[start + step..start + size];
    assert b[..size - step] == text[start + step..start + size];
    assert b[size - step..] == text[start + size..end];
  }

  /** What chunk `i` shares with the chunk before it, and what it adds. */
  lemma NextWindow(text: string, size: nat, step: nat, chunks: seq<Chunk>, i: nat)
    requires Windows(text, size, step, chunks) && 0 < step <= size && 0 < i < |chunks|
    ensures var a, b := chunks[i - 1].content, chunks[i].content;
            && |a| == size && |b| > size - step
            && a[step..] == b[..size - step]
            && UpTo(text, size, step, i - 1) + b[size - step..] == UpTo(text, size, step, i)
  {
    ChunkBounds(text, size, step, chunks, i);
    NeighbouringPieces(text, StartOf(i - 1, step), size, step);
    assert chunks[i - 1] == ChunkAt(text, size, step, i - 1) && chunks[i] == ChunkAt(text, size, step, i);
  }

  lemma ReassembledStep(chunks: seq<Chunk>, shared: nat, n: nat, so: string)
    requires 0 < n < |chunks| && shared <= |chunks[n].content|
    requires Reassembled(chunks[..n], shared) == so
    ensures Reassembled(chunks[..n + 1], shared) == so + chunks[n].content[shared..]
  {
    assert chunks[..n + 1][..n] == chunks[..n];
  }

  lemma FirstWindow(text: string, size: nat, step: nat, chunks: seq<Chunk>, shared: nat)
    requires Windows(text, size, step, chunks) && chunks != []
    ensures Reassembled(chunks[..1], shared) == text[..Min(size, |text|)]
  {
    assert chunks[0] == ChunkAt(text, size, step, 0);
  }

  /** The text up to the end of window `i`. */
  ghost function UpTo(text: string, size: nat, step: nat, i: nat): string {
    text[..Min(StartOf(i, step) + size, |text|)]
  }

  lemma {:induction false} ReassembledPrefix(text: string, size: nat, step: nat, chunks: seq<Chunk>, n: nat)
    requires Windows(text, size, step, chunks) && 0 < step <= size && n < |chunks|
    ensures Reassembled(chunks[..n + 1], size - step) == UpTo(text, size, step, n)
  {
    if n == 0 {
      FirstWindow(text, size, step, chunks, size - step);
    } else {
      ReassembledPrefix(text, size, step, chunks, n - 1);
      NextWindow(text, size, step, chunks, n);
      ReassembledStep(chunks, size - step, n, UpTo(text, size, step, n - 1));
    }
  }

  /** Nothing is lost: dropping what each chunk shares with the one before gives back the text. */
  lemma ChunkingIsLossless(text: string, cfg: ChunkConfig, chunks: seq<Chunk>)
    requires IsChunking(text, cfg, chunks) && Effective(cfg).overlap >= 0
    ensures Reassembled(chunks, Effective(cfg).size - Stride(cfg)) == text
  {
    if text != [] {
      var size, step := Effective(cfg).size, Stride(cfg);
      LastReachesEnd(text, size, step, chunks);
      ReassembledPrefix(text, size, step, chunks, |chunks| - 1);
      assert chunks[..|chunks|] == chunks;
    }
  }

  /** With a stride no longer than a window the last chunk ends where the text ends. */
  lemma LastReachesEnd(text: string, size: nat, step: nat, chunks: seq<Chunk>)
    requires Windows(text, size, step, chunks) && text != []
    requires step <= size || |text| <= size
    ensures StartOf(|chunks| - 1, step) + size >= |text|
  {
    assert StartOf(|chunks|, step) == StartOf(|chunks| - 1, step) + step;
  }

  /** Consecutive chunks share exactly size minus stride characters, and each adds at least one. */
  lemma ConsecutiveChunksShare(text: string, cfg: ChunkConfig, chunks: seq<Chunk>, i: nat)
    requires IsChunking(text, cfg, chunks) && Effective(cfg).overlap >= 0
    requires 0 < i < |chunks|
    ensures var shared := Effective(cfg).size - Stride(cfg);
            var a, b := chunks[i - 1].content, chunks[i].content;
            |a| == Effective(cfg).size && |b| > shared && a[|a| - shared..] == b[..shared]
  {
    NextWindow(text, Effective(cfg).size, Stride(cfg), chunks, i);
  }

  /** Character `p` is in one of the first `n` windows. */
  ghost predicate Covered(size: nat, step: nat, n: nat, p: nat) {
    exists i :: 0 <= i < n && StartOf(i, step) <= p < StartOf(i, step) + size
  }

  /**
   * Every character is in some chunk exactly when the overlap is not negative or a single chunk
   * suffices; a negative overlap skips characters between chunks.
   */
  lemma CoversAllIff(text: string, cfg: ChunkConfig, chunks: seq<Chunk>)
    requires IsChunking(text, cfg, chunks)
    ensures (forall p: nat :: p < |text| ==> Covered(Effective(cfg).size, Stride(cfg), |chunks|, p))
            <==> Effective(cfg).overlap >= 0 || |text| <= Effective(cfg).size
  {
    var size, step := Effective(cfg).size, Stride(cfg);
    if Effective(cfg).overlap >= 0 || |text| <= size {
      forall p: nat | p < |text| ensures Covered(size, step, |chunks|, p) {
        LastReachesEnd(text, size, step, chunks);
        FindCover(size, step, |chunks|, p);
      }
    } else {
      forall i: nat | i < |chunks| ensures !(StartOf(i, step) <= size < StartOf(i, step) + size) {
        StartsIncrease(0, i, step);
      }
      assert !Covered(size, step, |chunks|, size);
    }
  }

  lemma {:induction false} FindCover(size: nat, step: nat, n: nat, p: nat)
    requires n > 0 && p < StartOf(n - 1, step) + size
    requires step <= size || n == 1
    ensures Covered(size, step, n, p)
  {
    if p < StartOf(n - 1, step) {
      FindCover(size, step, n - 1, p);
    }
  }

  /** Windows of one character, two apart: the second character is in none of them. */
  lemma NegativeOverlapSkips(chunks: seq<Chunk>)
    requires IsChunking("abc", ChunkConfig(1, -1), chunks)
    ensures Stride(ChunkConfig(1, -1)) == 2 && !Covered(1, 2, |chunks|, 1)
  {
    forall i: nat | i < |chunks| ensures !(StartOf(i, 2) <= 1 < StartOf(i, 2) + 1) {
      StartIsMultiple(i, 2);
    }
  }

  /** The stride in terms of the configuration as it was given. */
  lemma StrideIs(cfg: ChunkConfig)
    ensures cfg.size <= 0 ==> Effective(cfg).size == 2000 && Stride(cfg) == 1800
    ensures cfg.size > 0 && cfg.overlap < cfg.size ==> Effective(cfg) == cfg && Stride(cfg) == cfg.size - cfg.overlap
    ensures 0 < cfg.size <= cfg.overlap ==> Effective(cfg) == cfg && Stride(cfg) == cfg.size
  {
  }

  /** Consecutive chunks share exactly the configured overlap. */
  lemma OverlapIsShared(text: string, cfg: ChunkConfig, chunks: seq<Chunk>, i: nat)
    requires IsChunking(text, cfg, chunks) && 0 <= cfg.overlap < cfg.size && 0 < i < |chunks|
    ensures var a, b := chunks[i - 1].content, chunks[i].content;
            |a| == cfg.size && |b| > cfg.overlap && a[|a| - cfg.overlap..] == b[..cfg.overlap]
  {
    StrideIs(cfg);
    ConsecutiveChunksShare(text, cfg, chunks, i);
  }

  /** Chunk `i` begins `i` times size minus overlap into the text, and counts a token for every four characters. */
  lemma ChunkFields(text: string, cfg: ChunkConfig, chunks: seq<Chunk>, i: nat)
    requires IsChunking(text, cfg, chunks) && 0 <= cfg.overlap < cfg.size && i < |chunks|
    ensures var start := i * (cfg.size - cfg.overlap);
            && 0 <= start < |text|
            && chunks[i].content == text[start..if start + cfg.size < |text| then start + cfg.size else |text|]
            && chunks[i].tokenCount == |chunks[i].content| / 4 && chunks[i].index == i && chunks[i].embedding == []
  {
    StrideIs(cfg);
    StartIsMultiple(i, Stride(cfg));
    ChunkBounds(text, cfg.size, Stride(cfg), chunks, i);
    assert chunks[i] == ChunkAt(text, cfg.size, Stride(cfg), i);
  }
}
