/**
 * The sliding word window of `_window_chunks` (src/chunker.py): a section body is split into words and cut
 * into windows of at most `chunk_size` words whose starts are `chunk_size - chunk_overlap` words apart.
 * The windows are defined over any sequence, so that their properties do not depend on what a word is.
 */
module Windows {
  import opened Text

  /** One chunk of a page: its text, its position among the page's chunks, and its section header. */
  datatype Chunk = Chunk(text: string, chunkIndex: nat, section: string)

  function Min(a: int, b: int): int {
    if a <= b then a else b
  }

  /** `f"{header}\n\n"` when there is a header, nothing otherwise. */
  function HeaderPrefix(header: string): (r: string)
    ensures r == "" <==> header == ""
    ensures header != "" ==> |r| == |header| + 2 && r[..|header|] == header && r[|header|..] == "\n\n"
  {
    if header != "" then header + "\n\n" else ""
  }

  /** The text of the chunk for `window` under `header`: the prefix and the space-joined words, stripped. */
  function ChunkText(header: string, window: seq<string>): (r: string)
    ensures IsStripped(r)
    ensures |r| <= |HeaderPrefix(header)| + |Join(window, " ")|
  {
    Strip(HeaderPrefix(header) + Join(window, " "))
  }

  /**
   * The windows the loop cuts from `pos` on: `words[pos:min(pos + chunk_size, N)]`, and then, unless that
   * window reached the last word, the windows from `pos + chunk_size - chunk_overlap` on.
   */
  function WindowsFrom<T>(words: seq<T>, size: nat, overlap: nat, pos: nat): (r: seq<seq<T>>)
    requires overlap < size
    ensures pos <= |words| ==> |r| <= |words| - pos
    decreases |words| - pos
  {
    if pos >= |words| then []
    else
      var end := Min(pos + size, |words|);
      var rest := if end == |words| then [] else WindowsFrom(words, size, overlap, pos + (size - overlap));
      [words[pos..end]] + rest
  }

  /** Every window holds at least one word and at most `chunk_size`. */
  lemma {:induction false} WindowSizes<T>(words: seq<T>, size: nat, overlap: nat, pos: nat)
    requires overlap < size
    ensures var r := WindowsFrom(words, size, overlap, pos); forall k :: 0 <= k < |r| ==> 1 <= |r[k]| <= size
    decreases |words| - pos
  {
    if pos < |words| {
      var end := Min(pos + size, |words|);
      var rest := if end == |words| then [] else WindowsFrom(words, size, overlap, pos + (size - overlap));
      if end < |words| {
        WindowSizes(words, size, overlap, pos + (size - overlap));
      }
      var r := WindowsFrom(words, size, overlap, pos);
      assert r == [words[pos..end]] + rest;
      forall k | 0 <= k < |r| ensures 1 <= |r[k]| <= size {
        if k > 0 {
          assert end < |words| && r[k] == rest[k - 1];
          assert rest == WindowsFrom(words, size, overlap, pos + (size - overlap));
          assert 1 <= |rest[k - 1]| <= size;
        } else {
          assert r[0] == words[pos..end] && pos < end <= pos + size;
        }
      }
    }
  }

  /** All the windows of a section's words. */
  function Windows<T>(words: seq<T>, size: nat, overlap: nat): seq<seq<T>>
    requires overlap < size
  {
    WindowsFrom(words, size, overlap, 0)
  }

  /** `f` applied to each element of `xs` together with its number, counting from `start`. */
  function Numbered<T, U>(f: (T, nat) -> U, xs: seq<T>, start: nat): (r: seq<U>)
    ensures |r| == |xs|
    ensures forall k :: 0 <= k < |xs| ==> r[k] == f(xs[k], start + k)
  {
    seq(|xs|, k requires 0 <= k < |xs| => f(xs[k], start + k))
  }

  /** Numbering a longer list numbers the first part from `start` and the extra element after it. */
  lemma NumberedSnoc<T, U>(f: (T, nat) -> U, xs: seq<T>, x: T, start: nat)
    ensures Numbered(f, xs + [x], start) == Numbered(f, xs, start) + Numbered(f, [x], start + |xs|)
  {
    var a := Numbered(f, xs + [x], start);
    var b := Numbered(f, xs, start) + Numbered(f, [x], start + |xs|);
    forall k | 0 <= k < |a| ensures a[k] == b[k] {
      if k < |xs| {
        assert (xs + [x])[k] == xs[k];
      } else {
        assert (xs + [x])[k] == x;
      }
    }
  }

  /** The chunk a window becomes under `header`, given its index. */
  function MakeChunk(header: string): (seq<string>, nat) -> Chunk {
    (window: seq<string>, index: nat) => Chunk(ChunkText(header, window), index, header)
  }

  /** The chunks of `windows` under `header`, numbered from `start`. */
  function ChunksOf(header: string, windows: seq<seq<string>>, start: nat): seq<Chunk> {
    Numbered(MakeChunk(header), windows, start)
  }

  /** The chunks `_window_chunks` makes of one section, numbered from `start`. */
  function SectionChunks(header: string, body: string, size: nat, overlap: nat, start: nat): seq<Chunk>
    requires overlap < size
  {
    ChunksOf(header, Windows(Words(body), size, overlap), start)
  }

  /**
   * `_window_chunks`: splits the body into words; no words, no chunks; otherwise the loop below cuts
   * the windows and turns each into a chunk numbered on from `startIndex`.
   */
  method WindowChunks(header: string, body: string, chunkSize: nat, chunkOverlap: nat, startIndex: nat)
    returns (chunks: seq<Chunk>)
    requires chunkOverlap < chunkSize
    ensures chunks == SectionChunks(header, body, chunkSize, chunkOverlap, startIndex)
  {
    var words := Words(body);
    if |words| == 0 {
      NoWordsNoWindows(words, chunkSize, chunkOverlap);
      return [];
    }
    chunks := CutWindows(MakeChunk(header), words, chunkSize, chunkOverlap, startIndex);
  }

  /**
   * The loop of `_window_chunks`, for any way `make` of turning a window and its index into a chunk:
   * it walks the window start `pos` through the words, one chunk per window, and stops after the
   * window that reaches the last word. `pos` grows by the stride, which is at least one.
   */
  method CutWindows<T, U>(make: (seq<T>, nat) -> U, words: seq<T>, chunkSize: nat, chunkOverlap: nat, startIndex: nat)
    returns (chunks: seq<U>)
    requires chunkOverlap < chunkSize
    ensures chunks == Numbered(make, Windows(words, chunkSize, chunkOverlap), startIndex)
  {
    ghost var done: seq<seq<T>> := [];
    chunks := [];
    var idx := startIndex;
    var pos := 0;
    while pos < |words|
      invariant CutSoFar(make, words, chunkSize, chunkOverlap, startIndex, pos, done, chunks, idx)
      decreases |words| - pos
    {
      var end := Min(pos + chunkSize, |words|);
      CutStep(make, words, chunkSize, chunkOverlap, startIndex, pos, done, chunks, idx);
      chunks := chunks + [make(words[pos..end], idx)];
      done := done + [words[pos..end]];
      idx := idx + 1;
      if end == |words| {
        break;
      }
      pos := pos + (chunkSize - chunkOverlap);
    }
    if pos >= |words| {
      CutEnd(make, words, chunkSize, chunkOverlap, startIndex, pos, done, chunks, idx);
    }
  }

  /**
   * The loop's state at window start `pos`: the windows `done` so far followed by those from `pos` on
   * are all the windows, `chunks` holds one chunk per window done, and `idx` numbers the next one.
   */
  ghost predicate CutSoFar<T, U>(make: (seq<T>, nat) -> U, words: seq<T>, size: nat, overlap: nat, start: nat,
                                 pos: nat, done: seq<seq<T>>, chunks: seq<U>, idx: nat)
    requires overlap < size
  {
    && done + WindowsFrom(words, size, overlap, pos) == Windows(words, size, overlap)
    && chunks == Numbered(make, done, start)
    && idx == start + |done|
  }

  /** One turn of the loop: the last window finishes the chunks, any other keeps the loop's state. */
  lemma CutStep<T, U>(make: (seq<T>, nat) -> U, words: seq<T>, size: nat, overlap: nat, start: nat,
                      pos: nat, done: seq<seq<T>>, chunks: seq<U>, idx: nat)
    requires overlap < size && pos < |words|
    requires CutSoFar(make, words, size, overlap, start, pos, done, chunks, idx)
    ensures var end := Min(pos + size, |words|);
      && (end == |words| ==> chunks + [make(words[pos..end], idx)] == Numbered(make, Windows(words, size, overlap), start))
      && (end < |words| ==> CutSoFar(make, words, size, overlap, start, pos + (size - overlap),
                                     done + [words[pos..end]], chunks + [make(words[pos..end], idx)], idx + 1))
  {
    var end := Min(pos + size, |words|);
    var w := words[pos..end];
    WindowStep(words, size, overlap, pos, done, Windows(words, size, overlap));
    NumberedSnoc(make, done, w, start);
    assert Numbered(make, [w], idx) == [make(w, idx)];
  }

  /** Once the window start passes the last word, every chunk has been made. */
  lemma CutEnd<T, U>(make: (seq<T>, nat) -> U, words: seq<T>, size: nat, overlap: nat, start: nat,
                     pos: nat, done: seq<seq<T>>, chunks: seq<U>, idx: nat)
    requires overlap < size && pos >= |words|
    requires CutSoFar(make, words, size, overlap, start, pos, done, chunks, idx)
    ensures chunks == Numbered(make, Windows(words, size, overlap), start)
  {
    NoWindowsLeft(words, size, overlap, pos, done, Windows(words, size, overlap));
  }

  /** One turn of the loop moves the window at `pos` from the windows still to come to those done. */
  lemma WindowStep<T>(words: seq<T>, size: nat, overlap: nat, pos: nat, done: seq<seq<T>>, all: seq<seq<T>>)
    requires overlap < size && pos < |words| && done + WindowsFrom(words, size, overlap, pos) == all
    ensures var end := Min(pos + size, |words|);
      && (end == |words| ==> done + [words[pos..end]] == all)
      && (end < |words| ==> (done + [words[pos..end]]) + WindowsFrom(words, size, overlap, pos + (size - overlap)) == all)
  {
    var end := Min(pos + size, |words|);
    if end == |words| {
      assert WindowsFrom(words, size, overlap, pos) == [words[pos..end]];
    } else {
      var rest := WindowsFrom(words, size, overlap, pos + (size - overlap));
      assert WindowsFrom(words, size, overlap, pos) == [words[pos..end]] + rest;
      assert done + ([words[pos..end]] + rest) == (done + [words[pos..end]]) + rest;
    }
  }

  /** Once the loop is done, every window has been cut. */
  lemma NoWindowsLeft<T>(words: seq<T>, size: nat, overlap: nat, pos: nat, done: seq<seq<T>>, all: seq<seq<T>>)
    requires overlap < size
    requires pos >= |words| && done + WindowsFrom(words, size, overlap, pos) == all
    ensures done == all
  {
    assert done + [] == done;
  }

  // ---------------------------------------------------------------------------
  // Properties of the windows
  // ---------------------------------------------------------------------------

  /** `k` strides: the offset of window `k` from the first. */
  function Offset(k: nat, stride: nat): nat {
    if k == 0 then 0 else Offset(k - 1, stride) + stride
  }

  /** Window starts are `0, s, 2s, ...` with `s = chunk_size - chunk_overlap`. */
  lemma {:induction false} OffsetIsMultiple(k: nat, stride: nat)
    ensures Offset(k, stride) == k * stride
  {
    if k > 0 {
      OffsetIsMultiple(k - 1, stride);
      assert k * stride == (k - 1) * stride + stride;
    }
  }

  /**
   * Window `k` from `pos` starts `k` strides after `pos`, inside the words, and covers
   * `words[start:min(start + chunk_size, N)]`; it reaches the last word exactly when it is the last window.
   */
  lemma {:induction false} WindowsFromAt<T>(words: seq<T>, size: nat, overlap: nat, pos: nat, k: nat)
    requires overlap < size && k < |WindowsFrom(words, size, overlap, pos)|
    ensures pos + Offset(k, size - overlap) < |words|
    ensures var start := pos + Offset(k, size - overlap);
      WindowsFrom(words, size, overlap, pos)[k] == words[start..Min(start + size, |words|)]
    ensures k == |WindowsFrom(words, size, overlap, pos)| - 1 <==> pos + Offset(k, size - overlap) + size >= |words|
    decreases |words| - pos, k
  {
    if k == 0 {
      WindowsFromUnfold(words, size, overlap, pos);
    } else {
      var stride := size - overlap;
      WindowAfter(words, size, overlap, pos, k);
      WindowsFromAt(words, size, overlap, pos + stride, k - 1);
      OffsetShift(k, stride);
    }
  }

  /** Window `k > 0` from `pos` is window `k - 1` from one stride further on. */
  lemma WindowAfter<T>(words: seq<T>, size: nat, overlap: nat, pos: nat, k: nat)
    requires overlap < size && 0 < k < |WindowsFrom(words, size, overlap, pos)|
    ensures var ws := WindowsFrom(words, size, overlap, pos);
      var rest := WindowsFrom(words, size, overlap, pos + (size - overlap));
      pos + size < |words| && |ws| == |rest| + 1 && ws[k] == rest[k - 1]
  {
    WindowsFromUnfold(words, size, overlap, pos);
    var ws := WindowsFrom(words, size, overlap, pos);
    assert ws[k] == ws[1..][k - 1];
  }

  /** The first window starts at `pos`; the others are the windows from one stride further on. */
  lemma WindowsFromUnfold<T>(words: seq<T>, size: nat, overlap: nat, pos: nat)
    requires overlap < size && |WindowsFrom(words, size, overlap, pos)| > 0
    ensures var ws := WindowsFrom(words, size, overlap, pos);
      pos < |words| && ws[0] == words[pos..Min(pos + size, |words|)] &&
      (|ws| == 1 <==> pos + size >= |words|) &&
      (pos + size < |words| ==> ws[1..] == WindowsFrom(words, size, overlap, pos + (size - overlap)))
  {
    var ws := WindowsFrom(words, size, overlap, pos);
    if pos + size < |words| {
      assert |WindowsFrom(words, size, overlap, pos + (size - overlap))| > 0;
    }
  }

  lemma OffsetShift(k: nat, stride: nat)
    requires k > 0
    ensures Offset(k, stride) == stride + Offset(k - 1, stride)
  {
  }

  /** A window holds between one and `chunk_size` words, and is `words[start:min(start + chunk_size, N)]`. */
  lemma WindowShape<T>(words: seq<T>, size: nat, overlap: nat, k: nat)
    requires overlap < size && k < |Windows(words, size, overlap)|
    ensures 1 <= |Windows(words, size, overlap)[k]| <= size
    ensures var start := Offset(k, size - overlap);
      start < |words| && Windows(words, size, overlap)[k] == words[start..Min(start + size, |words|)]
  {
    WindowsFromAt(words, size, overlap, 0, k);
    var start := Offset(k, size - overlap);
    SliceLength(words, start, Min(start + size, |words|));
  }

  lemma SliceLength<T>(s: seq<T>, a: nat, b: nat)
    requires a <= b <= |s|
    ensures |s[a..b]| == b - a
  {
  }

  /** Only a section without words has no windows. */
  lemma NoWordsNoWindows<T>(words: seq<T>, size: nat, overlap: nat)
    requires overlap < size
    ensures Windows(words, size, overlap) == [] <==> words == []
  {
  }

  /** A blank body (empty or only white space) gives no chunks, and any other body gives some. */
  lemma BlankBodyNoChunks(header: string, body: string, size: nat, overlap: nat, start: nat)
    requires overlap < size
    ensures SectionChunks(header, body, size, overlap, start) == [] <==> AllSpace(body)
  {
    WordsEmpty(body);
    NoWordsNoWindows(Words(body), size, overlap);
  }

  /**
   * For more words than one window holds, the number of windows is the ceiling of
   * `(n - chunk_overlap) / (chunk_size - chunk_overlap)`.
   */
  lemma WindowCountFormula<T>(words: seq<T>, size: nat, overlap: nat)
    requires overlap < size && |words| > size
    ensures |Windows(words, size, overlap)| == (|words| - overlap + (size - overlap) - 1) / (size - overlap)
  {
    var stride := size - overlap;
    var last := |Windows(words, size, overlap)| - 1;
    WindowsFromAt(words, size, overlap, 0, last);
    assert last >= 1;
    WindowsFromAt(words, size, overlap, 0, last - 1);
    OffsetIsMultiple(last, stride);
    OffsetIsMultiple(last - 1, stride);
    CountArith(|words|, size, overlap, last);
  }

  /** The arithmetic of `WindowCountFormula`: the last window starts `last` strides in and reaches the end. */
  lemma CountArith(n: nat, size: nat, overlap: nat, last: nat)
    requires overlap < size && last >= 1
    requires (last - 1) * (size - overlap) + size < n <= last * (size - overlap) + size
    ensures (n - overlap + (size - overlap) - 1) / (size - overlap) == last + 1
  {
    var stride := size - overlap;
    assert last * stride == (last - 1) * stride + stride;
    assert (last + 1) * stride == last * stride + stride;
    assert (last + 2) * stride == last * stride + stride + stride;
    DivUnique(n - overlap + stride - 1, stride, last + 1);
  }

  /** `x / d == q` whenever `q * d <= x < (q + 1) * d`. */
  lemma DivUnique(x: int, d: nat, q: int)
    requires d > 0 && q * d <= x < (q + 1) * d
    ensures x / d == q
  {
    var q', r' := x / d, x % d;
    assert q' * d + r' == x;
    assert (q' - q) * d == q' * d - q * d;
    if q' - q >= 1 {
      MulAtLeast(q' - q, d);
    } else if q - q' >= 1 {
      assert (q - q') * d == q * d - q' * d;
      MulAtLeast(q - q', d);
    }
  }

  lemma MulAtLeast(a: int, d: nat)
    requires a >= 1
    ensures a * d >= d
  {
    assert a * d == (a - 1) * d + d;
    assert (a - 1) * d >= 0;
  }

  // ---------------------------------------------------------------------------
  // Reassembling the words from the windows
  // ---------------------------------------------------------------------------

  function Drop<T>(s: seq<T>, count: nat): seq<T> {
    if count <= |s| then s[count..] else []
  }

  /** Every window after the first, less its first `overlap` words, concatenated. */
  function Tails<T>(windows: seq<seq<T>>, overlap: nat): seq<T> {
    if windows == [] then [] else Drop(windows[0], overlap) + Tails(windows[1..], overlap)
  }

  /** Glue the windows back together: the first one whole, then the new words of each later one. */
  function Reassemble<T>(windows: seq<seq<T>>, overlap: nat): seq<T> {
    if windows == [] then [] else windows[0] + Tails(windows[1..], overlap)
  }

  /** A window that starts `overlap` words before the words still to be covered adds exactly those words. */
  lemma {:induction false} TailsFrom<T>(words: seq<T>, size: nat, overlap: nat, pos: nat)
    requires overlap < size && pos < |words| && pos + overlap <= |words|
    ensures Tails(WindowsFrom(words, size, overlap, pos), overlap) == words[pos + overlap..]
    decreases |words| - pos, 1
  {
    if pos + size >= |words| {
      TailsLast(words, size, overlap, pos);
    } else {
      TailsFromMore(words, size, overlap, pos);
    }
  }

  /** The step of `TailsFrom` for a window that does not reach the last word. */
  lemma {:induction false} TailsFromMore<T>(words: seq<T>, size: nat, overlap: nat, pos: nat)
    requires overlap < size && pos + size < |words|
    ensures Tails(WindowsFrom(words, size, overlap, pos), overlap) == words[pos + overlap..]
    decreases |words| - pos, 0
  {
    var end := pos + size;
    var next := pos + (size - overlap);
    TailsMore(words, size, overlap, pos, end, next);
    TailsFrom(words, size, overlap, next);
    assert next + overlap == end;
    SliceSplit(words, pos + overlap, end);
    Chain(Tails(WindowsFrom(words, size, overlap, pos), overlap), words[pos + overlap..end],
          Tails(WindowsFrom(words, size, overlap, next), overlap), words[end..], words[pos + overlap..]);
  }

  lemma Chain<T>(x: seq<T>, a: seq<T>, y: seq<T>, b: seq<T>, z: seq<T>)
    requires x == a + y && y == b && a + b == z
    ensures x == z
  {
  }

  lemma SliceSplit<T>(s: seq<T>, i: nat, j: nat)
    requires i <= j <= |s|
    ensures s[i..j] + s[j..] == s[i..]
  {
  }

  /** The window that reaches the last word adds the words after its overlap, and is the last one. */
  lemma TailsLast<T>(words: seq<T>, size: nat, overlap: nat, pos: nat)
    requires overlap < size && pos < |words| && pos + overlap <= |words| && pos + size >= |words|
    ensures Tails(WindowsFrom(words, size, overlap, pos), overlap) == words[pos + overlap..]
  {
    var ws := WindowsFrom(words, size, overlap, pos);
    assert Min(pos + size, |words|) == |words|;
    assert words[pos..|words|] == words[pos..];
    assert ws == [words[pos..]];
    assert Drop(ws[0], overlap) == words[pos + overlap..];
    assert ws[1..] == [];
    assert Tails(ws, overlap) == Drop(ws[0], overlap) + [];
  }

  /** Any other window adds the words after its overlap, and the windows after it add the rest. */
  lemma TailsMore<T>(words: seq<T>, size: nat, overlap: nat, pos: nat, end: nat, next: nat)
    requires overlap < size && end == pos + size && end < |words| && next == pos + (size - overlap)
    ensures Tails(WindowsFrom(words, size, overlap, pos), overlap) ==
      words[pos + overlap..end] + Tails(WindowsFrom(words, size, overlap, next), overlap)
  {
    var ws := WindowsFrom(words, size, overlap, pos);
    assert ws[0] == words[pos..end];
    assert Drop(ws[0], overlap) == words[pos + overlap..end];
    assert ws[1..] == WindowsFrom(words, size, overlap, next);
  }

  /**
   * Lossless round trip: the windows, with the first `chunk_overlap` words of every later window removed,
   * concatenate back to the section's words.
   */
  lemma ReassembleWindows<T>(words: seq<T>, size: nat, overlap: nat)
    requires overlap < size
    ensures Reassemble(Windows(words, size, overlap), overlap) == words
  {
    if words != [] {
      if size >= |words| {
        ReassembleOne(words, size, overlap);
      } else {
        ReassembleMore(words, size, overlap);
      }
    }
  }

  /** A section that fits in one window is that window. */
  lemma ReassembleOne<T>(words: seq<T>, size: nat, overlap: nat)
    requires overlap < size && 0 < |words| <= size
    ensures Reassemble(Windows(words, size, overlap), overlap) == words
  {
    var ws := Windows(words, size, overlap);
    assert ws == [words[0..|words|]];
    assert words[0..|words|] == words;
    assert ws[1..] == [];
  }

  /** A longer section: the first window, then the new words of the windows after it. */
  lemma ReassembleMore<T>(words: seq<T>, size: nat, overlap: nat)
    requires overlap < size < |words|
    ensures Reassemble(Windows(words, size, overlap), overlap) == words
  {
    var ws := Windows(words, size, overlap);
    var next := size - overlap;
    var rest := WindowsFrom(words, size, overlap, next);
    assert Reassemble(ws, overlap) == words[0..size] + Tails(rest, overlap) by {
      assert ws == [words[0..size]] + rest;
      assert ws[0] == words[0..size] && ws[1..] == rest;
    }
    TailsFrom(words, size, overlap, next);
    assert next + overlap == size;
    SliceSplit(words, 0, size);
    Chain(Reassemble(ws, overlap), words[0..size], Tails(rest, overlap), words[size..], words[0..]);
    assert words[0..] == words;
  }

  // ---------------------------------------------------------------------------
  // The text of a chunk
  // ---------------------------------------------------------------------------

  /**
   * The text of a chunk under a stripped header is the header, a blank line and the window's words
   * joined by single spaces (the final strip removes nothing), and splitting it gives back the header's
   * words followed by exactly the window.
   */
  lemma ChunkTextShape(header: string, window: seq<string>)
    requires IsStripped(header)
    requires |window| > 0 && forall k :: 0 <= k < |window| ==> IsWord(window[k])
    ensures ChunkText(header, window) == HeaderPrefix(header) + Join(window, " ")
    ensures ChunkText(header, window) != ""
    ensures Words(ChunkText(header, window)) == Words(header) + window
  {
    var j := Join(window, " ");
    JoinOfWordsStripped(window);
    WordsOfJoin(window);
    if header != "" {
      HeaderedText(header, j);
    } else {
      assert HeaderPrefix(header) + j == j;
    }
  }

  /** A stripped header, a blank line and stripped text: nothing to strip, and the words of both parts. */
  lemma HeaderedText(header: string, j: string)
    requires header != "" && IsStripped(header) && j != [] && IsStripped(j)
    ensures IsStripped(header + "\n\n" + j)
    ensures Words(header + "\n\n" + j) == Words(header) + Words(j)
  {
    var t := header + "\n\n" + j;
    assert t[0] == header[0];
    assert t[|t| - 1] == j[|j| - 1];
    assert t == header + ['\n'] + (['\n'] + j);
    WordsAround(header, '\n', ['\n'] + j);
    assert (['\n'] + j)[1..] == j;
  }

  /** The words of a body are words, so every window consists of words. */
  lemma WindowWords(words: seq<string>, size: nat, overlap: nat, k: nat)
    requires overlap < size && k < |Windows(words, size, overlap)|
    requires forall i :: 0 <= i < |words| ==> IsWord(words[i])
    ensures forall i :: 0 <= i < |Windows(words, size, overlap)[k]| ==> IsWord(Windows(words, size, overlap)[k][i])
  {
    WindowShape(words, size, overlap, k);
  }

  // ---------------------------------------------------------------------------
  // The loop as written, without a check on the configuration
  // ---------------------------------------------------------------------------

  /** `pos` after `k` turns of the loop at src/chunker.py:108-116, for any `chunk_size` and `chunk_overlap`. */
  function PosAsWritten(k: nat, size: int, overlap: int): int {
    if k == 0 then 0 else PosAsWritten(k - 1, size, overlap) + (size - overlap)
  }

  /**
   * With `chunk_overlap >= chunk_size` and more words than `chunk_size`, every turn of the loop as written
   * sees `pos < len(words)` and `end != len(words)`: it neither leaves by its condition nor breaks.
   */
  lemma {:induction false} StalledLoopNeverEnds(n: nat, size: int, overlap: int, k: nat)
    requires size <= overlap && 0 < n && size < n
    ensures PosAsWritten(k, size, overlap) <= 0
    ensures PosAsWritten(k, size, overlap) < n
    ensures Min(PosAsWritten(k, size, overlap) + size, n) != n
  {
    if k > 0 {
      StalledLoopNeverEnds(n, size, overlap, k - 1);
    }
  }
}
