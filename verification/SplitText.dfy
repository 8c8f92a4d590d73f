/** Splitting a message into chunks for channels with a maximum length, preferably at newlines. */
module SplitText {
  type Unit = n: int | 0 <= n < 0x10000
  type Text = seq<Unit>

  const NEWLINE: Unit := 10

  /** What `trimStart` removes: white space and line terminators. */
  predicate IsSpace(u: Unit)
  {
    || 9 <= u <= 13 || u == 32 || u == 0xA0 || u == 0x1680 || 0x2000 <= u <= 0x200A
    || u == 0x2028 || u == 0x2029 || u == 0x202F || u == 0x205F || u == 0x3000 || u == 0xFEFF
  }

  /** The white space and line terminators of ECMAScript, one by one. */
  const WHITE_SPACE: set<int> :=
    {0x09, 0x0A, 0x0B, 0x0C, 0x0D, 0x20, 0xA0, 0x1680,
     0x2000, 0x2001, 0x2002, 0x2003, 0x2004, 0x2005, 0x2006, 0x2007, 0x2008, 0x2009, 0x200A,
     0x2028, 0x2029, 0x202F, 0x205F, 0x3000, 0xFEFF}

  lemma SpacesAreListed(u: Unit)
    ensures IsSpace(u) <==> u in WHITE_SPACE
    ensures NEWLINE == '\n' as int
  {
  }

  predicate AllSpace(t: Text)
  {
    forall i :: 0 <= i < |t| ==> IsSpace(t[i])
  }

  /** lastIndexOf(unit, from): the last position no later than `from`, or -1. */
  function LastIndexOf(t: Text, u: Unit, from: int): (i: int)
    ensures -1 <= i < |t| && i <= (if from < 0 then -1 else from)
    ensures i >= 0 ==> t[i] == u
    ensures forall k :: i < k <= from && 0 <= k < |t| ==> t[k] != u
    decreases from
  {
    if from < 0 then -1
    else if from < |t| && t[from] == u then from
    else LastIndexOf(t, u, from - 1)
  }

  function TrimStart(t: Text): (r: Text)
    ensures |r| <= |t|
  {
    if t != [] && IsSpace(t[0]) then TrimStart(t[1..]) else t
  }

  /** What trimming removes. */
  function Trimmed(t: Text): Text
  {
    if t != [] && IsSpace(t[0]) then [t[0]] + Trimmed(t[1..]) else []
  }

  lemma {:induction false} TrimStartSplits(t: Text)
    ensures t == Trimmed(t) + TrimStart(t) && AllSpace(Trimmed(t))
    ensures TrimStart(t) != [] ==> !IsSpace(TrimStart(t)[0])
    decreases |t|
  {
    if t != [] && IsSpace(t[0]) {
      TrimStartSplits(t[1..]);
      assert t == [t[0]] + t[1..];
    }
  }

  /** Where the first chunk of a non-empty text ends. */
  function SplitPoint(t: Text, maxLen: nat): (p: nat)
    requires maxLen > 0
    ensures p <= maxLen
    ensures if exists k :: 0 <= k <= maxLen && k < |t| && t[k] == NEWLINE
            then p < |t| && t[p] == NEWLINE && forall k :: p < k <= maxLen && k < |t| ==> t[k] != NEWLINE
            else p == maxLen
  {
    var i := LastIndexOf(t, NEWLINE, maxLen);
    if i < 0 then maxLen else i
  }

  /** slice(0, end) and slice(start), which stop at the end of the text. */
  function Head(t: Text, end: nat): Text { if end <= |t| then t[..end] else t }
  function Tail(t: Text, start: nat): Text { if start <= |t| then t[start..] else [] }

  function Remaining(t: Text, maxLen: nat): Text
    requires maxLen > 0
  {
    TrimStart(Tail(t, SplitPoint(t, maxLen)))
  }

  /** Every step makes the remaining text shorter, even when the split point is 0: then the text starts
      with the newline, which is trimmed. */
  lemma RemainingShrinks(t: Text, maxLen: nat)
    requires maxLen > 0 && t != []
    ensures |Remaining(t, maxLen)| < |t|
  {
    var p := SplitPoint(t, maxLen);
    if p == 0 {
      assert Tail(t, 0) == t && TrimStart(t) == TrimStart(t[1..]);
    }
  }

  /** The chunks of a text that is too long. */
  function Chunks(t: Text, maxLen: nat): seq<Text>
    requires maxLen > 0
    decreases |t|
  {
    if t == [] then []
    else
      RemainingShrinks(t, maxLen);
      [Head(t, SplitPoint(t, maxLen))] + Chunks(Remaining(t, maxLen), maxLen)
  }

  function Split(text: Text, maxLen: int): seq<Text>
  {
    if maxLen <= 0 || |text| <= maxLen then [text] else Chunks(text, maxLen)
  }

  lemma NextChunk(t: Text, maxLen: nat)
    requires maxLen > 0 && t != []
    ensures |Remaining(t, maxLen)| < |t|
    ensures Chunks(t, maxLen) == [Head(t, SplitPoint(t, maxLen))] + Chunks(Remaining(t, maxLen), maxLen)
  {
    RemainingShrinks(t, maxLen);
  }

  method SplitText(text: Text, maxLen: int) returns (chunks: seq<Text>)
    ensures chunks == Split(text, maxLen)
  {
    if maxLen <= 0 {
      return [text];
    }
    if |text| <= maxLen {
      return [text];
    }
    chunks := [];
    var remaining := text;
    while |remaining| > 0
      invariant chunks + Chunks(remaining, maxLen) == Chunks(text, maxLen)
      decreases |remaining|
    {
      var splitAt := LastIndexOf(remaining, NEWLINE, maxLen);
      if splitAt < 0 {
        splitAt := maxLen;
      }
      NextChunk(remaining, maxLen);
      chunks := chunks + [Head(remaining, splitAt)];
      remaining := TrimStart(Tail(remaining, splitAt));
    }
  }

  // ---------------------------------------------------------------------------------------------
  // Only white space is lost
  // ---------------------------------------------------------------------------------------------

  /** chunk0 + gap0 + chunk1 + gap1 + ... */
  function Interleave(chunks: seq<Text>, gaps: seq<Text>): Text
    requires |gaps| == |chunks|
  {
    if chunks == [] then [] else chunks[0] + gaps[0] + Interleave(chunks[1..], gaps[1..])
  }

  /** The white space trimmed after each chunk. */
  function Gaps(t: Text, maxLen: nat): seq<Text>
    requires maxLen > 0
    decreases |t|
  {
    if t == [] then []
    else
      RemainingShrinks(t, maxLen);
      [Trimmed(Tail(t, SplitPoint(t, maxLen)))] + Gaps(Remaining(t, maxLen), maxLen)
  }

  lemma {:induction false} GapsAreSpace(t: Text, maxLen: nat)
    requires maxLen > 0
    ensures |Gaps(t, maxLen)| == |Chunks(t, maxLen)|
    ensures forall i :: 0 <= i < |Gaps(t, maxLen)| ==> AllSpace(Gaps(t, maxLen)[i])
    decreases |t|
  {
    if t != [] {
      NextChunk(t, maxLen);
      GapsAreSpace(Remaining(t, maxLen), maxLen);
      TrimStartSplits(Tail(t, SplitPoint(t, maxLen)));
    }
  }

  lemma FirstPieces(t: Text, maxLen: nat)
    requires maxLen > 0
    ensures var p := SplitPoint(t, maxLen); t == Head(t, p) + Trimmed(Tail(t, p)) + Remaining(t, maxLen)
  {
    var p := SplitPoint(t, maxLen);
    TrimStartSplits(Tail(t, p));
    assert t == Head(t, p) + Tail(t, p);
  }

  lemma InterleaveFirst(chunk: Text, gap: Text, chunks: seq<Text>, gaps: seq<Text>)
    requires |chunks| == |gaps|
    ensures Interleave([chunk] + chunks, [gap] + gaps) == chunk + gap + Interleave(chunks, gaps)
  {
    assert ([chunk] + chunks)[1..] == chunks && ([gap] + gaps)[1..] == gaps;
  }

  lemma {:induction false} ChunksRebuildText(t: Text, maxLen: nat)
    requires maxLen > 0
    ensures |Gaps(t, maxLen)| == |Chunks(t, maxLen)|
    ensures Interleave(Chunks(t, maxLen), Gaps(t, maxLen)) == t
    decreases |t|
  {
    GapsAreSpace(t, maxLen);
    if t != [] {
      NextChunk(t, maxLen);
      var p, rest := SplitPoint(t, maxLen), Remaining(t, maxLen);
      ChunksRebuildText(rest, maxLen);
      FirstPieces(t, maxLen);
      InterleaveFirst(Head(t, p), Trimmed(Tail(t, p)), Chunks(rest, maxLen), Gaps(rest, maxLen));
    }
  }

  lemma {:induction false} ChunksFit(t: Text, maxLen: nat)
    requires maxLen > 0
    ensures forall i :: 0 <= i < |Chunks(t, maxLen)| ==> |Chunks(t, maxLen)[i]| <= maxLen
    decreases |t|
  {
    if t != [] {
      NextChunk(t, maxLen);
      ChunksFit(Remaining(t, maxLen), maxLen);
    }
  }

  /** A chunk of a text that does not start with white space is not empty. */
  lemma {:induction false} ChunksNonEmpty(t: Text, maxLen: nat)
    requires maxLen > 0 && (t != [] ==> !IsSpace(t[0]))
    ensures forall i :: 0 <= i < |Chunks(t, maxLen)| ==> Chunks(t, maxLen)[i] != []
    decreases |t|
  {
    if t != [] {
      NextChunk(t, maxLen);
      TrimStartSplits(Tail(t, SplitPoint(t, maxLen)));
      ChunksNonEmpty(Remaining(t, maxLen), maxLen);
    }
  }

  /** Splitting loses only white space between chunks; with a positive limit every chunk fits it, and
      only the first chunk can be empty. */
  lemma SplitLosesOnlySpace(text: Text, maxLen: int)
    ensures Split(text, maxLen) == [text] ||
            (exists gaps: seq<Text> :: |gaps| == |Split(text, maxLen)| && (forall i :: 0 <= i < |gaps| ==> AllSpace(gaps[i])) &&
                                       text == Interleave(Split(text, maxLen), gaps))
    ensures maxLen > 0 ==> forall i :: 0 <= i < |Split(text, maxLen)| ==> |Split(text, maxLen)[i]| <= maxLen
    ensures forall i :: 0 < i < |Split(text, maxLen)| ==> Split(text, maxLen)[i] != []
  {
    if maxLen > 0 && |text| > maxLen {
      ChunksRebuildText(text, maxLen);
      GapsAreSpace(text, maxLen);
      ChunksFit(text, maxLen);
      NextChunk(text, maxLen);
      TrimStartSplits(Tail(text, SplitPoint(text, maxLen)));
      ChunksNonEmpty(Remaining(text, maxLen), maxLen);
    }
  }

  /** Every chunk ends right before the last newline within reach of its start, and has the full length
      only when no newline is within reach; `rest` is the text from the chunk's start on. */
  ghost predicate EndsAtNewline(chunk: Text, rest: Text, maxLen: nat)
  {
    var n := |chunk|;
    && chunk <= rest
    && if exists k :: 0 <= k <= maxLen && k < |rest| && rest[k] == NEWLINE
       then n < |rest| && rest[n] == NEWLINE && forall k :: n < k <= maxLen && k < |rest| ==> rest[k] != NEWLINE
       else n == if maxLen <= |rest| then maxLen else |rest|
  }

  /** The text that is left before chunk `i` is cut off. */
  function RestAt(t: Text, maxLen: nat, i: nat): Text
    requires maxLen > 0
    decreases i
  {
    if i == 0 || t == [] then t else RestAt(Remaining(t, maxLen), maxLen, i - 1)
  }

  lemma {:induction false} ChunksEndAtNewlines(t: Text, maxLen: nat, i: nat)
    requires maxLen > 0 && i < |Chunks(t, maxLen)|
    ensures EndsAtNewline(Chunks(t, maxLen)[i], RestAt(t, maxLen, i), maxLen)
    decreases i
  {
    NextChunk(t, maxLen);
    if i > 0 {
      ChunksEndAtNewlines(Remaining(t, maxLen), maxLen, i - 1);
    }
  }

  /** The first chunk is empty exactly when the text's only newline within reach is its first character. */
  lemma FirstChunkEmptyExactly(text: Text, maxLen: nat)
    requires 0 < maxLen < |text|
    ensures Split(text, maxLen)[0] == [] <==>
            text[0] == NEWLINE && forall k :: 0 < k <= maxLen ==> text[k] != NEWLINE
  {
    var i := LastIndexOf(text, NEWLINE, maxLen);
    if text[0] == NEWLINE {
      assert i >= 0;
    }
  }
}
