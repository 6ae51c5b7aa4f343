/** The line framer inside the connect thread's read loop.

    `ReadStep` and `Feed` model the loop as written: a chunk without a newline
    is appended to the pending buffer; otherwise the text before the FIRST
    newline closes one record and everything after it is thrown away.
    `FrameChunk` is the framer the loop evidently intends,
    which splits at every newline and carries the tail over. */
module Framer {
  import opened Wrappers

  const Delimiter: char := '\n'

  /** Java's String.indexOf(char): the first position of `c` in `s`, or -1. */
  function IndexOf(s: string, c: char): (r: int)
    ensures -1 <= r < |s|
    ensures r == -1 <==> c !in s
    ensures r >= 0 ==> s[r] == c && forall k :: 0 <= k < r ==> s[k] != c
  {
    IndexFrom(s, c, 0)
  }

  /** The scan behind `IndexOf`, from position `from` on. */
  function IndexFrom(s: string, c: char, from: nat): (r: int)
    requires from <= |s|
    requires forall k :: 0 <= k < from ==> s[k] != c
    ensures r == -1 || from <= r < |s|
    ensures r == -1 ==> forall k :: 0 <= k < |s| ==> s[k] != c
    ensures r >= 0 ==> s[r] == c && forall k :: 0 <= k < r ==> s[k] != c
    decreases |s| - from
  {
    if from == |s| then -1
    else if s[from] == c then from
    else IndexFrom(s, c, from + 1)
  }

  /** The first occurrence is the only position with the IndexOf property. */
  lemma IndexOfIs(s: string, c: char, i: int)
    requires 0 <= i < |s| && s[i] == c && forall k :: 0 <= k < i ==> s[k] != c
    ensures IndexOf(s, c) == i
  {
    assert s[i] in s;
  }

  /** An occurrence in the first part of a concatenation is found there. */
  lemma IndexOfAppend(x: string, y: string, c: char)
    requires c in x
    ensures IndexOf(x + y, c) == IndexOf(x, c)
  {
    var i := IndexOf(x, c);
    IndexOfIs(x + y, c, i);
  }

  // ---------------------------------------------------------------------
  // The read loop as written
  // ---------------------------------------------------------------------

  /** What one pass of the read loop leaves behind: the pending buffer (the
      StringBuilder) and the record handed to the handler, if any. */
  datatype Step = Step(pending: string, record: Option<string>)

  /** `i` is the position of the first newline of `chunk`. */
  predicate FirstDelimiterAt(chunk: string, i: int)
  {
    0 <= i < |chunk| && chunk[i] == Delimiter && forall k :: 0 <= k < i ==> chunk[k] != Delimiter
  }

  /** One chunk through the read loop. */
  function ReadStep(pending: string, chunk: string): (r: Step)
    ensures Delimiter !in chunk ==> r.pending == pending + chunk && r.record == None
    ensures Delimiter in chunk ==>
      && r.pending == []
      && r.record.Some?
      && exists i :: FirstDelimiterAt(chunk, i) && r.record.value == pending + chunk[..i]
    ensures Delimiter !in pending ==>
      Delimiter !in r.pending && (r.record.Some? ==> Delimiter !in r.record.value)
  {
    var i := IndexOf(chunk, Delimiter);
    if i == -1 then Step(pending + chunk, None)
    else
      var record := if i > 0 then pending + chunk[..i] else pending;
      assert chunk[..0] == [];
      Step([], Some(record))
  }

  /** A chunk that starts with a newline emits the pending text unchanged,
      the empty string included. */
  lemma LeadingDelimiterEmitsPending(pending: string, chunk: string)
    requires |chunk| > 0 && chunk[0] == Delimiter
    ensures ReadStep(pending, chunk) == Step([], Some(pending))
  {
    IndexOfIs(chunk, Delimiter, 0);
  }

  /** Whatever follows the first newline of a chunk has no influence on the
      step: it is lost. */
  lemma TextAfterFirstDelimiterIsLost(pending: string, head: string, tail: string)
    requires Delimiter !in head
    ensures ReadStep(pending, head + [Delimiter] + tail) == Step([], Some(pending + head))
  {
    var chunk := head + [Delimiter] + tail;
    assert chunk[|head|] == Delimiter;
    assert chunk[..|head|] == head;
    IndexOfIs(chunk, Delimiter, |head|);
  }

  /** Result of folding the read loop over several chunks. */
  datatype Framed = Framed(pending: string, records: seq<string>)

  /** The number of chunks that contain a newline. */
  function DelimitedChunks(chunks: seq<string>): (n: nat)
    ensures n <= |chunks|
  {
    if |chunks| == 0 then 0
    else DelimitedChunks(chunks[..|chunks| - 1]) + (if Delimiter in chunks[|chunks| - 1] then 1 else 0)
  }

  /** The records a step hands over: none or one. */
  function Emitted(s: Step): (records: seq<string>)
    ensures |records| <= 1
  {
    if s.record.Some? then [s.record.value] else []
  }

  /** Which framer the read loop runs: the loop as written, or the framer
      it evidently intends (below). */
  datatype Framing = AsWritten | Intended

  /** One chunk through the chosen framer: the records it closes and the
      text it keeps pending. */
  function FrameWith(framing: Framing, pending: string, chunk: string): (r: Framed)
    ensures framing == AsWritten ==> |r.records| == if Delimiter in chunk then 1 else 0
    ensures Delimiter !in pending ==>
      Delimiter !in r.pending && forall k :: 0 <= k < |r.records| ==> Delimiter !in r.records[k]
  {
    match framing
    case AsWritten =>
      var s := ReadStep(pending, chunk);
      Framed(s.pending, Emitted(s))
    case Intended =>
      FrameChunkLosesNothing(pending, chunk);
      FrameChunk(pending, chunk)
  }

  /** The records the read loop hands to the handler for a chunk sequence,
      in order, and the pending text left after the last chunk. */
  function Feed(framing: Framing, pending: string, chunks: seq<string>): (r: Framed)
    ensures framing == AsWritten ==> |r.records| == DelimitedChunks(chunks)
    ensures Delimiter !in pending ==>
      Delimiter !in r.pending && forall k :: 0 <= k < |r.records| ==> Delimiter !in r.records[k]
  {
    if |chunks| == 0 then Framed(pending, [])
    else
      var before := Feed(framing, pending, chunks[..|chunks| - 1]);
      var f := FrameWith(framing, before.pending, chunks[|chunks| - 1]);
      Framed(f.pending, before.records + f.records)
  }

  /** One poll of the read loop on the decoded `data`: the builder is
      extended, or closed into a record and cleared. */
  method Poll(builder: string, data: string) returns (next: string, record: Option<string>)
    ensures Step(next, record) == ReadStep(builder, data)
  {
    var delimiterIndex := IndexOf(data, Delimiter);
    if delimiterIndex == -1 {
      next, record := builder + data, None;
    } else {
      next := builder;
      if delimiterIndex > 0 {
        next := next + data[..delimiterIndex];
      }
      record := Some(next);
      next := [];
    }
  }

  /** The read loop itself: polls chunk after chunk, keeps the builder and
      collects the records it sends to the handler. */
  method ReadLoop(chunks: seq<string>) returns (records: seq<string>, pending: string)
    ensures Framed(pending, records) == Feed(AsWritten, [], chunks)
    ensures |records| <= |chunks|
    ensures forall k :: 0 <= k < |records| ==> Delimiter !in records[k]
  {
    records, pending := [], [];
    var i := 0;
    while i < |chunks|
      invariant 0 <= i <= |chunks|
      invariant Framed(pending, records) == Feed(AsWritten, [], chunks[..i])
    {
      ghost var before := records;
      var record;
      pending, record := Poll(pending, chunks[i]);
      if record.Some? {
        records := records + [record.value];
      }
      assert records == before + Emitted(Step(pending, record));
      FeedPrefix(AsWritten, [], chunks, i);
      i := i + 1;
    }
    assert chunks[..i] == chunks;
  }

  /** `Feed` over one more chunk of a sequence, unfolded once. */
  lemma FeedPrefix(framing: Framing, pending: string, chunks: seq<string>, i: int)
    requires 0 <= i < |chunks|
    ensures Feed(framing, pending, chunks[..i + 1]) ==
            var before := Feed(framing, pending, chunks[..i]);
            var f := FrameWith(framing, before.pending, chunks[i]);
            Framed(f.pending, before.records + f.records)
  {
    assert chunks[..i + 1][..i] == chunks[..i];
  }

  /** Feeding one chunk: the record of that step, if any. */
  lemma FeedOne(pending: string, chunk: string)
    ensures Feed(AsWritten, pending, [chunk]) ==
            var s := ReadStep(pending, chunk);
            Framed(s.pending, Emitted(s))
  {
    assert [chunk][..0] == [];
  }

  /** Two chunks that each carry a newline yield exactly the two texts before
      those newlines; the tails, whatever they hold, are lost. */
  lemma TailsAreLost(h1: string, t1: string, h2: string, t2: string)
    requires Delimiter !in h1 && Delimiter !in h2
    ensures Feed(AsWritten, [], [h1 + [Delimiter] + t1, h2 + [Delimiter] + t2]) == Framed([], [h1, h2])
  {
    var c1, c2 := h1 + [Delimiter] + t1, h2 + [Delimiter] + t2;
    TextAfterFirstDelimiterIsLost([], h1, t1);
    TextAfterFirstDelimiterIsLost([], h2, t2);
    assert [] + h1 == h1 && [] + h2 == h2;
    var chunks := [c1, c2];
    assert chunks[..1] == [c1];
    FeedOne([], c1);
    assert Feed(AsWritten, [], chunks) == Framed([], [h1] + [h2]);
  }

  /** Whole-chunk loss: one chunk carrying two lines yields one record, where
      the same bytes split after each newline yield two. */
  lemma ChunkingChangesRecords()
    ensures Feed(AsWritten, [], ["A\nB\n"]).records == ["A"]
    ensures Feed(AsWritten, [], ["A\n", "B\n"]).records == ["A", "B"]
  {
    assert "A\nB\n" == "A" + [Delimiter] + "B\n";
    TextAfterFirstDelimiterIsLost([], "A", "B\n");
    assert [] + "A" == "A";
    FeedOne([], "A\nB\n");
    assert "A\n" == "A" + [Delimiter] + "";
    assert "B\n" == "B" + [Delimiter] + "";
    TailsAreLost("A", "", "B", "");
  }

  /** The two-chunk stream "HELLO\nWO" then "RLD\n": the read loop hands over
      "HELLO" and "RLD"; the "WO" after the first newline is lost. */
  lemma HelloWorldAsWritten()
    ensures Feed(AsWritten, [], ["HELLO\nWO", "RLD\n"]) == Framed([], ["HELLO", "RLD"])
  {
    assert "HELLO\nWO" == "HELLO" + [Delimiter] + "WO";
    assert "RLD\n" == "RLD" + [Delimiter] + "";
    TailsAreLost("HELLO", "WO", "RLD", "");
  }

  // ---------------------------------------------------------------------
  // The framer the loop evidently intends: every newline closes a record
  // ---------------------------------------------------------------------

  /** The pieces of `s` between newlines; the last piece is the unterminated tail. */
  function SplitLines(s: string): (lines: seq<string>)
    ensures |lines| >= 1
    decreases |s|
  {
    if |s| == 0 then [[]]
    else
      var rest := SplitLines(s[1..]);
      if s[0] == Delimiter then [[]] + rest
      else [[s[0]] + rest[0]] + rest[1..]
  }

  /** No piece of a split holds a newline. */
  lemma {:induction false} SplitLinesHaveNoDelimiter(s: string)
    ensures forall k :: 0 <= k < |SplitLines(s)| ==> Delimiter !in SplitLines(s)[k]
    decreases |s|
  {
    if |s| > 0 {
      var rest := SplitLines(s[1..]);
      SplitLinesHaveNoDelimiter(s[1..]);
      if s[0] != Delimiter {
        var l := SplitLines(s);
        forall k | 0 <= k < |l|
          ensures Delimiter !in l[k]
        {
          if k == 0 {
            assert l[0] == [s[0]] + rest[0];
          } else {
            assert l[k] == rest[k];
          }
        }
      }
    }
  }

  /** A text without newlines is a single piece. */
  lemma {:induction false} SplitWithoutDelimiter(a: string)
    requires Delimiter !in a
    ensures SplitLines(a) == [a]
    decreases |a|
  {
    if |a| > 0 {
      assert a[0] in a;
      assert Delimiter !in a[1..] by {
        forall k | 0 <= k < |a[1..]|
          ensures a[1..][k] != Delimiter
        {
          assert a[1..][k] == a[k + 1];
        }
      }
      SplitWithoutDelimiter(a[1..]);
      assert [a[0]] + a[1..] == a;
    }
  }

  /** A newline-free line followed by a newline is split off as one piece. */
  lemma {:induction false} SplitTerminated(a: string, b: string)
    requires Delimiter !in a
    ensures SplitLines(a + [Delimiter] + b) == [a] + SplitLines(b)
    decreases |a|
  {
    var s := a + [Delimiter] + b;
    if |a| == 0 {
      assert s[1..] == b;
    } else {
      assert a[0] in a;
      assert s[0] == a[0];
      assert s[1..] == a[1..] + [Delimiter] + b;
      assert Delimiter !in a[1..] by {
        forall k | 0 <= k < |a[1..]|
          ensures a[1..][k] != Delimiter
        {
          assert a[1..][k] == a[k + 1];
        }
      }
      SplitTerminated(a[1..], b);
      assert [a[0]] + a[1..] == a;
    }
  }

  /** Lines glued back with a newline between neighbours. */
  function JoinLines(lines: seq<string>): string
    requires |lines| >= 1
  {
    if |lines| == 1 then lines[0] else lines[0] + [Delimiter] + JoinLines(lines[1..])
  }

  /** Joining a first line and the rest, unfolded once. */
  lemma JoinLinesCons(h: string, t: seq<string>)
    ensures JoinLines([h] + t) == if |t| == 0 then h else h + [Delimiter] + JoinLines(t)
  {
    assert ([h] + t)[1..] == t;
  }

  /** Joining, after a character was put in front of the first line. */
  lemma JoinLinesConsHead(c: char, h: string, t: seq<string>)
    ensures JoinLines([[c] + h] + t) == [c] + JoinLines([h] + t)
  {
    JoinLinesCons(h, t);
    JoinLinesCons([c] + h, t);
    if |t| > 0 {
      var j := JoinLines(t);
      assert ([c] + h) + [Delimiter] + j == [c] + (h + [Delimiter] + j);
    }
  }

  /** Splitting loses nothing: joining the pieces gives the text back. */
  lemma {:induction false} JoinSplit(s: string)
    ensures JoinLines(SplitLines(s)) == s
    decreases |s|
  {
    if |s| > 0 {
      var rest := SplitLines(s[1..]);
      JoinSplit(s[1..]);
      if s[0] == Delimiter {
        var l := [[]] + rest;
        assert l[1..] == rest;
        assert JoinLines(l) == [] + [Delimiter] + s[1..];
      } else {
        assert rest == [rest[0]] + rest[1..];
        JoinLinesConsHead(s[0], rest[0], rest[1..]);
      }
      assert [s[0]] + s[1..] == s;
    }
  }

  /** Splitting undoes joining lines that hold no newline. */
  lemma {:induction false} SplitJoin(lines: seq<string>)
    requires |lines| >= 1
    requires forall k :: 0 <= k < |lines| ==> Delimiter !in lines[k]
    ensures SplitLines(JoinLines(lines)) == lines
    decreases |lines|
  {
    if |lines| == 1 {
      SplitWithoutDelimiter(lines[0]);
    } else {
      var tail := lines[1..];
      assert forall k :: 0 <= k < |tail| ==> tail[k] == lines[k + 1];
      SplitJoin(tail);
      SplitTerminated(lines[0], JoinLines(tail));
      assert lines == [lines[0]] + tail;
    }
  }

  /** Splitting a concatenation: the finished lines of the first part, then
      the split of its tail followed by the second part. */
  lemma {:induction false} SplitAppend(x: string, y: string)
    ensures SplitAppends(x, y)
    decreases |x|
  {
    if |x| == 0 {
      assert x + y == y;
      assert SplitLines(x)[..0] == [];
      assert [] + SplitLines(y) == SplitLines(y);
    } else {
      SplitAppend(x[1..], y);
      if x[0] == Delimiter {
        SplitAppendAfterDelimiter(x, y);
      } else if |SplitLines(x[1..])| > 1 {
        SplitAppendBeforeDelimiter(x, y);
      } else {
        SplitAppendWithoutDelimiter(x, y);
      }
    }
  }

  /** The statement of `SplitAppend` for one pair of texts. */
  predicate SplitAppends(x: string, y: string)
  {
    var lx := SplitLines(x);
    SplitLines(x + y) == lx[..|lx| - 1] + SplitLines(lx[|lx| - 1] + y)
  }

  /** The step of `SplitAppend` when `x` starts with a newline. */
  lemma SplitAppendAfterDelimiter(x: string, y: string)
    requires |x| > 0 && x[0] == Delimiter && SplitAppends(x[1..], y)
    ensures SplitAppends(x, y)
  {
    var xy := x + y;
    assert xy[0] == x[0] && xy[1..] == x[1..] + y;
    var l' := SplitLines(x[1..]);
    var t := SplitLines(l'[|l'| - 1] + y);
    assert SplitLines(xy) == [[]] + SplitLines(x[1..] + y);
    LastParts([[]], l', SplitLines(x));
    assert [[]] + (l'[..|l'| - 1] + t) == ([[]] + l'[..|l'| - 1]) + t;
  }

  /** The step of `SplitAppend` when `x` starts with a character of a line
      that `x` itself finishes. */
  lemma SplitAppendBeforeDelimiter(x: string, y: string)
    requires |x| > 0 && x[0] != Delimiter && SplitAppends(x[1..], y)
    requires |SplitLines(x[1..])| > 1
    ensures SplitAppends(x, y)
  {
    var xy := x + y;
    assert xy[0] == x[0] && xy[1..] == x[1..] + y;
    var l' := SplitLines(x[1..]);
    var t := SplitLines(l'[|l'| - 1] + y);
    var r := SplitLines(x[1..] + y);
    assert SplitLines(xy) == [[x[0]] + r[0]] + r[1..];
    MergeHead([x[0]], l'[..|l'| - 1], t, r, l', SplitLines(x));
  }

  /** The step of `SplitAppend` when `x` holds no newline at all. */
  lemma SplitAppendWithoutDelimiter(x: string, y: string)
    requires |x| > 0 && x[0] != Delimiter
    requires |SplitLines(x[1..])| == 1
    ensures SplitAppends(x, y)
  {
    var l' := SplitLines(x[1..]);
    JoinSplit(x[1..]);
    assert l' == [x[1..]];
    assert [x[0]] + x[1..] == x;
    var lx := SplitLines(x);
    assert lx == [x];
    assert lx[..|lx| - 1] == [];
    assert [] + SplitLines(x + y) == SplitLines(x + y);
  }

  /** Sequence bookkeeping for `SplitAppend` when a character is put in
      front of a split whose first line is finished. */
  lemma MergeHead(h: string, p: seq<string>, t: seq<string>, r: seq<string>, l: seq<string>, l2: seq<string>)
    requires |p| > 0 && r == p + t && |l| >= 1 && p == l[..|l| - 1]
    requires l2 == [h + l[0]] + l[1..]
    ensures |l2| >= 1 && l2[|l2| - 1] == l[|l| - 1]
    ensures [h + r[0]] + r[1..] == l2[..|l2| - 1] + t
  {
    assert r[0] == l[0];
    assert r[1..] == p[1..] + t;
    assert l2[..|l2| - 1] == [h + l[0]] + p[1..];
  }

  /** One chunk through the intended framer: every completed line becomes a
      record, the unterminated tail stays pending. */
  function FrameChunk(pending: string, chunk: string): Framed
  {
    var lines := SplitLines(pending + chunk);
    Framed(lines[|lines| - 1], lines[..|lines| - 1])
  }

  /** The intended framer drops nothing: records and pending tail, joined with
      newlines, are exactly the input; and no record or tail holds a newline. */
  lemma FrameChunkLosesNothing(pending: string, chunk: string)
    ensures var r := FrameChunk(pending, chunk);
            JoinLines(r.records + [r.pending]) == pending + chunk
    ensures Delimiter !in FrameChunk(pending, chunk).pending
    ensures forall k :: 0 <= k < |FrameChunk(pending, chunk).records| ==>
              Delimiter !in FrameChunk(pending, chunk).records[k]
  {
    var lines := SplitLines(pending + chunk);
    FrameChunkIs(pending, chunk, lines);
    JoinSplit(pending + chunk);
    SplitLinesHaveNoDelimiter(pending + chunk);
    assert lines == lines[..|lines| - 1] + [lines[|lines| - 1]];
  }

  /** All chunks glued together, in order. */
  function Concat(chunks: seq<string>): (text: string)
    ensures |chunks| > 0 ==>
      |chunks[|chunks| - 1]| <= |text| && text[|text| - |chunks[|chunks| - 1]|..] == chunks[|chunks| - 1]
  {
    if |chunks| == 0 then [] else Concat(chunks[..|chunks| - 1]) + chunks[|chunks| - 1]
  }

  /** Framing a chunk made of two parts is framing the parts one after the other. */
  lemma FrameChunkAppend(pending: string, c: string, y: string)
    ensures var s := FrameChunk(pending, c);
            var r := FrameChunk(s.pending, y);
            FrameChunk(pending, c + y) == Framed(r.pending, s.records + r.records)
  {
    var x := pending + c;
    var lx := SplitLines(x);
    var m := SplitLines(lx[|lx| - 1] + y);
    var l := SplitLines(pending + (c + y));
    assert l == lx[..|lx| - 1] + m by {
      SplitAppend(x, y);
      assert pending + (c + y) == x + y;
    }
    LastParts(lx[..|lx| - 1], m, l);
    FrameChunkIs(pending, c, lx);
    FrameChunkIs(lx[|lx| - 1], y, m);
    FrameChunkIs(pending, c + y, l);
  }

  /** `FrameChunk` spelled out for a given split. */
  lemma FrameChunkIs(pending: string, chunk: string, lines: seq<string>)
    requires lines == SplitLines(pending + chunk)
    ensures FrameChunk(pending, chunk) == Framed(lines[|lines| - 1], lines[..|lines| - 1])
  {
  }

  /** Where `l` is `a + b`, the last of `l` is the last of `b`, and what
      precedes it in `l` is `a` followed by what precedes it in `b`. */
  lemma LastParts(a: seq<string>, b: seq<string>, l: seq<string>)
    requires |b| >= 1 && l == a + b
    ensures l[|l| - 1] == b[|b| - 1]
    ensures l[..|l| - 1] == a + b[..|b| - 1]
  {
  }

  /** Chunking invariance: the intended framer yields the same records and
      the same pending tail however the stream is cut into chunks. */
  lemma {:induction false} ChunkingInvariant(pending: string, chunks: seq<string>)
    requires Delimiter !in pending
    ensures Feed(Intended, pending, chunks) == FrameChunk(pending, Concat(chunks))
    decreases |chunks|
  {
    if |chunks| == 0 {
      assert pending + [] == pending;
      SplitWithoutDelimiter(pending);
    } else {
      var init := chunks[..|chunks| - 1];
      ChunkingInvariant(pending, init);
      FrameChunkAppend(pending, Concat(init), chunks[|chunks| - 1]);
    }
  }

  /** `Concat` of two chunks is their concatenation. */
  lemma ConcatTwo(c1: string, c2: string)
    ensures Concat([c1, c2]) == c1 + c2
  {
    var chunks := [c1, c2];
    assert chunks[..1] == [c1];
    assert [c1][..0] == [];
    assert Concat([c1]) == Concat([]) + c1;
    assert [] + c1 == c1;
    assert Concat(chunks) == Concat([c1]) + c2;
  }

  /** Joining two lines and an empty tail ends the text with a newline. */
  lemma JoinTwoTerminated(x: string, y: string)
    ensures JoinLines([x, y, []]) == x + [Delimiter] + (y + [Delimiter])
  {
    var lines: seq<string> := [x, y, []];
    var tail: seq<string> := [y, []];
    assert lines[1..] == tail;
    assert tail[1..] == [[]];
    assert JoinLines(tail) == y + [Delimiter] + JoinLines([[]]);
    assert y + [Delimiter] + [] == y + [Delimiter];
    assert JoinLines(lines) == x + [Delimiter] + JoinLines(tail);
  }

  /** Two newline-free lines, each terminated, split back into the lines and
      an empty tail. */
  lemma SplitTwoTerminated(x: string, y: string)
    requires Delimiter !in x && Delimiter !in y
    ensures SplitLines(x + [Delimiter] + (y + [Delimiter])) == [x, y, []]
  {
    var lines: seq<string> := [x, y, []];
    JoinTwoTerminated(x, y);
    SplitJoin(lines);
  }

  /** Regrouping the text of two chunks around the line that straddles them. */
  lemma Regroup(a: string, b1: string, b2: string)
    ensures (a + [Delimiter] + b1) + (b2 + [Delimiter]) == a + [Delimiter] + ((b1 + b2) + [Delimiter])
  {
  }

  /** The intended framer joins a line that straddles two chunks. */
  lemma LineAcrossChunks(a: string, b1: string, b2: string)
    requires Delimiter !in a && Delimiter !in b1 && Delimiter !in b2
    ensures Feed(Intended, [], [a + [Delimiter] + b1, b2 + [Delimiter]]) == Framed([], [a, b1 + b2])
  {
    var c1, c2 := a + [Delimiter] + b1, b2 + [Delimiter];
    ChunkingInvariant([], [c1, c2]);
    ConcatTwo(c1, c2);
    Regroup(a, b1, b2);
    assert Delimiter !in b1 + b2;
    SplitTwoTerminated(a, b1 + b2);
    assert [] + (c1 + c2) == c1 + c2;
    FrameChunkIs([], c1 + c2, [a, b1 + b2, []]);
  }

  /** The stream "HELLO\nWO" then "RLD\n" framed as intended: nothing is lost. */
  lemma HelloWorldIntended()
    ensures Feed(Intended, [], ["HELLO\nWO", "RLD\n"]) == Framed([], ["HELLO", "WORLD"])
  {
    assert "HELLO\nWO" == "HELLO" + [Delimiter] + "WO";
    assert "RLD\n" == "RLD" + [Delimiter];
    assert "WO" + "RLD" == "WORLD";
    LineAcrossChunks("HELLO", "WO", "RLD");
  }
}
