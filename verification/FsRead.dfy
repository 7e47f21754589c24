/** Chunked file reading (tools/fs_read_mcp.py).

    `fs_read` returns as many whole lines as fit a character budget and the offset
    of the next call; `fs_stat` predicts how many calls a file takes.  This module
    proves that following the offsets reads the whole file, that the prediction is
    exact whenever the default budget is not negative, and that no other division
    into such chunks needs fewer calls. */
module FsRead {
  // ----- lines -----

  predicate IsBreak(c: char) {
    c in ['\n', '\r', '\U{0B}', '\U{0C}', '\U{1C}', '\U{1D}', '\U{1E}', '\U{85}', '\U{2028}', '\U{2029}']
  }

  /** The length of the first line, its terminator included; "\r\n" is one terminator. */
  function FirstLine(text: string): (n: nat)
    requires text != []
    ensures 0 < n <= |text|
  {
    if text[0] == '\r' && |text| > 1 && text[1] == '\n' then 2
    else if IsBreak(text[0]) || |text| == 1 then 1
    else 1 + FirstLine(text[1..])
  }

  /** The first line ends at the first terminator, and "\r\n" is not cut in two. */
  lemma {:induction false} FirstLineEnds(text: string)
    requires text != []
    ensures
      var n := FirstLine(text);
      && (n == |text| || IsBreak(text[n - 1]))
      && (forall i :: 0 <= i < n - 1 && IsBreak(text[i]) ==> i == n - 2 && text[i] == '\r' && text[n - 1] == '\n')
      && (text[n - 1] == '\r' && n < |text| ==> text[n] != '\n')
  {
    if !IsBreak(text[0]) && |text| > 1 {
      FirstLineEnds(text[1..]);
    }
  }

  /** `text.splitlines(keepends=True)`. */
  function SplitLines(text: string): seq<string> {
    if text == [] then []
    else [text[..FirstLine(text)]] + SplitLines(text[FirstLine(text)..])
  }

  function Join(lines: seq<string>): string {
    if lines == [] then [] else lines[0] + Join(lines[1..])
  }

  predicate NoEmptyLine(lines: seq<string>) { forall i :: 0 <= i < |lines| ==> lines[i] != [] }

  /** Splitting loses nothing and never yields an empty line. */
  lemma {:induction false} SplitIsExact(text: string)
    ensures Join(SplitLines(text)) == text && NoEmptyLine(SplitLines(text))
  {
    if text != [] {
      SplitIsExact(text[FirstLine(text)..]);
    }
  }

  /** The characters of lines from..to. */
  function Chars(lines: seq<string>, from: nat, to: nat): nat
    requires from <= to <= |lines|
  {
    if from == to then 0 else Chars(lines, from, to - 1) + |lines[to - 1]|
  }

  lemma {:induction false} CharsSplit(lines: seq<string>, from: nat, mid: nat, to: nat)
    requires from <= mid <= to <= |lines|
    ensures Chars(lines, from, to) == Chars(lines, from, mid) + Chars(lines, mid, to)
  {
    if mid < to {
      CharsSplit(lines, from, mid, to - 1);
    }
  }

  lemma {:induction false} CharsPositive(lines: seq<string>, from: nat, to: nat)
    requires NoEmptyLine(lines) && from < to <= |lines|
    ensures Chars(lines, from, to) > 0
  {
    if from < to - 1 {
      CharsPositive(lines, from, to - 1);
    }
  }

  lemma {:induction false} JoinLength(lines: seq<string>, n: nat)
    requires n <= |lines|
    ensures |Join(lines[..n])| == Chars(lines, 0, n)
  {
    if n > 0 {
      JoinLength(lines, n - 1);
      assert lines[..n] == lines[..n - 1] + [lines[n - 1]];
      JoinAppend(lines[..n - 1], [lines[n - 1]]);
    }
  }

  lemma {:induction false} JoinAppend(a: seq<string>, b: seq<string>)
    ensures Join(a + b) == Join(a) + Join(b)
  {
    if a == [] {
      assert a + b == b;
    } else {
      JoinAppend(a[1..], b);
      assert (a + b)[1..] == a[1..] + b;
    }
  }

  /** The character range a chunk reports selects exactly its body from the file. */
  lemma RangeSelectsBody(text: string, from: nat, to: nat)
    requires from <= to <= |SplitLines(text)|
    ensures
      var lines := SplitLines(text);
      && Chars(lines, 0, from) <= Chars(lines, 0, to) <= |text|
      && text[Chars(lines, 0, from)..Chars(lines, 0, to)] == Join(lines[from..to])
  {
    var lines := SplitLines(text);
    SplitIsExact(text);
    JoinLength(lines, from);
    JoinLength(lines, to);
    CharsSplit(lines, 0, from, to);
    assert lines == lines[..to] + lines[to..] && lines[..to] == lines[..from] + lines[from..to];
    JoinAppend(lines[..to], lines[to..]);
    JoinAppend(lines[..from], lines[from..to]);
    MiddlePart(Join(lines[..from]), Join(lines[from..to]), Join(lines[to..]));
  }

  lemma MiddlePart(a: string, b: string, c: string)
    ensures (a + b + c)[|a|..|a + b|] == b
  {}

  method CharOffsets(lines: seq<string>) returns (offsets: seq<nat>)
    ensures |offsets| == |lines| + 1
    ensures forall i :: 0 <= i <= |lines| ==> offsets[i] == Chars(lines, 0, i)
  {
    offsets := [0];
    var total := 0;
    for i := 0 to |lines|
      invariant |offsets| == i + 1 && total == Chars(lines, 0, i)
      invariant forall j :: 0 <= j <= i ==> offsets[j] == Chars(lines, 0, j)
    {
      total := total + |lines[i]|;
      offsets := offsets + [total];
    }
  }

  // ----- one chunk -----

  /** A chunk is admissible when it is a single line or within the budget; a
      negative budget is no budget. */
  predicate Fits(lines: seq<string>, budget: int, from: nat, to: nat)
    requires from <= to <= |lines|
  {
    to == from + 1 || budget < 0 || Chars(lines, from, to) <= budget
  }

  /** The chunk fs_read returns: admissible, and no longer one would be. */
  ghost predicate LongestChunk(lines: seq<string>, budget: int, from: nat, stop: nat, to: nat) {
    && from < to <= stop <= |lines|
    && Fits(lines, budget, from, to)
    && forall e :: to < e <= stop ==> !Fits(lines, budget, from, e)
  }

  datatype ReadResult =
    | OffsetError
    | LimitError
    | PastEnd(totalChars: nat)
    | Chunk(first: nat, last: nat, charFrom: nat, charTo: nat, totalChars: nat, body: string, more: bool, next: nat)

  function Budget(defaultMax: int, maxChars: int): int { if maxChars == 0 then defaultMax else maxChars }

  function Stop(lines: seq<string>, offset: int, limit: int): int {
    if limit == 0 || offset - 1 + limit > |lines| then |lines| else offset - 1 + limit
  }

  method Read(lines: seq<string>, offset: int, limit: int, maxChars: int, defaultMax: int)
    returns (r: ReadResult)
    ensures r.OffsetError? <==> offset < 1
    ensures r.LimitError? <==> offset >= 1 && limit < 0
    ensures r.PastEnd? <==> offset >= 1 && limit >= 0 && offset > |lines|
    ensures r.PastEnd? ==> r.totalChars == Chars(lines, 0, |lines|)
    ensures
      r.Chunk? ==>
        && r.first == offset
        && LongestChunk(lines, Budget(defaultMax, maxChars), offset - 1, Stop(lines, offset, limit), r.last)
        && r.charFrom == Chars(lines, 0, offset - 1) && r.charTo == Chars(lines, 0, r.last)
        && r.totalChars == Chars(lines, 0, |lines|)
        && r.body == Join(lines[offset - 1..r.last])
        && (r.more <==> r.last < |lines|) && r.next == r.last + 1
  {
    var totalLines := |lines|;
    var offsets := CharOffsets(lines);
    var totalChars := offsets[totalLines];
    if offset < 1 {
      return OffsetError;
    }
    if limit < 0 {
      return LimitError;
    }
    var start := offset - 1;
    if start >= totalLines {
      return PastEnd(totalChars);
    }
    var stop := if limit == 0 || start + limit > totalLines then totalLines else start + limit;
    var budget := if maxChars == 0 then defaultMax else maxChars;
    var end := start;
    var used := 0;
    while end < stop
      invariant start <= end <= stop
      invariant used == Chars(lines, start, end)
      invariant end > start ==> Fits(lines, budget, start, end)
    {
      var length := |lines[end]|;
      if budget >= 0 && end > start && used + length > budget {
        break;
      }
      used := used + length;
      end := end + 1;
    }
    forall e | end < e <= stop
      ensures !Fits(lines, budget, start, e)
    {
      CharsSplit(lines, start, end + 1, e);
    }
    r := Chunk(start + 1, end, offsets[start], offsets[end], totalChars, Join(lines[start..end]),
               end < totalLines, end + 1);
  }

  /** A call may end with line e: past the offset, within the limit if there is one, and
      within the budget given, or the default one, if it is not negative. */
  predicate MayEnd(lines: seq<string>, offset: int, limit: int, maxChars: int, defaultMax: int, e: int)
    requires offset >= 1
  {
    && offset <= e <= |lines| && (limit > 0 ==> e < offset + limit)
    && (|| e == offset || maxChars < 0 || (maxChars == 0 && defaultMax < 0)
        || (maxChars > 0 && Chars(lines, offset - 1, e) <= maxChars)
        || (maxChars == 0 && Chars(lines, offset - 1, e) <= defaultMax))
  }

  /** A call ends with the last line it may end with. */
  lemma ReadEndsLast(lines: seq<string>, offset: int, limit: int, maxChars: int, defaultMax: int, last: nat)
    requires 1 <= offset <= |lines| && limit >= 0
    ensures
      LongestChunk(lines, Budget(defaultMax, maxChars), offset - 1, Stop(lines, offset, limit), last)
      <==> && MayEnd(lines, offset, limit, maxChars, defaultMax, last)
           && forall e :: MayEnd(lines, offset, limit, maxChars, defaultMax, e) ==> e <= last
  {
    var (budget, from, stop) := (Budget(defaultMax, maxChars), offset - 1, Stop(lines, offset, limit));
    if LongestChunk(lines, budget, from, stop, last) {
      EndIs(lines, offset, limit, maxChars, defaultMax, last);
      forall e | MayEnd(lines, offset, limit, maxChars, defaultMax, e)
        ensures e <= last
      {
        EndIs(lines, offset, limit, maxChars, defaultMax, e);
      }
    }
    if MayEnd(lines, offset, limit, maxChars, defaultMax, last)
       && forall e :: MayEnd(lines, offset, limit, maxChars, defaultMax, e) ==> e <= last {
      EndIs(lines, offset, limit, maxChars, defaultMax, last);
      forall e | last < e <= stop
        ensures !Fits(lines, budget, from, e)
      {
        EndIs(lines, offset, limit, maxChars, defaultMax, e);
      }
    }
  }

  lemma EndIs(lines: seq<string>, offset: int, limit: int, maxChars: int, defaultMax: int, e: int)
    requires 1 <= offset <= |lines| && limit >= 0
    ensures
      MayEnd(lines, offset, limit, maxChars, defaultMax, e)
      <==> offset <= e <= Stop(lines, offset, limit) && Fits(lines, Budget(defaultMax, maxChars), offset - 1, e)
  {}

  // ----- following the offsets -----

  /** The end of the longest admissible chunk, found by trying lengths upwards. */
  function Extend(lines: seq<string>, budget: int, from: nat, to: nat): (end: nat)
    requires from < to <= |lines|
    ensures to <= end <= |lines|
    decreases |lines| - to
  {
    if to < |lines| && Fits(lines, budget, from, to + 1) then Extend(lines, budget, from, to + 1) else to
  }

  function ChunkEnd(lines: seq<string>, budget: int, from: nat): (end: nat)
    requires from < |lines|
    ensures from < end <= |lines|
  {
    Extend(lines, budget, from, from + 1)
  }

  lemma {:induction false} ExtendIsLongest(lines: seq<string>, budget: int, from: nat, to: nat)
    requires from < to <= |lines| && Fits(lines, budget, from, to)
    ensures LongestChunk(lines, budget, from, |lines|, Extend(lines, budget, from, to))
    decreases |lines| - to
  {
    if to < |lines| && Fits(lines, budget, from, to + 1) {
      ExtendIsLongest(lines, budget, from, to + 1);
    } else {
      forall e | to < e <= |lines|
        ensures !Fits(lines, budget, from, e)
      {
        CharsSplit(lines, from, to + 1, e);
      }
    }
  }

  /** A read with no limit ends exactly where `ChunkEnd` says. */
  lemma ReadEndsAtChunkEnd(lines: seq<string>, budget: int, from: nat, to: nat)
    requires from < |lines|
    ensures LongestChunk(lines, budget, from, |lines|, to) <==> to == ChunkEnd(lines, budget, from)
  {
    ExtendIsLongest(lines, budget, from, from + 1);
  }

  /** The bodies returned by following `next` from a line on, up to "more: no". */
  function Bodies(lines: seq<string>, budget: int, from: nat): seq<string>
    requires from <= |lines|
    decreases |lines| - from
  {
    if from == |lines| then []
    else
      var end := ChunkEnd(lines, budget, from);
      [Join(lines[from..end])] + Bodies(lines, budget, end)
  }

  /** The reads that takes; an empty file takes the one that reports its end. */
  function Calls(lines: seq<string>, budget: int): nat {
    if lines == [] then 1 else |Bodies(lines, budget, 0)|
  }

  /** Following the offsets from line 1 terminates and returns the whole file. */
  lemma {:induction false} BodiesAreTheFile(lines: seq<string>, budget: int, from: nat)
    requires from <= |lines|
    ensures Join(Bodies(lines, budget, from)) == Join(lines[from..])
    decreases |lines| - from
  {
    if from < |lines| {
      var end := ChunkEnd(lines, budget, from);
      BodiesAreTheFile(lines, budget, end);
      JoinAppend(lines[from..end], lines[end..]);
      assert lines[from..] == lines[from..end] + lines[end..];
    }
  }

  lemma ReadingReturnsTheText(text: string, budget: int)
    ensures Join(Bodies(SplitLines(text), budget, 0)) == text
  {
    SplitIsExact(text);
    BodiesAreTheFile(SplitLines(text), budget, 0);
    assert SplitLines(text)[0..] == SplitLines(text);
  }

  // ----- no division into admissible chunks is shorter -----

  /** A division of lines cuts[0].. of the file into admissible chunks. */
  ghost predicate Division(lines: seq<string>, budget: int, cuts: seq<nat>) {
    && |cuts| > 0 && cuts[|cuts| - 1] == |lines|
    && (forall i :: 0 <= i < |cuts| ==> cuts[i] <= |lines|)
    && forall i :: 0 <= i < |cuts| - 1 ==> cuts[i] < cuts[i + 1] && Fits(lines, budget, cuts[i], cuts[i + 1])
  }

  lemma LaterStartReachesFarther(lines: seq<string>, budget: int, s: nat, t: nat)
    requires s <= t < |lines|
    ensures ChunkEnd(lines, budget, s) <= ChunkEnd(lines, budget, t)
  {
    var e := ChunkEnd(lines, budget, s);
    ReadEndsAtChunkEnd(lines, budget, s, e);
    ReadEndsAtChunkEnd(lines, budget, t, ChunkEnd(lines, budget, t));
    if t < e {
      CharsSplit(lines, s, t, e);
      assert Fits(lines, budget, t, e);
    }
  }

  lemma {:induction false} GreedyIsOptimal(lines: seq<string>, budget: int, from: nat, cuts: seq<nat>)
    requires Division(lines, budget, cuts) && cuts[0] <= from <= |lines|
    ensures |Bodies(lines, budget, from)| <= |cuts| - 1
    decreases |cuts|
  {
    if from < |lines| {
      var end := ChunkEnd(lines, budget, from);
      LaterStartReachesFarther(lines, budget, cuts[0], from);
      assert Fits(lines, budget, cuts[0], cuts[1]);
      ReadEndsAtChunkEnd(lines, budget, cuts[0], ChunkEnd(lines, budget, cuts[0]));
      GreedyIsOptimal(lines, budget, end, cuts[1..]);
    }
  }

  /** No division of a non-empty file into admissible whole-line chunks has fewer
      chunks than fs_read takes calls. */
  lemma NoFewerChunks(lines: seq<string>, budget: int, cuts: seq<nat>)
    requires lines != [] && Division(lines, budget, cuts) && cuts[0] == 0
    ensures Calls(lines, budget) <= |cuts| - 1
  {
    GreedyIsOptimal(lines, budget, 0, cuts);
  }

  // ----- the prediction of fs_stat -----

  /** What fs_stat's loop adds up from line i on, with `used` characters in the open chunk. */
  function Counted(lines: seq<string>, max: int, i: nat, used: nat): nat
    requires i <= |lines|
    decreases |lines| - i
  {
    if i == |lines| then (if used > 0 || lines == [] then 1 else 0)
    else if used > 0 && used + |lines[i]| > max then 1 + Counted(lines, max, i + 1, |lines[i]|)
    else Counted(lines, max, i + 1, used + |lines[i]|)
  }

  method StatChunks(lines: seq<string>, defaultMax: int) returns (chunks: nat)
    ensures chunks == Counted(lines, defaultMax, 0, 0)
  {
    chunks := 0;
    var used: nat := 0;
    for i := 0 to |lines|
      invariant chunks + Counted(lines, defaultMax, i, used) == Counted(lines, defaultMax, 0, 0)
    {
      if used > 0 && used + |lines[i]| > defaultMax {
        chunks := chunks + 1;
        used := 0;
      }
      used := used + |lines[i]|;
    }
    if used > 0 || lines == [] {
      chunks := chunks + 1;
    }
  }

  lemma {:induction false} CountedFromChunk(lines: seq<string>, max: int, from: nat, i: nat)
    requires max >= 0 && NoEmptyLine(lines)
    requires from < |lines| && from < i <= ChunkEnd(lines, max, from)
    requires Extend(lines, max, from, i) == ChunkEnd(lines, max, from)
    ensures Counted(lines, max, i, Chars(lines, from, i)) == |Bodies(lines, max, from)|
    decreases |lines| - i
  {
    CharsPositive(lines, from, i);
    if i < |lines| {
      assert Chars(lines, from, i + 1) == Chars(lines, from, i) + |lines[i]|;
      if Fits(lines, max, from, i + 1) {
        CountedFromChunk(lines, max, from, i + 1);
      } else {
        assert Chars(lines, i, i + 1) == |lines[i]|;
        CountedFromChunk(lines, max, i, i + 1);
      }
    }
  }

  lemma {:induction false} CountedPerLine(lines: seq<string>, max: int, i: nat, used: nat)
    requires max < 0 && NoEmptyLine(lines) && i <= |lines| && used > 0
    ensures Counted(lines, max, i, used) == |lines| - i + 1
    decreases |lines| - i
  {
    if i < |lines| {
      CountedPerLine(lines, max, i + 1, |lines[i]|);
    }
  }

  /** fs_stat is exact for every file if and only if the default budget is not
      negative: a negative default makes fs_read return the file at once while
      fs_stat counts one chunk per line. */
  lemma PredictionIsExact(lines: seq<string>, defaultMax: int)
    requires NoEmptyLine(lines)
    ensures
      Counted(lines, defaultMax, 0, 0) == Calls(lines, defaultMax)
      <==> defaultMax >= 0 || |lines| <= 1
  {
    if lines != [] {
      assert Counted(lines, defaultMax, 0, 0) == Counted(lines, defaultMax, 1, |lines[0]|);
      assert Chars(lines, 0, 1) == |lines[0]|;
      if defaultMax >= 0 {
        CountedFromChunk(lines, defaultMax, 0, 1);
      } else {
        CountedPerLine(lines, defaultMax, 1, |lines[0]|);
        ReadEndsAtChunkEnd(lines, defaultMax, 0, |lines|);
        assert Bodies(lines, defaultMax, |lines|) == [];
      }
    }
  }
}
