/** The overlapping sentence chunker, `chunk_text` of `app/rag/retriever.py`. */
module Chunking {
  import opened Collections

  /** `" ".join(buf)` */
  function Join(buf: seq<string>): string {
    if buf == [] then "" else if |buf| == 1 then buf[0] else Join(buf[..|buf| - 1]) + " " + buf[|buf| - 1]
  }

  /** `s.strip()`, for any set of white-space characters. */
  function Strip(space: set<char>, s: string): string {
    if s != "" && s[0] in space then Strip(space, s[1..])
    else if s != "" && s[|s| - 1] in space then Strip(space, s[..|s| - 1])
    else s
  }

  /** White space goes at both ends, and nothing else. */
  lemma {:induction false} StripExact(space: set<char>, s: string) returns (a: string, b: string)
    ensures s == a + Strip(space, s) + b
    ensures (forall i :: 0 <= i < |a| ==> a[i] in space) && (forall i :: 0 <= i < |b| ==> b[i] in space)
    ensures var t := Strip(space, s); t == "" || Trimmed(space, t)
    decreases |s|
  {
    a, b := "", "";
    if s != "" && s[0] in space {
      a, b := StripExact(space, s[1..]);
      a := [s[0]] + a;
    } else if s != "" && s[|s| - 1] in space {
      a, b := StripExact(space, s[..|s| - 1]);
      b := b + [s[|s| - 1]];
    }
  }

  /** What `_split_sentences` delivers: stripped and not empty. */
  predicate Trimmed(space: set<char>, s: string) {
    s != "" && s[0] !in space && s[|s| - 1] !in space
  }

  lemma {:induction false} JoinTrimmed(space: set<char>, buf: seq<string>)
    requires buf != [] && forall i :: 0 <= i < |buf| ==> Trimmed(space, buf[i])
    ensures Trimmed(space, Join(buf))
  {
    if |buf| > 1 {
      JoinTrimmed(space, buf[..|buf| - 1]);
    }
  }

  /** Where sentence `i` begins in the joined text. */
  function Offset(buf: seq<string>, i: nat): nat
    requires i <= |buf|
  {
    if i == 0 then 0 else Offset(buf, i - 1) + |buf[i - 1]| + 1
  }

  lemma {:induction false} OffsetsAgree(buf: seq<string>, i: nat)
    requires buf != [] && i <= |buf| - 1
    ensures Offset(buf[..|buf| - 1], i) == Offset(buf, i)
  {
    if i > 0 {
      OffsetsAgree(buf, i - 1);
    }
  }

  lemma {:induction false} JoinLength(buf: seq<string>)
    requires buf != []
    ensures |Join(buf)| + 1 == Offset(buf, |buf|)
  {
    var n := |buf| - 1;
    if n > 0 {
      JoinLength(buf[..n]);
      OffsetsAgree(buf, n);
    }
  }

  /** Sentence `i` stands at its place, with a space after it unless it is the last. */
  ghost predicate Stands(buf: seq<string>, t: string, i: nat)
    requires i < |buf|
  {
    var a := Offset(buf, i);
    var e := a + |buf[i]|;
    e <= |t| && t[a..e] == buf[i] && (if i + 1 < |buf| then e < |t| && t[e] == ' ' else e == |t|)
  }

  /** Every sentence stands in the joined text, in order, with one space between two. */
  lemma {:induction false} JoinExact(buf: seq<string>, i: nat)
    requires i < |buf|
    ensures Stands(buf, Join(buf), i)
  {
    var n := |buf| - 1;
    if n > 0 {
      JoinLength(buf[..n]);
      OffsetsAgree(buf, n);
      OffsetsAgree(buf, if i < n then i else n);
      if i < n {
        JoinExact(buf[..n], i);
        StandsStill(buf, Join(buf[..n]), i);
      }
    }
  }

  /** Appending a space and the last sentence moves nothing. */
  lemma StandsStill(buf: seq<string>, t: string, i: nat)
    requires i + 1 < |buf| && Stands(buf[..|buf| - 1], t, i)
    requires Offset(buf[..|buf| - 1], i) == Offset(buf, i)
    ensures Stands(buf, t + " " + buf[|buf| - 1], i)
  {
    hide Offset;
    var u := t + " " + buf[|buf| - 1];
    assert u[..|t|] == t && u[|t|] == ' ';
    var a := Offset(buf, i);
    assert u[a..a + |buf[i]|] == t[a..a + |buf[i]|];
  }

  // ---- Spans ------------------------------------------------------------------------------

  /** A chunk holds the sentences `start .. end - 1`. */
  datatype Span = Span(start: nat, end: nat)

  function Sum(ws: seq<nat>, i: nat, j: nat): nat
    requires i <= j <= |ws|
  {
    if i == j then 0 else Sum(ws, i, j - 1) + ws[j - 1]
  }

  /** The inner loop from `end`, with `words` words in the buffer. */
  function Grow(ws: seq<nat>, max: int, end: nat, words: nat): nat
    requires end <= |ws|
    decreases |ws| - end
  {
    if end < |ws| && words + ws[end] <= max then Grow(ws, max, end + 1, words + ws[end]) else end
  }

  function Spans(ws: seq<nat>, max: int, overlap: int, start: nat): seq<Span>
    requires start < |ws|
    decreases |ws| - start
  {
    var end := Grow(ws, max, start + 1, ws[start]);
    [Span(start, end)] +
    if end >= |ws| then []
    else
      var next := NextStart(overlap, start, end);
      if next < |ws| then Spans(ws, max, overlap, next) else []
  }

  /** The chunk fits or is a single sentence, and no further sentence would have fitted. */
  predicate Greedy(ws: seq<nat>, max: int, s: Span) {
    && s.start < s.end <= |ws|
    && (Sum(ws, s.start, s.end) <= max || s.end == s.start + 1)
    && (s.end == |ws| || Sum(ws, s.start, s.end + 1) > max)
  }

  /** How a chunk follows the one before it. */
  predicate Follows(overlap: nat, a: Span, b: Span) {
    a.start < b.start <= a.end <= b.end && a.end - b.start == Min(overlap, a.end - a.start - 1)
  }

  lemma {:induction false} GrowExact(ws: seq<nat>, max: int, start: nat, end: nat)
    requires start < end <= |ws| && (Sum(ws, start, end) <= max || end == start + 1)
    ensures var e := Grow(ws, max, end, Sum(ws, start, end));
            end <= e <= |ws| && Greedy(ws, max, Span(start, e))
    decreases |ws| - end
  {
    if end < |ws| && Sum(ws, start, end) + ws[end] <= max {
      GrowExact(ws, max, start, end + 1);
    }
  }

  lemma {:induction false} SumSplit(ws: seq<nat>, i: nat, j: nat, k: nat)
    requires i <= j <= k <= |ws|
    ensures Sum(ws, i, k) == Sum(ws, i, j) + Sum(ws, j, k)
  {
    if j < k {
      SumSplit(ws, i, j, k - 1);
    }
  }

  /** A later greedy start never ends earlier. */
  lemma EndsMonotone(ws: seq<nat>, max: int, a: Span, b: Span)
    requires Greedy(ws, max, a) && Greedy(ws, max, b) && a.start < b.start <= a.end
    ensures a.end <= b.end
  {
    if b.end < a.end {
      SumSplit(ws, a.start, b.start, a.end);
      SumSplit(ws, b.start, b.end + 1, a.end);
      assert false;
    }
  }

  /** Where the chunk after `start .. end - 1` begins. */
  function NextStart(overlap: int, start: nat, end: nat): (next: nat)
    ensures next > start
  {
    if end - overlap > start + 1 then end - overlap else start + 1
  }

  lemma FirstChunk(ws: seq<nat>, max: int, start: nat)
    requires start < |ws|
    ensures Greedy(ws, max, Span(start, Grow(ws, max, start + 1, ws[start])))
  {
    assert Sum(ws, start, start) == 0;
    GrowExact(ws, max, start, start + 1);
  }

  lemma ChunkFollows(ws: seq<nat>, max: int, overlap: nat, a: Span, b: Span)
    requires Greedy(ws, max, a) && Greedy(ws, max, b) && b.start == NextStart(overlap, a.start, a.end)
    ensures Follows(overlap, a, b)
  {
    EndsMonotone(ws, max, a, b);
  }

  ghost predicate Chained(ws: seq<nat>, max: int, overlap: nat, sp: seq<Span>) {
    && (forall i :: 0 <= i < |sp| ==> Greedy(ws, max, sp[i]))
    && (forall i :: 0 <= i < |sp| - 1 ==> Follows(overlap, sp[i], sp[i + 1]))
  }

  lemma Prepend(ws: seq<nat>, max: int, overlap: nat, a: Span, rest: seq<Span>)
    requires Greedy(ws, max, a) && Chained(ws, max, overlap, rest)
    requires rest != [] ==> Follows(overlap, a, rest[0])
    ensures Chained(ws, max, overlap, [a] + rest)
  {
    hide Greedy, Follows;
    var sp := [a] + rest;
    forall i | 0 <= i < |sp| ensures Greedy(ws, max, sp[i]) {
      assert i > 0 ==> sp[i] == rest[i - 1];
    }
    forall i | 0 <= i < |sp| - 1 ensures Follows(overlap, sp[i], sp[i + 1]) {
      if i > 0 {
        assert sp[i] == rest[i - 1] && sp[i + 1] == rest[i - 1 + 1];
      }
    }
  }

  /** Everything the spans promise: they begin at the first sentence, end at the last, each is
      greedily maximal, and each follows its predecessor without a gap, sharing exactly
      `min(overlap, length - 1)` sentences; there are no more of them than sentences. */
  lemma {:induction false} SpansExact(ws: seq<nat>, max: int, overlap: nat, start: nat)
    requires start < |ws|
    ensures var sp := Spans(ws, max, overlap, start);
            && sp != [] && sp[0].start == start && sp[|sp| - 1].end == |ws|
            && |sp| <= |ws| - start
            && Chained(ws, max, overlap, sp)
    decreases |ws| - start
  {
    hide Grow, Chained, Follows;
    FirstChunk(ws, max, start);
    var a := Span(start, Grow(ws, max, start + 1, ws[start]));
    var rest: seq<Span> := [];
    NothingChained(ws, max, overlap);
    if a.end < |ws| {
      var next := NextStart(overlap, start, a.end);
      SpansExact(ws, max, overlap, next);
      rest := Spans(ws, max, overlap, next);
      FirstGreedy(ws, max, overlap, rest);
      ChunkFollows(ws, max, overlap, a, rest[0]);
    }
    Prepend(ws, max, overlap, a, rest);
  }

  lemma NothingChained(ws: seq<nat>, max: int, overlap: nat)
    ensures Chained(ws, max, overlap, [])
  {
  }

  lemma FirstGreedy(ws: seq<nat>, max: int, overlap: nat, sp: seq<Span>)
    requires sp != [] && Chained(ws, max, overlap, sp)
    ensures Greedy(ws, max, sp[0])
  {
    hide Greedy, Follows;
  }

  predicate Inside(sp: seq<Span>, n: nat) {
    forall i :: 0 <= i < |sp| ==> sp[i].start <= sp[i].end <= n
  }

  /** The sentences each chunk adds to what came before, put together. */
  function NewSentences(sentences: seq<string>, sp: seq<Span>, n: nat): seq<string>
    requires n <= |sp|
    requires Inside(sp, |sentences|)
    requires forall i :: 0 <= i < |sp| - 1 ==> sp[i].end <= sp[i + 1].end
  {
    if n == 0 then []
    else if n == 1 then sentences[sp[0].start..sp[0].end]
    else
      assert sp[n - 2].end <= sp[n - 2 + 1].end;
      NewSentences(sentences, sp, n - 1) + sentences[sp[n - 2].end..sp[n - 1].end]
  }

  lemma ChainedBounds(ws: seq<nat>, max: int, overlap: nat, sp: seq<Span>)
    requires Chained(ws, max, overlap, sp)
    ensures Inside(sp, |ws|) && forall i :: 0 <= i < |sp| - 1 ==> sp[i].end <= sp[i + 1].end
  {
    assert forall i :: 0 <= i < |sp| ==> Greedy(ws, max, sp[i]);
    assert forall i :: 0 <= i < |sp| - 1 ==> Follows(overlap, sp[i], sp[i + 1]);
  }

  /** No sentence is lost, repeated or reordered: the added sentences rebuild the list. */
  lemma {:induction false} Rebuilds(sentences: seq<string>, ws: seq<nat>, max: int, overlap: nat, n: nat)
    requires |ws| == |sentences| > 0
    ensures var sp := Spans(ws, max, overlap, 0);
            && Inside(sp, |sentences|)
            && (forall i :: 0 <= i < |sp| - 1 ==> sp[i].end <= sp[i + 1].end)
            && (1 <= n <= |sp| ==> NewSentences(sentences, sp, n) == sentences[..sp[n - 1].end])
            && NewSentences(sentences, sp, |sp|) == sentences
  {
    hide Spans, NewSentences, Inside;
    SpansExact(ws, max, overlap, 0);
    var sp := Spans(ws, max, overlap, 0);
    ChainedBounds(ws, max, overlap, sp);
    hide Chained;
    if n <= |sp| {
      RebuildsPrefix(sentences, sp, n);
    }
    RebuildsPrefix(sentences, sp, |sp|);
    assert sentences[..|sentences|] == sentences;
  }

  lemma {:induction false} RebuildsPrefix(sentences: seq<string>, sp: seq<Span>, n: nat)
    requires n <= |sp| && (sp != [] ==> sp[0].start == 0)
    requires Inside(sp, |sentences|)
    requires forall i :: 0 <= i < |sp| - 1 ==> sp[i].end <= sp[i + 1].end
    ensures n > 0 ==> NewSentences(sentences, sp, n) == sentences[..sp[n - 1].end]
  {
    if n > 1 {
      RebuildsPrefix(sentences, sp, n - 1);
      assert sp[n - 2].end <= sp[n - 2 + 1].end;
    }
  }

  /** A chunk can add no sentence at all: exactly when the overlap leaves too little room for
      the next one. */
  lemma AddsNothingIff(ws: seq<nat>, max: int, overlap: nat, a: Span, b: Span)
    requires Greedy(ws, max, a) && Greedy(ws, max, b) && Follows(overlap, a, b) && a.end < |ws|
    ensures b.end == a.end <==> b.start < a.end && Sum(ws, b.start, a.end + 1) > max
  {
    if b.end > a.end && b.start < a.end {
      SumSplit(ws, b.start, a.end + 1, b.end);
    }
  }

  // ---- The loops --------------------------------------------------------------------------------

  /** `max(1, len(s.split()))` for each sentence. */
  function Weights(words: string -> nat, sentences: seq<string>): (ws: seq<nat>)
    ensures |ws| == |sentences|
    ensures forall i :: 0 <= i < |ws| ==> ws[i] == if words(sentences[i]) >= 1 then words(sentences[i]) else 1
  {
    seq(|sentences|, i requires 0 <= i < |sentences| => if words(sentences[i]) >= 1 then words(sentences[i]) else 1)
  }

  function Texts(sentences: seq<string>, sp: seq<Span>): seq<string>
    requires Inside(sp, |sentences|)
  {
    if sp == [] then [] else [Join(sentences[sp[0].start..sp[0].end])] + Texts(sentences, sp[1..])
  }

  /** The texts are those of the spans, one each. */
  lemma {:induction false} TextsExact(sentences: seq<string>, sp: seq<Span>)
    requires Inside(sp, |sentences|)
    ensures |Texts(sentences, sp)| == |sp|
    ensures forall i :: 0 <= i < |sp| ==> Texts(sentences, sp)[i] == Join(sentences[sp[i].start..sp[i].end])
  {
    if sp != [] {
      TextsExact(sentences, sp[1..]);
    }
  }

  /** Stripping a chunk changes nothing, and no chunk is empty. */
  lemma ChunkKept(space: set<char>, sentences: seq<string>, buf: seq<string>, start: nat, end: nat)
    requires start < end <= |sentences| && buf == sentences[start..end]
    requires forall i :: 0 <= i < |sentences| ==> Trimmed(space, sentences[i])
    ensures Strip(space, Join(buf)) == Join(buf) && Join(buf) != ""
  {
    JoinTrimmed(space, buf);
  }

  /** Spans stay in the list and start where they should, whatever the overlap. */
  lemma {:induction false} SpansInside(ws: seq<nat>, max: int, overlap: int, start: nat)
    requires start < |ws|
    ensures var sp := Spans(ws, max, overlap, start);
            Inside(sp, |ws|) && forall i :: 0 <= i < |sp| ==> start <= sp[i].start < sp[i].end
    decreases |ws| - start
  {
    hide Grow;
    FirstChunk(ws, max, start);
    var end := Grow(ws, max, start + 1, ws[start]);
    var next := NextStart(overlap, start, end);
    if end < |ws| && next < |ws| {
      SpansInside(ws, max, overlap, next);
    }
  }

  /** Some chunk holds sentence `i`. */
  ghost predicate Covered(sp: seq<Span>, i: nat) {
    exists j :: 0 <= j < |sp| && sp[j].start <= i < sp[j].end
  }

  ghost predicate CoversAll(sp: seq<Span>, n: nat) {
    forall i: nat :: i < n ==> Covered(sp, i)
  }

  lemma CoveredTail(sp: seq<Span>, i: nat)
    requires sp != []
    ensures Covered(sp, i) <==> sp[0].start <= i < sp[0].end || Covered(sp[1..], i)
  {
    if j :| 0 <= j < |sp| && sp[j].start <= i < sp[j].end {
      assert j > 0 ==> sp[1..][j - 1] == sp[j];
    }
    if j :| 0 <= j < |sp[1..]| && sp[1..][j].start <= i < sp[1..][j].end {
      assert sp[j + 1] == sp[1..][j];
    }
  }

  lemma {:induction false} AllCovered(ws: seq<nat>, max: int, overlap: nat, start: nat, i: nat)
    requires start <= i < |ws|
    ensures Covered(Spans(ws, max, overlap, start), i)
    decreases |ws| - start
  {
    hide Grow;
    FirstChunk(ws, max, start);
    var end := Grow(ws, max, start + 1, ws[start]);
    var sp := Spans(ws, max, overlap, start);
    CoveredTail(sp, i);
    if i >= end {
      AllCovered(ws, max, overlap, NextStart(overlap, start, end), i);
    }
  }

  /** No sentence is left out if and only if the overlap is not negative or the first chunk
      takes them all: a negative overlap skips that many after each chunk. */
  lemma NothingSkippedIff(ws: seq<nat>, max: int, overlap: int)
    requires ws != []
    ensures CoversAll(Spans(ws, max, overlap, 0), |ws|)
       <==> overlap >= 0 || Grow(ws, max, 1, ws[0]) == |ws|
  {
    hide Grow;
    FirstChunk(ws, max, 0);
    var sp := Spans(ws, max, overlap, 0);
    var end := Grow(ws, max, 1, ws[0]);
    if overlap >= 0 {
      forall i: nat | i < |ws| ensures Covered(sp, i) {
        AllCovered(ws, max, overlap, 0, i);
      }
    } else if end == |ws| {
      forall i: nat | i < |ws| ensures Covered(sp, i) {
        CoveredTail(sp, i);
      }
    } else {
      CoveredTail(sp, end);
      var next := NextStart(overlap, 0, end);
      if next < |ws| {
        SpansInside(ws, max, overlap, next);
      }
      assert !Covered(sp[1..], end);
      assert end < |ws| && !Covered(sp, end);
    }
  }

  /** One turn of the outer loop. */
  lemma SpansStep(sentences: seq<string>, ws: seq<nat>, max: int, overlap: int, start: nat, end: nat)
    requires start < |ws| == |sentences| && end == Grow(ws, max, start + 1, ws[start]) && start < end <= |ws|
    requires Inside(Spans(ws, max, overlap, start), |ws|)
    ensures var left := Spans(ws, max, overlap, start);
            && left != [] && Inside(left[1..], |ws|)
            && Texts(sentences, left) == [Join(sentences[start..end])] + Texts(sentences, left[1..])
            && (end >= |ws| ==> Texts(sentences, left[1..]) == [])
            && (end < |ws| ==> left[1..] == SpansFrom(ws, max, overlap, NextStart(overlap, start, end)))
  {
  }

  /** What is left to do at `start`. */
  function SpansFrom(ws: seq<nat>, max: int, overlap: int, start: nat): seq<Span> {
    if start < |ws| then Spans(ws, max, overlap, start) else []
  }

  lemma NoTexts(sentences: seq<string>)
    ensures Inside([], |sentences|) && Texts(sentences, []) == []
  {
  }

  method ChunkText(space: set<char>, words: string -> nat, sentences: seq<string>, maxWords: int, overlap: int)
      returns (chunks: seq<string>)
    requires forall i :: 0 <= i < |sentences| ==> Trimmed(space, sentences[i])
    ensures sentences == [] ==> chunks == []
    ensures sentences != [] ==>
              var sp := Spans(Weights(words, sentences), maxWords, overlap, 0);
              && Inside(sp, |sentences|)
              && chunks == Texts(sentences, sp)
  {
    hide Grow, Join, Strip, Trimmed, Weights, Spans, Texts, Inside;
    ghost var ws := Weights(words, sentences);
    chunks := [];
    if sentences == [] {
      return;
    }
    SpansInside(ws, maxWords, overlap, 0);
    NoTexts(sentences);
    ghost var all := Spans(ws, maxWords, overlap, 0);
    var start := 0;
    ghost var left := all;
    while start < |sentences|
      invariant left == SpansFrom(ws, maxWords, overlap, start)
      invariant Inside(left, |sentences|) && Inside(all, |sentences|)
      invariant Texts(sentences, all) == chunks + Texts(sentences, left)
      decreases |sentences| - start
    {
      var buf, end := Fill(words, sentences, maxWords, start);
      SpansStep(sentences, ws, maxWords, overlap, start, end);
      var chunk := Strip(space, Join(buf));
      ChunkKept(space, sentences, buf, start, end);
      if chunk != "" {
        chunks := chunks + [chunk];
      }
      left := left[1..];
      if end >= |sentences| {
        break;
      }
      start := if end - overlap > start + 1 then end - overlap else start + 1;
    }
  }

  /** The inner loop: at least one sentence, then as many as fit. */
  method Fill(words: string -> nat, sentences: seq<string>, maxWords: int, start: nat)
      returns (buf: seq<string>, end: nat)
    requires start < |sentences|
    ensures var ws := Weights(words, sentences); end == Grow(ws, maxWords, start + 1, ws[start])
    ensures start < end <= |sentences| && buf == sentences[start..end]
  {
    ghost var ws := Weights(words, sentences);
    var total := 0;
    end := start;
    buf := [];
    while end < |sentences|
      invariant start <= end <= |sentences| && buf == sentences[start..end]
      invariant total >= 0 && (end == start ==> total == 0)
      invariant end > start ==> Grow(ws, maxWords, end, total) == Grow(ws, maxWords, start + 1, ws[start])
    {
      var s := sentences[end];
      var w := if words(s) >= 1 then words(s) else 1;
      if buf != [] && total + w > maxWords {
        break;
      }
      buf := buf + [s];
      total := total + w;
      end := end + 1;
    }
  }
}
