/** Attribution of transcript words to speakers by maximum overlap, and why looking only at the
    segments that overlap the event changes nothing. */
module Aligner {
  import opened Sequences
  import opened Wrappers
  import opened Timeline
  import opened SpeakerTimelines

  const UNKNOWN := "spk_unknown"

  datatype Word = Word(text: string, startMs: int, endMs: int)

  datatype Transcript = Transcript(
    tenant: string, session: string, segmentId: string, revision: int,
    text: string, startMs: int, endMs: int, isFinal: bool, words: seq<Word>)

  /** `words` are those joined into the text; a whole-segment span has none. */
  datatype Attributed = Attributed(speakerId: string, words: seq<Word>, text: string, startMs: int, endMs: int)

  // ---------------------------------------------------------------- the best speaker

  function OverlapWith(startMs: int, endMs: int, x: Segment): nat {
    OverlapMs(startMs, endMs, x.startMs, x.endMs)
  }

  /** `a` ranks strictly above `b`: more overlap, then more confidence, then an earlier start. */
  predicate Above(startMs: int, endMs: int, a: Segment, b: Segment) {
    var (oa, ob) := (OverlapWith(startMs, endMs, a), OverlapWith(startMs, endMs, b));
    oa > ob || (oa == ob && (a.confidence > b.confidence || (a.confidence == b.confidence && a.startMs < b.startMs)))
  }

  /** The head of the stable descending sort: the first among the segments of highest rank. */
  function Ranked(startMs: int, endMs: int, xs: seq<Segment>): (best: Segment)
    requires xs != []
    ensures best in xs
  {
    if |xs| == 1 then xs[0]
    else
      var best := Ranked(startMs, endMs, xs[..|xs| - 1]);
      if Above(startMs, endMs, xs[|xs| - 1], best) then xs[|xs| - 1] else best
  }

  lemma AboveThrough(startMs: int, endMs: int, a: Segment, b: Segment, c: Segment)
    requires Above(startMs, endMs, a, b) && (c == b || Above(startMs, endMs, b, c) || !Above(startMs, endMs, c, b))
    ensures Above(startMs, endMs, a, c) && !Above(startMs, endMs, c, a)
  {
  }

  /** `i` is the first index of highest rank. */
  ghost predicate FirstBest(startMs: int, endMs: int, xs: seq<Segment>, i: nat) {
    && i < |xs|
    && (forall j :: 0 <= j < i ==> Above(startMs, endMs, xs[i], xs[j]))
    && (forall j :: i < j < |xs| ==> !Above(startMs, endMs, xs[j], xs[i]))
  }

  lemma FirstBestStep(startMs: int, endMs: int, xs: seq<Segment>, i: nat, x: Segment)
    requires FirstBest(startMs, endMs, xs, i)
    ensures FirstBest(startMs, endMs, xs + [x], if Above(startMs, endMs, x, xs[i]) then |xs| else i)
  {
    var more := xs + [x];
    if Above(startMs, endMs, x, xs[i]) {
      forall j | 0 <= j < |xs| ensures Above(startMs, endMs, x, more[j]) {
        AboveThrough(startMs, endMs, x, xs[i], xs[j]);
      }
    }
  }

  lemma {:induction false} RankedIsFirstBest(startMs: int, endMs: int, xs: seq<Segment>) returns (i: nat)
    requires xs != []
    ensures FirstBest(startMs, endMs, xs, i) && xs[i] == Ranked(startMs, endMs, xs)
    decreases |xs|
  {
    if |xs| == 1 { return 0; }
    var front, last := xs[..|xs| - 1], xs[|xs| - 1];
    i := RankedIsFirstBest(startMs, endMs, front);
    FirstBestStep(startMs, endMs, front, i, last);
    assert xs == front + [last];
    if Above(startMs, endMs, last, front[i]) { i := |front|; }
  }

  /** `_best_speaker`. */
  function BestSpeaker(startMs: int, endMs: int, xs: seq<Segment>): string {
    if xs == [] || OverlapWith(startMs, endMs, Ranked(startMs, endMs, xs)) == 0 then UNKNOWN
    else Ranked(startMs, endMs, xs).speakerId
  }

  // ---------------------------------------------------------------- prefiltering

  lemma InsideOverlap(startMs: int, endMs: int, from: int, to: int, x: Segment)
    requires from <= startMs && endMs <= to
    ensures OverlapWith(startMs, endMs, x) > 0 ==> OverlapWith(from, to, x) > 0
  {
  }

  lemma RankedAppend(startMs: int, endMs: int, xs: seq<Segment>, x: Segment)
    requires xs != []
    ensures Ranked(startMs, endMs, xs + [x])
         == if Above(startMs, endMs, x, Ranked(startMs, endMs, xs)) then x else Ranked(startMs, endMs, xs)
  {
    assert (xs + [x])[..|xs|] == xs;
  }

  /** The best of all also is the best of the kept ones, or none overlaps the range at all. */
  ghost predicate SameBest(startMs: int, endMs: int, all: seq<Segment>, kept: seq<Segment>) {
    all != [] ==>
      var best := Ranked(startMs, endMs, all);
      if OverlapWith(startMs, endMs, best) > 0
      then kept != [] && Ranked(startMs, endMs, kept) == best
      else forall x :: x in all ==> OverlapWith(startMs, endMs, x) == 0
  }

  lemma SameBestSkip(startMs: int, endMs: int, all: seq<Segment>, kept: seq<Segment>, x: Segment)
    requires SameBest(startMs, endMs, all, kept) && OverlapWith(startMs, endMs, x) == 0
    ensures SameBest(startMs, endMs, all + [x], kept)
  {
    var more := all + [x];
    if all == [] {
      assert more == [x];
    } else {
      RankedAppend(startMs, endMs, all, x);
      var best := Ranked(startMs, endMs, all);
      if OverlapWith(startMs, endMs, best) > 0 {
        assert !Above(startMs, endMs, x, best);
        assert Ranked(startMs, endMs, more) == best;
      } else {
        forall y | y in more ensures OverlapWith(startMs, endMs, y) == 0 { assert y in all || y == x; }
        assert Ranked(startMs, endMs, more) in more;
      }
    }
  }

  lemma SameBestKeep(startMs: int, endMs: int, all: seq<Segment>, kept: seq<Segment>, x: Segment)
    requires SameBest(startMs, endMs, all, kept) && |kept| <= |all| && forall y :: y in kept ==> y in all
    ensures SameBest(startMs, endMs, all + [x], kept + [x])
  {
    if all == [] {
      assert all + [x] == [x] == kept + [x];
    } else {
      RankedAppend(startMs, endMs, all, x);
      if kept == [] {
        assert kept + [x] == [x];
      } else {
        RankedAppend(startMs, endMs, kept, x);
        assert Ranked(startMs, endMs, kept) in all;
      }
    }
  }

  lemma {:induction false} RankedFiltered(startMs: int, endMs: int, from: int, to: int, xs: seq<Segment>)
    requires from <= startMs && endMs <= to
    ensures SameBest(startMs, endMs, xs, Overlapping(xs, from, to))
    decreases |xs|
  {
    if xs != [] {
      var front, last := xs[..|xs| - 1], xs[|xs| - 1];
      RankedFiltered(startMs, endMs, from, to, front);
      assert xs == front + [last];
      FilterStep(startMs, endMs, from, to, front, last);
    }
  }

  lemma FilterStep(startMs: int, endMs: int, from: int, to: int, xs: seq<Segment>, x: Segment)
    requires from <= startMs && endMs <= to && SameBest(startMs, endMs, xs, Overlapping(xs, from, to))
    ensures SameBest(startMs, endMs, xs + [x], Overlapping(xs + [x], from, to))
  {
    var kept := Overlapping(xs, from, to);
    OverlappingAppend(xs, x, from, to);
    if OverlapWith(from, to, x) > 0 {
      SameBestKeep(startMs, endMs, xs, kept, x);
    } else {
      InsideOverlap(startMs, endMs, from, to, x);
      SameBestSkip(startMs, endMs, xs, kept, x);
    }
  }

  /** For a range inside the event, attribution against the event's segments is attribution against
      the whole timeline, ties included. */
  lemma PrefilterExact(startMs: int, endMs: int, from: int, to: int, xs: seq<Segment>)
    requires from <= startMs && endMs <= to
    ensures BestSpeaker(startMs, endMs, Overlapping(xs, from, to)) == BestSpeaker(startMs, endMs, xs)
  {
    var kept := Overlapping(xs, from, to);
    if xs != [] {
      RankedFiltered(startMs, endMs, from, to, xs);
      if kept != [] { assert Ranked(startMs, endMs, kept) in kept; }
    }
  }

  ghost predicate PrefilterSafe(startMs: int, endMs: int, from: int, to: int) {
    forall xs :: BestSpeaker(startMs, endMs, Overlapping(xs, from, to)) == BestSpeaker(startMs, endMs, xs)
  }

  /** The prefilter is safe for every timeline exactly when the range is empty or lies inside the
      event. */
  lemma PrefilterSafeIff(startMs: int, endMs: int, from: int, to: int)
    ensures PrefilterSafe(startMs, endMs, from, to)
       <==> startMs >= endMs || (from <= startMs && endMs <= to)
  {
    if from <= startMs && endMs <= to {
      forall xs ensures BestSpeaker(startMs, endMs, Overlapping(xs, from, to)) == BestSpeaker(startMs, endMs, xs) {
        PrefilterExact(startMs, endMs, from, to, xs);
      }
    } else if startMs >= endMs {
      forall xs ensures BestSpeaker(startMs, endMs, Overlapping(xs, from, to)) == BestSpeaker(startMs, endMs, xs) {
      }
    } else {
      var at := if startMs < from then startMs else endMs - 1;
      var x := Segment("tenant", "session", at, at + 1, "spk_001", 1.0, 1);
      assert OverlapWith(startMs, endMs, x) == 1 && OverlapWith(from, to, x) == 0;
      assert Overlapping([x], from, to) == [];
      assert BestSpeaker(startMs, endMs, [x]) == "spk_001" != UNKNOWN;
    }
  }

  // ---------------------------------------------------------------- alignment

  /** The segments of the transcript's own tenant and session. */
  function Compatible(t: Transcript, xs: seq<Segment>): (r: seq<Segment>)
    ensures forall x :: x in r <==> x in xs && x.tenant == t.tenant && x.session == t.session
  {
    if xs == [] then []
    else if xs[0].tenant == t.tenant && xs[0].session == t.session then [xs[0]] + Compatible(t, xs[1..])
    else Compatible(t, xs[1..])
  }

  function Labels(words: seq<Word>, xs: seq<Segment>): (r: seq<string>)
    ensures |r| == |words|
    ensures forall i :: 0 <= i < |words| ==> r[i] == BestSpeaker(words[i].startMs, words[i].endMs, xs)
  {
    seq(|words|, i requires 0 <= i < |words| => BestSpeaker(words[i].startMs, words[i].endMs, xs))
  }

  datatype Group = Group(speakerId: string, words: seq<Word>)

  /** The source's grouping loop after its first `n` words. */
  function Groups(words: seq<Word>, labels: seq<string>, n: nat): seq<Group>
    requires n <= |words| == |labels|
  {
    if n == 0 then [] else AddWord(Groups(words, labels, n - 1), words[n - 1], labels[n - 1])
  }

  function AddWord(groups: seq<Group>, w: Word, speaker: string): seq<Group> {
    if groups != [] && groups[|groups| - 1].speakerId == speaker
    then groups[..|groups| - 1] + [Group(speaker, groups[|groups| - 1].words + [w])]
    else groups + [Group(speaker, [w])]
  }

  function WordsOf(groups: seq<Group>): seq<Word> {
    if groups == [] then [] else WordsOf(groups[..|groups| - 1]) + groups[|groups| - 1].words
  }

  function Repeat(speaker: string, n: nat): seq<string> { seq(n, _ => speaker) }

  /** The label of every grouped word. */
  function LabelsOf(groups: seq<Group>): seq<string> {
    if groups == [] then []
    else LabelsOf(groups[..|groups| - 1]) + Repeat(groups[|groups| - 1].speakerId, |groups[|groups| - 1].words|)
  }

  lemma WordsAppend(groups: seq<Group>, g: Group)
    ensures WordsOf(groups + [g]) == WordsOf(groups) + g.words
    ensures LabelsOf(groups + [g]) == LabelsOf(groups) + Repeat(g.speakerId, |g.words|)
  {
    assert (groups + [g])[..|groups|] == groups;
  }

  lemma RepeatOnce(speaker: string, n: nat)
    ensures Repeat(speaker, n + 1) == Repeat(speaker, n) + [speaker]
  {
  }

  lemma AddWordKeeps(groups: seq<Group>, w: Word, speaker: string)
    ensures WordsOf(AddWord(groups, w, speaker)) == WordsOf(groups) + [w]
    ensures LabelsOf(AddWord(groups, w, speaker)) == LabelsOf(groups) + [speaker]
  {
    if groups != [] && groups[|groups| - 1].speakerId == speaker {
      var front, g := groups[..|groups| - 1], groups[|groups| - 1];
      assert groups == front + [g];
      WordsAppend(front, g);
      WordsAppend(front, Group(speaker, g.words + [w]));
      Associate(WordsOf(front), g.words, [w]);
      RepeatOnce(speaker, |g.words|);
      Associate(LabelsOf(front), Repeat(speaker, |g.words|), [speaker]);
    } else {
      WordsAppend(groups, Group(speaker, [w]));
      RepeatOnce(speaker, 0);
      assert Repeat(speaker, 1) == [speaker];
    }
  }

  /** Non-empty groups, neighbours with different speakers: each is a maximal run. */
  predicate MaximalRuns(groups: seq<Group>) {
    && (forall i :: 0 <= i < |groups| ==> groups[i].words != [])
    && (forall i :: 0 <= i < |groups| - 1 ==> groups[i].speakerId != groups[i + 1].speakerId)
  }

  lemma AddWordRuns(groups: seq<Group>, w: Word, speaker: string)
    requires MaximalRuns(groups)
    ensures MaximalRuns(AddWord(groups, w, speaker))
  {
  }

  /** The groups hold the labelled words, in order and without loss, as maximal runs of one speaker. */
  predicate Partition(groups: seq<Group>, words: seq<Word>, labels: seq<string>) {
    WordsOf(groups) == words && LabelsOf(groups) == labels && MaximalRuns(groups)
  }

  lemma {:induction false} GroupsPartition(words: seq<Word>, labels: seq<string>, n: nat)
    requires n <= |words| == |labels|
    ensures Partition(Groups(words, labels, n), words[..n], labels[..n])
    decreases n
  {
    if n > 0 {
      GroupsPartition(words, labels, n - 1);
      PartitionStep(Groups(words, labels, n - 1), words[..n - 1], labels[..n - 1], words[n - 1], labels[n - 1]);
      TakeOneMore(words, n);
      TakeOneMore(labels, n);
    }
  }

  lemma PartitionStep(groups: seq<Group>, words: seq<Word>, labels: seq<string>, w: Word, speaker: string)
    requires Partition(groups, words, labels)
    ensures Partition(AddWord(groups, w, speaker), words + [w], labels + [speaker])
  {
    AddWordKeeps(groups, w, speaker);
    AddWordRuns(groups, w, speaker);
  }

  /** `align`; `join` is the spacing rule that turns words into text. */
  method Align(t: Transcript, speakers: seq<Segment>, join: seq<Word> -> string) returns (spans: seq<Attributed>)
    ensures spans == Aligned(t, speakers, join)
  {
    var compatible := Compatible(t, speakers);
    if t.words == [] {
      var speakerId := BestSpeaker(t.startMs, t.endMs, compatible);
      return [Attributed(speakerId, [], t.text, t.startMs, t.endMs)];
    }
    var labels := Labels(t.words, compatible);
    var groups := GroupWords(t.words, labels);
    spans := Spans(groups, join);
  }

  /** The grouping loop of `align`. */
  method GroupWords(words: seq<Word>, labels: seq<string>) returns (groups: seq<Group>)
    requires |words| == |labels|
    ensures groups == Groups(words, labels, |words|) && Partition(groups, words, labels)
  {
    groups := [];
    for k := 0 to |words|
      invariant groups == Groups(words, labels, k)
    {
      var word, speakerId := words[k], labels[k];
      if groups != [] && groups[|groups| - 1].speakerId == speakerId {
        groups := groups[..|groups| - 1] + [Group(speakerId, groups[|groups| - 1].words + [word])];
      } else {
        groups := groups + [Group(speakerId, [word])];
      }
    }
    AllPartition(words, labels);
  }

  lemma AllPartition(words: seq<Word>, labels: seq<string>)
    requires |words| == |labels|
    ensures Partition(Groups(words, labels, |words|), words, labels)
  {
    GroupsPartition(words, labels, |words|);
    assert words[..|words|] == words && labels[..|words|] == labels;
  }

  function Spans(groups: seq<Group>, join: seq<Word> -> string): seq<Attributed> {
    seq(|groups|, i requires 0 <= i < |groups| => SpanOf(groups[i], join))
  }

  function SpanOf(g: Group, join: seq<Word> -> string): Attributed {
    if g.words == [] then Attributed(g.speakerId, [], "", 0, 0)
    else Attributed(g.speakerId, g.words, join(g.words), g.words[0].startMs, g.words[|g.words| - 1].endMs)
  }

  function Aligned(t: Transcript, speakers: seq<Segment>, join: seq<Word> -> string): seq<Attributed> {
    var compatible := Compatible(t, speakers);
    if t.words == [] then [Attributed(BestSpeaker(t.startMs, t.endMs, compatible), [], t.text, t.startMs, t.endMs)]
    else Spans(Groups(t.words, Labels(t.words, compatible), |t.words|), join)
  }

  function SpanWords(spans: seq<Attributed>): seq<Word> {
    if spans == [] then [] else SpanWords(spans[..|spans| - 1]) + spans[|spans| - 1].words
  }

  function SpanLabels(spans: seq<Attributed>): seq<string> {
    if spans == [] then []
    else SpanLabels(spans[..|spans| - 1]) + Repeat(spans[|spans| - 1].speakerId, |spans[|spans| - 1].words|)
  }

  lemma {:induction false} SpansOfGroups(groups: seq<Group>, join: seq<Word> -> string)
    ensures SpanWords(Spans(groups, join)) == WordsOf(groups)
    ensures SpanLabels(Spans(groups, join)) == LabelsOf(groups)
    decreases |groups|
  {
    if groups != [] {
      var front := groups[..|groups| - 1];
      SpansOfGroups(front, join);
      SpansExtend(front, groups[|groups| - 1], join);
      assert groups == front + [groups[|groups| - 1]];
    }
  }

  lemma SpansExtend(groups: seq<Group>, g: Group, join: seq<Word> -> string)
    ensures SpanWords(Spans(groups + [g], join)) == SpanWords(Spans(groups, join)) + g.words
    ensures SpanLabels(Spans(groups + [g], join)) == SpanLabels(Spans(groups, join)) + Repeat(g.speakerId, |g.words|)
  {
    var spans := Spans(groups, join);
    assert Spans(groups + [g], join) == spans + [SpanOf(g, join)];
    assert (spans + [SpanOf(g, join)])[..|spans|] == spans;
  }

  /** What `align` returns for a transcript with words: the spans' words are the transcript's, in order and
      without loss, each under the label of its own best speaker; neighbouring spans differ in speaker; and
      a span runs from the start of its first word to the end of its last. */
  lemma AlignedPartitions(t: Transcript, speakers: seq<Segment>, join: seq<Word> -> string)
    requires t.words != []
    ensures var spans := Aligned(t, speakers, join);
            SpanWords(spans) == t.words && SpanLabels(spans) == Labels(t.words, Compatible(t, speakers))
    ensures var spans := Aligned(t, speakers, join);
            (forall i :: 0 <= i < |spans| ==> RunsOverWords(spans[i], join))
            && (forall i :: 0 <= i < |spans| - 1 ==> spans[i].speakerId != spans[i + 1].speakerId)
  {
    var labels := Labels(t.words, Compatible(t, speakers));
    var groups := Groups(t.words, labels, |t.words|);
    AllPartition(t.words, labels);
    SpansOfGroups(groups, join);
    SpansRun(groups, join);
  }

  lemma SpansRun(groups: seq<Group>, join: seq<Word> -> string)
    requires MaximalRuns(groups)
    ensures var spans := Spans(groups, join);
            (forall i :: 0 <= i < |spans| ==> RunsOverWords(spans[i], join))
            && (forall i :: 0 <= i < |spans| - 1 ==> spans[i].speakerId != spans[i + 1].speakerId)
  {
  }

  predicate RunsOverWords(span: Attributed, join: seq<Word> -> string) {
    span.words != [] && span.startMs == span.words[0].startMs && span.endMs == span.words[|span.words| - 1].endMs
    && span.text == join(span.words)
  }

  lemma {:induction false} CompatibleOverlapping(t: Transcript, xs: seq<Segment>, from: int, to: int)
    ensures Compatible(t, Overlapping(xs, from, to)) == Overlapping(Compatible(t, xs), from, to)
  {
    if xs != [] {
      CompatibleOverlapping(t, xs[1..], from, to);
      var x, rest := xs[0], Overlapping(xs[1..], from, to);
      assert ([x] + rest)[1..] == rest;
      assert ([x] + Compatible(t, xs[1..]))[1..] == Compatible(t, xs[1..]);
    }
  }

  /** Every word lies inside the transcript's range. */
  predicate WordsInside(t: Transcript) {
    forall i :: 0 <= i < |t.words| ==> t.startMs <= t.words[i].startMs && t.words[i].endMs <= t.endMs
  }

  /** Prefiltered alignment equals full alignment. */
  lemma PrefilteredAlignment(t: Transcript, timeline: seq<Segment>, join: seq<Word> -> string)
    requires WordsInside(t)
    ensures Aligned(t, Overlapping(timeline, t.startMs, t.endMs), join) == Aligned(t, timeline, join)
  {
    var all, kept := Compatible(t, timeline), Compatible(t, Overlapping(timeline, t.startMs, t.endMs));
    CompatibleOverlapping(t, timeline, t.startMs, t.endMs);
    PrefilterExact(t.startMs, t.endMs, t.startMs, t.endMs, all);
    forall i | 0 <= i < |t.words| ensures Labels(t.words, kept)[i] == Labels(t.words, all)[i] {
      PrefilterExact(t.words[i].startMs, t.words[i].endMs, t.startMs, t.endMs, all);
    }
    assert Labels(t.words, kept) == Labels(t.words, all);
  }

  /** Milliseconds a segment shares with a range. */
  ghost function SharedMs(startMs: int, endMs: int, x: Segment): nat {
    |Shared(startMs, endMs, x.startMs, x.endMs)|
  }

  /** Segment `i` is of the transcript's session and, among the session's segments, shares the most time with
      the range; among equals it is the most confident, then the earliest to start, then the first. */
  ghost predicate SharesMost(t: Transcript, speakers: seq<Segment>, startMs: int, endMs: int, i: nat) {
    && i < |speakers| && speakers[i].tenant == t.tenant && speakers[i].session == t.session
    && forall j: nat :: j < |speakers| && speakers[j].tenant == t.tenant && speakers[j].session == t.session ==>
         Behind(startMs, endMs, speakers[j], speakers[i], i <= j)
  }

  ghost predicate Behind(startMs: int, endMs: int, y: Segment, x: Segment, notBefore: bool) {
    var (my, mx) := (SharedMs(startMs, endMs, y), SharedMs(startMs, endMs, x));
    if my != mx then my < mx
    else if y.confidence != x.confidence then y.confidence < x.confidence
    else if y.startMs != x.startMs then y.startMs > x.startMs
    else notBefore
  }

  /** The label of a range is unknown exactly when no segment of the session shares time with it, and
      otherwise that of the segment that shares the most. */
  lemma LabelIsArgmax(t: Transcript, speakers: seq<Segment>, startMs: int, endMs: int)
    ensures var speaker := BestSpeaker(startMs, endMs, Compatible(t, speakers));
            if forall y :: y in speakers && y.tenant == t.tenant && y.session == t.session ==> SharedMs(startMs, endMs, y) == 0
            then speaker == "spk_unknown"
            else exists i: nat :: SharesMost(t, speakers, startMs, endMs, i) && speaker == speakers[i].speakerId
  {
    var xs := Compatible(t, speakers);
    forall y ensures OverlapWith(startMs, endMs, y) == SharedMs(startMs, endMs, y) {
      OverlapIsShared(startMs, endMs, y.startMs, y.endMs);
    }
    if xs != [] {
      var k := RankedIsFirstBest(startMs, endMs, xs);
      RankedOverlapsMost(startMs, endMs, xs);
      var at := CompatibleAt(t, speakers);
      FirstBestShares(t, speakers, startMs, endMs, at, k);
      assert xs[k] == speakers[at[k]];
    }
  }

  /** `xs` stand in `all` at the increasing positions `at`. */
  ghost predicate Places(xs: seq<Segment>, all: seq<Segment>, at: seq<nat>) {
    && |at| == |xs|
    && (forall k :: 0 <= k < |at| ==> at[k] < |all| && all[at[k]] == xs[k])
    && (forall k, l :: 0 <= k < l < |at| ==> at[k] < at[l])
  }

  /** Where the session's segments stand among all. */
  ghost predicate Positions(t: Transcript, speakers: seq<Segment>, at: seq<nat>) {
    && Places(Compatible(t, speakers), speakers, at)
    && (forall j: nat :: j < |speakers| && speakers[j].tenant == t.tenant && speakers[j].session == t.session ==> j in at)
  }

  lemma {:induction false} CompatibleAt(t: Transcript, speakers: seq<Segment>) returns (at: seq<nat>)
    ensures Positions(t, speakers, at)
    decreases |speakers|
  {
    at := [];
    if speakers != [] {
      var rest := CompatibleAt(t, speakers[1..]);
      at := MovedPositions(t, speakers, rest);
    }
  }

  lemma MovedPositions(t: Transcript, speakers: seq<Segment>, rest: seq<nat>) returns (at: seq<nat>)
    requires speakers != [] && Positions(t, speakers[1..], rest)
    ensures Positions(t, speakers, at)
  {
    var x, tail := speakers[0], speakers[1..];
    assert speakers == [x] + tail;
    at := (if x.tenant == t.tenant && x.session == t.session then [0] else []) + Moved(rest);
    MovedPlaces(Compatible(t, tail), x, tail, rest);
    assert [] + Moved(rest) == Moved(rest);
    MovedCovers(t, speakers, rest, at);
  }

  lemma MovedPlaces(xs: seq<Segment>, x: Segment, tail: seq<Segment>, rest: seq<nat>)
    requires Places(xs, tail, rest)
    ensures Places([x] + xs, [x] + tail, [0] + Moved(rest)) && Places(xs, [x] + tail, Moved(rest))
  {
  }

  function Moved(rest: seq<nat>): (r: seq<nat>)
    ensures |r| == |rest| && forall k :: 0 <= k < |rest| ==> r[k] == rest[k] + 1
  {
    seq(|rest|, k requires 0 <= k < |rest| => rest[k] + 1)
  }

  lemma MovedCovers(t: Transcript, speakers: seq<Segment>, rest: seq<nat>, at: seq<nat>)
    requires speakers != []
    requires forall j: nat :: j < |speakers| - 1 && speakers[1..][j].tenant == t.tenant && speakers[1..][j].session == t.session ==> j in rest
    requires at == (if speakers[0].tenant == t.tenant && speakers[0].session == t.session then [0] else []) + Moved(rest)
    ensures forall j: nat :: j < |speakers| && speakers[j].tenant == t.tenant && speakers[j].session == t.session ==> j in at
  {
    forall j: nat | j < |speakers| && speakers[j].tenant == t.tenant && speakers[j].session == t.session ensures j in at {
      if j > 0 {
        assert speakers[1..][j - 1] == speakers[j];
        var k :| 0 <= k < |rest| && rest[k] == j - 1;
        assert Moved(rest)[k] == j && j in Moved(rest);
      }
    }
  }

  lemma FirstBestShares(t: Transcript, speakers: seq<Segment>, startMs: int, endMs: int, at: seq<nat>, k: nat)
    requires FirstBest(startMs, endMs, Compatible(t, speakers), k) && Positions(t, speakers, at)
    ensures SharesMost(t, speakers, startMs, endMs, at[k])
  {
    var xs := Compatible(t, speakers);
    assert xs[k] in xs;
    forall j: nat | j < |speakers| && speakers[j].tenant == t.tenant && speakers[j].session == t.session
      ensures Behind(startMs, endMs, speakers[j], speakers[at[k]], at[k] <= j)
    {
      var l :| 0 <= l < |at| && at[l] == j;
      RankedBehind(startMs, endMs, xs, k, l);
      assert k <= l ==> at[k] <= j;
    }
  }

  lemma RankedBehind(startMs: int, endMs: int, xs: seq<Segment>, k: nat, l: nat)
    requires FirstBest(startMs, endMs, xs, k) && l < |xs|
    ensures Behind(startMs, endMs, xs[l], xs[k], k <= l)
  {
    OverlapIsShared(startMs, endMs, xs[l].startMs, xs[l].endMs);
    OverlapIsShared(startMs, endMs, xs[k].startMs, xs[k].endMs);
  }

  /** A transcript without words is one span under the label of its whole range. */
  lemma WholeSegment(t: Transcript, speakers: seq<Segment>, join: seq<Word> -> string)
    requires t.words == []
    ensures var spans := Aligned(t, speakers, join);
            |spans| == 1 && spans[0].text == t.text && spans[0].startMs == t.startMs && spans[0].endMs == t.endMs
            && spans[0].speakerId == BestSpeaker(t.startMs, t.endMs, Compatible(t, speakers))
  {
  }

  lemma RankedOverlapsMost(startMs: int, endMs: int, xs: seq<Segment>)
    requires xs != []
    ensures forall y :: y in xs ==> OverlapWith(startMs, endMs, y) <= OverlapWith(startMs, endMs, Ranked(startMs, endMs, xs))
  {
    var i := RankedIsFirstBest(startMs, endMs, xs);
    forall y | y in xs ensures OverlapWith(startMs, endMs, y) <= OverlapWith(startMs, endMs, xs[i]) {
      var j :| 0 <= j < |xs| && xs[j] == y;
      assert j == i || Above(startMs, endMs, xs[i], xs[j]) || !Above(startMs, endMs, xs[j], xs[i]);
    }
  }
}
