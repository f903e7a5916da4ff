/**
 * Segment utilities of `common/utils.py`: merging neighbouring text parts of
 * the same type and speaker, and turning an index array into ranges.
 */
module SegmentUtils {
  import opened Wrappers
  import opened TextParts
  import opened PyStrings
  import opened Sorting

  // ---------------------------------------------------------------------------
  // Merging neighbouring parts
  // ---------------------------------------------------------------------------

  /** Two parts belong to one run when they have the same speaker and the same type. */
  predicate SameRun(a: TextPart, b: TextPart) {
    a.characterIdentifier == b.characterIdentifier && a.kind == b.kind
  }

  /** Same id, type and speaker; the text may differ. */
  predicate SameHeader(a: TextPart, b: TextPart) {
    a.id == b.id && a.kind == b.kind && a.characterIdentifier == b.characterIdentifier
  }

  /** Merging, continued from the open part `current` over the parts `rest` not yet read. */
  function MergeFrom(current: TextPart, rest: seq<TextPart>, sep: string): seq<TextPart>
    decreases |rest|
  {
    if rest == [] then [current]
    else if SameRun(current, rest[0]) then
      MergeFrom(current.(text := current.text + (sep + rest[0].text)), rest[1..], sep)
    else [current] + MergeFrom(rest[0], rest[1..], sep)
  }

  /** What `merge_neighbouring_text_parts_of_the_same_type_and_character` returns. */
  function Merged(parts: seq<TextPart>, sep: string): seq<TextPart> {
    if parts == [] then [] else MergeFrom(parts[0], parts[1..], sep)
  }

  /**
   * The merge loop: one open part is extended while the next part has the
   * same type and speaker, and is emitted when a different one arrives.
   */
  method MergeNeighbouringTextParts(textParts: seq<TextPart>, separator: string) returns (merged: seq<TextPart>)
    ensures merged == Merged(textParts, separator)
  {
    merged := [];
    var current: Option<TextPart> := None;
    for i := 0 to |textParts|
      invariant i == 0 <==> current.None?
      invariant i == 0 ==> merged == []
      invariant i > 0 ==> Merged(textParts, separator) == merged + MergeFrom(current.value, textParts[i..], separator)
    {
      var part := textParts[i];
      assert textParts[i..][1..] == textParts[i + 1..];
      if current.None? {
        current := Some(part);
      } else if current.value.characterIdentifier == part.characterIdentifier && current.value.kind == part.kind {
        current := Some(current.value.(text := current.value.text + (separator + part.text)));
      } else {
        merged := merged + [current.value];
        current := Some(part);
      }
    }
    if current.Some? {
      merged := merged + [current.value];
    }
  }

  /** The runs of `parts`, continued from the open run `run` over the parts `rest` not yet read. */
  function RunsFrom(run: seq<TextPart>, rest: seq<TextPart>): (r: seq<seq<TextPart>>)
    requires run != []
    ensures r != [] && forall k :: 0 <= k < |r| ==> r[k] != []
    decreases |rest|
  {
    if rest == [] then [run]
    else if SameRun(run[|run| - 1], rest[0]) then RunsFrom(run + [rest[0]], rest[1..])
    else [run] + RunsFrom([rest[0]], rest[1..])
  }

  /** The maximal runs of neighbouring parts with the same type and speaker. */
  function Runs(parts: seq<TextPart>): (r: seq<seq<TextPart>>)
    ensures forall k :: 0 <= k < |r| ==> r[k] != []
  {
    if parts == [] then [] else RunsFrom([parts[0]], parts[1..])
  }

  function Texts(run: seq<TextPart>): (r: seq<string>)
    ensures |r| == |run|
  {
    seq(|run|, i requires 0 <= i < |run| => run[i].text)
  }

  function Flatten<T>(xs: seq<seq<T>>): seq<T> {
    if xs == [] then [] else xs[0] + Flatten(xs[1..])
  }

  /** Every run is non-empty and of one type and speaker. */
  predicate UniformRun(run: seq<TextPart>) {
    run != [] && forall i :: 0 <= i < |run| ==> SameRun(run[0], run[i])
  }

  lemma {:induction false} JoinAppend(xs: seq<string>, y: string, sep: string)
    requires xs != []
    ensures Join(xs + [y], sep) == Join(xs, sep) + sep + y
    decreases |xs|
  {
    if |xs| > 1 {
      assert (xs + [y])[1..] == xs[1..] + [y];
      JoinAppend(xs[1..], y, sep);
    }
  }

  lemma {:induction false} RunsFromPartition(run: seq<TextPart>, rest: seq<TextPart>)
    requires UniformRun(run)
    ensures Flatten(RunsFrom(run, rest)) == run + rest
    ensures forall k :: 0 <= k < |RunsFrom(run, rest)| ==> UniformRun(RunsFrom(run, rest)[k])
    decreases |rest|
  {
    if rest == [] {
      assert Flatten([run]) == run + Flatten<TextPart>([]);
    } else if SameRun(run[|run| - 1], rest[0]) {
      RunsFromPartition(run + [rest[0]], rest[1..]);
      assert run + [rest[0]] + rest[1..] == run + rest;
    } else {
      RunsFromPartition([rest[0]], rest[1..]);
      var tail := RunsFrom([rest[0]], rest[1..]);
      assert ([run] + tail)[1..] == tail;
      assert [rest[0]] + rest[1..] == rest;
    }
  }

  /** The runs partition the input, in order, into non-empty runs of one type and speaker. */
  lemma RunsPartition(parts: seq<TextPart>)
    ensures Flatten(Runs(parts)) == parts
    ensures forall k :: 0 <= k < |Runs(parts)| ==> UniformRun(Runs(parts)[k])
  {
    if parts != [] {
      RunsFromPartition([parts[0]], parts[1..]);
      assert [parts[0]] + parts[1..] == parts;
    }
  }

  lemma {:induction false} MergeFromIsRuns(current: TextPart, run: seq<TextPart>, rest: seq<TextPart>, sep: string)
    requires run != []
    requires SameHeader(current, run[0]) && SameRun(current, run[|run| - 1])
    requires current.text == Join(Texts(run), sep)
    ensures |MergeFrom(current, rest, sep)| == |RunsFrom(run, rest)|
    ensures forall k :: 0 <= k < |RunsFrom(run, rest)| ==>
      SameHeader(MergeFrom(current, rest, sep)[k], RunsFrom(run, rest)[k][0])
      && MergeFrom(current, rest, sep)[k].text == Join(Texts(RunsFrom(run, rest)[k]), sep)
    decreases |rest|
  {
    if rest != [] {
      if SameRun(current, rest[0]) {
        var next := current.(text := current.text + (sep + rest[0].text));
        assert Texts(run + [rest[0]]) == Texts(run) + [rest[0].text];
        JoinAppend(Texts(run), rest[0].text, sep);
        MergeFromIsRuns(next, run + [rest[0]], rest[1..], sep);
      } else {
        MergeFromIsRuns(rest[0], [rest[0]], rest[1..], sep);
      }
    }
  }

  /**
   * The merge emits one part per run: it keeps the id, type and speaker of
   * the run's first part, and its text is the run's texts joined by `sep`.
   */
  lemma MergedIsRuns(parts: seq<TextPart>, sep: string)
    ensures |Merged(parts, sep)| == |Runs(parts)|
    ensures forall k :: 0 <= k < |Runs(parts)| ==>
      SameHeader(Merged(parts, sep)[k], Runs(parts)[k][0])
      && Merged(parts, sep)[k].text == Join(Texts(Runs(parts)[k]), sep)
  {
    if parts != [] {
      MergeFromIsRuns(parts[0], [parts[0]], parts[1..], sep);
    }
  }

  lemma {:induction false} MergeFromHead(current: TextPart, rest: seq<TextPart>, sep: string)
    ensures MergeFrom(current, rest, sep) != []
    ensures SameHeader(MergeFrom(current, rest, sep)[0], current)
    decreases |rest|
  {
    if rest != [] && SameRun(current, rest[0]) {
      MergeFromHead(current.(text := current.text + (sep + rest[0].text)), rest[1..], sep);
    }
  }

  lemma {:induction false} MergeFromNoAdjacent(current: TextPart, rest: seq<TextPart>, sep: string)
    ensures forall k :: 0 <= k < |MergeFrom(current, rest, sep)| - 1 ==>
      !SameRun(MergeFrom(current, rest, sep)[k], MergeFrom(current, rest, sep)[k + 1])
    ensures |MergeFrom(current, rest, sep)| <= |rest| + 1
    decreases |rest|
  {
    if rest != [] {
      if SameRun(current, rest[0]) {
        MergeFromNoAdjacent(current.(text := current.text + (sep + rest[0].text)), rest[1..], sep);
      } else {
        MergeFromNoAdjacent(rest[0], rest[1..], sep);
        MergeFromHead(rest[0], rest[1..], sep);
      }
    }
  }

  /** No two neighbouring output parts share type and speaker, and the output is no longer than the input. */
  lemma MergedNoAdjacentSameRun(parts: seq<TextPart>, sep: string)
    ensures forall k :: 0 <= k < |Merged(parts, sep)| - 1 ==> !SameRun(Merged(parts, sep)[k], Merged(parts, sep)[k + 1])
    ensures |Merged(parts, sep)| <= |parts|
    ensures parts == [] <==> Merged(parts, sep) == []
    ensures parts != [] ==> SameHeader(Merged(parts, sep)[0], parts[0])
  {
    if parts != [] {
      MergeFromNoAdjacent(parts[0], parts[1..], sep);
      MergeFromHead(parts[0], parts[1..], sep);
    }
  }

  lemma {:induction false} MergeFromConcat(current: TextPart, rest: seq<TextPart>)
    ensures ConcatTexts(MergeFrom(current, rest, "")) == current.text + ConcatTexts(rest)
    decreases |rest|
  {
    if rest == [] {
      ConcatOne(current);
    } else {
      var next := rest[0];
      var tail := rest[1..];
      assert [next] + tail == rest;
      ConcatTextsCons(next, tail);
      if SameRun(current, next) {
        var grown := current.(text := current.text + ("" + next.text));
        MergeFromConcat(grown, tail);
        assert grown.text + ConcatTexts(tail) == current.text + (next.text + ConcatTexts(tail));
      } else {
        MergeFromConcat(next, tail);
        ConcatTextsCons(current, MergeFrom(next, tail, ""));
      }
    }
  }

  /** With the default empty separator the merged parts spell the same text. */
  lemma MergedKeepsText(parts: seq<TextPart>)
    ensures ConcatTexts(Merged(parts, "")) == ConcatTexts(parts)
  {
    if parts != [] {
      MergeFromConcat(parts[0], parts[1..]);
      ConcatTextsCons(parts[0], parts[1..]);
      assert [parts[0]] + parts[1..] == parts;
    }
  }

  // ---------------------------------------------------------------------------
  // Index array to ranges
  // ---------------------------------------------------------------------------

  /** The positions `i < n` whose gap `a[i+1] - a[i]` exceeds 1, ascending. */
  function GapsBelow(a: seq<int>, n: nat): (r: seq<nat>)
    requires n < |a|
    ensures forall j :: 0 <= j < |r| ==> r[j] < n && a[r[j] + 1] - a[r[j]] > 1
  {
    if n == 0 then [] else GapsBelow(a, n - 1) + (if a[n] - a[n - 1] > 1 then [n - 1] else [])
  }

  lemma {:induction false} GapsBelowAscending(a: seq<int>, n: nat, i: nat, j: nat)
    requires n < |a| && i < j < |GapsBelow(a, n)|
    ensures GapsBelow(a, n)[i] < GapsBelow(a, n)[j]
  {
    var prev := GapsBelow(a, n - 1);
    assert GapsBelow(a, n)[i] == prev[i];
    if j < |prev| {
      GapsBelowAscending(a, n - 1, i, j);
    }
  }

  /** `np.where(np.diff(a) > 1)[0]`. */
  function SplitIndices(a: seq<int>): (r: seq<nat>)
    ensures forall j :: 0 <= j < |r| ==> r[j] + 1 < |a| && a[r[j] + 1] - a[r[j]] > 1
  {
    if |a| <= 1 then [] else GapsBelow(a, |a| - 1)
  }

  /** The split points come in ascending order. */
  lemma SplitIndicesAscending(a: seq<int>, i: nat, j: nat)
    requires i < j < |SplitIndices(a)|
    ensures SplitIndices(a)[i] < SplitIndices(a)[j]
  {
    GapsBelowAscending(a, |a| - 1, i, j);
  }

  lemma {:induction false} GapsBelowComplete(a: seq<int>, n: nat, i: nat)
    requires n < |a| && i < n && a[i + 1] - a[i] > 1
    ensures i in GapsBelow(a, n)
  {
    if i < n - 1 {
      GapsBelowComplete(a, n - 1, i);
    }
  }

  /** The split points are exactly the positions whose gap to the next value exceeds 1. */
  lemma SplitIndicesExact(a: seq<int>, i: nat)
    requires i + 1 < |a|
    ensures i in SplitIndices(a) <==> a[i + 1] - a[i] > 1
  {
    var r := SplitIndices(a);
    if a[i + 1] - a[i] > 1 {
      GapsBelowComplete(a, |a| - 1, i);
    } else {
      forall j | 0 <= j < |r| ensures r[j] != i {
        assert a[r[j] + 1] - a[r[j]] > 1;
      }
    }
  }

  /** Index into `a` of the first element of range `k`. */
  function RangeStart(a: seq<int>, k: nat): (r: nat)
    requires k <= |SplitIndices(a)|
    requires a != []
    ensures r < |a|
  {
    if k == 0 then 0 else SplitIndices(a)[k - 1] + 1
  }

  /** Index into `a` of the last element of range `k`. */
  function RangeLast(a: seq<int>, k: nat): (r: nat)
    requires k <= |SplitIndices(a)|
    requires a != []
    ensures r < |a|
  {
    if k < |SplitIndices(a)| then SplitIndices(a)[k] else |a| - 1
  }

  /**
   * Range `k`: `(first, last + 1)` for every range but the last, which is
   * `(first, last)`.
   */
  function Range(a: seq<int>, k: nat): (int, int)
    requires a != [] && k <= |SplitIndices(a)|
  {
    (a[RangeStart(a, k)], if k < |SplitIndices(a)| then a[RangeLast(a, k)] + 1 else a[RangeLast(a, k)])
  }

  /** The first `j` ranges. */
  function RangesBelow(a: seq<int>, j: nat): (r: seq<(int, int)>)
    requires a != [] && j <= |SplitIndices(a)| + 1
    ensures |r| == j
    ensures forall k :: 0 <= k < j ==> r[k] == Range(a, k)
  {
    if j == 0 then [] else RangesBelow(a, j - 1) + [Range(a, j - 1)]
  }

  /** The ranges of an array, one per run of consecutive values. */
  function Ranges(a: seq<int>): (r: seq<(int, int)>)
    ensures a != [] ==> |r| == |SplitIndices(a)| + 1
    ensures a == [] ==> r == []
  {
    if a == [] then [] else RangesBelow(a, |SplitIndices(a)| + 1)
  }

  /** `array_to_ranges`: sorts the array, then walks the split points. */
  method ArrayToRanges(arr: seq<int>) returns (ranges: seq<(int, int)>)
    ensures ranges == Ranges(SortBy(arr, IntKey))
  {
    if |arr| == 0 {
      assert arr == [];
      return [];
    }
    var a := SortBy(arr, IntKey);
    assert |a| == |arr| by {
      assert |multiset(a)| == |multiset(arr)|;
    }
    ranges := WalkSplits(a);
  }

  /** The loop over the split points of a sorted, non-empty array, and the last range after it. */
  method WalkSplits(a: seq<int>) returns (ranges: seq<(int, int)>)
    requires a != []
    ensures ranges == Ranges(a)
  {
    var splitIndices := SplitIndices(a);
    ranges := [];
    var startIdx := 0;
    for j := 0 to |splitIndices|
      invariant startIdx == RangeStart(a, j)
      invariant ranges == RangesBelow(a, j)
    {
      var endIdx := splitIndices[j];
      RangeBeforeSplit(a, j);
      ranges := ranges + [(a[startIdx], a[endIdx] + 1)];
      startIdx := endIdx + 1;
    }
    RangeAfterSplits(a);
    ranges := ranges + [(a[startIdx], a[|a| - 1])];
  }

  /** A range that ends at split point `j` runs one past the value there. */
  lemma RangeBeforeSplit(a: seq<int>, j: nat)
    requires a != [] && j < |SplitIndices(a)|
    ensures Range(a, j) == (a[RangeStart(a, j)], a[SplitIndices(a)[j]] + 1)
  {
  }

  /** The last range ends at the last value. */
  lemma RangeAfterSplits(a: seq<int>)
    requires a != []
    ensures Range(a, |SplitIndices(a)|) == (a[RangeStart(a, |SplitIndices(a)|)], a[|a| - 1])
  {
  }

  lemma {:induction false} RangeIndicesOrdered(a: seq<int>, k: nat)
    requires a != [] && k <= |SplitIndices(a)|
    ensures RangeStart(a, k) <= RangeLast(a, k)
    ensures k < |SplitIndices(a)| ==> RangeLast(a, k) + 1 == RangeStart(a, k + 1)
  {
    var s := SplitIndices(a);
    if 0 < k < |s| {
      SplitIndicesAscending(a, k - 1, k);
    }
  }

  /** Within a range the first element is at most the last. */
  lemma RangeValuesOrdered(a: seq<int>, k: nat)
    requires Ascending(a) && a != [] && k <= |SplitIndices(a)|
    ensures a[RangeStart(a, k)] <= a[RangeLast(a, k)]
  {
    RangeIndicesOrdered(a, k);
  }

  /** Between range `k` and range `k + 1` the array jumps by more than 1. */
  lemma RangeValuesGap(a: seq<int>, k: nat)
    requires Ascending(a) && a != [] && k < |SplitIndices(a)|
    ensures a[RangeLast(a, k)] + 1 < a[RangeStart(a, k + 1)]
    ensures a[RangeLast(a, k)] + 1 !in a
  {
    RangeIndicesOrdered(a, k);
    var e := SplitIndices(a)[k];
    GapIsAbsent(a, e);
  }

  /** Range `k` of an ascending array is non-empty and, unless last, ends before range `k + 1` starts. */
  lemma RangeAt(a: seq<int>, k: nat)
    requires Ascending(a) && a != [] && k < |Ranges(a)|
    ensures Ranges(a)[k].0 <= Ranges(a)[k].1
    ensures k < |Ranges(a)| - 1 ==> Ranges(a)[k].1 < Ranges(a)[k + 1].0
    ensures k < |Ranges(a)| - 1 ==> Ranges(a)[k].1 - 1 in a && Ranges(a)[k].1 !in a
  {
    RangeValuesOrdered(a, k);
    if k < |SplitIndices(a)| {
      RangeValuesGap(a, k);
    }
  }

  /** Past a gap larger than 1, the value one above the gap's left end is absent. */
  lemma GapIsAbsent(a: seq<int>, e: nat)
    requires Ascending(a) && e + 1 < |a| && a[e + 1] - a[e] > 1
    ensures a[e] + 1 !in a
  {
    forall j | 0 <= j < |a|
      ensures a[j] != a[e] + 1
    {
      if j <= e {
        assert a[j] <= a[e];
      } else {
        assert a[e + 1] <= a[j];
      }
    }
  }

  /**
   * The ranges of a sorted, non-empty array are ascending and disjoint, the
   * first starts at the minimum and the last ends at the maximum. Every range
   * but the last ends one past its last element, a value absent from the
   * array; the last range ends at its last element, the maximum.
   */
  lemma RangesOrdered(a: seq<int>)
    requires Ascending(a) && a != []
    ensures Ranges(a)[0].0 == a[0]
    ensures Ranges(a)[|Ranges(a)| - 1].1 == a[|a| - 1]
    ensures forall k :: 0 <= k < |Ranges(a)| ==> Ranges(a)[k].0 <= Ranges(a)[k].1
    ensures forall k :: 0 <= k < |Ranges(a)| - 1 ==> Ranges(a)[k].1 < Ranges(a)[k + 1].0
    ensures forall k :: 0 <= k < |Ranges(a)| - 1 ==> Ranges(a)[k].1 - 1 in a && Ranges(a)[k].1 !in a
  {
    forall k | 0 <= k < |Ranges(a)|
      ensures Ranges(a)[k].0 <= Ranges(a)[k].1
      ensures k < |Ranges(a)| - 1 ==> Ranges(a)[k].1 < Ranges(a)[k + 1].0
      ensures k < |Ranges(a)| - 1 ==> Ranges(a)[k].1 - 1 in a && Ranges(a)[k].1 !in a
    {
      RangeAt(a, k);
    }
  }

  /** A repeated value never splits a range: only gaps larger than 1 do. */
  lemma DuplicatesDoNotSplit(a: seq<int>, i: nat)
    requires i + 1 < |a| && a[i] == a[i + 1]
    ensures i !in SplitIndices(a)
  {
    SplitIndicesExact(a, i);
  }
}
