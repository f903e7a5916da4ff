/**
 * The quotation extraction and attribution evaluator: it flattens a
 * predicted and a ground-truth part list into texts with per-character
 * labels, projects the predicted labels onto the ground-truth text with a
 * character edit script, and scores the quote masks (intersection over
 * union) and the speaker attribution of overlapping quotes, in both
 * directions.
 */
module QuotationEvaluation {
  import opened Wrappers
  import opened TextParts
  import opened PyStrings
  import opened Sorting
  import opened SegmentUtils
  import opened EditScripts

  // ---------------------------------------------------------------------------
  // Flattening a part list
  // ---------------------------------------------------------------------------

  /** The label a part gives its characters: its id, or 0 for narration when only quotes are labelled. */
  function PartLabel(p: TextPart, quotesOnly: bool): int {
    if quotesOnly && p.kind != Quote then 0 else p.id
  }

  /** `n` copies of `v`. */
  function Repeat(v: int, n: nat): (r: seq<int>)
    ensures |r| == n
    ensures forall i :: 0 <= i < n ==> r[i] == v
  {
    if n == 0 then [] else Repeat(v, n - 1) + [v]
  }

  /** One label per character of the flattened text, part after part. */
  function Labels(parts: seq<TextPart>, quotesOnly: bool): (r: seq<int>)
    ensures |r| == |ConcatTexts(parts)|
  {
    if parts == [] then []
    else
      var last := parts[|parts| - 1];
      Labels(parts[..|parts| - 1], quotesOnly) + Repeat(PartLabel(last, quotesOnly), |last.text|)
  }

  /** Position in the flattened text of the first character of part `k`. */
  function Offset(parts: seq<TextPart>, k: nat): nat
    requires k <= |parts|
  {
    |ConcatTexts(parts[..k])|
  }

  lemma {:induction false} LabelsAppend(a: seq<TextPart>, b: seq<TextPart>, quotesOnly: bool)
    ensures Labels(a + b, quotesOnly) == Labels(a, quotesOnly) + Labels(b, quotesOnly)
    decreases |b|
  {
    if b == [] {
      assert a + b == a;
    } else {
      assert (a + b)[..|a + b| - 1] == a + b[..|b| - 1];
      LabelsAppend(a, b[..|b| - 1], quotesOnly);
    }
  }

  lemma LabelsSplit(parts: seq<TextPart>, k: nat, quotesOnly: bool)
    requires k <= |parts|
    ensures Labels(parts, quotesOnly) == Labels(parts[..k], quotesOnly) + Labels(parts[k..], quotesOnly)
  {
    assert parts == parts[..k] + parts[k..];
    LabelsAppend(parts[..k], parts[k..], quotesOnly);
  }

  lemma LabelsPrefixStep(parts: seq<TextPart>, k: nat, quotesOnly: bool)
    requires k < |parts|
    ensures Labels(parts[..k + 1], quotesOnly) == Labels(parts[..k], quotesOnly) + Repeat(PartLabel(parts[k], quotesOnly), |parts[k].text|)
  {
    assert parts[..k + 1][..k] == parts[..k];
  }

  /** Part `k + 1` starts where part `k` ends. */
  lemma OffsetStep(parts: seq<TextPart>, k: nat)
    requires k < |parts|
    ensures Offset(parts, k + 1) == Offset(parts, k) + |parts[k].text|
    ensures Offset(parts, k + 1) <= |ConcatTexts(parts)|
    ensures Labels(parts[..k + 1], true) == Labels(parts[..k], true) + Repeat(PartLabel(parts[k], true), |parts[k].text|)
    ensures Labels(parts[..k + 1], false) == Labels(parts[..k], false) + Repeat(PartLabel(parts[k], false), |parts[k].text|)
  {
    ConcatSplit(parts, k + 1);
    ConcatPrefixStep(parts, k);
    LabelsPrefixStep(parts, k, true);
    LabelsPrefixStep(parts, k, false);
  }

  /** Part `k` occupies the characters `Offset(parts, k)` up to `Offset(parts, k + 1)` of the flattened text. */
  lemma PartText(parts: seq<TextPart>, k: nat)
    requires k < |parts|
    ensures Offset(parts, k + 1) == Offset(parts, k) + |parts[k].text| <= |ConcatTexts(parts)|
    ensures ConcatTexts(parts)[Offset(parts, k)..Offset(parts, k + 1)] == parts[k].text
  {
    ConcatSplit(parts, k + 1);
    ConcatPrefixStep(parts, k);
    SliceMiddle(ConcatTexts(parts[..k]), parts[k].text, ConcatTexts(parts[k + 1..]));
  }

  lemma SliceMiddle<T>(x: seq<T>, t: seq<T>, y: seq<T>)
    ensures (x + t + y)[|x|..|x| + |t|] == t
  {
  }

  lemma RepeatMiddle(x: seq<int>, v: int, n: nat, y: seq<int>)
    ensures forall i :: |x| <= i < |x| + n ==> (x + Repeat(v, n) + y)[i] == v
  {
  }

  /** Every character of part `k` carries the part's label. */
  lemma PartLabels(parts: seq<TextPart>, k: nat, quotesOnly: bool)
    requires k < |parts|
    ensures Offset(parts, k + 1) == Offset(parts, k) + |parts[k].text| <= |Labels(parts, quotesOnly)|
    ensures forall i :: Offset(parts, k) <= i < Offset(parts, k + 1) ==> Labels(parts, quotesOnly)[i] == PartLabel(parts[k], quotesOnly)
  {
    PartText(parts, k);
    LabelsSplit(parts, k + 1, quotesOnly);
    LabelsPrefixStep(parts, k, quotesOnly);
    RepeatMiddle(Labels(parts[..k], quotesOnly), PartLabel(parts[k], quotesOnly), |parts[k].text|, Labels(parts[k + 1..], quotesOnly));
  }

  /**
   * `_text_parts_to_text_and_mask`: the flattened text, the quote-id array
   * (the part's id on quote characters, 0 elsewhere) and the part-id array.
   */
  method TextPartsToTextAndMask(textParts: seq<TextPart>) returns (fullText: string, quotesMask: seq<int>, partIds: seq<int>)
    ensures fullText == ConcatTexts(textParts)
    ensures quotesMask == Labels(textParts, true)
    ensures partIds == Labels(textParts, false)
  {
    fullText := ConcatTexts(textParts);
    var quotes := new int[|fullText|](_ => 0);
    var ids := new int[|fullText|](_ => 0);
    var start := 0;
    for k := 0 to |textParts|
      invariant start == Offset(textParts, k) <= |fullText|
      invariant quotes[..start] == Labels(textParts[..k], true)
      invariant ids[..start] == Labels(textParts[..k], false)
      invariant forall i :: start <= i < quotes.Length ==> quotes[i] == 0
    {
      OffsetStep(textParts, k);
      FillPart(quotes, ids, start, textParts[k]);
      start := start + |textParts[k].text|;
      assert quotes[..start] == Labels(textParts[..k + 1], true);
      assert ids[..start] == Labels(textParts[..k + 1], false);
    }
    assert textParts[..|textParts|] == textParts;
    assert quotes[..] == quotes[..start];
    assert ids[..] == ids[..start];
    quotesMask := quotes[..];
    partIds := ids[..];
  }

  /** The loop body: the part's id over its characters in both arrays, in the quote array only for a quote. */
  method FillPart(quotes: array<int>, ids: array<int>, start: nat, part: TextPart)
    requires quotes != ids && start + |part.text| <= quotes.Length == ids.Length
    requires forall i :: start <= i < quotes.Length ==> quotes[i] == 0
    modifies quotes, ids
    ensures quotes[..start + |part.text|] == old(quotes[..start]) + Repeat(PartLabel(part, true), |part.text|)
    ensures ids[..start + |part.text|] == old(ids[..start]) + Repeat(PartLabel(part, false), |part.text|)
    ensures forall i :: start + |part.text| <= i < quotes.Length ==> quotes[i] == 0
  {
    var end := start + |part.text|;
    if part.kind == Quote {
      Fill(quotes, start, end, part.id);
    } else {
      assert quotes[start..end] == Repeat(0, end - start);
      assert quotes[..end] == quotes[..start] + quotes[start..end];
    }
    Fill(ids, start, end, part.id);
  }

  /** NumPy's slice assignment `a[start:end] = v`; the elements outside the slice keep their values. */
  method Fill(a: array<int>, start: nat, end: nat, v: int)
    requires start <= end <= a.Length
    modifies a
    ensures forall i :: 0 <= i < a.Length ==> a[i] == if start <= i < end then v else old(a[i])
    ensures a[..end] == old(a[..start]) + Repeat(v, end - start)
  {
    forall i | start <= i < end {
      a[i] := v;
    }
    assert a[start..end] == Repeat(v, end - start);
    assert a[..end] == a[..start] + a[start..end];
  }

  /** Every non-zero label is the id of some part. */
  predicate IdsKnown(labels: seq<int>, parts: seq<TextPart>) {
    forall x :: x in labels && x != 0 ==> exists k :: 0 <= k < |parts| && parts[k].id == x
  }

  lemma {:induction false} LabelsIdsKnown(parts: seq<TextPart>, quotesOnly: bool)
    ensures IdsKnown(Labels(parts, quotesOnly), parts)
    decreases |parts|
  {
    if parts != [] {
      var n := |parts| - 1;
      LabelsIdsKnown(parts[..n], quotesOnly);
      forall x | x in Labels(parts, quotesOnly) && x != 0
        ensures exists k :: 0 <= k < |parts| && parts[k].id == x
      {
        if x in Labels(parts[..n], quotesOnly) {
          var k :| 0 <= k < n && parts[..n][k].id == x;
          assert parts[k].id == x;
        } else {
          assert parts[n].id == x;
        }
      }
    }
  }

  // ---------------------------------------------------------------------------
  // Quote masks
  // ---------------------------------------------------------------------------

  /** `np.sum(np.logical_and(a.astype(bool), b.astype(bool)))`. */
  function InterCount(a: seq<int>, b: seq<int>): nat
    requires |a| == |b|
  {
    if a == [] then 0
    else InterCount(a[..|a| - 1], b[..|b| - 1]) + (if a[|a| - 1] != 0 && b[|b| - 1] != 0 then 1 else 0)
  }

  /** `np.sum(np.logical_or(a.astype(bool), b.astype(bool)))`. */
  function UnionCount(a: seq<int>, b: seq<int>): nat
    requires |a| == |b|
  {
    if a == [] then 0
    else UnionCount(a[..|a| - 1], b[..|b| - 1]) + (if a[|a| - 1] != 0 || b[|b| - 1] != 0 then 1 else 0)
  }

  /** Number of positions quoted on exactly one side: `np.sum(np.logical_xor(...))`. */
  function XorCount(a: seq<int>, b: seq<int>): nat
    requires |a| == |b|
  {
    if a == [] then 0
    else XorCount(a[..|a| - 1], b[..|b| - 1]) + (if (a[|a| - 1] != 0) != (b[|b| - 1] != 0) then 1 else 0)
  }

  /** The intersection never exceeds the union, the union never exceeds the length, and the mistakes are the union minus the intersection. */
  lemma {:induction false} CountsRelate(a: seq<int>, b: seq<int>)
    requires |a| == |b|
    ensures InterCount(a, b) <= UnionCount(a, b) <= |a|
    ensures XorCount(a, b) == UnionCount(a, b) - InterCount(a, b)
    ensures InterCount(a, b) == InterCount(b, a) && UnionCount(a, b) == UnionCount(b, a)
    decreases |a|
  {
    if a != [] {
      CountsRelate(a[..|a| - 1], b[..|b| - 1]);
    }
  }

  /** A count over a larger positive count is a ratio in [0, 1], equal to 1 exactly when the counts agree. */
  lemma RatioBounds(c: nat, t: nat)
    requires c <= t && 0 < t
    ensures 0.0 <= c as real / t as real <= 1.0
    ensures c as real / t as real == 1.0 <==> c == t
  {
    var x := c as real / t as real;
    assert x * t as real == c as real;
  }

  lemma RatioNonNegative(c: nat, t: nat)
    requires 0 < t
    ensures 0.0 <= c as real / t as real
  {
    var x := c as real / t as real;
    assert x * t as real == c as real;
  }

  /** Intersection over union of the two quote masks, 0.0 when nothing is quoted. */
  function IoU(a: seq<int>, b: seq<int>): real
    requires |a| == |b|
  {
    if UnionCount(a, b) > 0 then InterCount(a, b) as real / UnionCount(a, b) as real else 0.0
  }

  /** The score lies in [0, 1], is symmetric, and is 1 exactly when something is quoted and the masks agree everywhere. */
  lemma IoUBounds(a: seq<int>, b: seq<int>)
    requires |a| == |b|
    ensures 0.0 <= IoU(a, b) <= 1.0
    ensures IoU(a, b) == IoU(b, a)
    ensures IoU(a, b) == 1.0 <==> UnionCount(a, b) > 0 && XorCount(a, b) == 0
  {
    CountsRelate(a, b);
    if UnionCount(a, b) > 0 {
      RatioBounds(InterCount(a, b), UnionCount(a, b));
    }
  }

  /** `np.where(np.logical_xor(a.astype(bool), b.astype(bool)))[0]`: the mistake positions. */
  function MistakePositions(a: seq<int>, b: seq<int>): (r: seq<int>)
    requires |a| == |b|
    ensures |r| == XorCount(a, b)
    ensures forall k :: 0 <= k < |r| ==> 0 <= r[k] < |a|
  {
    if a == [] then []
    else
      var n := |a| - 1;
      MistakePositions(a[..n], b[..n]) + (if (a[n] != 0) != (b[n] != 0) then [n] else [])
  }

  /** The mistake positions are, in ascending order, exactly the positions where one mask is set and the other is not. */
  lemma {:induction false} MistakePositionsSpec(a: seq<int>, b: seq<int>)
    requires |a| == |b|
    ensures forall i :: i in MistakePositions(a, b) <==> 0 <= i < |a| && (a[i] != 0) != (b[i] != 0)
    ensures StrictlyAscending(MistakePositions(a, b))
    decreases |a|
  {
    if a != [] {
      var n := |a| - 1;
      var init := MistakePositions(a[..n], b[..n]);
      MistakePositionsSpec(a[..n], b[..n]);
      var tail := if (a[n] != 0) != (b[n] != 0) then [n] else [];
      assert MistakePositions(a, b) == init + tail;
      forall i | 0 <= i < n ensures a[..n][i] == a[i] && b[..n][i] == b[i] {
      }
    }
  }

  // ---------------------------------------------------------------------------
  // Attribution statistics
  // ---------------------------------------------------------------------------

  /** One entry of a stats list: the quote scored, its counterpart if any, and whether their speakers agree. */
  datatype AttributionStat = AttributionStat(quote: TextPart, matched: Option<TextPart>, correct: bool)

  /** `next((part for part in parts if part.id == id), None)`. */
  function FirstWithId(parts: seq<TextPart>, id: int): (r: Option<TextPart>)
    ensures r.None? <==> forall k :: 0 <= k < |parts| ==> parts[k].id != id
    ensures r.Some? ==> r.value in parts && r.value.id == id
    ensures r.Some? ==> exists k :: 0 <= k < |parts| && parts[k] == r.value && forall j :: 0 <= j < k ==> parts[j].id != id
  {
    if parts == [] then None
    else if parts[0].id == id then Some(parts[0])
    else
      var rest := FirstWithId(parts[1..], id);
      assert rest.Some? ==> exists k :: 0 <= k < |parts| && parts[k] == rest.value && forall j :: 0 <= j < k ==> parts[j].id != id by {
        if rest.Some? {
          var k :| 0 <= k < |parts[1..]| && parts[1..][k] == rest.value && forall j :: 0 <= j < k ==> parts[1..][j].id != id;
          assert parts[k + 1] == rest.value && forall j :: 0 <= j < k + 1 ==> parts[j].id != id;
        }
      }
      rest
  }

  /** `other * (side == qid)`: the other side's labels where this side carries `qid`, 0 elsewhere. */
  function MatchedMask(side: seq<int>, qid: int, other: seq<int>): seq<int>
    requires |side| == |other|
  {
    seq(|side|, i requires 0 <= i < |side| => if side[i] == qid then other[i] else 0)
  }

  /** The non-zero values of `s`, in order. */
  function NonZero(s: seq<int>): (r: seq<int>)
    ensures forall x :: x in r <==> x in s && x != 0
  {
    if s == [] then []
    else NonZero(s[..|s| - 1]) + (if s[|s| - 1] != 0 then [s[|s| - 1]] else [])
  }

  /** The inner loop over the matched ids of one quote: 0 is skipped, an unknown id is a `ValueError`. */
  function MatchStats(q: TextPart, ids: seq<int>, otherParts: seq<TextPart>): Result<seq<AttributionStat>, string> {
    if ids == [] then Ok([])
    else
      var init :- MatchStats(q, ids[..|ids| - 1], otherParts);
      var id := ids[|ids| - 1];
      if id == 0 then Ok(init)
      else
        match FirstWithId(otherParts, id)
        case None => Err("ValueError: quote id not found")
        case Some(m) => Ok(init + [AttributionStat(q, Some(m), q.characterIdentifier == m.characterIdentifier)])
  }

  /** The stats of one quote: a "no match" entry when `np.unique` finds nothing, then one entry per matched id. */
  function QuoteStats(q: TextPart, side: seq<int>, other: seq<int>, otherParts: seq<TextPart>): Result<seq<AttributionStat>, string>
    requires |side| == |other|
  {
    var ids := Unique(MatchedMask(side, q.id, other));
    var first := if |ids| == 0 then [AttributionStat(q, None, false)] else [];
    var rest :- MatchStats(q, ids, otherParts);
    Ok(first + rest)
  }

  /** The stats of every quote of `sideParts`, in order; narration adds nothing. */
  function AllStats(sideParts: seq<TextPart>, side: seq<int>, other: seq<int>, otherParts: seq<TextPart>): Result<seq<AttributionStat>, string>
    requires |side| == |other|
  {
    if sideParts == [] then Ok([])
    else
      var init :- AllStats(sideParts[..|sideParts| - 1], side, other, otherParts);
      var q := sideParts[|sideParts| - 1];
      if q.kind == Quote then
        var s :- QuoteStats(q, side, other, otherParts);
        Ok(init + s)
      else Ok(init)
  }

  /** The inner loop over the matched ids of one quote. */
  method MatchedQuoteStats(q: TextPart, ids: seq<int>, otherParts: seq<TextPart>) returns (r: Result<seq<AttributionStat>, string>)
    ensures r == MatchStats(q, ids, otherParts)
  {
    var stats: seq<AttributionStat> := [];
    for t := 0 to |ids|
      invariant MatchStats(q, ids[..t], otherParts) == Ok(stats)
    {
      MatchStatsStep(q, ids, t, otherParts);
      var id := ids[t];
      if id != 0 {
        var m := FirstWithId(otherParts, id);
        if m.None? {
          assert ids == ids[..t + 1] + ids[t + 1..];
          MatchStatsErrSticks(q, ids[..t + 1], ids[t + 1..], otherParts);
          return Err("ValueError: quote id not found");
        }
        stats := stats + [AttributionStat(q, m, q.characterIdentifier == m.value.characterIdentifier)];
      }
    }
    assert ids[..|ids|] == ids;
    r := Ok(stats);
  }

  /** The body of an attribution loop for one quote: the "no match" entry, then the matched ids. */
  method QuoteAttributionStats(q: TextPart, side: seq<int>, other: seq<int>, otherParts: seq<TextPart>)
    returns (r: Result<seq<AttributionStat>, string>)
    requires |side| == |other|
    ensures r == QuoteStats(q, side, other, otherParts)
  {
    var ids := Unique(MatchedMask(side, q.id, other));
    var first: seq<AttributionStat> := [];
    if |ids| == 0 {
      first := [AttributionStat(q, None, false)];
    }
    var matched := MatchedQuoteStats(q, ids, otherParts);
    if matched.Err? {
      return Err(matched.error);
    }
    r := Ok(first + matched.value);
  }

  lemma MatchStatsStep(q: TextPart, ids: seq<int>, t: nat, otherParts: seq<TextPart>)
    requires t < |ids| && MatchStats(q, ids[..t], otherParts).Ok?
    ensures var init := MatchStats(q, ids[..t], otherParts).value;
      MatchStats(q, ids[..t + 1], otherParts) ==
        if ids[t] == 0 then Ok(init)
        else if FirstWithId(otherParts, ids[t]).None? then Err("ValueError: quote id not found")
        else Ok(init + [AttributionStat(q, FirstWithId(otherParts, ids[t]), q.characterIdentifier == FirstWithId(otherParts, ids[t]).value.characterIdentifier)])
  {
    assert ids[..t + 1][..t] == ids[..t];
  }

  /**
   * One of the two attribution loops: `sideParts` with labels `side` are
   * matched against `otherParts` with labels `other`.
   */
  method AttributionStats(sideParts: seq<TextPart>, side: seq<int>, other: seq<int>, otherParts: seq<TextPart>)
    returns (r: Result<seq<AttributionStat>, string>)
    requires |side| == |other|
    ensures r == AllStats(sideParts, side, other, otherParts)
  {
    var stats: seq<AttributionStat> := [];
    for k := 0 to |sideParts|
      invariant AllStats(sideParts[..k], side, other, otherParts) == Ok(stats)
    {
      var q := sideParts[k];
      AllStatsStep(sideParts, k, side, other, otherParts);
      if q.kind == Quote {
        var quoteStats := QuoteAttributionStats(q, side, other, otherParts);
        if quoteStats.Err? {
          AllStatsErrAt(sideParts, k, side, other, otherParts);
          return Err(quoteStats.error);
        }
        stats := stats + quoteStats.value;
      }
    }
    assert sideParts[..|sideParts|] == sideParts;
    r := Ok(stats);
  }

  lemma AllStatsStep(sideParts: seq<TextPart>, k: nat, side: seq<int>, other: seq<int>, otherParts: seq<TextPart>)
    requires k < |sideParts| && |side| == |other| && AllStats(sideParts[..k], side, other, otherParts).Ok?
    ensures var init := AllStats(sideParts[..k], side, other, otherParts).value;
      var q := sideParts[k];
      AllStats(sideParts[..k + 1], side, other, otherParts) ==
        if q.kind != Quote then Ok(init)
        else if QuoteStats(q, side, other, otherParts).Err? then QuoteStats(q, side, other, otherParts).PropagateFailure()
        else Ok(init + QuoteStats(q, side, other, otherParts).value)
  {
    assert sideParts[..k + 1][..k] == sideParts[..k];
  }

  /** A failure at part `k` is the failure of the whole loop. */
  lemma AllStatsErrAt(sideParts: seq<TextPart>, k: nat, side: seq<int>, other: seq<int>, otherParts: seq<TextPart>)
    requires k < |sideParts| && |side| == |other| && AllStats(sideParts[..k + 1], side, other, otherParts).Err?
    ensures AllStats(sideParts, side, other, otherParts) == AllStats(sideParts[..k + 1], side, other, otherParts)
  {
    assert sideParts == sideParts[..k + 1] + sideParts[k + 1..];
    AllStatsErrSticks(sideParts[..k + 1], sideParts[k + 1..], side, other, otherParts);
  }

  lemma {:induction false} AllStatsErrSticks(a: seq<TextPart>, b: seq<TextPart>, side: seq<int>, other: seq<int>, otherParts: seq<TextPart>)
    requires |side| == |other| && AllStats(a, side, other, otherParts).Err?
    ensures AllStats(a + b, side, other, otherParts) == AllStats(a, side, other, otherParts)
    decreases |b|
  {
    if b == [] {
      assert a + b == a;
    } else {
      assert (a + b)[..|a + b| - 1] == a + b[..|b| - 1];
      AllStatsErrSticks(a, b[..|b| - 1], side, other, otherParts);
    }
  }

  lemma {:induction false} MatchStatsErrSticks(q: TextPart, a: seq<int>, b: seq<int>, otherParts: seq<TextPart>)
    requires MatchStats(q, a, otherParts).Err?
    ensures MatchStats(q, a + b, otherParts) == MatchStats(q, a, otherParts)
    decreases |b|
  {
    if b == [] {
      assert a + b == a;
    } else {
      assert (a + b)[..|a + b| - 1] == a + b[..|b| - 1];
      MatchStatsErrSticks(q, a, b[..|b| - 1], otherParts);
    }
  }

  /**
   * The matched entries of one quote: one per non-zero id, in order, each
   * naming a part with that id, correct exactly when the speakers agree.
   */
  lemma {:induction false} MatchStatsShape(q: TextPart, ids: seq<int>, otherParts: seq<TextPart>)
    requires MatchStats(q, ids, otherParts).Ok?
    ensures |MatchStats(q, ids, otherParts).value| == |NonZero(ids)|
    ensures forall k :: 0 <= k < |NonZero(ids)| ==>
      var s := MatchStats(q, ids, otherParts).value[k];
      s.quote == q && s.matched.Some? && s.matched.value in otherParts && s.matched.value.id == NonZero(ids)[k]
      && (s.correct <==> q.characterIdentifier == s.matched.value.characterIdentifier)
    decreases |ids|
  {
    if ids != [] {
      MatchStatsShape(q, ids[..|ids| - 1], otherParts);
    }
  }

  /** An id unknown to the other side is the only way the inner loop fails. */
  lemma {:induction false} MatchStatsOk(q: TextPart, ids: seq<int>, otherParts: seq<TextPart>)
    requires forall k :: 0 <= k < |ids| && ids[k] != 0 ==> exists j :: 0 <= j < |otherParts| && otherParts[j].id == ids[k]
    ensures MatchStats(q, ids, otherParts).Ok?
    decreases |ids|
  {
    if ids != [] {
      MatchStatsOk(q, ids[..|ids| - 1], otherParts);
    }
  }

  /** The non-zero entries of an ascending, duplicate-free list stay ascending. */
  lemma {:induction false} NonZeroAscending(s: seq<int>)
    requires StrictlyAscending(s)
    ensures StrictlyAscending(NonZero(s))
    decreases |s|
  {
    if s != [] {
      NonZeroAscending(s[..|s| - 1]);
      var init := NonZero(s[..|s| - 1]);
      forall i | 0 <= i < |init| ensures init[i] < s[|s| - 1] {
        assert init[i] in init;
        var j :| 0 <= j < |s| - 1 && s[..|s| - 1][j] == init[i];
        assert s[j] == init[i];
      }
    }
  }

  /**
   * For one quote of this side, the matched ids are the distinct non-zero
   * labels the other side carries where this side carries the quote's id,
   * in ascending order; the "no match" entry appears only for an empty text.
   */
  lemma MatchedIds(q: TextPart, side: seq<int>, other: seq<int>)
    requires |side| == |other|
    ensures StrictlyAscending(NonZero(Unique(MatchedMask(side, q.id, other))))
    ensures forall x :: x in NonZero(Unique(MatchedMask(side, q.id, other))) <==>
      x != 0 && exists i :: 0 <= i < |side| && side[i] == q.id && other[i] == x
    ensures |Unique(MatchedMask(side, q.id, other))| == 0 <==> side == []
  {
    var mask := MatchedMask(side, q.id, other);
    var ids := Unique(mask);
    NonZeroAscending(ids);
    forall x ensures x in NonZero(ids) <==> x != 0 && exists i :: 0 <= i < |side| && side[i] == q.id && other[i] == x {
      if x != 0 && x in mask {
        var i :| 0 <= i < |mask| && mask[i] == x;
        assert side[i] == q.id && other[i] == x;
      }
      if x != 0 && exists i :: 0 <= i < |side| && side[i] == q.id && other[i] == x {
        var i :| 0 <= i < |side| && side[i] == q.id && other[i] == x;
        assert mask[i] == x;
      }
    }
    if side != [] {
      assert mask[0] in ids;
    }
  }

  /** When every non-zero label of the other side is the id of one of its parts, no `ValueError` is raised. */
  lemma {:induction false} AllStatsOk(sideParts: seq<TextPart>, side: seq<int>, other: seq<int>, otherParts: seq<TextPart>)
    requires |side| == |other| && IdsKnown(other, otherParts)
    ensures AllStats(sideParts, side, other, otherParts).Ok?
    decreases |sideParts|
  {
    if sideParts != [] {
      AllStatsOk(sideParts[..|sideParts| - 1], side, other, otherParts);
      var q := sideParts[|sideParts| - 1];
      var mask := MatchedMask(side, q.id, other);
      var ids := Unique(mask);
      forall k | 0 <= k < |ids| && ids[k] != 0
        ensures exists j :: 0 <= j < |otherParts| && otherParts[j].id == ids[k]
      {
        assert ids[k] in ids;
        assert ids[k] in mask;
        var i :| 0 <= i < |mask| && mask[i] == ids[k];
        assert other[i] == ids[k] && other[i] in other;
      }
      MatchStatsOk(q, ids, otherParts);
    }
  }

  /** Every entry scores a quote of this side; an entry is correct exactly when it has a counterpart with the same speaker. */
  lemma {:induction false} AllStatsCorrect(sideParts: seq<TextPart>, side: seq<int>, other: seq<int>, otherParts: seq<TextPart>)
    requires |side| == |other| && AllStats(sideParts, side, other, otherParts).Ok?
    ensures forall s :: s in AllStats(sideParts, side, other, otherParts).value ==>
      s.quote in sideParts && s.quote.kind == Quote
      && (s.matched.Some? ==> s.matched.value in otherParts)
      && (s.correct <==> s.matched.Some? && s.quote.characterIdentifier == s.matched.value.characterIdentifier)
    decreases |sideParts|
  {
    if sideParts != [] {
      var n := |sideParts| - 1;
      AllStatsCorrect(sideParts[..n], side, other, otherParts);
      var q := sideParts[n];
      if q.kind == Quote {
        var ids := Unique(MatchedMask(side, q.id, other));
        MatchStatsShape(q, ids, otherParts);
        var ms := MatchStats(q, ids, otherParts).value;
        assert forall s :: s in ms ==>
                 s.quote == q && s.matched.Some? && s.matched.value in otherParts
                 && (s.correct <==> q.characterIdentifier == s.matched.value.characterIdentifier) by {
          forall s | s in ms
            ensures s.quote == q && s.matched.Some? && s.matched.value in otherParts
              && (s.correct <==> q.characterIdentifier == s.matched.value.characterIdentifier)
          {
            var k :| 0 <= k < |ms| && ms[k] == s;
          }
        }
      }
      forall s | s in AllStats(sideParts[..n], side, other, otherParts).value ensures s.quote in sideParts {
        assert s.quote in sideParts[..n];
      }
    }
  }

  function CorrectCount(stats: seq<AttributionStat>): (r: nat)
    ensures r <= |stats|
  {
    if stats == [] then 0 else CorrectCount(stats[..|stats| - 1]) + (if stats[|stats| - 1].correct then 1 else 0)
  }

  /** Correct entries over all entries, 0.0 for an empty list. */
  function Accuracy(stats: seq<AttributionStat>): (r: real)
    ensures 0.0 <= r <= 1.0
    ensures r == 1.0 <==> stats != [] && CorrectCount(stats) == |stats|
  {
    if |stats| > 0 then
      RatioBounds(CorrectCount(stats), |stats|);
      CorrectCount(stats) as real / |stats| as real
    else 0.0
  }

  // ---------------------------------------------------------------------------
  // The evaluator's run
  // ---------------------------------------------------------------------------

  /** A value written into the additional attributes: a score, or the empty score list `[]`. */
  datatype Metric = Score(value: real) | NoScores

  /** `[part for part in parts if part.text.strip() + " "]`. */
  function FilterParts(parts: seq<TextPart>): seq<TextPart> {
    if parts == [] then []
    else
      var last := parts[|parts| - 1];
      FilterParts(parts[..|parts| - 1]) + (if Strip(last.text) + " " != "" then [last] else [])
  }

  /** The filter keeps every part: a string plus a space is never empty. */
  lemma {:induction false} FilterKeepsAll(parts: seq<TextPart>)
    ensures FilterParts(parts) == parts
    decreases |parts|
  {
    if parts != [] {
      FilterKeepsAll(parts[..|parts| - 1]);
      var last := parts[|parts| - 1];
      var kept := Strip(last.text) + " ";
      assert kept[|kept| - 1] == ' ';
      assert parts == parts[..|parts| - 1] + [last];
    }
  }

  function Max(a: nat, b: nat): nat {
    if a < b then b else a
  }

  /**
   * The full evaluation of two merged, non-degenerate part lists (the part
   * of `run` after merging). `editops` stands for `Levenshtein.editops`.
   */
  function MergedScores(predMerged: seq<TextPart>, gtMerged: seq<TextPart>,
                        editops: (string, string) -> seq<EditOp>): Result<map<string, Metric>, string>
  {
    var gtText := ConcatTexts(gtMerged);
    var predText := ConcatTexts(predMerged);
    var gtQuotes := Labels(gtMerged, true);
    var ops := editops(predText, gtText);
    var longest := Max(|predText|, |gtText|);
    if longest == 0 then Err("ZeroDivisionError")
    else
      var projected :- Project(Labels(predMerged, true), ops);
      if |projected| != |gtQuotes| then Err("ValueError: shapes differ")
      else
        var predStats :- AllStats(predMerged, projected, gtQuotes, gtMerged);
        var gtStats :- AllStats(gtMerged, gtQuotes, projected, predMerged);
        Ok(map["relative_text_parts_to_gt_edit_distance" := Score(|ops| as real / longest as real),
               "quotation_iou_score" := Score(IoU(gtQuotes, projected)),
               "matched_quotes_accuracy" := Score(Accuracy(predStats)),
               "gt_matched_quotes_accuracy" := Score(Accuracy(gtStats))])
  }

  /**
   * Everything `run` writes into the additional attributes, or the exception
   * it raises. `removeDuplicateSpaces` stands for the helper of that name.
   */
  function Evaluation(pred: seq<TextPart>, gt: seq<TextPart>,
                      removeDuplicateSpaces: seq<TextPart> -> seq<TextPart>,
                      editops: (string, string) -> seq<EditOp>): Result<map<string, Metric>, string>
  {
    if pred == [] && gt == [] then
      Ok(map["iou_quotation_score" := Score(1.0), "iou_quotation_scores" := NoScores])
    else if pred == [] || gt == [] then
      Ok(map["iou_quotation_score" := Score(0.0), "iou_quotation_scores" := NoScores])
    else
      MergedScores(Merged(removeDuplicateSpaces(FilterParts(pred)), ""),
                   Merged(removeDuplicateSpaces(FilterParts(gt)), ""), editops)
  }

  /** Lines 61 to 181 of `run`: flattening, projection, IoU and both attribution loops. */
  method ScoreMerged(predMerged: seq<TextPart>, gtMerged: seq<TextPart>,
                     editops: (string, string) -> seq<EditOp>) returns (r: Result<map<string, Metric>, string>)
    ensures r == MergedScores(predMerged, gtMerged, editops)
  {
    var gtText, gtQuotes, gtIds := TextPartsToTextAndMask(gtMerged);
    var predText, predQuotes, predIds := TextPartsToTextAndMask(predMerged);
    var ops := editops(predText, gtText);
    var longest := Max(|predText|, |gtText|);
    if longest == 0 {
      return Err("ZeroDivisionError");
    }
    var relative := |ops| as real / longest as real;
    var extended := ExtendLabels(predQuotes, predIds, ops);
    if extended.Err? {
      return Err(Project(predQuotes, ops).error);
    }
    var projected := extended.value.0;
    if |projected| != |gtQuotes| {
      return Err("ValueError: shapes differ");
    }
    var iou := IoU(gtQuotes, projected);
    var predStats := AttributionStats(predMerged, projected, gtQuotes, gtMerged);
    if predStats.Err? {
      return Err(predStats.error);
    }
    var gtStats := AttributionStats(gtMerged, gtQuotes, projected, predMerged);
    if gtStats.Err? {
      return Err(gtStats.error);
    }
    r := Ok(map["relative_text_parts_to_gt_edit_distance" := Score(relative),
                "quotation_iou_score" := Score(iou),
                "matched_quotes_accuracy" := Score(Accuracy(predStats.value)),
                "gt_matched_quotes_accuracy" := Score(Accuracy(gtStats.value))]);
  }

  /** `run`: the attributes written, or the exception raised. */
  method Run(pred: seq<TextPart>, gt: seq<TextPart>,
             removeDuplicateSpaces: seq<TextPart> -> seq<TextPart>,
             editops: (string, string) -> seq<EditOp>) returns (r: Result<map<string, Metric>, string>)
    ensures r == Evaluation(pred, gt, removeDuplicateSpaces, editops)
  {
    if pred == [] && gt == [] {
      return Ok(map["iou_quotation_score" := Score(1.0), "iou_quotation_scores" := NoScores]);
    }
    if pred == [] || gt == [] {
      return Ok(map["iou_quotation_score" := Score(0.0), "iou_quotation_scores" := NoScores]);
    }
    var gtParts := removeDuplicateSpaces(FilterParts(gt));
    var predParts := removeDuplicateSpaces(FilterParts(pred));
    var gtMerged := MergeNeighbouringTextParts(gtParts, "");
    var predMerged := MergeNeighbouringTextParts(predParts, "");
    r := ScoreMerged(predMerged, gtMerged, editops);
  }

  /**
   * The degenerate cases write `iou_quotation_score` (1.0 when both lists are
   * empty, 0.0 when one is) and an empty score list; the full evaluation
   * writes `quotation_iou_score` instead, next to the edit distance and the
   * two accuracies. Every score lies in [0, 1] except the relative edit
   * distance, which is never negative.
   */
  lemma EvaluationKeys(pred: seq<TextPart>, gt: seq<TextPart>,
                       removeDuplicateSpaces: seq<TextPart> -> seq<TextPart>,
                       editops: (string, string) -> seq<EditOp>)
    requires Evaluation(pred, gt, removeDuplicateSpaces, editops).Ok?
    ensures var m := Evaluation(pred, gt, removeDuplicateSpaces, editops).value;
      ("iou_quotation_score" in m <==> pred == [] || gt == [])
      && ("quotation_iou_score" in m <==> pred != [] && gt != [])
      && (pred == [] || gt == [] ==>
            m.Keys == {"iou_quotation_score", "iou_quotation_scores"}
            && m["iou_quotation_score"] == Score(if pred == [] && gt == [] then 1.0 else 0.0)
            && m["iou_quotation_scores"] == NoScores)
      && (pred != [] && gt != [] ==>
            m.Keys == {"relative_text_parts_to_gt_edit_distance", "quotation_iou_score",
                       "matched_quotes_accuracy", "gt_matched_quotes_accuracy"}
            && (forall k :: k in m ==> m[k].Score? && 0.0 <= m[k].value)
            && (forall k :: k in m && k != "relative_text_parts_to_gt_edit_distance" ==> m[k].value <= 1.0))
  {
    if pred != [] && gt != [] {
      var predMerged := Merged(removeDuplicateSpaces(FilterParts(pred)), "");
      var gtMerged := Merged(removeDuplicateSpaces(FilterParts(gt)), "");
      MergedScoresBounded(predMerged, gtMerged, editops);
    }
  }

  lemma MergedScoresBounded(predMerged: seq<TextPart>, gtMerged: seq<TextPart>, editops: (string, string) -> seq<EditOp>)
    requires MergedScores(predMerged, gtMerged, editops).Ok?
    ensures var m := MergedScores(predMerged, gtMerged, editops).value;
      m.Keys == {"relative_text_parts_to_gt_edit_distance", "quotation_iou_score",
                 "matched_quotes_accuracy", "gt_matched_quotes_accuracy"}
      && (forall k :: k in m ==> m[k].Score? && 0.0 <= m[k].value)
      && (forall k :: k in m && k != "relative_text_parts_to_gt_edit_distance" ==> m[k].value <= 1.0)
  {
    var gtText := ConcatTexts(gtMerged);
    var predText := ConcatTexts(predMerged);
    var gtQuotes := Labels(gtMerged, true);
    var ops := editops(predText, gtText);
    var longest := Max(|predText|, |gtText|);
    var projected := Project(Labels(predMerged, true), ops).value;
    var predStats := AllStats(predMerged, projected, gtQuotes, gtMerged).value;
    var gtStats := AllStats(gtMerged, gtQuotes, projected, predMerged).value;
    var distance := |ops| as real / longest as real;
    IoUBounds(gtQuotes, projected);
    RatioNonNegative(|ops|, longest);
    var m := map["relative_text_parts_to_gt_edit_distance" := Score(distance),
                 "quotation_iou_score" := Score(IoU(gtQuotes, projected)),
                 "matched_quotes_accuracy" := Score(Accuracy(predStats)),
                 "gt_matched_quotes_accuracy" := Score(Accuracy(gtStats))];
    assert MergedScores(predMerged, gtMerged, editops).value == m;
  }

  /**
   * When `editops` always returns a valid script, the full evaluation fails
   * only with the division by zero of the relative edit distance, exactly
   * when both merged lists hold no text at all.
   */
  lemma MergedScoresFailOnlyOnEmptyTexts(predMerged: seq<TextPart>, gtMerged: seq<TextPart>,
                                         editops: (string, string) -> seq<EditOp>)
    requires forall a, b :: ValidScript(a, b, editops(a, b))
    ensures MergedScores(predMerged, gtMerged, editops).Err? <==>
      ConcatTexts(predMerged) == [] && ConcatTexts(gtMerged) == []
    ensures MergedScores(predMerged, gtMerged, editops).Err? ==>
      MergedScores(predMerged, gtMerged, editops).error == "ZeroDivisionError"
  {
    var gtText := ConcatTexts(gtMerged);
    var predText := ConcatTexts(predMerged);
    var gtQuotes := Labels(gtMerged, true);
    var predQuotes := Labels(predMerged, true);
    var ops := editops(predText, gtText);
    if Max(|predText|, |gtText|) > 0 {
      assert ValidScript(predText, gtText, ops);
      ValidScriptProjects(predText, gtText, ops, predQuotes);
      var projected := Project(predQuotes, ops).value;
      LabelsIdsKnown(gtMerged, true);
      LabelsIdsKnown(predMerged, true);
      ProjectValues(predQuotes, ops);
      assert IdsKnown(projected, predMerged);
      AllStatsOk(predMerged, projected, gtQuotes, gtMerged);
      AllStatsOk(gtMerged, gtQuotes, projected, predMerged);
    }
  }

  /**
   * When `editops` always returns a valid script, `run` fails only with the
   * division by zero of the relative edit distance, which happens exactly
   * when both lists are non-empty but hold no text at all.
   */
  lemma EvaluationFailsOnlyOnEmptyTexts(pred: seq<TextPart>, gt: seq<TextPart>,
                                        removeDuplicateSpaces: seq<TextPart> -> seq<TextPart>,
                                        editops: (string, string) -> seq<EditOp>)
    requires forall a, b :: ValidScript(a, b, editops(a, b))
    ensures Evaluation(pred, gt, removeDuplicateSpaces, editops).Err? <==>
      pred != [] && gt != []
      && ConcatTexts(removeDuplicateSpaces(pred)) == [] && ConcatTexts(removeDuplicateSpaces(gt)) == []
    ensures Evaluation(pred, gt, removeDuplicateSpaces, editops).Err? ==>
      Evaluation(pred, gt, removeDuplicateSpaces, editops).error == "ZeroDivisionError"
  {
    if pred != [] && gt != [] {
      FilterKeepsAll(pred);
      FilterKeepsAll(gt);
      MergedKeepsText(removeDuplicateSpaces(gt));
      MergedKeepsText(removeDuplicateSpaces(pred));
      MergedScoresFailOnlyOnEmptyTexts(Merged(removeDuplicateSpaces(pred), ""), Merged(removeDuplicateSpaces(gt), ""), editops);
    }
  }
}
