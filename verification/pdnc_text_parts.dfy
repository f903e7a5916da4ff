/**
 * The second half of the ground-truth loader for the Project Dialogism Novel
 * Corpus: cutting a novel's text into numbered narration and quote parts
 * along the annotated quote spans, each quote taking the identifier of the
 * character its speaker names in the alias map.
 */
module PdncTextParts {
  import opened Wrappers
  import opened PyStrings
  import opened TextParts
  import opened PipelineTypes

  /** One row of `quotation_info.csv`: the quote's character spans and its speaker. */
  datatype QuoteRow = QuoteRow(spans: seq<(int, int)>, speaker: string)

  /** One span of a row, with the alias-map key of the row's speaker (the speaker lower-cased). */
  datatype Span = Span(beg: int, end: int, key: string)

  /** The spans of one row, each with the key of the row's speaker. */
  function SpansOf(pairs: seq<(int, int)>, key: string): (r: seq<Span>)
    ensures |r| == |pairs|
  {
    if pairs == [] then []
    else SpansOf(pairs[..|pairs| - 1], key) + [Span(pairs[|pairs| - 1].0, pairs[|pairs| - 1].1, key)]
  }

  /** The spans of one row, keyed by its lower-cased speaker. */
  function RowSpans(row: QuoteRow): (r: seq<Span>)
    ensures |r| == |row.spans|
  {
    SpansOf(row.spans, Lower(row.speaker))
  }

  /** All spans of all rows, in file order. */
  function AllSpans(rows: seq<QuoteRow>): seq<Span> {
    if rows == [] then [] else AllSpans(rows[..|rows| - 1]) + RowSpans(rows[|rows| - 1])
  }

  /** The loop state: the parts so far, the `start` position and the part counter `i`. */
  datatype Cursor = Cursor(parts: seq<TextPart>, start: int, i: int)

  /** The state before the first row. */
  const Initial := Cursor([], 0, 0)

  /**
   * One span: widened by one character on each side, preceded by a narration
   * part when it starts after `start`; the quote part takes the identifier
   * of the character the lower-cased speaker names, a missing alias being a
   * `KeyError`.
   */
  function SpanStep(text: string, cur: Cursor, sp: Span, aliasMap: map<string, Character>): Result<Cursor, string> {
    var gap := GapParts(text, cur, sp.beg - 1);
    var key := sp.key;
    if key !in aliasMap then Err("KeyError")
    else Ok(Cursor(cur.parts + gap + [QuotePart(text, cur.i + |gap| + 1, sp, aliasMap[key].identifier)], sp.end + 1, cur.i + |gap| + 1))
  }

  /** The narration between the previous quote and a quote starting at `beg`, if there is any. */
  function GapParts(text: string, cur: Cursor, beg: int): (r: seq<TextPart>)
    ensures |r| <= 1
  {
    if beg > cur.start then [TextPart(cur.i + 1, Slice(text, cur.start, beg), Other, None)] else []
  }

  /** The quote part of a span, widened by one character on each side. */
  function QuotePart(text: string, id: int, sp: Span, speaker: string): TextPart {
    TextPart(id, Slice(text, sp.beg - 1, sp.end + 1), Quote, Some(speaker))
  }

  /** The loop state after the spans, starting from `cur`; the first missing speaker ends it. */
  function Emit(text: string, cur: Cursor, spans: seq<Span>, aliasMap: map<string, Character>): Result<Cursor, string> {
    if spans == [] then Ok(cur)
    else
      var before :- Emit(text, cur, spans[..|spans| - 1], aliasMap);
      SpanStep(text, before, spans[|spans| - 1], aliasMap)
  }

  /** The trailing narration part, if text remains after the last quote. */
  function Finish(text: string, cur: Cursor): seq<TextPart> {
    if cur.start < |text| then cur.parts + [TextPart(cur.i + 1, Slice(text, cur.start, |text|), Other, None)] else cur.parts
  }

  /** What `load_pdnc_text_parts` returns, ending with its check that the parts spell the text. */
  function PdncTextParts(text: string, rows: seq<QuoteRow>, aliasMap: map<string, Character>): Result<seq<TextPart>, string> {
    var cur :- Emit(text, Initial, AllSpans(rows), aliasMap);
    var parts := Finish(text, cur);
    if ConcatTexts(parts) == text then Ok(parts) else Err("AssertionError")
  }

  /** Running the spans of `a` and then those of `b` is running `a + b`. */
  lemma {:induction false} EmitCompose(text: string, cur: Cursor, a: seq<Span>, b: seq<Span>, aliasMap: map<string, Character>)
    ensures Emit(text, cur, a + b, aliasMap) ==
      (if Emit(text, cur, a, aliasMap).Err? then Emit(text, cur, a, aliasMap)
       else Emit(text, Emit(text, cur, a, aliasMap).value, b, aliasMap))
    decreases |b|
  {
    if b == [] {
      assert a + b == a;
    } else {
      var n := |b| - 1;
      assert (a + b)[..|a + b| - 1] == a + b[..n];
      EmitCompose(text, cur, a, b[..n], aliasMap);
    }
  }

  lemma {:induction false} EmitErr(text: string, cur: Cursor, spans: seq<Span>, aliasMap: map<string, Character>)
    ensures Emit(text, cur, spans, aliasMap).Err? ==> Emit(text, cur, spans, aliasMap) == Err("KeyError")
    decreases |spans|
  {
    if spans != [] {
      EmitErr(text, cur, spans[..|spans| - 1], aliasMap);
    }
  }

  /** The inner loop of `load_pdnc_text_parts`: the spans of one row. */
  method EmitRow(text: string, cur: Cursor, row: QuoteRow, aliasMap: map<string, Character>) returns (r: Result<Cursor, string>)
    ensures r == Emit(text, cur, RowSpans(row), aliasMap)
  {
    ghost var rowKey := Lower(row.speaker);
    var state := cur;
    for s := 0 to |row.spans|
      invariant Emit(text, cur, SpansOf(row.spans[..s], rowKey), aliasMap) == Ok(state)
    {
      EmitRowStep(text, cur, row.spans, rowKey, s, aliasMap);
      var next := EmitSpan(text, state, row.spans[s], Lower(row.speaker), aliasMap);
      if next.Err? {
        EmitRowErr(text, cur, row.spans, rowKey, s, aliasMap);
        return Err("KeyError");
      }
      state := next.value;
    }
    assert row.spans[..|row.spans|] == row.spans;
    r := Ok(state);
  }

  /**
   * The body of the inner loop: the narration part before the span when
   * there is a gap, then the quote part, the span widened by one character
   * on each side; a speaker missing from the alias map is a `KeyError`.
   */
  method EmitSpan(text: string, cur: Cursor, pair: (int, int), key: string, aliasMap: map<string, Character>) returns (r: Result<Cursor, string>)
    ensures r == SpanStep(text, cur, Span(pair.0, pair.1, key), aliasMap)
  {
    var textParts := cur.parts;
    var start := cur.start;
    var i := cur.i;
    var beg := pair.0 - 1;
    var end := pair.1 + 1;
    ghost var gap := GapParts(text, cur, beg);
    if beg > start {
      i := i + 1;
      textParts := textParts + [TextPart(i, Slice(text, start, beg), Other, None)];
      start := beg;
    }
    assert textParts == cur.parts + gap && i == cur.i + |gap|;
    i := i + 1;
    if key !in aliasMap {
      return Err("KeyError");
    }
    textParts := textParts + [TextPart(i, Slice(text, beg, end), Quote, Some(aliasMap[key].identifier))];
    start := end;
    r := Ok(Cursor(textParts, start, i));
  }

  /** One more span of a row is one more `SpanStep`, unless an earlier one failed. */
  lemma EmitRowStep(text: string, cur: Cursor, pairs: seq<(int, int)>, key: string, s: nat, aliasMap: map<string, Character>)
    requires s < |pairs|
    ensures Emit(text, cur, SpansOf(pairs[..s + 1], key), aliasMap) ==
      (var before := Emit(text, cur, SpansOf(pairs[..s], key), aliasMap);
       if before.Err? then before else SpanStep(text, before.value, Span(pairs[s].0, pairs[s].1, key), aliasMap))
  {
    assert pairs[..s + 1][..s] == pairs[..s];
  }

  /** A failure at span `s` of a row is the row's `KeyError`. */
  lemma EmitRowErr(text: string, cur: Cursor, pairs: seq<(int, int)>, key: string, s: nat, aliasMap: map<string, Character>)
    requires s < |pairs| && Emit(text, cur, SpansOf(pairs[..s + 1], key), aliasMap).Err?
    ensures Emit(text, cur, SpansOf(pairs, key), aliasMap) == Err("KeyError")
  {
    var done := SpansOf(pairs[..s + 1], key);
    EmitCompose(text, cur, done, SpansOf(pairs, key)[s + 1..], aliasMap);
    SpansOfPrefix(pairs, key, s + 1);
    EmitErr(text, cur, SpansOf(pairs, key), aliasMap);
  }

  lemma {:induction false} SpansOfPrefix(pairs: seq<(int, int)>, key: string, k: nat)
    requires k <= |pairs|
    ensures SpansOf(pairs, key) == SpansOf(pairs[..k], key) + SpansOf(pairs, key)[k..]
    decreases |pairs|
  {
    if k < |pairs| {
      var n := |pairs| - 1;
      SpansOfPrefix(pairs[..n], key, k);
      assert pairs[..n][..k] == pairs[..k];
    } else {
      assert pairs[..k] == pairs;
    }
  }

  /** `load_pdnc_text_parts` on the novel text and the rows of the quotation file. */
  method LoadPdncTextParts(text: string, rows: seq<QuoteRow>, aliasMap: map<string, Character>) returns (r: Result<seq<TextPart>, string>)
    ensures r == PdncTextParts(text, rows, aliasMap)
  {
    var cur := Initial;
    for k := 0 to |rows|
      invariant Emit(text, Initial, AllSpans(rows[..k]), aliasMap) == Ok(cur)
    {
      AllSpansStep(text, rows, k, aliasMap);
      var next := EmitRow(text, cur, rows[k], aliasMap);
      if next.Err? {
        AllSpansErr(text, rows, k, aliasMap);
        return Err("KeyError");
      }
      cur := next.value;
    }
    assert rows[..|rows|] == rows;
    var textParts := cur.parts;
    if cur.start < |text| {
      textParts := textParts + [TextPart(cur.i + 1, Slice(text, cur.start, |text|), Other, None)];
    }
    assert textParts == Finish(text, cur);
    if text != ConcatTexts(textParts) {
      return Err("AssertionError");
    }
    r := Ok(textParts);
  }

  /** One more row is the row's spans run from where the earlier rows left off. */
  lemma AllSpansStep(text: string, rows: seq<QuoteRow>, k: nat, aliasMap: map<string, Character>)
    requires k < |rows|
    ensures Emit(text, Initial, AllSpans(rows[..k + 1]), aliasMap) ==
      (var before := Emit(text, Initial, AllSpans(rows[..k]), aliasMap);
       if before.Err? then before else Emit(text, before.value, RowSpans(rows[k]), aliasMap))
  {
    assert rows[..k + 1][..k] == rows[..k];
    EmitCompose(text, Initial, AllSpans(rows[..k]), RowSpans(rows[k]), aliasMap);
  }

  /** A failure in row `k` is the loader's `KeyError`. */
  lemma AllSpansErr(text: string, rows: seq<QuoteRow>, k: nat, aliasMap: map<string, Character>)
    requires k < |rows| && Emit(text, Initial, AllSpans(rows[..k + 1]), aliasMap).Err?
    ensures Emit(text, Initial, AllSpans(rows), aliasMap) == Err("KeyError")
  {
    EmitCompose(text, Initial, AllSpans(rows[..k + 1]), AllSpansFrom(rows, k + 1), aliasMap);
    AllSpansSplit(rows, k + 1);
    EmitErr(text, Initial, AllSpans(rows), aliasMap);
  }

  /** The spans of the rows from `k` on. */
  function AllSpansFrom(rows: seq<QuoteRow>, k: nat): seq<Span>
    requires k <= |rows|
    decreases |rows| - k
  {
    if k == |rows| then [] else RowSpans(rows[k]) + AllSpansFrom(rows, k + 1)
  }

  lemma {:induction false} AllSpansSplit(rows: seq<QuoteRow>, k: nat)
    requires k <= |rows|
    ensures AllSpans(rows) == AllSpans(rows[..k]) + AllSpansFrom(rows, k)
    decreases |rows| - k
  {
    if k == |rows| {
      assert rows[..k] == rows;
    } else {
      AllSpansSplit(rows, k + 1);
      var a := AllSpans(rows[..k]);
      var b := AllSpansFrom(rows, k + 1);
      assert rows[..k + 1][..k] == rows[..k];
      assert AllSpans(rows[..k + 1]) == a + RowSpans(rows[k]);
      assert a + RowSpans(rows[k]) + b == a + (RowSpans(rows[k]) + b);
    }
  }

  /** Narration parts carry no speaker, quote parts carry one. */
  predicate SpeakersByKind(parts: seq<TextPart>) {
    forall k :: 0 <= k < |parts| ==> (parts[k].kind == Quote <==> parts[k].characterIdentifier.Some?)
  }

  /** Part `k` has id `k + 1`. */
  predicate NumberedFromOne(parts: seq<TextPart>) {
    forall k :: 0 <= k < |parts| ==> parts[k].id == k + 1
  }

  /** The counter is the number of parts, which are numbered from 1 and carry a speaker exactly when they are quotes. */
  predicate Numbered(cur: Cursor) {
    cur.i == |cur.parts| && NumberedFromOne(cur.parts) && SpeakersByKind(cur.parts)
  }

  lemma SpanStepNumbered(text: string, cur: Cursor, sp: Span, aliasMap: map<string, Character>)
    requires Numbered(cur) && SpanStep(text, cur, sp, aliasMap).Ok?
    ensures Numbered(SpanStep(text, cur, sp, aliasMap).value)
  {
  }

  lemma {:induction false} EmitNumbered(text: string, cur: Cursor, spans: seq<Span>, aliasMap: map<string, Character>)
    requires Numbered(cur) && Emit(text, cur, spans, aliasMap).Ok?
    ensures Numbered(Emit(text, cur, spans, aliasMap).value)
    decreases |spans|
  {
    if spans != [] {
      var n := |spans| - 1;
      EmitNumbered(text, cur, spans[..n], aliasMap);
      SpanStepNumbered(text, Emit(text, cur, spans[..n], aliasMap).value, spans[n], aliasMap);
    }
  }

  /** The quote parts, in order: their texts and speakers. */
  function Quotes(parts: seq<TextPart>): seq<(string, Option<string>)> {
    if parts == [] then []
    else
      var last := parts[|parts| - 1];
      Quotes(parts[..|parts| - 1]) + (if last.kind == Quote then [(last.text, last.characterIdentifier)] else [])
  }

  lemma {:induction false} QuotesAppend(a: seq<TextPart>, b: seq<TextPart>)
    ensures Quotes(a + b) == Quotes(a) + Quotes(b)
    decreases |b|
  {
    if b == [] {
      assert a + b == a;
    } else {
      assert (a + b)[..|a + b| - 1] == a + b[..|b| - 1];
      QuotesAppend(a, b[..|b| - 1]);
    }
  }

  /** What each span should become: the span widened by one character on each side, and its speaker's identifier. */
  function Expected(text: string, spans: seq<Span>, aliasMap: map<string, Character>): seq<(string, Option<string>)> {
    if spans == [] then []
    else
      var sp := spans[|spans| - 1];
      var key := sp.key;
      Expected(text, spans[..|spans| - 1], aliasMap)
        + [(Slice(text, sp.beg - 1, sp.end + 1), if key in aliasMap then Some(aliasMap[key].identifier) else None)]
  }

  lemma QuotesOne(p: TextPart)
    ensures Quotes([p]) == if p.kind == Quote then [(p.text, p.characterIdentifier)] else []
  {
    assert [p][..0] == [];
  }

  lemma SpanStepQuotes(text: string, cur: Cursor, sp: Span, aliasMap: map<string, Character>)
    requires SpanStep(text, cur, sp, aliasMap).Ok?
    ensures Quotes(SpanStep(text, cur, sp, aliasMap).value.parts) ==
      Quotes(cur.parts) + [(Slice(text, sp.beg - 1, sp.end + 1), Some(aliasMap[sp.key].identifier))]
  {
    var gap := GapParts(text, cur, sp.beg - 1);
    var quote := QuotePart(text, cur.i + |gap| + 1, sp, aliasMap[sp.key].identifier);
    assert SpanStep(text, cur, sp, aliasMap).value.parts == cur.parts + gap + [quote];
    QuotesAppend(cur.parts + gap, [quote]);
    QuotesAppend(cur.parts, gap);
    if gap != [] {
      QuotesOne(gap[0]);
    }
    QuotesOne(quote);
  }

  /** The quote parts emitted are, in order, the spans widened by one character on each side, each with its speaker's identifier. */
  lemma {:induction false} EmitQuotes(text: string, cur: Cursor, spans: seq<Span>, aliasMap: map<string, Character>)
    requires Emit(text, cur, spans, aliasMap).Ok?
    ensures Quotes(Emit(text, cur, spans, aliasMap).value.parts) == Quotes(cur.parts) + Expected(text, spans, aliasMap)
    decreases |spans|
  {
    if spans != [] {
      var n := |spans| - 1;
      EmitQuotes(text, cur, spans[..n], aliasMap);
      SpanStepQuotes(text, Emit(text, cur, spans[..n], aliasMap).value, spans[n], aliasMap);
    }
  }

  /**
   * Every speaker is known, and the spans, once widened, lie inside the text,
   * in order and without overlapping.
   */
  predicate WellFormedSpans(text: string, spans: seq<Span>, aliasMap: map<string, Character>) {
    (forall k :: 0 <= k < |spans| ==>
       1 <= spans[k].beg && spans[k].beg - 1 <= spans[k].end + 1 <= |text| && spans[k].key in aliasMap)
    && (forall k :: 0 <= k < |spans| - 1 ==> spans[k].end + 1 <= spans[k + 1].beg - 1)
  }

  /** Narration parts are never empty. */
  predicate NarrationNonEmpty(parts: seq<TextPart>) {
    forall k :: 0 <= k < |parts| && parts[k].kind == Other ==> parts[k].text != []
  }

  /** The parts so far spell the text up to `start`, with no empty narration part. */
  predicate Spelled(text: string, cur: Cursor) {
    0 <= cur.start <= |text| && ConcatTexts(cur.parts) == text[..cur.start] && NarrationNonEmpty(cur.parts)
  }

  lemma NarrationAppend(a: seq<TextPart>, b: seq<TextPart>)
    requires NarrationNonEmpty(a) && NarrationNonEmpty(b)
    ensures NarrationNonEmpty(a + b)
  {
    forall k | 0 <= k < |a + b| && (a + b)[k].kind == Other ensures (a + b)[k].text != [] {
      if k >= |a| {
        assert (a + b)[k] == b[k - |a|];
      }
    }
  }

  lemma GapSpelled(text: string, cur: Cursor, beg: int)
    requires 0 <= cur.start <= beg <= |text|
    ensures ConcatTexts(GapParts(text, cur, beg)) == text[cur.start..beg]
    ensures NarrationNonEmpty(GapParts(text, cur, beg))
  {
    if beg > cur.start {
      ConcatOne(GapParts(text, cur, beg)[0]);
    }
  }

  lemma SpellStep(text: string, a: nat, b: nat)
    requires a <= b <= |text|
    ensures text[..a] + text[a..b] == text[..b]
  {
  }

  /** The narration part before a quote, if any, extends the spelled prefix up to the quote. */
  lemma GapKeepsSpelled(text: string, cur: Cursor, beg: int)
    requires Spelled(text, cur) && cur.start <= beg <= |text|
    ensures var gap := GapParts(text, cur, beg);
      Spelled(text, Cursor(cur.parts + gap, beg, cur.i + |gap|))
  {
    var gap := GapParts(text, cur, beg);
    GapSpelled(text, cur, beg);
    ConcatTextsAppend(cur.parts, gap);
    NarrationAppend(cur.parts, gap);
    SpellStep(text, cur.start, beg);
  }

  /** A quote part starting where the spelled prefix ends extends it to the quote's end. */
  lemma QuoteKeepsSpelled(text: string, cur: Cursor, sp: Span, speaker: string)
    requires Spelled(text, cur) && cur.start == sp.beg - 1 <= sp.end + 1 <= |text|
    ensures Spelled(text, Cursor(cur.parts + [QuotePart(text, cur.i + 1, sp, speaker)], sp.end + 1, cur.i + 1))
  {
    var quote := QuotePart(text, cur.i + 1, sp, speaker);
    assert quote.text == text[cur.start..sp.end + 1];
    ConcatOne(quote);
    ConcatTextsAppend(cur.parts, [quote]);
    NarrationAppend(cur.parts, [quote]);
    SpellStep(text, cur.start, sp.end + 1);
  }

  lemma SpanStepSpelled(text: string, cur: Cursor, sp: Span, aliasMap: map<string, Character>)
    requires Spelled(text, cur) && cur.start <= sp.beg - 1 <= sp.end + 1 <= |text| && sp.key in aliasMap
    ensures SpanStep(text, cur, sp, aliasMap).Ok?
    ensures Spelled(text, SpanStep(text, cur, sp, aliasMap).value)
    ensures SpanStep(text, cur, sp, aliasMap).value.start == sp.end + 1
  {
    var gap := GapParts(text, cur, sp.beg - 1);
    GapKeepsSpelled(text, cur, sp.beg - 1);
    var mid := Cursor(cur.parts + gap, sp.beg - 1, cur.i + |gap|);
    var speaker := aliasMap[sp.key].identifier;
    QuoteKeepsSpelled(text, mid, sp, speaker);
    assert SpanStep(text, cur, sp, aliasMap) == Ok(Cursor(mid.parts + [QuotePart(text, mid.i + 1, sp, speaker)], sp.end + 1, mid.i + 1));
  }

  lemma {:induction false} EmitSpelled(text: string, cur: Cursor, spans: seq<Span>, aliasMap: map<string, Character>)
    requires WellFormedSpans(text, spans, aliasMap) && Spelled(text, cur)
    requires spans != [] ==> cur.start <= spans[0].beg - 1
    ensures Emit(text, cur, spans, aliasMap).Ok?
    ensures Spelled(text, Emit(text, cur, spans, aliasMap).value)
    ensures Emit(text, cur, spans, aliasMap).value.start == if spans == [] then cur.start else spans[|spans| - 1].end + 1
    decreases |spans|
  {
    if spans != [] {
      var n := |spans| - 1;
      assert WellFormedSpans(text, spans[..n], aliasMap);
      EmitSpelled(text, cur, spans[..n], aliasMap);
      var before := Emit(text, cur, spans[..n], aliasMap).value;
      assert before.start <= spans[n].beg - 1 by {
        if n > 0 {
          assert spans[n - 1].end + 1 <= spans[n].beg - 1;
        }
      }
      SpanStepSpelled(text, before, spans[n], aliasMap);
    }
  }

  /** The trailing narration part completes the spelling of the text. */
  lemma FinishSpelled(text: string, cur: Cursor)
    requires Spelled(text, cur)
    ensures ConcatTexts(Finish(text, cur)) == text && NarrationNonEmpty(Finish(text, cur))
  {
    if cur.start < |text| {
      var last := TextPart(cur.i + 1, text[cur.start..], Other, None);
      assert Slice(text, cur.start, |text|) == text[cur.start..];
      ConcatOne(last);
      ConcatTextsAppend(cur.parts, [last]);
      NarrationAppend(cur.parts, [last]);
      assert text[..cur.start] + text[cur.start..] == text;
    } else {
      assert text[..cur.start] == text;
    }
  }

  /** The trailing narration part keeps the numbering and adds no quote. */
  lemma FinishNumbered(text: string, cur: Cursor)
    requires Numbered(cur)
    ensures NumberedFromOne(Finish(text, cur)) && SpeakersByKind(Finish(text, cur))
    ensures Quotes(Finish(text, cur)) == Quotes(cur.parts)
  {
    if cur.start < |text| {
      var last := TextPart(cur.i + 1, Slice(text, cur.start, |text|), Other, None);
      QuotesAppend(cur.parts, [last]);
      QuotesOne(last);
    }
  }

  /**
   * For well-formed spans the loader succeeds: the parts spell the novel's
   * text exactly (the check at the end of `load_pdnc_text_parts` holds), no
   * narration part is empty, ids run 1, 2, 3, ..., only quotes carry a
   * speaker, and the quotes are the widened spans with their speakers.
   */
  lemma PdncTextPartsWellFormed(text: string, rows: seq<QuoteRow>, aliasMap: map<string, Character>)
    requires WellFormedSpans(text, AllSpans(rows), aliasMap)
    ensures PdncTextParts(text, rows, aliasMap).Ok?
    ensures var parts := PdncTextParts(text, rows, aliasMap).value;
      ConcatTexts(parts) == text && NarrationNonEmpty(parts) && NumberedFromOne(parts) && SpeakersByKind(parts)
      && Quotes(parts) == Expected(text, AllSpans(rows), aliasMap)
  {
    var spans := AllSpans(rows);
    EmitSpelled(text, Initial, spans, aliasMap);
    EmitNumbered(text, Initial, spans, aliasMap);
    EmitQuotes(text, Initial, spans, aliasMap);
    var cur := Emit(text, Initial, spans, aliasMap).value;
    FinishSpelled(text, cur);
    FinishNumbered(text, cur);
    assert PdncTextParts(text, rows, aliasMap) == Ok(Finish(text, cur));
  }

  /** Whenever the loader succeeds, the quotes are the widened spans with their speakers, and ids run 1, 2, 3, .... */
  lemma PdncTextPartsQuotes(text: string, rows: seq<QuoteRow>, aliasMap: map<string, Character>)
    requires PdncTextParts(text, rows, aliasMap).Ok?
    ensures var parts := PdncTextParts(text, rows, aliasMap).value;
      ConcatTexts(parts) == text && NumberedFromOne(parts) && SpeakersByKind(parts)
      && Quotes(parts) == Expected(text, AllSpans(rows), aliasMap)
  {
    var spans := AllSpans(rows);
    EmitNumbered(text, Initial, spans, aliasMap);
    EmitQuotes(text, Initial, spans, aliasMap);
    FinishNumbered(text, Emit(text, Initial, spans, aliasMap).value);
  }
}
