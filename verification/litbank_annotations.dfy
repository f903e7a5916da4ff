/**
 * The LitBank ground-truth loader, first half: the tab-separated annotation
 * file (`QUOTE` and `ATTRIB` lines) parsed into a quote dictionary and an
 * attribution dictionary, the attributed quotes and their speakers, and the
 * per-sentence quote fragments (`quote_ranges`).
 */
module LitbankAnnotations {
  import opened Wrappers
  import opened PyStrings

  // ---------------------------------------------------------------------------
  // Insertion-ordered dictionaries
  // ---------------------------------------------------------------------------

  /** A Python `dict` with string keys: the keys in insertion order and the key-value mapping. */
  datatype Dict<V> = Dict(keys: seq<string>, values: map<string, V>)

  /** Each key listed once, and the listed keys are exactly the mapped ones. */
  ghost predicate ValidDict<V>(d: Dict<V>) {
    (forall i, j :: 0 <= i < j < |d.keys| ==> d.keys[i] != d.keys[j]) &&
    (forall k :: k in d.values <==> k in d.keys)
  }

  /**
   * `d[k] = v`: a new key goes to the end of the key order, an existing key
   * keeps its place and takes the new value.
   */
  function Put<V>(d: Dict<V>, k: string, v: V): (r: Dict<V>)
    ensures r.values == d.values[k := v]
    ensures ValidDict(d) ==> ValidDict(r)
    ensures ValidDict(d) && k in d.keys ==> r.keys == d.keys
    ensures ValidDict(d) && k !in d.keys ==> r.keys == d.keys + [k]
  {
    if k in d.values then Dict(d.keys, d.values[k := v]) else Dict(d.keys + [k], d.values[k := v])
  }

  // ---------------------------------------------------------------------------
  // Annotation lines
  // ---------------------------------------------------------------------------

  /** A `QUOTE` annotation: its text and its first and last sentence and token. */
  datatype QuoteAnn = QuoteAnn(text: string, startSent: int, startToken: int, endSent: int, endToken: int)

  /** The two dictionaries `_parse_annotations` returns; only the quote dictionary's order is ever used. */
  datatype Annotations = Annotations(quotes: Dict<QuoteAnn>, attributions: map<string, string>)

  /** `parts[i]`; a missing column is an `IndexError`. */
  function Field(parts: seq<string>, i: nat): (r: Result<string, string>)
    ensures r.Ok? <==> i < |parts|
    ensures r.Ok? ==> r.value == parts[i]
  {
    if i < |parts| then Ok(parts[i]) else Err("IndexError")
  }

  /** `int(parts[i])`; a column that is not an integer literal is a `ValueError`. */
  function IntField(parts: seq<string>, i: nat): (r: Result<int, string>)
    ensures r.Ok? <==> i < |parts| && ParseInt(parts[i]).Some?
    ensures r.Ok? ==> r.value == ParseInt(parts[i]).value
  {
    var f :- Field(parts, i);
    match ParseInt(f)
    case Some(n) => Ok(n)
    case None => Err("ValueError")
  }

  /** Columns 1 to 6 of a `QUOTE` line, read left to right. */
  function QuoteLine(parts: seq<string>): (r: Result<(string, QuoteAnn), string>)
    ensures r.Ok? <==> |parts| >= 7 && ParseInt(parts[2]).Some? && ParseInt(parts[3]).Some?
                                    && ParseInt(parts[4]).Some? && ParseInt(parts[5]).Some?
    ensures r.Ok? ==> r.value.0 == parts[1] && r.value.1.text == parts[6]
  {
    var id :- Field(parts, 1);
    var startSent :- IntField(parts, 2);
    var startToken :- IntField(parts, 3);
    var endSent :- IntField(parts, 4);
    var endToken :- IntField(parts, 5);
    var text :- Field(parts, 6);
    Ok((id, QuoteAnn(text, startSent, startToken, endSent, endToken)))
  }

  /** One line of the loop: blank lines and unknown tags change nothing. */
  function LineStep(ann: Annotations, line: string): Result<Annotations, string> {
    if Strip(line) == "" then Ok(ann)
    else
      var parts := Split(line, '\t');
      if parts[0] == "QUOTE" then
        var entry :- QuoteLine(parts);
        Ok(ann.(quotes := Put(ann.quotes, entry.0, entry.1)))
      else if parts[0] == "ATTRIB" then
        var id :- Field(parts, 1);
        var speaker :- Field(parts, 2);
        Ok(ann.(attributions := ann.attributions[id := speaker]))
      else Ok(ann)
  }

  /** The dictionaries after the given lines, read in order from empty ones. */
  function ParseLines(lines: seq<string>): Result<Annotations, string>
    decreases |lines|
  {
    if lines == [] then Ok(Annotations(Dict([], map[]), map[]))
    else
      var ann :- ParseLines(lines[..|lines| - 1]);
      LineStep(ann, lines[|lines| - 1])
  }

  /** The lines of the annotation file. */
  function AnnotationLines(annotationText: string): seq<string> {
    Split(Strip(annotationText), '\n')
  }

  function ParsedAnnotations(annotationText: string): Result<Annotations, string> {
    ParseLines(AnnotationLines(annotationText))
  }

  /** `_parse_annotations`: fills both dictionaries line by line. */
  method ParseAnnotations(annotationText: string) returns (r: Result<Annotations, string>)
    ensures r == ParsedAnnotations(annotationText)
  {
    var lines := AnnotationLines(annotationText);
    var quotes: Dict<QuoteAnn> := Dict([], map[]);
    var attributions: map<string, string> := map[];
    for i := 0 to |lines|
      invariant ParseLines(lines[..i]) == Ok(Annotations(quotes, attributions))
    {
      ParseLinesStep(lines, i);
      var line := lines[i];
      if Strip(line) != "" {
        var parts := Split(line, '\t');
        if parts[0] == "QUOTE" {
          var entry := QuoteLine(parts);
          if entry.Err? {
            ParseLinesErr(lines, i + 1);
            return Err(entry.error);
          }
          quotes := Put(quotes, entry.value.0, entry.value.1);
        } else if parts[0] == "ATTRIB" {
          if |parts| < 3 {
            ParseLinesErr(lines, i + 1);
            return Err("IndexError");
          }
          attributions := attributions[parts[1] := parts[2]];
        }
      }
    }
    assert lines[..|lines|] == lines;
    r := Ok(Annotations(quotes, attributions));
  }

  lemma ParseLinesStep(lines: seq<string>, i: nat)
    requires i < |lines|
    ensures ParseLines(lines[..i + 1]) == (var ann :- ParseLines(lines[..i]); LineStep(ann, lines[i]))
  {
    assert lines[..i + 1][..i] == lines[..i];
  }

  /** Once a prefix of the lines fails, the whole file fails with the same error. */
  lemma {:induction false} ParseLinesErr(lines: seq<string>, i: nat)
    requires i <= |lines| && ParseLines(lines[..i]).Err?
    ensures ParseLines(lines) == ParseLines(lines[..i])
    decreases |lines| - i
  {
    if i < |lines| {
      ParseLinesStep(lines, i);
      ParseLinesErr(lines, i + 1);
    } else {
      assert lines[..i] == lines;
    }
  }

  // ---------------------------------------------------------------------------
  // What the parsed dictionaries hold
  // ---------------------------------------------------------------------------

  /** A line that makes the parser raise: a `QUOTE` line with a missing or non-integer column, an `ATTRIB` line with fewer than three columns. */
  predicate LineFails(line: string) {
    Strip(line) != "" &&
    var parts := Split(line, '\t');
    (parts[0] == "QUOTE" && QuoteLine(parts).Err?) || (parts[0] == "ATTRIB" && |parts| < 3)
  }

  lemma LineStepFails(ann: Annotations, line: string)
    ensures LineStep(ann, line).Err? <==> LineFails(line)
  {
  }

  /** The parser succeeds exactly when no line fails. */
  lemma {:induction false} ParseLinesOk(lines: seq<string>)
    ensures ParseLines(lines).Ok? <==> forall i :: 0 <= i < |lines| ==> !LineFails(lines[i])
    decreases |lines|
  {
    if lines != [] {
      var n := |lines| - 1;
      ParseLinesOk(lines[..n]);
      assert forall i :: 0 <= i < n ==> lines[..n][i] == lines[i];
      if ParseLines(lines[..n]).Ok? {
        LineStepFails(ParseLines(lines[..n]).value, lines[n]);
      }
    }
  }

  /** The quote a line defines, if it is a well-formed `QUOTE` line. */
  function QuoteOfLine(line: string): Option<(string, QuoteAnn)> {
    if Strip(line) == "" then None
    else
      var parts := Split(line, '\t');
      if parts[0] == "QUOTE" && QuoteLine(parts).Ok? then Some(QuoteLine(parts).value) else None
  }

  /** The speaker an `ATTRIB` line names, with the quote id it names it for. */
  function SpeakerOfLine(line: string): Option<(string, string)> {
    if Strip(line) == "" then None
    else
      var parts := Split(line, '\t');
      if parts[0] == "ATTRIB" && |parts| >= 3 then Some((parts[1], parts[2])) else None
  }

  /** The last quote defined for `id`, scanning from the end. */
  function LastQuote(lines: seq<string>, id: string): Option<QuoteAnn>
    decreases |lines|
  {
    if lines == [] then None
    else
      var q := QuoteOfLine(lines[|lines| - 1]);
      if q.Some? && q.value.0 == id then Some(q.value.1) else LastQuote(lines[..|lines| - 1], id)
  }

  /** The last speaker named for `id`, scanning from the end. */
  function LastSpeaker(lines: seq<string>, id: string): Option<string>
    decreases |lines|
  {
    if lines == [] then None
    else
      var a := SpeakerOfLine(lines[|lines| - 1]);
      if a.Some? && a.value.0 == id then Some(a.value.1) else LastSpeaker(lines[..|lines| - 1], id)
  }

  /** A line sets the quote of `id` exactly when it is a well-formed `QUOTE` line for `id`. */
  lemma LineStepQuote(ann: Annotations, line: string, id: string)
    requires LineStep(ann, line).Ok?
    ensures Lookup(LineStep(ann, line).value.quotes.values, id) ==
      (var q := QuoteOfLine(line); if q.Some? && q.value.0 == id then Some(q.value.1) else Lookup(ann.quotes.values, id))
  {
  }

  /** A line sets the speaker of `id` exactly when it is a well-formed `ATTRIB` line for `id`. */
  lemma LineStepSpeaker(ann: Annotations, line: string, id: string)
    requires LineStep(ann, line).Ok?
    ensures Lookup(LineStep(ann, line).value.attributions, id) ==
      (var a := SpeakerOfLine(line); if a.Some? && a.value.0 == id then Some(a.value.1) else Lookup(ann.attributions, id))
  {
  }

  /** The parsed quote dictionary lists each key once, and exactly its keys. */
  lemma {:induction false} ParseLinesValid(lines: seq<string>)
    requires ParseLines(lines).Ok?
    ensures ValidDict(ParseLines(lines).value.quotes)
    decreases |lines|
  {
    if lines != [] {
      ParseLinesValid(lines[..|lines| - 1]);
    }
  }

  /** A repeated quote id overwrites: each id maps to the quote of the last `QUOTE` line for it. */
  lemma {:induction false} ParseLinesLastQuote(lines: seq<string>, id: string)
    requires ParseLines(lines).Ok?
    ensures Lookup(ParseLines(lines).value.quotes.values, id) == LastQuote(lines, id)
    decreases |lines|
  {
    if lines != [] {
      var n := |lines| - 1;
      ParseLinesLastQuote(lines[..n], id);
      LineStepQuote(ParseLines(lines[..n]).value, lines[n], id);
    }
  }

  /** A repeated attribution overwrites: each id maps to the speaker of the last `ATTRIB` line for it. */
  lemma {:induction false} ParseLinesLastSpeaker(lines: seq<string>, id: string)
    requires ParseLines(lines).Ok?
    ensures Lookup(ParseLines(lines).value.attributions, id) == LastSpeaker(lines, id)
    decreases |lines|
  {
    if lines != [] {
      var n := |lines| - 1;
      ParseLinesLastSpeaker(lines[..n], id);
      LineStepSpeaker(ParseLines(lines[..n]).value, lines[n], id);
    }
  }

  // ---------------------------------------------------------------------------
  // Attributed quotes and characters
  // ---------------------------------------------------------------------------

  /** A quote with its attribution (a LitBank character name such as `FAIR_BOY_OFFICER-18`). */
  datatype LitBankQuote = LitBankQuote(quoteText: string, quoteId: string, quoteAttribution: string)

  /** `if attribution:` holds for a present, non-empty speaker. */
  predicate Truthy(a: Option<string>) {
    a.Some? && a.value != ""
  }

  /** The quotes among `keys` whose attribution is truthy, in key order. */
  function AttributedQuotes(ann: Annotations, keys: seq<string>): (r: seq<LitBankQuote>)
    requires forall k :: k in keys ==> k in ann.quotes.values
    ensures |r| <= |keys|
    ensures forall i :: 0 <= i < |r| ==>
      r[i].quoteId in keys && Lookup(ann.attributions, r[i].quoteId) == Some(r[i].quoteAttribution) &&
      r[i].quoteAttribution != "" && r[i].quoteText == ann.quotes.values[r[i].quoteId].text
  {
    if keys == [] then []
    else
      var id := keys[|keys| - 1];
      var attribution := Lookup(ann.attributions, id);
      AttributedQuotes(ann, keys[..|keys| - 1]) +
        (if Truthy(attribution) then [LitBankQuote(ann.quotes.values[id].text, id, attribution.value)] else [])
  }

  /** Every key with a truthy attribution yields a quote. */
  lemma {:induction false} AttributedQuotesComplete(ann: Annotations, keys: seq<string>, id: string)
    requires forall k :: k in keys ==> k in ann.quotes.values
    requires id in keys && Truthy(Lookup(ann.attributions, id))
    ensures exists i :: 0 <= i < |AttributedQuotes(ann, keys)| && AttributedQuotes(ann, keys)[i].quoteId == id
    decreases |keys|
  {
    var n := |keys| - 1;
    var r := AttributedQuotes(ann, keys);
    if keys[n] == id {
      assert r[|r| - 1].quoteId == id;
    } else {
      assert id in keys[..n];
      AttributedQuotesComplete(ann, keys[..n], id);
      var i :| 0 <= i < |AttributedQuotes(ann, keys[..n])| && AttributedQuotes(ann, keys[..n])[i].quoteId == id;
      assert r[i] == AttributedQuotes(ann, keys[..n])[i];
    }
  }

  /** The set of speakers of a quote list. */
  function Speakers(quotes: seq<LitBankQuote>): set<string> {
    set i | 0 <= i < |quotes| :: quotes[i].quoteAttribution
  }

  lemma SpeakersAppend(quotes: seq<LitBankQuote>, q: LitBankQuote)
    ensures Speakers(quotes + [q]) == Speakers(quotes) + {q.quoteAttribution}
  {
    var s := quotes + [q];
    forall c | c in Speakers(s) ensures c in Speakers(quotes) + {q.quoteAttribution} {
      var i :| 0 <= i < |s| && s[i].quoteAttribution == c;
      if i < |quotes| {
        assert quotes[i] == s[i];
      }
    }
    forall c | c in Speakers(quotes) ensures c in Speakers(s) {
      var i :| 0 <= i < |quotes| && quotes[i].quoteAttribution == c;
      assert s[i] == quotes[i];
    }
    assert s[|quotes|] == q;
  }

  /**
   * The loop that combines quotes and attributions: only quotes with a
   * truthy attribution are kept, in dictionary order, and the characters are
   * exactly their speakers.
   */
  method CollectQuotes(ann: Annotations) returns (quotes: seq<LitBankQuote>, characters: set<string>)
    requires ValidDict(ann.quotes)
    ensures quotes == AttributedQuotes(ann, ann.quotes.keys)
    ensures characters == Speakers(quotes)
  {
    var keys := ann.quotes.keys;
    quotes := [];
    characters := {};
    for i := 0 to |keys|
      invariant quotes == AttributedQuotes(ann, keys[..i])
      invariant characters == Speakers(quotes)
    {
      var id := keys[i];
      assert keys[..i + 1][..i] == keys[..i];
      var attribution := Lookup(ann.attributions, id);
      if Truthy(attribution) {
        SpeakersAppend(quotes, LitBankQuote(ann.quotes.values[id].text, id, attribution.value));
        characters := characters + {attribution.value};
        quotes := quotes + [LitBankQuote(ann.quotes.values[id].text, id, attribution.value)];
      }
    }
    assert keys[..|keys|] == keys;
  }

  // ---------------------------------------------------------------------------
  // Per-sentence quote fragments
  // ---------------------------------------------------------------------------

  /** One sentence's share of a quote: its token span there and the quote's attribution. */
  datatype QuoteInfo = QuoteInfo(quoteId: string, startToken: int, endToken: int, attribution: Option<string>)

  /** `quote_ranges.get(s, [])`. */
  function Fragments(ranges: map<int, seq<QuoteInfo>>, s: int): seq<QuoteInfo> {
    if s in ranges then ranges[s] else []
  }

  /** The end token of a quote in sentence `s`: its own in its last sentence, else the sentence's token count. */
  function FragmentEnd(q: QuoteAnn, sentences: seq<string>, s: int): (r: Result<int, string>)
    ensures r.Err? <==> s != q.endSent && At(sentences, s).None?
  {
    if s == q.endSent then Ok(q.endToken)
    else
      match At(sentences, s)
      case None => Err("IndexError")
      case Some(sentence) => Ok(|Words(sentence)|)
  }

  /** One past the last sentence index of `range(start_sent, end_sent + 1)`, never below its start. */
  function SpanEnd(q: QuoteAnn): (r: int)
    ensures r >= q.startSent
  {
    if q.endSent + 1 < q.startSent then q.startSent else q.endSent + 1
  }

  /** The fragments of quote `id` for its sentences below `upto`, appended to `ranges`. */
  function Spread(ranges: map<int, seq<QuoteInfo>>, id: string, q: QuoteAnn, attribution: Option<string>,
                  sentences: seq<string>, upto: int): Result<map<int, seq<QuoteInfo>>, string>
    requires q.startSent <= upto
    decreases upto - q.startSent
  {
    if upto == q.startSent then Ok(ranges)
    else
      var r :- Spread(ranges, id, q, attribution, sentences, upto - 1);
      var s := upto - 1;
      var endToken :- FragmentEnd(q, sentences, s);
      Ok(r[s := Fragments(r, s) + [QuoteInfo(id, FragmentStart(q, s), endToken, attribution)]])
  }

  /** The fragments of all quotes among `keys`, in key order. */
  function QuoteRanges(ann: Annotations, keys: seq<string>, sentences: seq<string>): Result<map<int, seq<QuoteInfo>>, string>
    requires forall k :: k in keys ==> k in ann.quotes.values
    decreases |keys|
  {
    if keys == [] then Ok(map[])
    else
      var id := keys[|keys| - 1];
      var q := ann.quotes.values[id];
      var ranges :- QuoteRanges(ann, keys[..|keys| - 1], sentences);
      Spread(ranges, id, q, Lookup(ann.attributions, id), sentences, SpanEnd(q))
  }

  /** The start token of a quote in sentence `s`: its own in its first sentence, else 0. */
  function FragmentStart(q: QuoteAnn, s: int): int {
    if s == q.startSent then q.startToken else 0
  }

  /** A spread fails exactly when a sentence before the quote's last one does not exist. */
  lemma {:induction false} SpreadFails(ranges: map<int, seq<QuoteInfo>>, id: string, q: QuoteAnn, attribution: Option<string>,
                                       sentences: seq<string>, upto: int)
    requires q.startSent <= upto
    ensures Spread(ranges, id, q, attribution, sentences, upto).Err? <==>
      exists s :: q.startSent <= s < upto && s != q.endSent && At(sentences, s).None?
    decreases upto - q.startSent
  {
    if upto != q.startSent {
      SpreadFails(ranges, id, q, attribution, sentences, upto - 1);
    }
  }

  /** Sentences outside the quote's span keep their fragment lists. */
  lemma {:induction false} SpreadOutside(ranges: map<int, seq<QuoteInfo>>, id: string, q: QuoteAnn, attribution: Option<string>,
                                         sentences: seq<string>, upto: int, s: int)
    requires q.startSent <= upto && Spread(ranges, id, q, attribution, sentences, upto).Ok?
    requires s < q.startSent || upto <= s
    ensures Fragments(Spread(ranges, id, q, attribution, sentences, upto).value, s) == Fragments(ranges, s)
    decreases upto - q.startSent
  {
    if upto != q.startSent {
      SpreadOutside(ranges, id, q, attribution, sentences, upto - 1, s);
    }
  }

  /**
   * Each sentence of the quote's span gets exactly one new fragment at the
   * end of its list: the quote's own start token in its first sentence and
   * 0 elsewhere, the quote's own end token in its last sentence and the
   * sentence's token count elsewhere.
   */
  lemma {:induction false} SpreadInside(ranges: map<int, seq<QuoteInfo>>, id: string, q: QuoteAnn, attribution: Option<string>,
                                        sentences: seq<string>, upto: int, s: int)
    requires q.startSent <= s < upto && Spread(ranges, id, q, attribution, sentences, upto).Ok?
    requires s == q.endSent || At(sentences, s).Some?
    ensures Fragments(Spread(ranges, id, q, attribution, sentences, upto).value, s) ==
      Fragments(ranges, s) + [QuoteInfo(id, FragmentStart(q, s),
                                        if s == q.endSent then q.endToken else |Words(At(sentences, s).value)|, attribution)]
    decreases upto - q.startSent
  {
    if s < upto - 1 {
      SpreadInside(ranges, id, q, attribution, sentences, upto - 1, s);
    } else {
      SpreadOutside(ranges, id, q, attribution, sentences, upto - 1, s);
    }
  }

  /** `quote_ranges` construction: one pass over the quotes, one inner pass over each quote's sentences. */
  method BuildQuoteRanges(ann: Annotations, sentences: seq<string>) returns (r: Result<map<int, seq<QuoteInfo>>, string>)
    requires ValidDict(ann.quotes)
    ensures r == QuoteRanges(ann, ann.quotes.keys, sentences)
  {
    var keys := ann.quotes.keys;
    var ranges: map<int, seq<QuoteInfo>> := map[];
    for i := 0 to |keys|
      invariant QuoteRanges(ann, keys[..i], sentences) == Ok(ranges)
    {
      var id := keys[i];
      var q := ann.quotes.values[id];
      QuoteRangesStep(ann, keys, sentences, i);
      var next := SpreadQuote(ranges, id, q, Lookup(ann.attributions, id), sentences);
      if next.Err? {
        QuoteRangesErr(ann, keys, sentences, i + 1);
        return next;
      }
      ranges := next.value;
    }
    assert keys[..|keys|] == keys;
    r := Ok(ranges);
  }

  /** The inner loop over `range(start_sent, end_sent + 1)`. */
  method SpreadQuote(ranges: map<int, seq<QuoteInfo>>, id: string, q: QuoteAnn, attribution: Option<string>,
                     sentences: seq<string>) returns (r: Result<map<int, seq<QuoteInfo>>, string>)
    ensures r == Spread(ranges, id, q, attribution, sentences, SpanEnd(q))
  {
    var current := ranges;
    for s := q.startSent to SpanEnd(q)
      invariant Spread(ranges, id, q, attribution, sentences, s) == Ok(current)
    {
      ghost var before := current;
      if s !in current {
        current := current[s := []];
      }
      var endToken;
      if s == q.endSent {
        endToken := q.endToken;
      } else {
        var sentence := At(sentences, s);
        if sentence.None? {
          SpreadErr(ranges, id, q, attribution, sentences, s + 1, SpanEnd(q));
          return Err("IndexError");
        }
        endToken := |Words(sentence.value)|;
      }
      var info := QuoteInfo(id, if s == q.startSent then q.startToken else 0, endToken, attribution);
      current := current[s := current[s] + [info]];
      assert current == before[s := Fragments(before, s) + [info]];
    }
    r := Ok(current);
  }

  /** A failure at some sentence is the failure of the whole spread. */
  lemma {:induction false} SpreadErr(ranges: map<int, seq<QuoteInfo>>, id: string, q: QuoteAnn, attribution: Option<string>,
                                     sentences: seq<string>, s: int, upto: int)
    requires q.startSent <= s <= upto
    requires Spread(ranges, id, q, attribution, sentences, s).Err?
    ensures Spread(ranges, id, q, attribution, sentences, upto) == Spread(ranges, id, q, attribution, sentences, s)
    decreases upto - s
  {
    if s < upto {
      SpreadErr(ranges, id, q, attribution, sentences, s, upto - 1);
    }
  }

  lemma QuoteRangesStep(ann: Annotations, keys: seq<string>, sentences: seq<string>, i: nat)
    requires forall k :: k in keys ==> k in ann.quotes.values
    requires i < |keys|
    ensures QuoteRanges(ann, keys[..i + 1], sentences) ==
      (var ranges :- QuoteRanges(ann, keys[..i], sentences);
       Spread(ranges, keys[i], ann.quotes.values[keys[i]], Lookup(ann.attributions, keys[i]), sentences, SpanEnd(ann.quotes.values[keys[i]])))
  {
    assert keys[..i + 1][..i] == keys[..i];
  }

  lemma {:induction false} QuoteRangesErr(ann: Annotations, keys: seq<string>, sentences: seq<string>, i: nat)
    requires forall k :: k in keys ==> k in ann.quotes.values
    requires i <= |keys| && QuoteRanges(ann, keys[..i], sentences).Err?
    ensures QuoteRanges(ann, keys, sentences) == QuoteRanges(ann, keys[..i], sentences)
    decreases |keys| - i
  {
    if i < |keys| {
      QuoteRangesStep(ann, keys, sentences, i);
      QuoteRangesErr(ann, keys, sentences, i + 1);
    } else {
      assert keys[..i] == keys;
    }
  }
}
