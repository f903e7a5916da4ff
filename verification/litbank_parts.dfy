/**
 * The LitBank ground-truth loader, second half: the state machine that walks
 * the sentences and their quote fragments and emits narration and quote
 * parts, and the whole `load_litbank_book` once the two files are read.
 */
module LitbankParts {
  import opened Wrappers
  import opened PyStrings
  import opened TextParts
  import opened Sorting
  import opened LitbankAnnotations

  // ---------------------------------------------------------------------------
  // The state machine, as functions
  // ---------------------------------------------------------------------------

  /** The loop state: the parts emitted so far, `current_text`, `current_type` and `current_character`. */
  datatype Machine = Machine(parts: seq<TextPart>, text: string, kind: TextPartType, character: Option<string>)

  function Initial(): Machine {
    Machine([], "", Other, None)
  }

  /**
   * "Finish current part": the stripped current text becomes a part, but
   * only if it is non-empty. The source builds the part without the id its
   * constructor requires; the model gives it id 0.
   */
  function Flush(m: Machine): seq<TextPart> {
    if m.text != "" then m.parts + [TextPart(0, Strip(m.text), m.kind, m.character)] else m.parts
  }

  /** `current_text += " " + more if current_text else more`. */
  function Extend(text: string, more: string): string {
    if text != "" then text + " " + more else more
  }

  /** Finish the current part and start a new one. */
  function Restart(m: Machine, text: string, kind: TextPartType, character: Option<string>): Machine {
    Machine(Flush(m), text, kind, character)
  }

  /** Continue the current part. */
  function Continue(m: Machine, more: string): Machine {
    m.(text := Extend(m.text, more))
  }

  /** `" ".join(tokens[a:b])`. */
  function JoinTokens(tokens: seq<string>, a: int, b: int): string {
    Join(Slice(tokens, a, b), " ")
  }

  /** The text between the previous position and a quote's first token. */
  function BeforeQuote(m: Machine, tokens: seq<string>, pos: int, info: QuoteInfo): Machine {
    if pos < info.startToken then
      var before := JoinTokens(tokens, pos, info.startToken);
      if m.kind == Quote || (m.kind == Other && Strip(before) != "") then Restart(m, before, Other, None)
      else Continue(m, before)
    else m
  }

  /** The quote's tokens, first to last inclusive: continues a quote of the same speaker, else starts one. */
  function QuoteText(m: Machine, tokens: seq<string>, info: QuoteInfo): Machine {
    var quoteText := JoinTokens(tokens, info.startToken, info.endToken + 1);
    if m.kind == Quote && m.character == info.attribution then Continue(m, quoteText)
    else Restart(m, quoteText, Quote, info.attribution)
  }

  function QuoteStep(m: Machine, tokens: seq<string>, pos: int, info: QuoteInfo): Machine {
    QuoteText(BeforeQuote(m, tokens, pos, info), tokens, info)
  }

  /** The state and the position after a sentence's fragments, from position 0. */
  function QuotesStep(m: Machine, tokens: seq<string>, infos: seq<QuoteInfo>): (Machine, int)
    decreases |infos|
  {
    if infos == [] then (m, 0)
    else
      var prev := QuotesStep(m, tokens, infos[..|infos| - 1]);
      var info := infos[|infos| - 1];
      (QuoteStep(prev.0, tokens, prev.1, info), info.endToken + 1)
  }

  /** The tokens after the last quote of a sentence. */
  function AfterQuotes(m: Machine, tokens: seq<string>, pos: int): Machine {
    if pos < |tokens| then
      var after := JoinTokens(tokens, pos, |tokens|);
      if m.kind == Quote then Restart(m, after, Other, None) else Continue(m, after)
    else m
  }

  function StartKey(info: QuoteInfo): int {
    info.startToken
  }

  /** One sentence: its fragments in ascending start-token order, or the whole sentence as narration. */
  function SentenceStep(m: Machine, sentence: string, fragments: Option<seq<QuoteInfo>>): Machine {
    match fragments
    case None =>
      if m.kind == Quote then Restart(m, sentence, Other, None) else Continue(m, sentence)
    case Some(infos) =>
      var tokens := Words(sentence);
      var done := QuotesStep(m, tokens, SortBy(infos, StartKey));
      AfterQuotes(done.0, tokens, done.1)
  }

  function FragmentsOf(ranges: map<int, seq<QuoteInfo>>, s: int): Option<seq<QuoteInfo>> {
    if s in ranges then Some(ranges[s]) else None
  }

  /** The state after the first `n` sentences. */
  function Walk(sentences: seq<string>, ranges: map<int, seq<QuoteInfo>>, n: nat): Machine
    requires n <= |sentences|
  {
    if n == 0 then Initial()
    else SentenceStep(Walk(sentences, ranges, n - 1), sentences[n - 1], FragmentsOf(ranges, n - 1))
  }

  /** The parts of the book: the walk over every sentence, then the last part if its text is non-empty. */
  function BookParts(sentences: seq<string>, ranges: map<int, seq<QuoteInfo>>): seq<TextPart> {
    Flush(Walk(sentences, ranges, |sentences|))
  }

  // ---------------------------------------------------------------------------
  // The state machine, as the loops
  // ---------------------------------------------------------------------------

  /** The text-part loop of `load_litbank_book`. */
  method LitbankTextParts(sentences: seq<string>, ranges: map<int, seq<QuoteInfo>>) returns (textParts: seq<TextPart>)
    ensures textParts == BookParts(sentences, ranges)
  {
    textParts := [];
    var currentText := "";
    var currentType := Other;
    var currentCharacter: Option<string> := None;
    for sentIdx := 0 to |sentences|
      invariant Machine(textParts, currentText, currentType, currentCharacter) == Walk(sentences, ranges, sentIdx)
    {
      var sentence := sentences[sentIdx];
      if sentIdx in ranges {
        textParts, currentText, currentType, currentCharacter :=
          QuotedSentence(textParts, currentText, currentType, currentCharacter, sentence, ranges[sentIdx]);
      } else if currentType == Quote {
        if currentText != "" {
          textParts := textParts + [TextPart(0, Strip(currentText), currentType, currentCharacter)];
        }
        currentText := sentence;
        currentType := Other;
        currentCharacter := None;
      } else {
        currentText := if currentText != "" then currentText + " " + sentence else sentence;
      }
    }
    if currentText != "" {
      textParts := textParts + [TextPart(0, Strip(currentText), currentType, currentCharacter)];
    }
  }

  /** A sentence with quote fragments: the fragments sorted by start token, then the rest of the sentence. */
  method QuotedSentence(parts: seq<TextPart>, text: string, kind: TextPartType, character: Option<string>,
                        sentence: string, infos: seq<QuoteInfo>)
    returns (parts': seq<TextPart>, text': string, kind': TextPartType, character': Option<string>)
    ensures Machine(parts', text', kind', character') == SentenceStep(Machine(parts, text, kind, character), sentence, Some(infos))
  {
    var tokens := Words(sentence);
    var sentQuotes := SortBy(infos, StartKey);
    var currentPos;
    parts', text', kind', character', currentPos := QuoteFragments(parts, text, kind, character, tokens, sentQuotes);
    if currentPos < |tokens| {
      var afterText := JoinTokens(tokens, currentPos, |tokens|);
      if kind' == Quote {
        if text' != "" {
          parts' := parts' + [TextPart(0, Strip(text'), kind', character')];
        }
        text' := afterText;
        kind' := Other;
        character' := None;
      } else {
        text' := if text' != "" then text' + " " + afterText else afterText;
      }
    }
  }

  /** The fragments of a sentence in the given order, and the token after the last one. */
  method QuoteFragments(parts: seq<TextPart>, text: string, kind: TextPartType, character: Option<string>,
                        tokens: seq<string>, quotes: seq<QuoteInfo>)
    returns (parts': seq<TextPart>, text': string, kind': TextPartType, character': Option<string>, pos: int)
    ensures (Machine(parts', text', kind', character'), pos) == QuotesStep(Machine(parts, text, kind, character), tokens, quotes)
  {
    ghost var start := Machine(parts, text, kind, character);
    parts', text', kind', character' := parts, text, kind, character;
    pos := 0;
    for k := 0 to |quotes|
      invariant (Machine(parts', text', kind', character'), pos) == QuotesStep(start, tokens, quotes[..k])
    {
      assert quotes[..k + 1][..k] == quotes[..k];
      parts', text', kind', character' := QuoteFragment(parts', text', kind', character', tokens, pos, quotes[k]);
      pos := quotes[k].endToken + 1;
    }
    assert quotes[..|quotes|] == quotes;
  }

  /** One quote fragment: the text before it, then the quote itself. */
  method QuoteFragment(parts: seq<TextPart>, text: string, kind: TextPartType, character: Option<string>,
                       tokens: seq<string>, pos: int, info: QuoteInfo)
    returns (parts': seq<TextPart>, text': string, kind': TextPartType, character': Option<string>)
    ensures Machine(parts', text', kind', character') == QuoteStep(Machine(parts, text, kind, character), tokens, pos, info)
  {
    parts', text', kind', character' := parts, text, kind, character;
    if pos < info.startToken {
      var beforeText := JoinTokens(tokens, pos, info.startToken);
      if kind' == Quote || (kind' == Other && Strip(beforeText) != "") {
        if text' != "" {
          parts' := parts' + [TextPart(0, Strip(text'), kind', character')];
        }
        text' := beforeText;
        kind' := Other;
        character' := None;
      } else {
        text' := if text' != "" then text' + " " + beforeText else beforeText;
      }
    }
    var quoteText := JoinTokens(tokens, info.startToken, info.endToken + 1);
    if kind' == Quote && character' == info.attribution {
      text' := if text' != "" then text' + " " + quoteText else quoteText;
    } else {
      if text' != "" {
        parts' := parts' + [TextPart(0, Strip(text'), kind', character')];
      }
      text' := quoteText;
      kind' := Quote;
      character' := info.attribution;
    }
  }

  // ---------------------------------------------------------------------------
  // Properties of the state machine
  // ---------------------------------------------------------------------------

  /**
   * Consecutive fragments of the same speaker merge: a fragment that starts
   * where the previous one ended, while a quote of its speaker is open, adds
   * its text to that quote after a space and emits nothing.
   */
  lemma SameSpeakerMerges(m: Machine, tokens: seq<string>, pos: int, info: QuoteInfo)
    requires m.kind == Quote && m.character == info.attribution && info.startToken <= pos
    ensures QuoteStep(m, tokens, pos, info) == m.(text := Extend(m.text, JoinTokens(tokens, info.startToken, info.endToken + 1)))
  {
  }

  /**
   * Any other fragment closes the open part (emitted if its text is
   * non-empty) and opens a quote of the fragment's speaker holding exactly
   * the fragment's tokens.
   */
  lemma OtherSpeakerStarts(m: Machine, tokens: seq<string>, pos: int, info: QuoteInfo)
    requires info.startToken <= pos
    requires m.kind != Quote || m.character != info.attribution
    ensures QuoteStep(m, tokens, pos, info) == Machine(Flush(m), JoinTokens(tokens, info.startToken, info.endToken + 1), Quote, info.attribution)
  {
  }

  /** The parts emitted so far only ever grow at the end. */
  predicate Extends(m: Machine, m': Machine) {
    |m.parts| <= |m'.parts| && m'.parts[..|m.parts|] == m.parts
  }

  lemma FlushExtends(m: Machine)
    ensures |m.parts| <= |Flush(m)| <= |m.parts| + 1 && Flush(m)[..|m.parts|] == m.parts
  {
  }

  lemma QuoteStepExtends(m: Machine, tokens: seq<string>, pos: int, info: QuoteInfo)
    ensures Extends(m, QuoteStep(m, tokens, pos, info))
  {
    var b := BeforeQuote(m, tokens, pos, info);
    FlushExtends(m);
    FlushExtends(b);
    assert Extends(m, b);
  }

  lemma {:induction false} QuotesStepExtends(m: Machine, tokens: seq<string>, infos: seq<QuoteInfo>)
    ensures Extends(m, QuotesStep(m, tokens, infos).0)
    decreases |infos|
  {
    if infos != [] {
      var prev := QuotesStep(m, tokens, infos[..|infos| - 1]);
      QuotesStepExtends(m, tokens, infos[..|infos| - 1]);
      QuoteStepExtends(prev.0, tokens, prev.1, infos[|infos| - 1]);
    }
  }

  lemma SentenceStepExtends(m: Machine, sentence: string, fragments: Option<seq<QuoteInfo>>)
    ensures Extends(m, SentenceStep(m, sentence, fragments))
  {
    FlushExtends(m);
    if fragments.Some? {
      var tokens := Words(sentence);
      var done := QuotesStep(m, tokens, SortBy(fragments.value, StartKey));
      QuotesStepExtends(m, tokens, SortBy(fragments.value, StartKey));
      FlushExtends(done.0);
    }
  }

  /** Sentences are processed in order: the parts after `a` sentences begin the parts after `b >= a` sentences. */
  lemma {:induction false} WalkExtends(sentences: seq<string>, ranges: map<int, seq<QuoteInfo>>, a: nat, b: nat)
    requires a <= b <= |sentences|
    ensures Extends(Walk(sentences, ranges, a), Walk(sentences, ranges, b))
    decreases b - a
  {
    if a < b {
      WalkExtends(sentences, ranges, a, b - 1);
      SentenceStepExtends(Walk(sentences, ranges, b - 1), sentences[b - 1], FragmentsOf(ranges, b - 1));
    }
  }

  /**
   * What every emitted part satisfies: its text is stripped, a narration
   * part has no speaker and a quote part has one of the given speakers.
   */
  predicate PartsTagged(parts: seq<TextPart>, speakers: set<Option<string>>) {
    forall i :: 0 <= i < |parts| ==>
      IsStripped(parts[i].text) &&
      (parts[i].kind == Other ==> parts[i].characterIdentifier.None?) &&
      (parts[i].kind == Quote ==> parts[i].characterIdentifier in speakers)
  }

  /** The same of the open part, whose text is not yet stripped. */
  predicate Tagged(m: Machine, speakers: set<Option<string>>) {
    PartsTagged(m.parts, speakers) &&
    (m.kind == Other ==> m.character.None?) &&
    (m.kind == Quote ==> m.character in speakers)
  }

  lemma FlushTagged(m: Machine, speakers: set<Option<string>>)
    requires Tagged(m, speakers)
    ensures PartsTagged(Flush(m), speakers)
  {
    if m.text != "" {
      StripIsStripped(m.text);
      assert Flush(m)[|m.parts|].text == Strip(m.text);
    }
  }

  lemma QuoteStepTagged(m: Machine, tokens: seq<string>, pos: int, info: QuoteInfo, speakers: set<Option<string>>)
    requires Tagged(m, speakers) && info.attribution in speakers
    ensures Tagged(QuoteStep(m, tokens, pos, info), speakers)
  {
    var b := BeforeQuote(m, tokens, pos, info);
    FlushTagged(m, speakers);
    assert Tagged(b, speakers);
    FlushTagged(b, speakers);
  }

  lemma {:induction false} QuotesStepTagged(m: Machine, tokens: seq<string>, infos: seq<QuoteInfo>, speakers: set<Option<string>>)
    requires Tagged(m, speakers)
    requires forall i :: 0 <= i < |infos| ==> infos[i].attribution in speakers
    ensures Tagged(QuotesStep(m, tokens, infos).0, speakers)
    decreases |infos|
  {
    if infos != [] {
      var prev := QuotesStep(m, tokens, infos[..|infos| - 1]);
      QuotesStepTagged(m, tokens, infos[..|infos| - 1], speakers);
      QuoteStepTagged(prev.0, tokens, prev.1, infos[|infos| - 1], speakers);
    }
  }

  /** Sorting the fragments keeps their speakers. */
  lemma SortedSpeakers(infos: seq<QuoteInfo>, speakers: set<Option<string>>)
    requires forall i :: 0 <= i < |infos| ==> infos[i].attribution in speakers
    ensures forall i :: 0 <= i < |SortBy(infos, StartKey)| ==> SortBy(infos, StartKey)[i].attribution in speakers
  {
    var sorted := SortBy(infos, StartKey);
    forall i | 0 <= i < |sorted| ensures sorted[i].attribution in speakers {
      assert sorted[i] in multiset(sorted);
      assert sorted[i] in multiset(infos);
      var j :| 0 <= j < |infos| && infos[j] == sorted[i];
    }
  }

  lemma SentenceStepTagged(m: Machine, sentence: string, fragments: Option<seq<QuoteInfo>>, speakers: set<Option<string>>)
    requires Tagged(m, speakers)
    requires fragments.Some? ==> forall i :: 0 <= i < |fragments.value| ==> fragments.value[i].attribution in speakers
    ensures Tagged(SentenceStep(m, sentence, fragments), speakers)
  {
    FlushTagged(m, speakers);
    if fragments.Some? {
      var tokens := Words(sentence);
      var sorted := SortBy(fragments.value, StartKey);
      SortedSpeakers(fragments.value, speakers);
      QuotesStepTagged(m, tokens, sorted, speakers);
      FlushTagged(QuotesStep(m, tokens, sorted).0, speakers);
    }
  }

  /** Every fragment in the table has one of the given speakers. */
  predicate RangesFrom(ranges: map<int, seq<QuoteInfo>>, speakers: set<Option<string>>) {
    forall s :: s in ranges ==> forall i :: 0 <= i < |ranges[s]| ==> ranges[s][i].attribution in speakers
  }

  lemma {:induction false} WalkTagged(sentences: seq<string>, ranges: map<int, seq<QuoteInfo>>, n: nat, speakers: set<Option<string>>)
    requires n <= |sentences| && RangesFrom(ranges, speakers)
    ensures Tagged(Walk(sentences, ranges, n), speakers)
  {
    if n > 0 {
      WalkTagged(sentences, ranges, n - 1, speakers);
      SentenceStepTagged(Walk(sentences, ranges, n - 1), sentences[n - 1], FragmentsOf(ranges, n - 1), speakers);
    }
  }

  /**
   * Every part of the book is stored stripped; narration parts carry no
   * speaker and quote parts carry the attribution of one of the fragments.
   */
  lemma BookPartsTagged(sentences: seq<string>, ranges: map<int, seq<QuoteInfo>>, speakers: set<Option<string>>)
    requires RangesFrom(ranges, speakers)
    ensures PartsTagged(BookParts(sentences, ranges), speakers)
  {
    WalkTagged(sentences, ranges, |sentences|, speakers);
    FlushTagged(Walk(sentences, ranges, |sentences|), speakers);
  }

  // ---------------------------------------------------------------------------
  // The whole book
  // ---------------------------------------------------------------------------

  /** What the loader returns: the raw text, the parts, the set of speakers and the attributed quotes. */
  datatype LitBankBook = LitBankBook(rawText: string, textParts: seq<TextPart>, characters: set<string>, quotes: seq<LitBankQuote>)

  /** The sentences of the book text: its stripped text split on newlines. */
  function Sentences(bookText: string): seq<string> {
    Split(Strip(bookText), '\n')
  }

  /** `load_litbank_book` on the already-read book and annotation texts. */
  function BookOf(bookText: string, annotationText: string): Result<LitBankBook, string> {
    var ann :- ParsedAnnotations(annotationText);
    ParseLinesValid(AnnotationLines(annotationText));
    var quotes := AttributedQuotes(ann, ann.quotes.keys);
    var sentences := Sentences(bookText);
    var ranges :- QuoteRanges(ann, ann.quotes.keys, sentences);
    Ok(LitBankBook(bookText, BookParts(sentences, ranges), Speakers(quotes), quotes))
  }

  method LoadLitbankBook(bookText: string, annotationText: string) returns (r: Result<LitBankBook, string>)
    ensures r == BookOf(bookText, annotationText)
  {
    var parsed := ParseAnnotations(annotationText);
    if parsed.Err? {
      return Err(parsed.error);
    }
    var ann := parsed.value;
    ParseLinesValid(AnnotationLines(annotationText));
    var quotes, characters := CollectQuotes(ann);
    var sentences := Sentences(bookText);
    var ranges := BuildQuoteRanges(ann, sentences);
    if ranges.Err? {
      return Err(ranges.error);
    }
    var textParts := LitbankTextParts(sentences, ranges.value);
    r := Ok(LitBankBook(bookText, textParts, characters, quotes));
  }

  /** The attributions of the quotes in the quote dictionary, `None` for a quote without one. */
  ghost function Attributions(ann: Annotations): set<Option<string>> {
    set k | k in ann.quotes.values :: Lookup(ann.attributions, k)
  }

  lemma {:induction false} SpreadFrom(ranges: map<int, seq<QuoteInfo>>, id: string, q: QuoteAnn, attribution: Option<string>,
                                      sentences: seq<string>, upto: int, speakers: set<Option<string>>)
    requires q.startSent <= upto && RangesFrom(ranges, speakers) && attribution in speakers
    requires Spread(ranges, id, q, attribution, sentences, upto).Ok?
    ensures RangesFrom(Spread(ranges, id, q, attribution, sentences, upto).value, speakers)
    decreases upto - q.startSent
  {
    if upto != q.startSent {
      SpreadFrom(ranges, id, q, attribution, sentences, upto - 1, speakers);
    }
  }

  lemma {:induction false} QuoteRangesFrom(ann: Annotations, keys: seq<string>, sentences: seq<string>)
    requires forall k :: k in keys ==> k in ann.quotes.values
    requires QuoteRanges(ann, keys, sentences).Ok?
    ensures RangesFrom(QuoteRanges(ann, keys, sentences).value, Attributions(ann))
    decreases |keys|
  {
    if keys != [] {
      var id := keys[|keys| - 1];
      var q := ann.quotes.values[id];
      QuoteRangesFrom(ann, keys[..|keys| - 1], sentences);
      var ranges := QuoteRanges(ann, keys[..|keys| - 1], sentences).value;
      assert Lookup(ann.attributions, id) in Attributions(ann);
      SpreadFrom(ranges, id, q, Lookup(ann.attributions, id), sentences, SpanEnd(q), Attributions(ann));
    }
  }

  /**
   * A loaded book keeps the raw text, its characters are exactly the
   * speakers of its attributed quotes, and every part is stored stripped,
   * narration without a speaker and quotes with the attribution of a quote
   * of the annotation file.
   */
  lemma BookWellFormed(bookText: string, annotationText: string)
    requires BookOf(bookText, annotationText).Ok?
    ensures BookOf(bookText, annotationText).value.rawText == bookText
    ensures BookOf(bookText, annotationText).value.characters == Speakers(BookOf(bookText, annotationText).value.quotes)
    ensures PartsTagged(BookOf(bookText, annotationText).value.textParts, Attributions(ParsedAnnotations(annotationText).value))
  {
    var ann := ParsedAnnotations(annotationText).value;
    ParseLinesValid(AnnotationLines(annotationText));
    var sentences := Sentences(bookText);
    QuoteRangesFrom(ann, ann.quotes.keys, sentences);
    BookPartsTagged(sentences, QuoteRanges(ann, ann.quotes.keys, sentences).value, Attributions(ann));
  }
}
