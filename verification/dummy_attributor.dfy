/**
 * The dummy quotation attributor: the text's words in chunks of eight,
 * alternately narration and quotes, every quote given to the first
 * character.
 */
module DummyQuotationAttribution {
  import opened Wrappers
  import opened PyStrings
  import opened TextParts
  import opened PipelineTypes

  const ChunkSize: nat := 8

  /** Even-numbered chunks are narration, odd-numbered ones quotes. */
  function ChunkKind(i: nat): TextPartType {
    if i % 2 == 0 then Other else Quote
  }

  /**
   * The parts built from the text's words, before any speaker is assigned.
   * The source builds them without the id the part record requires; the
   * model gives them id 0.
   */
  function DummyParts(text: string): seq<TextPart> {
    var chunks := Chunks(Words(text), ChunkSize);
    seq(|chunks|, i requires 0 <= i < |chunks| => TextPart(0, Join(chunks[i], " "), ChunkKind(i), None))
  }

  /** The speaker every quote gets: the first character's identifier, if there is a character. */
  function QuoteSpeaker(characters: seq<Character>): (r: Option<string>)
    ensures r.Some? <==> |characters| > 0
    ensures r.Some? ==> r.value == characters[0].identifier
  {
    if |characters| > 0 then Some(characters[0].identifier) else None
  }

  /** A part after the speaker loop: quotes get `speaker`, narration is left alone. */
  function Attribute(part: TextPart, speaker: Option<string>): TextPart {
    if part.kind == Quote then part.(characterIdentifier := speaker) else part
  }

  /** The parts after the speaker loop. */
  function Attributed(parts: seq<TextPart>, speaker: Option<string>): (r: seq<TextPart>)
    ensures |r| == |parts|
    ensures forall i :: 0 <= i < |r| ==> r[i] == Attribute(parts[i], speaker)
  {
    seq(|parts|, i requires 0 <= i < |parts| => Attribute(parts[i], speaker))
  }

  /**
   * Replaces the data's parts with the chunked text and assigns the quote
   * speaker part by part.
   */
  method Run(data: PipelineData)
    modifies data
    ensures data.textAsParts == Attributed(DummyParts(old(data.originalText)), QuoteSpeaker(old(data.characters)))
    ensures data.originalText == old(data.originalText) && data.characters == old(data.characters)
    ensures data.availableSpeakers == old(data.availableSpeakers) && data.availableVoices == old(data.availableVoices)
  {
    data.textAsParts := DummyParts(data.originalText);
    ghost var built := data.textAsParts;
    var speaker := QuoteSpeaker(data.characters);
    for i := 0 to |data.textAsParts|
      invariant data.originalText == old(data.originalText) && data.characters == old(data.characters)
      invariant data.availableSpeakers == old(data.availableSpeakers) && data.availableVoices == old(data.availableVoices)
      invariant |data.textAsParts| == |built|
      invariant forall j :: 0 <= j < i ==> data.textAsParts[j] == Attribute(built[j], speaker)
      invariant forall j :: i <= j < |built| ==> data.textAsParts[j] == built[j]
    {
      if data.textAsParts[i].kind == Quote {
        data.textAsParts := data.textAsParts[i := data.textAsParts[i].(characterIdentifier := speaker)];
      }
    }
  }

  /** The parts alternate narration and quotes, starting with narration, and hold at most eight words each. */
  lemma DummyPartsShape(text: string)
    ensures var parts := DummyParts(text);
      (forall i :: 0 <= i < |parts| ==> parts[i].kind == (if i % 2 == 0 then Other else Quote))
      && (forall i :: 0 <= i < |parts| ==> 0 < |Words(parts[i].text)| <= ChunkSize)
      && (forall i :: 0 <= i < |parts| - 1 ==> |Words(parts[i].text)| == ChunkSize)
  {
    PartWords(text);
    ChunksSizes(Words(text), ChunkSize);
  }

  /** One part per started group of eight words: none when the text has no words. */
  lemma DummyPartsCount(text: string)
    ensures var n := |DummyParts(text)|;
      (n == 0 <==> |Words(text)| == 0) && |Words(text)| <= n * ChunkSize && (n > 0 ==> (n - 1) * ChunkSize < |Words(text)|)
  {
    ChunksCount(Words(text), ChunkSize);
  }

  /** The words of each part are its chunk of the text's words. */
  lemma PartWords(text: string)
    ensures var parts := DummyParts(text);
      forall i :: 0 <= i < |parts| ==> Words(parts[i].text) == Chunks(Words(text), ChunkSize)[i]
  {
    var words := Words(text);
    var chunks := Chunks(words, ChunkSize);
    forall i | 0 <= i < |chunks| ensures Words(Join(chunks[i], " ")) == chunks[i] {
      forall j | 0 <= j < |chunks[i]| ensures chunks[i][j] != [] && NoSpace(chunks[i][j]) {
        ChunkElements(words, ChunkSize, i, j);
      }
      WordsJoin(chunks[i]);
    }
  }

  /** No word is dropped or altered: the parts' words, one part after another, are the text's words. */
  lemma NoWordDropped(text: string)
    ensures var parts := DummyParts(text);
      Flatten(seq(|parts|, i requires 0 <= i < |parts| => Words(parts[i].text))) == Words(text)
  {
    var parts := DummyParts(text);
    PartWords(text);
    assert seq(|parts|, i requires 0 <= i < |parts| => Words(parts[i].text)) == Chunks(Words(text), ChunkSize);
    ChunksFlatten(Words(text), ChunkSize);
  }

  /** After the run every quote is spoken by the first character (or nobody) and narration by nobody. */
  lemma AttributedSpeakers(text: string, characters: seq<Character>)
    ensures var parts := Attributed(DummyParts(text), QuoteSpeaker(characters));
      forall i :: 0 <= i < |parts| ==>
        parts[i].characterIdentifier == (if parts[i].kind == Quote then QuoteSpeaker(characters) else None)
  {
  }

  /** The speaker loop leaves the text of the parts as it was. */
  lemma {:induction false} AttributedTexts(parts: seq<TextPart>, speaker: Option<string>)
    ensures ConcatTexts(Attributed(parts, speaker)) == ConcatTexts(parts)
    decreases |parts|
  {
    if parts != [] {
      var n := |parts| - 1;
      AttributedTexts(parts[..n], speaker);
      assert Attributed(parts, speaker)[..n] == Attributed(parts[..n], speaker);
    }
  }
}
