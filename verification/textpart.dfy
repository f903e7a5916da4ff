/**
 * A document as a list of text parts: narration (`Other`) or quoted speech
 * (`Quote`), each with an integer id and, for quotes, an optional speaker
 * identifier.
 */
module TextParts {
  import opened Wrappers

  /** The two kinds of text part; no third value exists. */
  datatype TextPartType = Quote | Other

  datatype TextPart = TextPart(id: int, text: string, kind: TextPartType, characterIdentifier: Option<string>)

  /** `"".join(part.text for part in parts)`. */
  function ConcatTexts(parts: seq<TextPart>): string {
    if parts == [] then "" else ConcatTexts(parts[..|parts| - 1]) + parts[|parts| - 1].text
  }

  lemma {:induction false} ConcatTextsAppend(a: seq<TextPart>, b: seq<TextPart>)
    ensures ConcatTexts(a + b) == ConcatTexts(a) + ConcatTexts(b)
    decreases |b|
  {
    if b == [] {
      assert a + b == a;
    } else {
      assert (a + b)[..|a + b| - 1] == a + b[..|b| - 1];
      ConcatTextsAppend(a, b[..|b| - 1]);
    }
  }

  /** The text of the first `k` parts followed by the text of the rest is the whole text. */
  lemma ConcatSplit(parts: seq<TextPart>, k: nat)
    requires k <= |parts|
    ensures ConcatTexts(parts) == ConcatTexts(parts[..k]) + ConcatTexts(parts[k..])
  {
    assert parts == parts[..k] + parts[k..];
    ConcatTextsAppend(parts[..k], parts[k..]);
  }

  /** One more part adds its text at the end. */
  lemma ConcatPrefixStep(parts: seq<TextPart>, k: nat)
    requires k < |parts|
    ensures ConcatTexts(parts[..k + 1]) == ConcatTexts(parts[..k]) + parts[k].text
  {
    assert parts[..k + 1][..k] == parts[..k];
  }

  lemma ConcatOne(p: TextPart)
    ensures ConcatTexts([p]) == p.text
  {
    assert [p][..0] == [];
  }

  lemma ConcatTextsCons(p: TextPart, ps: seq<TextPart>)
    ensures ConcatTexts([p] + ps) == p.text + ConcatTexts(ps)
  {
    ConcatTextsAppend([p], ps);
    ConcatOne(p);
  }

  /**
   * `remove_newlines`: every `'\n'` of the text becomes a space. The model
   * returns the updated part instead of updating it in place.
   */
  function RemoveNewlines(p: TextPart): (r: TextPart)
    ensures |r.text| == |p.text|
    ensures forall i :: 0 <= i < |r.text| ==> r.text[i] != '\n'
    ensures forall i :: 0 <= i < |p.text| && p.text[i] != '\n' ==> r.text[i] == p.text[i]
    ensures forall i :: 0 <= i < |p.text| && p.text[i] == '\n' ==> r.text[i] == ' '
    ensures r.id == p.id && r.kind == p.kind && r.characterIdentifier == p.characterIdentifier
  {
    p.(text := seq(|p.text|, i requires 0 <= i < |p.text| => if p.text[i] == '\n' then ' ' else p.text[i]))
  }

  /** Removing the newlines twice is the same as removing them once. */
  lemma RemoveNewlinesIdempotent(p: TextPart)
    ensures RemoveNewlines(RemoveNewlines(p)) == RemoveNewlines(p)
  {
    var once := RemoveNewlines(p);
    assert RemoveNewlines(once).text == once.text;
  }
}
