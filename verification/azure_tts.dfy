/**
 * The Azure text-to-speech component, without the speech service itself:
 * its parameters, the choice of voices at setup, the SSML voice elements it
 * builds from the text parts, and the batches of at most fifty elements it
 * sends to the service one request at a time.
 */
module AzureTts {
  import opened Wrappers
  import opened PyStrings
  import opened TextParts
  import opened PipelineTypes

  /** The service's limit on voice elements in one SSML document. */
  const MaxVoiceElements: nat := 50

  /** The pause closing every voice element. */
  const BreakTime := "200ms"

  /** The component's parameters: the output file, the language, and the voices picked by name. */
  datatype AzureSettings = AzureSettings(outFile: string, lang: string, selectedVoices: seq<string>)

  /** A voice as the speech service lists it. */
  datatype VoiceInfo = VoiceInfo(shortName: string, gender: string, locale: string)

  /** One `<voice name=…>text<break time="200ms"/></voice>` element; `name` is absent when no voice was found. */
  datatype VoiceElement = VoiceElement(name: Option<string>, text: string, breakTime: string)

  /** `[v.strip() for v in voices.split(';') if v.strip()]`. */
  function VoiceList(voices: string): (r: seq<string>)
    ensures forall k :: 0 <= k < |r| ==> r[k] != "" && IsStripped(r[k])
  {
    StrippedPieces(Split(voices, ';'))
  }

  /** The stripped pieces that are not empty, in order. */
  function StrippedPieces(pieces: seq<string>): (r: seq<string>)
    ensures forall k :: 0 <= k < |r| ==> r[k] != "" && IsStripped(r[k])
    ensures |r| <= |pieces|
    decreases |pieces|
  {
    if pieces == [] then []
    else
      var init := StrippedPieces(pieces[..|pieces| - 1]);
      var last := Strip(pieces[|pieces| - 1]);
      StripIsStripped(pieces[|pieces| - 1]);
      assert pieces == pieces[..|pieces| - 1] + [pieces[|pieces| - 1]];
      if last == "" then init else init + [last]
  }

  /**
   * The pieces are read one after another: the voices of two runs of pieces
   * are those of the first run followed by those of the second.
   */
  lemma {:induction false} StrippedPiecesAppend(a: seq<string>, b: seq<string>)
    ensures StrippedPieces(a + b) == StrippedPieces(a) + StrippedPieces(b)
    decreases |b|
  {
    if b == [] {
      assert a + b == a;
    } else {
      var n := |b| - 1;
      var c := b[..n];
      var x := StrippedPieces(a + c);
      var y := StrippedPieces(c);
      var t := if Strip(b[n]) == "" then [] else [Strip(b[n])];
      assert StrippedPieces(a + b) == x + t by {
        assert a + b == (a + c) + [b[n]];
        StrippedPiecesSnoc(a + c, b[n]);
      }
      assert StrippedPieces(b) == y + t by {
        assert b == c + [b[n]];
        StrippedPiecesSnoc(c, b[n]);
      }
      assert x == StrippedPieces(a) + y by {
        StrippedPiecesAppend(a, c);
      }
      assert x + t == StrippedPieces(a) + (y + t);
    }
  }

  lemma StrippedPiecesSnoc(pieces: seq<string>, p: string)
    ensures StrippedPieces(pieces + [p]) == StrippedPieces(pieces) + (if Strip(p) == "" then [] else [Strip(p)])
  {
    assert (pieces + [p])[..|pieces|] == pieces;
  }

  /** A voice is kept exactly when it is the non-empty stripped text of some piece. */
  lemma {:induction false} StrippedPiecesMembers(pieces: seq<string>)
    ensures forall x :: x in StrippedPieces(pieces) <==> x != "" && exists p :: p in pieces && Strip(p) == x
    decreases |pieces|
  {
    if pieces != [] {
      var n := |pieces| - 1;
      StrippedPiecesMembers(pieces[..n]);
      StrippedPiecesSnoc(pieces[..n], pieces[n]);
      assert pieces == pieces[..n] + [pieces[n]];
    }
  }

  /** Stripped, non-empty pieces are all kept. */
  lemma {:induction false} StrippedPiecesKeep(pieces: seq<string>)
    requires forall k :: 0 <= k < |pieces| ==> pieces[k] != "" && IsStripped(pieces[k])
    ensures StrippedPieces(pieces) == pieces
    decreases |pieces|
  {
    if pieces != [] {
      StrippedPiecesKeep(pieces[..|pieces| - 1]);
      StrippedUnchanged(pieces[|pieces| - 1]);
    }
  }

  /** Names joined with `;` read back as the same names, in order, when none is empty, padded or holds a `;`. */
  lemma VoiceListJoin(names: seq<string>)
    requires |names| >= 1
    requires forall k :: 0 <= k < |names| ==> names[k] != "" && IsStripped(names[k]) && !Contains(names[k], ';')
    ensures VoiceList(Join(names, ";")) == names
  {
    JoinSplit(names, ';');
    StrippedPiecesKeep(names);
  }

  /**
   * The settings read from the parameters. A missing or empty `out_file` is
   * an error; `lang` defaults to `en-US`; `voices` defaults to none.
   */
  function Configure(params: map<string, string>): (r: Result<AzureSettings, string>)
    ensures r.Err? <==> "out_file" !in params || params["out_file"] == ""
    ensures r.Ok? ==> r.value.outFile == params["out_file"]
    ensures r.Ok? ==> r.value.lang == (if "lang" in params then params["lang"] else "en-US")
    ensures r.Ok? ==> r.value.selectedVoices == VoiceList(Lookup(params, "voices").GetOr(""))
  {
    var outFile := Lookup(params, "out_file").GetOr("");
    if outFile == "" then Err("ValueError: out_file parameter is required.")
    else
      var lang := Lookup(params, "lang").GetOr("en-US");
      Ok(AzureSettings(outFile, lang, VoiceList(Lookup(params, "voices").GetOr(""))))
  }

  /** Whether a listed voice was picked by name. */
  function PickedBy(selected: seq<string>): VoiceInfo -> bool {
    (v: VoiceInfo) => v.shortName in selected
  }

  /**
   * `[voice for voice in voices if voice.short_name in selected]`: the listed
   * voices whose short name was picked, each as often as the service lists
   * it, and no other.
   */
  function PickedVoices(voices: seq<VoiceInfo>, selected: seq<string>): (r: seq<VoiceInfo>)
    ensures forall v :: v in r <==> v in voices && v.shortName in selected
    ensures forall v :: multiset(r)[v] == if v.shortName in selected then multiset(voices)[v] else 0
    ensures |r| <= |voices|
  {
    FilterCount(voices, PickedBy(selected));
    Filter(voices, PickedBy(selected))
  }

  /**
   * The picked voices keep the service's order: those picked from two runs
   * of the service's list are the ones picked from the first run followed by
   * the ones picked from the second.
   */
  lemma PickedVoicesAppend(a: seq<VoiceInfo>, b: seq<VoiceInfo>, selected: seq<string>)
    ensures PickedVoices(a + b, selected) == PickedVoices(a, selected) + PickedVoices(b, selected)
  {
    FilterAppend(a, b, PickedBy(selected));
  }

  /**
   * The availability check on picked voices as written: it compares the
   * number of listed voices picked with the number of names picked.
   */
  function PickedCheckAsWritten(voices: seq<VoiceInfo>, selected: seq<string>): Result<seq<VoiceInfo>, string> {
    var picked := PickedVoices(voices, selected);
    if |picked| != |selected| then Err("ValueError: Some selected voices are not available") else Ok(picked)
  }

  /** A name picked twice is refused although the voice it names is available. */
  lemma DuplicatePickRefused()
    ensures var voices := [VoiceInfo("en-US-AvaNeural", "Female", "en-US")];
      var selected := ["en-US-AvaNeural", "en-US-AvaNeural"];
      (forall k :: 0 <= k < |selected| ==> exists v :: v in voices && v.shortName == selected[k])
      && PickedCheckAsWritten(voices, selected).Err?
  {
    var voices := [VoiceInfo("en-US-AvaNeural", "Female", "en-US")];
    var selected := ["en-US-AvaNeural", "en-US-AvaNeural"];
    assert voices[0] in voices;
    assert PickedVoices(voices, selected) == voices by {
      assert voices[..0] == [];
    }
  }

  /** The short names of the listed voices. */
  function VoiceNames(voices: seq<VoiceInfo>): (r: seq<string>)
    ensures |r| == |voices| && forall i :: 0 <= i < |r| ==> r[i] == voices[i].shortName
  {
    seq(|voices|, i requires 0 <= i < |voices| => voices[i].shortName)
  }

  /** The check as intended: it passes exactly when every picked name is the name of a listed voice. */
  function PickedCheck(voices: seq<VoiceInfo>, selected: seq<string>): (r: Result<seq<VoiceInfo>, string>)
    ensures r.Ok? <==> forall k :: 0 <= k < |selected| ==> exists v :: v in voices && v.shortName == selected[k]
    ensures r.Ok? ==> r.value == PickedVoices(voices, selected)
  {
    var names := VoiceNames(voices);
    assert forall n :: n in names <==> exists v :: v in voices && v.shortName == n by {
      forall n ensures n in names <==> exists v :: v in voices && v.shortName == n {
        if exists v :: v in voices && v.shortName == n {
          var v :| v in voices && v.shortName == n;
          var i :| 0 <= i < |voices| && voices[i] == v;
          assert names[i] == n;
        }
      }
    }
    if forall k :: 0 <= k < |selected| ==> selected[k] in names then Ok(PickedVoices(voices, selected))
    else Err("ValueError: Some selected voices are not available")
  }

  /** When the check passes, every picked name has a voice among those kept. */
  lemma PickedCheckCovers(voices: seq<VoiceInfo>, selected: seq<string>)
    requires PickedCheck(voices, selected).Ok?
    ensures forall k :: 0 <= k < |selected| ==> exists v :: v in PickedVoices(voices, selected) && v.shortName == selected[k]
  {
    var picked := PickedVoices(voices, selected);
    var r := PickedCheck(voices, selected);
    assert r.Ok?;
    assert r.Ok? <==> forall k :: 0 <= k < |selected| ==> exists v :: v in voices && v.shortName == selected[k];
    forall k | 0 <= k < |selected| ensures exists v :: v in picked && v.shortName == selected[k] {
      var v :| v in voices && v.shortName == selected[k];
      assert selected[k] in selected;
      assert v in picked;
    }
  }

  /** Whether a listed voice speaks the language. */
  function InLanguage(lang: string): VoiceInfo -> bool {
    (v: VoiceInfo) => StartsWith(v.locale, lang)
  }

  /**
   * `[voice for voice in voices if voice.locale.startswith(lang)]`: the
   * listed voices of the language, each as often as the service lists it,
   * and no other.
   */
  function LanguageVoices(voices: seq<VoiceInfo>, lang: string): (r: seq<VoiceInfo>)
    ensures forall v :: v in r <==> v in voices && StartsWith(v.locale, lang)
    ensures forall v :: multiset(r)[v] == if StartsWith(v.locale, lang) then multiset(voices)[v] else 0
  {
    FilterCount(voices, InLanguage(lang));
    Filter(voices, InLanguage(lang))
  }

  /**
   * The language's voices keep the service's order: those of two runs of the
   * service's list are the first run's followed by the second run's.
   */
  lemma LanguageVoicesAppend(a: seq<VoiceInfo>, b: seq<VoiceInfo>, lang: string)
    ensures LanguageVoices(a + b, lang) == LanguageVoices(a, lang) + LanguageVoices(b, lang)
  {
    FilterAppend(a, b, InLanguage(lang));
  }

  /** A listed voice as the pipeline records it, with its description from `descriptions` or empty. */
  function ToTtsVoice(v: VoiceInfo, descriptions: map<string, string>): TtsVoice {
    TtsVoice(v.shortName, v.gender, Lookup(descriptions, v.shortName).GetOr(""), Some(v.locale))
  }

  /**
   * What setup does to the pipeline's voices: an error, `None` to leave
   * them as they are, or the new list. Picked voices are only checked and
   * leave the list alone; otherwise the language's voices replace it, unless
   * there are none.
   */
  function SetupVoices(settings: AzureSettings, voices: seq<VoiceInfo>, descriptions: map<string, string>): Result<Option<seq<TtsVoice>>, string> {
    if |settings.selectedVoices| > 0 then
      var _ :- PickedCheck(voices, settings.selectedVoices);
      Ok(None)
    else if settings.lang == "" then
      Err("ValueError: Language code is required if not specifying voices.")
    else
      var found := LanguageVoices(voices, settings.lang);
      if |found| == 0 then Ok(None)
      else Ok(Some(seq(|found|, i requires 0 <= i < |found| => ToTtsVoice(found[i], descriptions))))
  }

  /** Setup given the service's voice list and the voice description table. */
  method Setup(data: PipelineData, settings: AzureSettings, voices: seq<VoiceInfo>, descriptions: map<string, string>)
    returns (r: Result<(), string>)
    modifies data
    ensures r.Err? <==> SetupVoices(settings, voices, descriptions).Err?
    ensures data.availableVoices ==
      (if r.Ok? && SetupVoices(settings, voices, descriptions).value.Some? then SetupVoices(settings, voices, descriptions).value.value
       else old(data.availableVoices))
    ensures data.originalText == old(data.originalText) && data.characters == old(data.characters)
    ensures data.textAsParts == old(data.textAsParts) && data.availableSpeakers == old(data.availableSpeakers)
  {
    var outcome := SetupVoices(settings, voices, descriptions);
    if outcome.Err? {
      return Err(outcome.error);
    }
    if outcome.value.Some? {
      data.availableVoices := outcome.value.value;
    }
    r := Ok(());
  }

  /**
   * Without picked voices, setup offers the language's voices in the
   * service's order: each listed voice whose locale starts with the
   * language, under its service name, with its gender and locale, and with
   * its description from the table or an empty one.
   */
  lemma SetupLanguage(settings: AzureSettings, voices: seq<VoiceInfo>, descriptions: map<string, string>)
    requires |settings.selectedVoices| == 0 && settings.lang != ""
    requires |LanguageVoices(voices, settings.lang)| > 0
    ensures var r := SetupVoices(settings, voices, descriptions);
      var found := LanguageVoices(voices, settings.lang);
      r.Ok? && r.value.Some? && |r.value.value| == |found| &&
      forall i :: 0 <= i < |found| ==>
        found[i] in voices && StartsWith(found[i].locale, settings.lang)
        && r.value.value[i].id == found[i].shortName && r.value.value[i].locale == Some(found[i].locale)
        && r.value.value[i].gender == found[i].gender
        && r.value.value[i].description == (if found[i].shortName in descriptions then descriptions[found[i].shortName] else "")
  {
    var found := LanguageVoices(voices, settings.lang);
    var r := SetupVoices(settings, voices, descriptions);
    assert r == Ok(Some(seq(|found|, i requires 0 <= i < |found| => ToTtsVoice(found[i], descriptions))));
    forall i | 0 <= i < |found| ensures found[i] in voices && StartsWith(found[i].locale, settings.lang) {
      assert found[i] in found;
    }
  }

  /** A character's voice is one of the pipeline's voices; a character without a voice fails this. */
  predicate HasAvailableVoice(c: Character, ids: seq<string>) {
    c.assignedVoiceId.Some? && c.assignedVoiceId.value in ids
  }

  /** The voice of the first narrator, if there is a narrator. */
  function NarratorVoice(characters: seq<Character>): (r: Option<Option<string>>)
    ensures r.None? <==> forall i :: 0 <= i < |characters| ==> characters[i].kind != Narrator
    ensures r.Some? ==> exists i :: (0 <= i < |characters| && characters[i].kind == Narrator
      && r.value == characters[i].assignedVoiceId
      && forall j :: 0 <= j < i ==> characters[j].kind != Narrator)
    decreases |characters|
  {
    if characters == [] then None
    else if characters[0].kind == Narrator then Some(characters[0].assignedVoiceId)
    else
      var r := NarratorVoice(characters[1..]);
      assert r.Some? ==> exists i :: (0 <= i < |characters| && characters[i].kind == Narrator
        && r.value == characters[i].assignedVoiceId
        && forall j :: 0 <= j < i ==> characters[j].kind != Narrator) by {
        if r.Some? {
          var i :| 0 <= i < |characters[1..]| && characters[1..][i].kind == Narrator
            && r.value == characters[1..][i].assignedVoiceId
            && forall j :: 0 <= j < i ==> characters[1..][j].kind != Narrator;
          assert characters[i + 1] == characters[1..][i];
          forall j | 0 <= j < i + 1 ensures characters[j].kind != Narrator {
            if j > 0 {
              assert characters[j] == characters[1..][j - 1];
            }
          }
        }
      }
      r
  }

  /** `{c.identifier: c.assigned_voice_id for c in characters}`: a later character overwrites an earlier one. */
  function VoiceByIdentifier(characters: seq<Character>): map<string, Option<string>>
    decreases |characters|
  {
    if characters == [] then map[]
    else
      var last := characters[|characters| - 1];
      VoiceByIdentifier(characters[..|characters| - 1])[last.identifier := last.assignedVoiceId]
  }

  /** The voice element of one part. */
  function PartElement(part: TextPart, narrator: string, byId: map<string, Option<string>>): VoiceElement {
    match part.kind
    case Other => VoiceElement(Some(narrator), part.text, BreakTime)
    case Quote =>
      var voice := if part.characterIdentifier.Some? && part.characterIdentifier.value in byId
        then byId[part.characterIdentifier.value] else None;
      VoiceElement(voice, part.text, BreakTime)
  }

  /**
   * The voice elements of the parts. Every character must have one of the
   * pipeline's voices, and the first narrator's voice must be non-empty.
   */
  function SsmlElements(characters: seq<Character>, parts: seq<TextPart>, voices: seq<TtsVoice>): Result<seq<VoiceElement>, string> {
    if !AllAvailable(characters, VoiceIds(voices)) then
      if SomeWithoutVoice(characters) then Err(NoVoiceError)
      else Err("ValueError: Some characters have unavailable or no voices")
    else
      match UsableNarrator(characters)
      case None => Err("ValueError: Narrator voice not found in the provided characters.")
      case Some(narrator) => Ok(ElementsOf(parts, narrator, VoiceByIdentifier(characters)))
  }

  /**
   * The error of joining the unavailable voices into the message when one of
   * them is `None`: the message is never built.
   */
  const NoVoiceError := "TypeError: sequence item: expected str instance, NoneType found"

  /** Some character has no voice at all. */
  predicate SomeWithoutVoice(characters: seq<Character>) {
    exists i :: 0 <= i < |characters| && characters[i].assignedVoiceId.None?
  }

  /** Every character has one of the pipeline's voices. */
  predicate AllAvailable(characters: seq<Character>, ids: seq<string>) {
    forall i :: 0 <= i < |characters| ==> HasAvailableVoice(characters[i], ids)
  }

  /** The first narrator's voice, when there is a narrator and its voice is set and non-empty. */
  function UsableNarrator(characters: seq<Character>): Option<string> {
    match NarratorVoice(characters)
    case Some(Some(v)) => if v == "" then None else Some(v)
    case _ => None
  }

  /** One element per part. */
  function ElementsOf(parts: seq<TextPart>, narrator: string, byId: map<string, Option<string>>): (e: seq<VoiceElement>)
    ensures |e| == |parts| && forall i :: 0 <= i < |parts| ==> e[i] == PartElement(parts[i], narrator, byId)
  {
    seq(|parts|, i requires 0 <= i < |parts| => PartElement(parts[i], narrator, byId))
  }

  /** The voice elements, built part by part. */
  method ToSsmlElements(data: PipelineData) returns (r: Result<seq<VoiceElement>, string>)
    ensures r == SsmlElements(data.characters, data.textAsParts, data.availableVoices)
  {
    var ids := VoiceIds(data.availableVoices);
    var available := AllVoicesAvailable(data.characters, ids);
    if !available {
      var missing := AnyWithoutVoice(data.characters);
      if missing {
        return Err(NoVoiceError);
      }
      return Err("ValueError: Some characters have unavailable or no voices");
    }
    var narrator := UsableNarrator(data.characters);
    if narrator.None? {
      return Err("ValueError: Narrator voice not found in the provided characters.");
    }
    var elements := PartElements(data.textAsParts, narrator.value, VoiceByIdentifier(data.characters));
    r := Ok(elements);
  }

  /** Whether every character has one of the pipeline's voices. */
  method AllVoicesAvailable(characters: seq<Character>, ids: seq<string>) returns (b: bool)
    ensures b == AllAvailable(characters, ids)
  {
    b := true;
    for i := 0 to |characters|
      invariant b <==> forall j :: 0 <= j < i ==> HasAvailableVoice(characters[j], ids)
    {
      if !HasAvailableVoice(characters[i], ids) {
        b := false;
      }
    }
  }

  /** Whether some character has no voice at all. */
  method AnyWithoutVoice(characters: seq<Character>) returns (b: bool)
    ensures b == SomeWithoutVoice(characters)
  {
    b := false;
    for i := 0 to |characters|
      invariant b <==> exists j :: 0 <= j < i && characters[j].assignedVoiceId.None?
    {
      if characters[i].assignedVoiceId.None? {
        b := true;
      }
    }
  }

  /** One voice element per part, appended in order. */
  method PartElements(parts: seq<TextPart>, narrator: string, byId: map<string, Option<string>>) returns (e: seq<VoiceElement>)
    ensures e == ElementsOf(parts, narrator, byId)
  {
    e := [];
    for i := 0 to |parts|
      invariant |e| == i
      invariant forall j :: 0 <= j < i ==> e[j] == PartElement(parts[j], narrator, byId)
    {
      e := e + [PartElement(parts[i], narrator, byId)];
    }
  }

  /**
   * Building fails exactly when a character lacks an available voice or there
   * is no narrator with a non-empty voice; the failure is the `TypeError` of
   * the message exactly when some character has no voice at all.
   */
  lemma SsmlElementsFail(characters: seq<Character>, parts: seq<TextPart>, voices: seq<TtsVoice>)
    ensures SsmlElements(characters, parts, voices).Err? <==>
      !AllAvailable(characters, VoiceIds(voices))
      || NarratorVoice(characters).None?
      || NarratorVoice(characters).value == Some("")
    ensures SsmlElements(characters, parts, voices).Err? && SsmlElements(characters, parts, voices).error == NoVoiceError
      <==> SomeWithoutVoice(characters)
  {
    var ids := VoiceIds(voices);
    assert SsmlElements(characters, parts, voices).Err? <==> !AllAvailable(characters, ids) || UsableNarrator(characters).None?;
    if AllAvailable(characters, ids) {
      NarratorUsable(characters, ids);
    }
  }

  /** When every character has an available voice, the narrator is unusable only when absent or voiced with the empty name. */
  lemma NarratorUsable(characters: seq<Character>, ids: seq<string>)
    requires AllAvailable(characters, ids)
    ensures UsableNarrator(characters).None? <==> NarratorVoice(characters).None? || NarratorVoice(characters).value == Some("")
  {
    if NarratorVoice(characters).Some? {
      var i :| 0 <= i < |characters| && characters[i].kind == Narrator
        && NarratorVoice(characters).value == characters[i].assignedVoiceId;
      assert HasAvailableVoice(characters[i], ids);
    }
  }

  /**
   * One element per part, with the part's text and the closing pause:
   * narration in the first narrator's voice, and a quote in the voice of the
   * last character carrying its speaker's identifier, or in no voice when
   * no character does.
   */
  lemma SsmlElementsVoices(characters: seq<Character>, parts: seq<TextPart>, voices: seq<TtsVoice>, k: nat)
    requires SsmlElements(characters, parts, voices).Ok? && k < |parts|
    ensures var e := SsmlElements(characters, parts, voices).value;
      |e| == |parts| && e[k].text == parts[k].text && e[k].breakTime == BreakTime
      && (parts[k].kind == Other ==> e[k].name == NarratorVoice(characters).value)
      && (parts[k].kind == Quote && parts[k].characterIdentifier.Some? ==>
            e[k].name == LastVoiceOf(characters, parts[k].characterIdentifier.value))
      && (parts[k].kind == Quote && parts[k].characterIdentifier.None? ==> e[k].name.None?)
  {
    if parts[k].kind == Quote && parts[k].characterIdentifier.Some? {
      VoiceByIdentifierLast(characters, parts[k].characterIdentifier.value);
    }
  }

  /** The voice of the last character with identifier `id`, or none when no character has it. */
  function LastVoiceOf(characters: seq<Character>, id: string): Option<string>
    decreases |characters|
  {
    if characters == [] then None
    else if characters[|characters| - 1].identifier == id then characters[|characters| - 1].assignedVoiceId
    else LastVoiceOf(characters[..|characters| - 1], id)
  }

  /** The identifier table holds every identifier, with the last character's voice. */
  lemma {:induction false} VoiceByIdentifierLast(characters: seq<Character>, id: string)
    ensures id in VoiceByIdentifier(characters) <==> exists i :: 0 <= i < |characters| && characters[i].identifier == id
    ensures id in VoiceByIdentifier(characters) ==> VoiceByIdentifier(characters)[id] == LastVoiceOf(characters, id)
    ensures id !in VoiceByIdentifier(characters) ==> LastVoiceOf(characters, id).None?
    decreases |characters|
  {
    if characters != [] {
      var init := characters[..|characters| - 1];
      VoiceByIdentifierLast(init, id);
      if exists i :: 0 <= i < |characters| && characters[i].identifier == id {
        var i :| 0 <= i < |characters| && characters[i].identifier == id;
        if i < |characters| - 1 {
          assert init[i] == characters[i];
        }
      }
      if exists i :: 0 <= i < |init| && init[i].identifier == id {
        var i :| 0 <= i < |init| && init[i].identifier == id;
        assert characters[i] == init[i];
      }
    }
  }

  /** The elements carry the parts' texts in order. */
  lemma {:induction false} SsmlElementsText(characters: seq<Character>, parts: seq<TextPart>, voices: seq<TtsVoice>)
    requires SsmlElements(characters, parts, voices).Ok?
    ensures ElementsText(SsmlElements(characters, parts, voices).value) == ConcatTexts(parts)
  {
    var e := SsmlElements(characters, parts, voices).value;
    var narrator := UsableNarrator(characters).value;
    var byId := VoiceByIdentifier(characters);
    SsmlElementsOk(characters, parts, voices);
    assert forall i :: 0 <= i < |e| ==> e[i].text == PartElement(parts[i], narrator, byId).text == parts[i].text;
    ElementsTextOf(e, parts);
  }

  lemma SsmlElementsOk(characters: seq<Character>, parts: seq<TextPart>, voices: seq<TtsVoice>)
    requires SsmlElements(characters, parts, voices).Ok?
    ensures UsableNarrator(characters).Some?
    ensures SsmlElements(characters, parts, voices).value
      == ElementsOf(parts, UsableNarrator(characters).value, VoiceByIdentifier(characters))
  {
  }

  /** The texts of the elements, one after another. */
  function ElementsText(e: seq<VoiceElement>): string
    decreases |e|
  {
    if e == [] then "" else ElementsText(e[..|e| - 1]) + e[|e| - 1].text
  }

  lemma {:induction false} ElementsTextOf(e: seq<VoiceElement>, parts: seq<TextPart>)
    requires |e| == |parts| && forall i :: 0 <= i < |e| ==> e[i].text == parts[i].text
    ensures ElementsText(e) == ConcatTexts(parts)
    decreases |e|
  {
    if e != [] {
      ElementsTextOf(e[..|e| - 1], parts[..|parts| - 1]);
    }
  }

  /** The SSML documents sent one at a time: consecutive runs of at most fifty elements. */
  function Batches(elements: seq<VoiceElement>): seq<seq<VoiceElement>> {
    Chunks(elements, MaxVoiceElements)
  }

  /** Each batch holds between one and fifty elements, all but the last exactly fifty, and together the batches hold every element in order. */
  lemma BatchesSpec(elements: seq<VoiceElement>)
    ensures forall i :: 0 <= i < |Batches(elements)| ==> 0 < |Batches(elements)[i]| <= MaxVoiceElements
    ensures forall i :: 0 <= i < |Batches(elements)| - 1 ==> |Batches(elements)[i]| == MaxVoiceElements
    ensures Flatten(Batches(elements)) == elements
    ensures Batches(elements) == [] <==> elements == []
  {
    ChunksSizes(elements, MaxVoiceElements);
    ChunksFlatten(elements, MaxVoiceElements);
    ChunksCount(elements, MaxVoiceElements);
  }
}
