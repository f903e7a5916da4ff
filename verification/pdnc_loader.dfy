/**
 * The ground-truth loader for the Project Dialogism Novel Corpus: character
 * identifiers, the alias cell parser, the character table with its alias
 * map, and the cutting of a novel's text into narration and quote parts
 * along the annotated quote spans. The CSV files and the novel text arrive
 * already read: rows as records, the text as a string, the span lists as
 * parsed pairs.
 */
module PdncLoader {
  import opened Wrappers
  import opened PyStrings
  import opened TextParts
  import opened PipelineTypes

  // ---------------------------------------------------------------------------
  // Character identifiers and aliases
  // ---------------------------------------------------------------------------

  lemma {:induction false} CountUnchanged(s: string, t: string, c: char)
    requires |s| == |t|
    requires forall k :: 0 <= k < |s| ==> (s[k] == c <==> t[k] == c)
    ensures Count(s, c) == Count(t, c)
    decreases |s|
  {
    if s != [] {
      CountUnchanged(s[1..], t[1..], c);
    }
  }

  /** What one character of a name becomes in an identifier: a space an underscore, a letter its capital. */
  function IdentifierChar(c: char): char {
    if c == ' ' then '_' else UpperChar(c)
  }

  /** The identifier stem read character by character: dots dropped, every other character converted. */
  function IdentifierStem(name: string): string {
    if name == [] then [] else (if name[0] == '.' then [] else [IdentifierChar(name[0])]) + IdentifierStem(name[1..])
  }

  /**
   * `_character_identifier_from_name_and_id`: the name upper-cased, spaces
   * turned into underscores, dots removed, then `_` and the id.
   */
  function CharacterIdentifier(name: string, id: string): (r: string)
    ensures |r| == |name| - Count(name, '.') + 1 + |id|
    ensures r[|r| - |id| - 1..] == "_" + id
    ensures forall k :: 0 <= k < |r| - |id| - 1 ==> r[k] != ' ' && r[k] != '.' && !('a' <= r[k] <= 'z')
  {
    var upper := Upper(name);
    var underscored := ReplaceChar(upper, ' ', '_');
    CountUnchanged(name, upper, '.');
    CountUnchanged(upper, underscored, '.');
    var stem := RemoveChar(underscored, '.');
    assert forall k :: 0 <= k < |stem| ==> stem[k] in underscored;
    stem + "_" + id
  }

  /**
   * The identifier is the name read character by character (dots dropped,
   * spaces turned into underscores, letters capitalised), then `_` and the id.
   */
  lemma CharacterIdentifierStem(name: string, id: string)
    ensures CharacterIdentifier(name, id) == IdentifierStem(name) + "_" + id
  {
    StemInOnePass(name);
  }

  /** Upper-casing, then replacing spaces, then removing dots is the one-pass stem. */
  lemma {:induction false} StemInOnePass(name: string)
    ensures RemoveChar(ReplaceChar(Upper(name), ' ', '_'), '.') == IdentifierStem(name)
    decreases |name|
  {
    if name != [] {
      var c := name[0];
      StemInOnePass(name[1..]);
      var upper := Upper(name);
      assert upper == [UpperChar(c)] + Upper(name[1..]);
      assert upper[1..] == Upper(name[1..]);
      var underscored := ReplaceChar(upper, ' ', '_');
      assert underscored == [IdentifierChar(c)] + ReplaceChar(Upper(name[1..]), ' ', '_');
      assert underscored[1..] == ReplaceChar(Upper(name[1..]), ' ', '_');
      assert IdentifierChar(c) == '.' <==> c == '.';
    }
  }

  /** The aliases `_parse_aliases` reads from a cell: outer brackets dropped, split at commas, each piece stripped and unquoted. */
  function Aliases(cell: string): seq<string> {
    UnwrapAll(Split(Unwrap(cell), ','))
  }

  /** Every piece unwrapped, in order. */
  function UnwrapAll(pieces: seq<string>): seq<string> {
    if pieces == [] then [] else UnwrapAll(pieces[..|pieces| - 1]) + [Unwrap(pieces[|pieces| - 1])]
  }

  /** `s.strip()[1:-1]`: surrounding whitespace, then the first and the last character, dropped. */
  function Unwrap(s: string): string {
    Slice(Strip(s), 1, -1)
  }

  lemma {:induction false} UnwrapAllAt(pieces: seq<string>, k: nat)
    ensures |UnwrapAll(pieces)| == |pieces|
    ensures k < |pieces| ==> UnwrapAll(pieces)[k] == Unwrap(pieces[k])
    decreases |pieces|
  {
    if pieces != [] {
      var n := |pieces| - 1;
      UnwrapAllAt(pieces[..n], k);
    }
  }

  lemma AbsentFromLStrip(s: string, c: char)
    requires c !in s
    ensures c !in LStrip(s)
  {
    var l := LStrip(s);
    forall i | 0 <= i < |l| ensures l[i] != c {
      assert l[i] == s[|s| - |l| + i];
    }
  }

  lemma AbsentFromRStrip(s: string, c: char)
    requires c !in s
    ensures c !in RStrip(s)
  {
    var r := RStrip(s);
    forall i | 0 <= i < |r| ensures r[i] != c {
      assert r[i] == s[i];
    }
  }

  lemma AbsentFromSlice(s: string, c: char, a: int, b: int)
    requires c !in s
    ensures c !in Slice(s, a, b)
  {
    var t := Slice(s, a, b);
    var lo := SliceBound(a, |s|);
    forall i | 0 <= i < |t| ensures t[i] != c {
      assert t[i] == s[lo + i];
    }
  }

  /** A character absent from `s` is absent from `s.strip()[1:-1]`. */
  lemma AbsentFromUnwrap(s: string, c: char)
    requires c !in s
    ensures c !in Unwrap(s)
  {
    AbsentFromLStrip(s, c);
    AbsentFromRStrip(LStrip(s), c);
    AbsentFromSlice(Strip(s), c, 1, -1);
  }

  /**
   * There is one alias more than there are commas inside the brackets (an
   * empty list cell still yields one, empty, alias), and no alias holds a
   * comma.
   */
  lemma AliasesShape(cell: string)
    ensures |Aliases(cell)| == Count(Unwrap(cell), ',') + 1
    ensures forall k :: 0 <= k < |Aliases(cell)| ==> ',' !in Aliases(cell)[k]
  {
    var inner := Unwrap(cell);
    var pieces := Split(inner, ',');
    SplitCount(inner, ',');
    UnwrapAllAt(pieces, 0);
    SplitNoSeparator(inner, ',');
    forall k | 0 <= k < |pieces|
      ensures ',' !in Aliases(cell)[k]
    {
      UnwrapAllAt(pieces, k);
      assert !Contains(pieces[k], ',');
      AbsentFromUnwrap(pieces[k], ',');
    }
  }

  lemma PrefixStep<T>(s: seq<T>, k: nat)
    requires k < |s|
    ensures s[..k + 1] == s[..k] + [s[k]]
  {
  }

  /** `[]` holds one empty alias: nothing is filtered out. */
  lemma EmptyAliasList()
    ensures Aliases("[]") == [""]
  {
    assert LeadingSpaces("[]") == 0 && TrailingSpaces("[]") == 0;
    assert Unwrap("[]") == "";
    assert UnwrapAll([""]) == [Unwrap("")];
  }

  /** `_parse_aliases`. */
  method ParseAliases(cell: string) returns (aliases: seq<string>)
    ensures aliases == Aliases(cell)
  {
    var a := Unwrap(cell);
    var pieces := Split(a, ',');
    aliases := [];
    for k := 0 to |pieces|
      invariant aliases == UnwrapAll(pieces[..k])
    {
      var name := Unwrap(pieces[k]);
      assert pieces[..k + 1][..k] == pieces[..k];
      aliases := aliases + [name];
    }
    assert pieces[..|pieces|] == pieces;
  }

  // ---------------------------------------------------------------------------
  // The character table
  // ---------------------------------------------------------------------------

  /** One row of `character_info.csv`. */
  datatype CharacterRow = CharacterRow(mainName: string, characterId: string, category: string, gender: string, aliases: string)

  /** The closed category table; any other code is a `KeyError`. */
  function CategoryOf(code: string): Option<CharacterType> {
    if code == "major" then Some(Main)
    else if code == "minor" then Some(Minor)
    else if code == "intermediate" then Some(Support)
    else None
  }

  /** The closed gender table; any other code is a `KeyError`. */
  function GenderOf(code: string): Option<CharacterGender> {
    if code == "M" then Some(Male)
    else if code == "F" then Some(Female)
    else if code == "X" || code == "U" then Some(UnknownGender)
    else None
  }

  /**
   * The character a row describes, or the `KeyError` of a category or
   * gender code outside the tables.
   */
  function RowCharacter(row: CharacterRow): (r: Result<Character, string>)
    ensures r.Ok? <==> CategoryOf(row.category).Some? && GenderOf(row.gender).Some?
    ensures r.Ok? ==> r.value.name == row.mainName && r.value.assignedSpeakerId.None? && r.value.assignedVoiceId.None?
    ensures r.Ok? ==> r.value.identifier == CharacterIdentifier(row.mainName, row.characterId)
    ensures r.Ok? ==> Some(r.value.kind) == CategoryOf(row.category) && Some(r.value.gender) == GenderOf(row.gender)
    ensures r.Ok? ==> r.value.personality == "Also called: " + Join(Aliases(row.aliases), ", ")
  {
    var kind := CategoryOf(row.category);
    var gender := GenderOf(row.gender);
    if kind.None? || gender.None? then Err("KeyError")
    else Ok(Character(row.mainName, CharacterIdentifier(row.mainName, row.characterId), kind.value, gender.value,
                      "Also called: " + Join(Aliases(row.aliases), ", "), None, None))
  }

  /** Every name lower-cased, in order. */
  function LowerAll(names: seq<string>): seq<string> {
    if names == [] then [] else LowerAll(names[..|names| - 1]) + [Lower(names[|names| - 1])]
  }

  /** The keys a row writes into the alias map: the main name as it is, then every alias lower-cased. */
  function RowKeys(row: CharacterRow): seq<string> {
    [row.mainName] + LowerAll(Aliases(row.aliases))
  }

  /** `m` with every key of `keys` set to `c`, in order. */
  function PutAll(m: map<string, Character>, keys: seq<string>, c: Character): map<string, Character> {
    if keys == [] then m else PutAll(m, keys[..|keys| - 1], c)[keys[|keys| - 1] := c]
  }

  /** A row's character together with the keys it writes, or the row's `KeyError`. */
  function RowEntry(row: CharacterRow): (r: Result<(Character, seq<string>), string>)
    ensures r.Ok? <==> KnownCodes(row)
    ensures r.Err? ==> r.error == "KeyError"
  {
    var c :- RowCharacter(row);
    Ok((c, RowKeys(row)))
  }

  /** The row's category and gender codes are both in the closed tables. */
  predicate KnownCodes(row: CharacterRow) {
    CategoryOf(row.category).Some? && GenderOf(row.gender).Some?
  }

  /** `[f(x) for x in s]`. */
  function MapSeq<A, B>(f: A -> B, s: seq<A>): (r: seq<B>)
    ensures |r| == |s|
    ensures forall k :: 0 <= k < |s| ==> r[k] == f(s[k])
  {
    if s == [] then [] else MapSeq(f, s[..|s| - 1]) + [f(s[|s| - 1])]
  }

  /** The entries of the rows, in order. */
  function Entries(rows: seq<CharacterRow>): (r: seq<Result<(Character, seq<string>), string>>)
    ensures |r| == |rows|
  {
    MapSeq(RowEntry, rows)
  }

  /** What the entry of row `k` says about the row, without unfolding it. */
  lemma EntryAt(rows: seq<CharacterRow>, k: nat)
    requires k < |rows|
    ensures Entries(rows)[k].Ok? <==> KnownCodes(rows[k])
    ensures Entries(rows)[k].Err? ==> Entries(rows)[k].error == "KeyError"
    ensures Entries(rows)[k].Ok? ==>
      Ok(Entries(rows)[k].value.0) == RowCharacter(rows[k]) && Entries(rows)[k].value.1 == RowKeys(rows[k])
  {
    assert Entries(rows)[k] == RowEntry(rows[k]);
  }

  /**
   * The loop of `load_pdnc_characters` over the entries: the characters are
   * appended in order, each writes its keys into the map, the first failing
   * row ends the loop with its error.
   */
  function Collect(entries: seq<Result<(Character, seq<string>), string>>): Result<(seq<Character>, map<string, Character>), string> {
    if entries == [] then Ok(([], map[]))
    else
      var before :- Collect(entries[..|entries| - 1]);
      var e :- entries[|entries| - 1];
      Ok((before.0 + [e.0], PutAll(before.1, e.1, e.0)))
  }

  /** What `load_pdnc_characters` returns for the rows read: the characters and the alias map. */
  function CharacterTable(rows: seq<CharacterRow>): Result<(seq<Character>, map<string, Character>), string> {
    Collect(Entries(rows))
  }

  lemma {:induction false} CollectOk(entries: seq<Result<(Character, seq<string>), string>>)
    ensures Collect(entries).Ok? <==> forall k :: 0 <= k < |entries| ==> entries[k].Ok?
    decreases |entries|
  {
    if entries != [] {
      var n := |entries| - 1;
      CollectOk(entries[..n]);
      assert forall k :: 0 <= k < n ==> entries[..n][k] == entries[k];
    }
  }

  lemma {:induction false} CollectErr(entries: seq<Result<(Character, seq<string>), string>>, e: string)
    requires forall k :: 0 <= k < |entries| && entries[k].Err? ==> entries[k].error == e
    ensures Collect(entries).Err? ==> Collect(entries).error == e
    decreases |entries|
  {
    if entries != [] {
      var n := |entries| - 1;
      assert forall k :: 0 <= k < n ==> entries[..n][k] == entries[k];
      CollectErr(entries[..n], e);
    }
  }

  /** The table loads exactly when every row's category and gender codes are in the closed tables; otherwise it is a `KeyError`. */
  lemma CharacterTableOk(rows: seq<CharacterRow>)
    ensures CharacterTable(rows).Ok? <==> forall k :: 0 <= k < |rows| ==> KnownCodes(rows[k])
    ensures CharacterTable(rows).Err? ==> CharacterTable(rows) == Err("KeyError")
  {
    var entries := Entries(rows);
    CollectOk(entries);
    forall k | 0 <= k < |rows|
      ensures entries[k].Ok? <==> KnownCodes(rows[k])
      ensures entries[k].Err? ==> entries[k].error == "KeyError"
    {
      EntryAt(rows, k);
    }
    CollectErr(entries, "KeyError");
  }

  /** `load_pdnc_characters` on the rows of the CSV file. */
  method LoadPdncCharacters(rows: seq<CharacterRow>) returns (r: Result<(seq<Character>, map<string, Character>), string>)
    ensures r == CharacterTable(rows)
  {
    var characters: seq<Character> := [];
    var aliasMap: map<string, Character> := map[];
    for k := 0 to |rows|
      invariant Collect(Entries(rows[..k])) == Ok((characters, aliasMap))
    {
      var row := rows[k];
      var aliases := ParseAliases(row.aliases);
      var kind := CategoryOf(row.category);
      var gender := GenderOf(row.gender);
      if kind.None? || gender.None? {
        CharacterTableOk(rows);
        assert !KnownCodes(rows[k]);
        return Err("KeyError");
      }
      var character := Character(row.mainName, CharacterIdentifier(row.mainName, row.characterId), kind.value, gender.value,
                                 "Also called: " + Join(aliases, ", "), None, None);
      assert rows[..k + 1][..k] == rows[..k];
      assert RowEntry(row) == Ok((character, RowKeys(row)));
      characters := characters + [character];
      aliasMap := PutNames(aliasMap, character, aliases);
    }
    assert rows[..|rows|] == rows;
    r := Ok((characters, aliasMap));
  }

  /** The inner loop of `load_pdnc_characters`: the character under its main name, then under each alias lower-cased. */
  method PutNames(m: map<string, Character>, character: Character, aliases: seq<string>) returns (r: map<string, Character>)
    ensures r == PutAll(m, [character.name] + LowerAll(aliases), character)
  {
    r := m[character.name := character];
    assert [character.name][..0] == [];
    assert aliases[..0] == [];
    for t := 0 to |aliases|
      invariant r == PutAll(m, [character.name] + LowerAll(aliases[..t]), character)
    {
      assert aliases[..t + 1][..t] == aliases[..t];
      ghost var keys := [character.name] + LowerAll(aliases[..t + 1]);
      assert keys[..|keys| - 1] == [character.name] + LowerAll(aliases[..t]);
      r := r[Lower(aliases[t]) := character];
    }
    assert aliases[..|aliases|] == aliases;
  }

  lemma {:induction false} CollectRows(entries: seq<Result<(Character, seq<string>), string>>)
    requires Collect(entries).Ok?
    ensures |Collect(entries).value.0| == |entries|
    ensures forall k :: 0 <= k < |entries| ==> entries[k].Ok? && entries[k].value.0 == Collect(entries).value.0[k]
    decreases |entries|
  {
    if entries != [] {
      var n := |entries| - 1;
      CollectRows(entries[..n]);
      assert forall k :: 0 <= k < n ==> entries[..n][k] == entries[k];
    }
  }

  /** One character per row, in row order, each the character its row describes. */
  lemma CharacterTableRows(rows: seq<CharacterRow>)
    requires CharacterTable(rows).Ok?
    ensures |CharacterTable(rows).value.0| == |rows|
    ensures forall k :: 0 <= k < |rows| ==> RowCharacter(rows[k]) == Ok(CharacterTable(rows).value.0[k])
  {
    CollectRows(Entries(rows));
    forall k | 0 <= k < |rows| ensures RowCharacter(rows[k]) == Ok(CharacterTable(rows).value.0[k]) {
      EntryAt(rows, k);
    }
  }

  lemma {:induction false} PutAllLookup(m: map<string, Character>, keys: seq<string>, c: Character, key: string)
    ensures key in PutAll(m, keys, c) <==> key in m || key in keys
    ensures key in keys ==> PutAll(m, keys, c)[key] == c
    ensures key !in keys && key in m ==> PutAll(m, keys, c)[key] == m[key]
    decreases |keys|
  {
    if keys != [] {
      PutAllLookup(m, keys[..|keys| - 1], c, key);
      assert key in keys <==> key in keys[..|keys| - 1] || key == keys[|keys| - 1];
    }
  }

  lemma {:induction false} CollectLookup(entries: seq<Result<(Character, seq<string>), string>>, key: string, k: nat)
    requires Collect(entries).Ok?
    ensures key in Collect(entries).value.1 <==> exists j :: 0 <= j < |entries| && entries[j].Ok? && key in entries[j].value.1
    ensures k < |entries| && entries[k].Ok? && key in entries[k].value.1
              && (forall j :: k < j < |entries| && entries[j].Ok? ==> key !in entries[j].value.1) ==>
      key in Collect(entries).value.1 && Collect(entries).value.1[key] == entries[k].value.0
    decreases |entries|
  {
    if entries != [] {
      var n := |entries| - 1;
      var before := Collect(entries[..n]).value;
      var e := entries[n].value;
      CollectLookup(entries[..n], key, k);
      PutAllLookup(before.1, e.1, e.0, key);
      assert forall j :: 0 <= j < n ==> entries[..n][j] == entries[j];
      if key in e.1 {
        assert entries[n].Ok? && key in entries[n].value.1;
      }
    }
  }

  /**
   * The alias map holds exactly the keys some row writes (its main name as
   * it is, its aliases lower-cased), and a key maps to the character of the
   * last row that writes it: later rows overwrite.
   */
  lemma AliasMapLookup(rows: seq<CharacterRow>, key: string, k: nat)
    requires CharacterTable(rows).Ok?
    ensures |CharacterTable(rows).value.0| == |rows|
    ensures key in CharacterTable(rows).value.1 <==> exists j :: 0 <= j < |rows| && key in RowKeys(rows[j])
    ensures k < |rows| && key in RowKeys(rows[k]) && (forall j :: k < j < |rows| ==> key !in RowKeys(rows[j])) ==>
      key in CharacterTable(rows).value.1 && CharacterTable(rows).value.1[key] == CharacterTable(rows).value.0[k]
  {
    var entries := Entries(rows);
    CollectOk(entries);
    CollectLookup(entries, key, k);
    CollectRows(entries);
    forall j | 0 <= j < |rows| ensures entries[j].Ok? && entries[j].value.1 == RowKeys(rows[j]) {
      EntryAt(rows, j);
    }
  }
}
