/**
 * The print component's choice of pipeline data attributes: all of them, the
 * ones listed in the `attrs` parameter, or, when the list starts with `!`,
 * all but the listed ones.
 */
module PrintSelection {
  import opened Wrappers
  import opened PyStrings

  /** The field names of the pipeline data record. */
  const AvailableAttributes: set<string> :=
    {"original_text", "characters", "text_as_parts", "available_speakers", "additional_attributes"}

  /** The non-empty strings of `parts`, in order. */
  function NonEmpty(parts: seq<string>): (r: seq<string>)
    ensures forall k :: 0 <= k < |r| ==> r[k] != ""
    ensures forall x :: x in r <==> x in parts && x != ""
    decreases |parts|
  {
    if parts == [] then []
    else if parts[|parts| - 1] == "" then NonEmpty(parts[..|parts| - 1])
    else NonEmpty(parts[..|parts| - 1]) + [parts[|parts| - 1]]
  }

  /** `[attr for attr in attrs.split(";") if attr]`. */
  function AttributeNames(attrs: string): (r: seq<string>)
    ensures forall k :: 0 <= k < |r| ==> r[k] != "" && !Contains(r[k], ';')
  {
    SplitNoSeparator(attrs, ';');
    var parts := Split(attrs, ';');
    assert forall x :: x in parts ==> !Contains(x, ';');
    NonEmpty(parts)
  }

  /** Whether the list is an exclusion list. */
  predicate Excludes(attrs: string) {
    |attrs| > 0 && attrs[0] == '!'
  }

  /** The list without its leading `!`. */
  function ListedPart(attrs: string): string {
    if Excludes(attrs) then attrs[1..] else attrs
  }

  /**
   * The attributes to print. With an `attrs` parameter, an empty list and a
   * name outside the record are errors.
   */
  function SelectAttributes(params: map<string, string>): (r: Result<set<string>, string>)
    ensures r.Ok? ==> r.value <= AvailableAttributes
  {
    if "attrs" !in params then Ok(AvailableAttributes)
    else
      var attrs := params["attrs"];
      var names := AttributeNames(ListedPart(attrs));
      if |names| == 0 then Err("ComponentParserError: No attributes specified.")
      else if exists k :: 0 <= k < |names| && names[k] !in AvailableAttributes then
        Err("ComponentParserError: Attribute not available.")
      else if Excludes(attrs) then Ok(AvailableAttributes - set k | 0 <= k < |names| :: names[k])
      else Ok(set k | 0 <= k < |names| :: names[k])
  }

  /** Without `attrs` every attribute is printed. */
  lemma NoAttrsSelectsAll(params: map<string, string>)
    requires "attrs" !in params
    ensures SelectAttributes(params) == Ok(AvailableAttributes)
  {
  }

  /** A given list is accepted exactly when it names at least one attribute and only known ones. */
  lemma SelectOk(params: map<string, string>)
    requires "attrs" in params
    ensures var names := AttributeNames(ListedPart(params["attrs"]));
      SelectAttributes(params).Ok? <==> |names| > 0 && forall k :: 0 <= k < |names| ==> names[k] in AvailableAttributes
  {
  }

  /** An accepted list selects its names, or, after `!`, every other attribute. */
  lemma SelectListed(params: map<string, string>, a: string)
    requires "attrs" in params && SelectAttributes(params).Ok?
    ensures var names := AttributeNames(ListedPart(params["attrs"]));
      a in SelectAttributes(params).value <==>
        if Excludes(params["attrs"]) then a in AvailableAttributes && a !in names else a in names
  {
  }

  /** Listing names that are non-empty and hold no `;` with `;` between them gives back those names. */
  lemma {:induction false} ListedNames(names: seq<string>)
    requires |names| >= 1
    requires forall k :: 0 <= k < |names| ==> names[k] != "" && !Contains(names[k], ';')
    ensures AttributeNames(Join(names, ";")) == names
  {
    JoinSplit(names, ';');
    NonEmptyKeeps(names);
  }

  lemma {:induction false} NonEmptyKeeps(parts: seq<string>)
    requires forall k :: 0 <= k < |parts| ==> parts[k] != ""
    ensures NonEmpty(parts) == parts
    decreases |parts|
  {
    if parts != [] {
      NonEmptyKeeps(parts[..|parts| - 1]);
    }
  }
}
