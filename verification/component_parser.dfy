/**
 * Parsing of a pipeline step written as `name` or `name[arg1=val1,arg2=val2]`
 * into the registered component class and its string arguments.
 */
module ComponentParsing {
  import opened Wrappers
  import opened PyStrings
  import opened ComponentsRegistry

  const ParserError := "ComponentParserError"

  /** A step's name and its argument dictionary. */
  datatype ComponentSpec = ComponentSpec(name: string, args: map<string, string>)

  /** A step resolved against the registry: the class that will be instantiated with `args`. */
  datatype ParsedComponent = ParsedComponent(name: string, component: ComponentClass, args: map<string, string>)

  /** Position of the first `c` in `s`. */
  function IndexOf(s: string, c: char): (r: nat)
    requires Contains(s, c)
    ensures r < |s| && s[r] == c
    ensures forall i :: 0 <= i < r ==> s[i] != c
  {
    if s[0] == c then 0
    else
      assert Contains(s[1..], c) by {
        var i :| 0 <= i < |s| && s[i] == c;
        assert s[1..][i - 1] == c;
      }
      1 + IndexOf(s[1..], c)
  }

  /** One `key=value` piece; any other number of `=`-separated parts is a format error. */
  function ArgPair(piece: string): (r: Result<(string, string), string>)
    ensures r.Ok? <==> Count(piece, '=') == 1
  {
    SplitCount(piece, '=');
    var kv := Split(piece, '=');
    if |kv| != 2 then Err(ParserError) else Ok((kv[0], kv[1]))
  }

  /** The dictionary built from the pieces in order, so a later key overwrites an earlier one. */
  function ArgsFrom(pieces: seq<string>): (r: Result<map<string, string>, string>)
    decreases |pieces|
  {
    if pieces == [] then Ok(map[])
    else
      var m :- ArgsFrom(pieces[..|pieces| - 1]);
      var kv :- ArgPair(pieces[|pieces| - 1]);
      Ok(m[kv.0 := kv.1])
  }

  /** `dict(arg.split("=") for arg in args.split(","))`. */
  function ParseArgs(args: string): Result<map<string, string>, string> {
    ArgsFrom(Split(args, ','))
  }

  /**
   * The name and the arguments of a step. Only a string holding both `[`
   * and `]` has arguments: the name is what precedes the first `[`, and
   * the arguments are the rest with every trailing `]` stripped.
   */
  function SplitComponentString(s: string): Result<ComponentSpec, string> {
    if Contains(s, '[') && Contains(s, ']') then
      var i := IndexOf(s, '[');
      var args :- ParseArgs(RStripChar(s[i + 1..], ']'));
      Ok(ComponentSpec(s[..i], args))
    else
      Ok(ComponentSpec(s, map[]))
  }

  /** The step resolved against the registry; an unregistered name is an error. */
  function ParseComponentString(s: string, registry: ComponentsRegister): (r: Result<ParsedComponent, string>)
    reads registry
    ensures r.Ok? <==> SplitComponentString(s).Ok? && SplitComponentString(s).value.name in registry.components
    ensures r.Ok? ==> r.value.name == SplitComponentString(s).value.name
    ensures r.Ok? ==> r.value.args == SplitComponentString(s).value.args
    ensures r.Ok? ==> r.value.component == registry.components[r.value.name]
  {
    var spec :- SplitComponentString(s);
    match registry.GetComponent(spec.name)
    case None => Err(ParserError)
    case Some(c) => Ok(ParsedComponent(spec.name, c, spec.args))
  }

  /** The key of a well-formed piece. */
  function KeyOf(piece: string): string {
    Split(piece, '=')[0]
  }

  /** The value of a well-formed piece. */
  function ValueOf(piece: string): string
    requires Count(piece, '=') == 1
  {
    SplitCount(piece, '=');
    Split(piece, '=')[1]
  }

  /** A string without both brackets is a bare name with no arguments. */
  lemma PlainName(s: string)
    requires !(Contains(s, '[') && Contains(s, ']'))
    ensures SplitComponentString(s) == Ok(ComponentSpec(s, map[]))
  {
  }

  /** A bracketed step's name is the text before the first `[`, and holds no `[`. */
  lemma BracketName(s: string)
    requires Contains(s, '[') && Contains(s, ']')
    requires SplitComponentString(s).Ok?
    ensures var name := SplitComponentString(s).value.name;
      |name| < |s| && s[..|name| + 1] == name + "[" && !Contains(name, '[')
  {
    var i := IndexOf(s, '[');
    assert s[..i + 1] == s[..i] + "[";
    assert !Contains(s[..i], '[') by {
      forall j | 0 <= j < i ensures s[..i][j] != '[' {
        assert s[..i][j] == s[j];
      }
    }
  }

  /** The arguments parse exactly when every comma-separated piece holds exactly one `=`. */
  lemma {:induction false} ArgsFromOk(pieces: seq<string>)
    ensures ArgsFrom(pieces).Ok? <==> forall k :: 0 <= k < |pieces| ==> Count(pieces[k], '=') == 1
    decreases |pieces|
  {
    if pieces != [] {
      ArgsFromOk(pieces[..|pieces| - 1]);
    }
  }

  /** The keys of the dictionary are the keys of the pieces. */
  lemma {:induction false} ArgsFromKeys(pieces: seq<string>)
    requires ArgsFrom(pieces).Ok?
    ensures forall key :: key in ArgsFrom(pieces).value <==> exists k :: 0 <= k < |pieces| && KeyOf(pieces[k]) == key
    decreases |pieces|
  {
    if pieces != [] {
      var init := pieces[..|pieces| - 1];
      ArgsFromKeys(init);
      forall key ensures key in ArgsFrom(pieces).value <==> exists k :: 0 <= k < |pieces| && KeyOf(pieces[k]) == key {
        if exists k :: 0 <= k < |pieces| && KeyOf(pieces[k]) == key {
          var k :| 0 <= k < |pieces| && KeyOf(pieces[k]) == key;
          if k < |pieces| - 1 {
            assert init[k] == pieces[k];
          }
        }
        if key in ArgsFrom(init).value {
          var k :| 0 <= k < |init| && KeyOf(init[k]) == key;
          assert pieces[k] == init[k];
        }
      }
    }
  }

  /** The value of a key is the value of its last piece. */
  lemma {:induction false} ArgsFromLast(pieces: seq<string>, k: nat)
    requires ArgsFrom(pieces).Ok? && k < |pieces|
    requires forall j :: k < j < |pieces| ==> KeyOf(pieces[j]) != KeyOf(pieces[k])
    ensures Count(pieces[k], '=') == 1
    ensures KeyOf(pieces[k]) in ArgsFrom(pieces).value
    ensures ArgsFrom(pieces).value[KeyOf(pieces[k])] == ValueOf(pieces[k])
    decreases |pieces|
  {
    var init := pieces[..|pieces| - 1];
    ArgsFromOk(pieces);
    if k < |pieces| - 1 {
      ArgsFromLast(init, k);
      assert init[k] == pieces[k];
    }
  }

  /** The first `[` after a name without one is the one right after the name. */
  lemma FirstBracket(name: string, t: string)
    requires !Contains(name, '[')
    ensures (name + "[" + t)[|name|] == '[' && IndexOf(name + "[" + t, '[') == |name|
  {
    var s := name + "[" + t;
    forall i | 0 <= i < |name| ensures s[i] != '[' {
      assert s[i] == name[i];
    }
    assert s[|name|] == '[';
  }

  /** A name without `[`, then `[` and text holding a `]`: the arguments are that text with its trailing `]` stripped. */
  lemma BracketForm(name: string, t: string)
    requires !Contains(name, '[') && Contains(t, ']')
    ensures var r := SplitComponentString(name + "[" + t);
      var args := ParseArgs(RStripChar(t, ']'));
      (r.Ok? <==> args.Ok?) && (r.Ok? ==> r.value == ComponentSpec(name, args.value))
  {
    var s := name + "[" + t;
    FirstBracket(name, t);
    assert Contains(s, ']') by {
      var j :| 0 <= j < |t| && t[j] == ']';
      assert s[|name| + 1 + j] == ']';
    }
    assert s[|name|] == '[';
    assert s[|name| + 1..] == t;
    assert s[..|name|] == name;
  }

  /** `name[]` is rejected: the empty argument string has a piece without `=`. */
  lemma EmptyArgsFail(name: string)
    requires !Contains(name, '[')
    ensures SplitComponentString(name + "[]").Err?
  {
    assert "]"[0] == ']';
    BracketForm(name, "]");
    assert name + "[" + "]" == name + "[]";
    assert RStripChar("]", ']') == "";
    assert Split("", ',') == [""];
    assert Count("", '=') == 0;
  }

  /** `name[k1=v1,k2=v2,...]`. */
  function FormatComponentString(name: string, pairs: seq<(string, string)>): string {
    name + "[" + (Join(Pieces(pairs), ",") + "]")
  }

  /** The `key=value` pieces of the argument list. */
  function Pieces(pairs: seq<(string, string)>): (r: seq<string>)
    ensures |r| == |pairs|
    ensures forall k :: 0 <= k < |r| ==> r[k] == pairs[k].0 + "=" + pairs[k].1
  {
    seq(|pairs|, k requires 0 <= k < |pairs| => pairs[k].0 + "=" + pairs[k].1)
  }

  /** The dictionary of a pair list, a later key overwriting an earlier one. */
  function PairsToMap(pairs: seq<(string, string)>): map<string, string>
    decreases |pairs|
  {
    if pairs == [] then map[] else PairsToMap(pairs[..|pairs| - 1])[pairs[|pairs| - 1].0 := pairs[|pairs| - 1].1]
  }

  /** A name and argument text that the format can carry: no bracket, comma or `=` inside them. */
  predicate Plain(s: string) {
    !Contains(s, '[') && !Contains(s, ']') && !Contains(s, ',') && !Contains(s, '=')
  }

  /** Parsing a formatted step with a non-empty argument list gives back its name and dictionary. */
  lemma FormatParse(name: string, pairs: seq<(string, string)>)
    requires Plain(name) && |pairs| >= 1
    requires forall k :: 0 <= k < |pairs| ==> Plain(pairs[k].0) && Plain(pairs[k].1)
    ensures SplitComponentString(FormatComponentString(name, pairs)) == Ok(ComponentSpec(name, PairsToMap(pairs)))
  {
    var args := Join(Pieces(pairs), ",");
    FormatArgs(pairs);
    assert Contains(args + "]", ']') by {
      assert (args + "]")[|args|] == ']';
    }
    BracketForm(name, args + "]");
  }

  /** The formatted argument text, closing bracket included, parses back to the pair dictionary. */
  lemma FormatArgs(pairs: seq<(string, string)>)
    requires |pairs| >= 1
    requires forall k :: 0 <= k < |pairs| ==> Plain(pairs[k].0) && Plain(pairs[k].1)
    ensures ParseArgs(RStripChar(Join(Pieces(pairs), ",") + "]", ']')) == Ok(PairsToMap(pairs))
  {
    var pieces := Pieces(pairs);
    forall k | 0 <= k < |pieces| ensures !Contains(pieces[k], ',') && !Contains(pieces[k], ']') {
      PieceChars(pairs[k].0, pairs[k].1);
    }
    JoinChars(pieces);
    StripClosingBracket(Join(pieces, ","));
    JoinSplit(pieces, ',');
    PiecesParse(pairs);
  }

  lemma PieceChars(key: string, value: string)
    requires Plain(key) && Plain(value)
    ensures var p := key + "=" + value; !Contains(p, ',') && !Contains(p, ']')
  {
    var p := key + "=" + value;
    forall i | 0 <= i < |p| ensures p[i] != ',' && p[i] != ']' {
      if i < |key| {
        assert p[i] == key[i];
      } else if i > |key| {
        assert p[i] == value[i - |key| - 1];
      }
    }
  }

  /** Pieces without `]` joined with commas end in something other than `]`. */
  lemma {:induction false} JoinChars(pieces: seq<string>)
    requires forall k :: 0 <= k < |pieces| ==> !Contains(pieces[k], ']')
    ensures !Contains(Join(pieces, ","), ']')
    decreases |pieces|
  {
    if |pieces| > 1 {
      JoinChars(pieces[1..]);
      var j := Join(pieces, ",");
      var t := Join(pieces[1..], ",");
      assert j == pieces[0] + "," + t;
      forall i | 0 <= i < |j| ensures j[i] != ']' {
        if i < |pieces[0]| {
          assert j[i] == pieces[0][i];
        } else if i > |pieces[0]| {
          assert j[i] == t[i - |pieces[0]| - 1];
        }
      }
    }
  }

  lemma StripClosingBracket(args: string)
    requires !Contains(args, ']')
    ensures RStripChar(args + "]", ']') == args
  {
    assert (args + "]")[..|args|] == args;
    assert args != [] ==> args[|args| - 1] != ']';
  }

  /** Each formatted piece parses back to its own pair, so the pieces rebuild the pair dictionary. */
  lemma {:induction false} PiecesParse(pairs: seq<(string, string)>)
    requires forall k :: 0 <= k < |pairs| ==> Plain(pairs[k].0) && Plain(pairs[k].1)
    ensures ArgsFrom(Pieces(pairs)) == Ok(PairsToMap(pairs))
    decreases |pairs|
  {
    if pairs != [] {
      var n := |pairs| - 1;
      PiecesParse(pairs[..n]);
      assert Pieces(pairs)[..n] == Pieces(pairs[..n]);
      SplitSeparated(pairs[n].0, '=', pairs[n].1);
      SplitPlain(pairs[n].1, '=');
      assert pairs[n].0 + "=" + pairs[n].1 == pairs[n].0 + ['='] + pairs[n].1;
    }
  }
}
