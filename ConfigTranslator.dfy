/** The YAML-to-configuration translator of
    mirea_homework_3/config_translator.py: the name rule, the rendering of
    a loaded YAML value tree, and `translate`'s walk over the top-level
    keys, which fills the constants table as it goes. Reading the YAML file
    and writing the output file are left to the caller: the input is the
    mapping `yaml.safe_load` returns, the output the text written. */
module ConfigTranslator {
  import opened Results
  import Text

  /** A number as `yaml.safe_load` produces it; Python's `bool` is an
      `int`, so both render with `str` and both become constants. */
  datatype Num = Integer(i: int) | Boolean(b: bool)

  /** A loaded YAML value; a mapping keeps its keys in document order. */
  datatype Value =
    | Null
    | Number(n: Num)
    | Str(s: string)
    | List(items: seq<Value>)
    | Dict(entries: seq<(string, Value)>)

  /** The `ValueError`s the translator raises. */
  datatype Error = InvalidName(name: string) | UndefinedConstant(name: string) | UnsupportedType

  predicate IsLetter(c: char) {
    ('a' <= c <= 'z') || ('A' <= c <= 'Z')
  }

  /** `[_a-zA-Z]`. */
  predicate IsNameStart(c: char) {
    c == '_' || IsLetter(c)
  }

  /** `[_a-zA-Z0-9]`. */
  predicate IsNameChar(c: char) {
    IsNameStart(c) || Text.IsDigit(c)
  }

  /** A letter or underscore followed by letters, digits and underscores. */
  predicate IsIdentifier(s: string) {
    s != [] && IsNameStart(s[0]) && forall i | 1 <= i < |s| :: IsNameChar(s[i])
  }

  /** Length of the run of name characters at the front of `s`: what the
      greedy `[_a-zA-Z0-9]*` consumes. */
  function NameRun(s: string): (n: nat)
    ensures n <= |s|
    ensures forall i | 0 <= i < n :: IsNameChar(s[i])
    ensures n == |s| || !IsNameChar(s[n])
  {
    if s == [] || !IsNameChar(s[0]) then 0 else 1 + NameRun(s[1..])
  }

  /** `re.match(r'^[_a-zA-Z][_a-zA-Z0-9]*$', name)`: one start character,
      the greedy run of name characters, then `$`, which matches at the end
      of the text or just before a final newline. */
  predicate MatchesName(name: string) {
    && name != []
    && IsNameStart(name[0])
    && var n := 1 + NameRun(name[1..]);
       n == |name| || (n == |name| - 1 && name[n] == '\n')
  }

  /** The names `validate_name` accepts are the identifiers, each
      optionally followed by one newline. */
  lemma MatchesNameIff(name: string)
    ensures MatchesName(name) <==>
      IsIdentifier(name) || (|name| >= 2 && name[|name| - 1] == '\n' && IsIdentifier(name[..|name| - 1]))
  {
    if name != [] && IsNameStart(name[0]) {
      var n := 1 + NameRun(name[1..]);
      assert forall i | 1 <= i < n :: IsNameChar(name[i]) by {
        forall i | 1 <= i < n ensures IsNameChar(name[i]) {
          assert name[i] == name[1..][i - 1];
        }
      }
      if n < |name| {
        assert name[n] == name[1..][n - 1];
        assert !IsNameChar(name[n]);
      }
      if n == |name| - 1 && name[n] == '\n' {
        assert forall i | 1 <= i < |name| - 1 :: name[..|name| - 1][i] == name[i];
      }
    }
  }

  /** `validate_name`: `None` when the name is accepted. */
  function ValidateName(name: string): (r: Option<Error>)
    ensures r.None? <==> MatchesName(name)
    ensures r.Some? ==> r.value == InvalidName(name)
  {
    if MatchesName(name) then None else Some(InvalidName(name))
  }

  /** `str(value)` for a number. */
  function NumText(n: Num): string
  {
    match n
    case Integer(i) => Text.IntToString(i)
    case Boolean(b) => if b then "True" else "False"
  }

  /** `" " * n`. */
  function Spaces(n: nat): (s: string)
    ensures |s| == n && forall i | 0 <= i < n :: s[i] == ' '
  {
    seq(n, _ => ' ')
  }

  /** Whether a string is a constant reference `^name`. */
  predicate IsReference(s: string) {
    s != [] && s[0] == '^'
  }

  /** `translate_value(value, indent)`: numbers with `str`, a list as
      `( a, b )`, a mapping as one `key = value` line per entry indented
      four spaces deeper than `indent`, a `^name` string as the constant's
      value, any other string as it is; `None` is an unsupported type. */
  function TranslateValue(constants: map<string, Num>, v: Value, indent: nat): Result<string, Error>
    decreases v, 2
  {
    match v
    case Null => Err(UnsupportedType)
    case Number(n) => Ok(NumText(n))
    case Str(s) =>
      if IsReference(s) then
        if s[1..] in constants then Ok(NumText(constants[s[1..]])) else Err(UndefinedConstant(s[1..]))
      else Ok(s)
    case List(items) =>
      (match TranslateItems(constants, v, items)
       case Err(e) => Err(e)
       case Ok(parts) => Ok("( " + Text.Join(", ", parts) + " )"))
    case Dict(entries) =>
      match TranslateEntries(constants, v, entries, indent)
      case Err(e) => Err(e)
      case Ok(parts) => Ok("{\n" + Text.Join(",\n", parts) + "\n" + Spaces(indent) + "}")
  }

  /** The renderings of a list's items, each at indent 0; the first item
      that fails ends the list. */
  function TranslateItems(constants: map<string, Num>, ghost list: Value, items: seq<Value>)
    : (r: Result<seq<string>, Error>)
    requires forall i | 0 <= i < |items| :: items[i] < list
    ensures r.Ok? ==> |r.value| == |items|
    decreases list, 1, |items|
  {
    if items == [] then Ok([])
    else
      match TranslateValue(constants, items[0], 0)
      case Err(e) => Err(e)
      case Ok(first) =>
        match TranslateItems(constants, list, items[1..])
        case Err(e) => Err(e)
        case Ok(rest) => Ok([first] + rest)
  }

  /** The entry lines of a mapping at `indent`: each key is validated
      before its value is rendered at `indent + 4`; the first failure ends
      the mapping. */
  function TranslateEntries(constants: map<string, Num>, ghost dict: Value, entries: seq<(string, Value)>, indent: nat)
    : (r: Result<seq<string>, Error>)
    requires forall i | 0 <= i < |entries| :: entries[i].1 < dict
    ensures r.Ok? ==> |r.value| == |entries|
    decreases dict, 1, |entries|
  {
    if entries == [] then Ok([])
    else
      var (key, value) := entries[0];
      match ValidateName(key)
      case Some(e) => Err(e)
      case None =>
        match TranslateValue(constants, value, indent + 4)
        case Err(e) => Err(e)
        case Ok(text) =>
          match TranslateEntries(constants, dict, entries[1..], indent)
          case Err(e) => Err(e)
          case Ok(rest) => Ok([Spaces(indent) + "    " + key + " = " + text] + rest)
  }

  /** A value `translate_value` renders without raising: no `None`, every
      mapping key a valid name, every `^name` a defined constant. */
  predicate Renderable(constants: map<string, Num>, v: Value)
    decreases v
  {
    match v
    case Null => false
    case Number(_) => true
    case Str(s) => !IsReference(s) || s[1..] in constants
    case List(items) => forall i | 0 <= i < |items| :: Renderable(constants, items[i])
    case Dict(entries) =>
      forall i | 0 <= i < |entries| :: MatchesName(entries[i].0) && Renderable(constants, entries[i].1)
  }

  /** `translate_value` raises exactly on the values that are not
      renderable, whatever the indent. */
  lemma {:induction false} TranslateValueOk(constants: map<string, Num>, v: Value, indent: nat)
    ensures TranslateValue(constants, v, indent).Ok? <==> Renderable(constants, v)
    decreases v, 2
  {
    match v
    case Null =>
    case Number(_) =>
    case Str(_) =>
    case List(items) => TranslateItemsOk(constants, v, items);
    case Dict(entries) => TranslateEntriesOk(constants, v, entries, indent);
  }

  lemma {:induction false} TranslateItemsOk(constants: map<string, Num>, list: Value, items: seq<Value>)
    requires forall i | 0 <= i < |items| :: items[i] < list
    ensures TranslateItems(constants, list, items).Ok? <==>
      forall i | 0 <= i < |items| :: Renderable(constants, items[i])
    decreases list, 1, |items|
  {
    if items != [] {
      TranslateValueOk(constants, items[0], 0);
      TranslateItemsOk(constants, list, items[1..]);
      assert forall i | 1 <= i < |items| :: items[1..][i - 1] == items[i];
    }
  }

  lemma {:induction false} TranslateEntriesOk(constants: map<string, Num>, dict: Value, entries: seq<(string, Value)>, indent: nat)
    requires forall i | 0 <= i < |entries| :: entries[i].1 < dict
    ensures TranslateEntries(constants, dict, entries, indent).Ok? <==>
      forall i | 0 <= i < |entries| :: MatchesName(entries[i].0) && Renderable(constants, entries[i].1)
    decreases dict, 1, |entries|
  {
    if entries != [] {
      TranslateValueOk(constants, entries[0].1, indent + 4);
      TranslateEntriesOk(constants, dict, entries[1..], indent);
      assert forall i | 1 <= i < |entries| :: entries[1..][i - 1] == entries[i];
    }
  }

  /** A rendered list holds each item's own rendering at indent 0, in
      order. */
  lemma {:induction false} ItemsRendered(constants: map<string, Num>, list: Value, items: seq<Value>)
    requires forall i | 0 <= i < |items| :: items[i] < list
    ensures var r := TranslateItems(constants, list, items);
      r.Ok? ==> forall i | 0 <= i < |items| :: TranslateValue(constants, items[i], 0) == Ok(r.value[i])
    decreases |items|
  {
    if items != [] {
      ItemsRendered(constants, list, items[1..]);
      var r := TranslateItems(constants, list, items);
      if r.Ok? {
        var rest := TranslateItems(constants, list, items[1..]);
        forall i | 1 <= i < |items|
          ensures TranslateValue(constants, items[i], 0) == Ok(r.value[i])
        {
          assert items[i] == items[1..][i - 1] && r.value[i] == rest.value[i - 1];
        }
      }
    }
  }

  /** A rendered mapping holds, for each entry in order, the line
      `key = value` indented four spaces deeper than the mapping, with the
      value rendered at that deeper indent. */
  lemma {:induction false} EntriesRendered(constants: map<string, Num>, dict: Value, entries: seq<(string, Value)>, indent: nat)
    requires forall i | 0 <= i < |entries| :: entries[i].1 < dict
    ensures var r := TranslateEntries(constants, dict, entries, indent);
      r.Ok? ==> forall i | 0 <= i < |entries| ::
        && MatchesName(entries[i].0)
        && var v := TranslateValue(constants, entries[i].1, indent + 4);
           v.Ok? && r.value[i] == Spaces(indent) + "    " + entries[i].0 + " = " + v.value
    decreases |entries|
  {
    if entries != [] {
      EntriesRendered(constants, dict, entries[1..], indent);
      var r := TranslateEntries(constants, dict, entries, indent);
      if r.Ok? {
        var rest := TranslateEntries(constants, dict, entries[1..], indent);
        forall i | 1 <= i < |entries|
          ensures MatchesName(entries[i].0)
          ensures var v := TranslateValue(constants, entries[i].1, indent + 4);
            v.Ok? && r.value[i] == Spaces(indent) + "    " + entries[i].0 + " = " + v.value
        {
          assert entries[i] == entries[1..][i - 1] && r.value[i] == rest.value[i - 1];
        }
      }
    }
  }

  /** An integer renders as text that `int()` reads back as the same
      integer. */
  lemma IntegerRoundTrip(constants: map<string, Num>, i: int, indent: nat)
    ensures var r := TranslateValue(constants, Number(Integer(i)), indent);
      r.Ok? && Text.ParseInt(r.value) == Some(i)
  {
    Text.ParseIntToString(i);
  }

  /** A reference to a defined constant renders exactly as the constant's
      value would. */
  lemma ReferenceRendersValue(constants: map<string, Num>, name: string, indent: nat)
    requires name in constants
    ensures TranslateValue(constants, Str("^" + name), indent)
      == TranslateValue(constants, Number(constants[name]), indent)
  {
    assert ("^" + name)[1..] == name;
  }

  /** One top-level entry's line of `translate`, without its `key is `
      prefix: the key is validated, a `^name` string is looked up directly,
      anything else goes through `translate_value` at indent 0. */
  function TranslateTop(constants: map<string, Num>, key: string, value: Value): Result<string, Error>
  {
    if !MatchesName(key) then Err(InvalidName(key))
    else if value.Str? && IsReference(value.s) then
      var name := value.s[1..];
      if name in constants then Ok(NumText(constants[name])) else Err(UndefinedConstant(name))
    else TranslateValue(constants, value, 0)
  }

  /** The top level's own reference branch agrees with `translate_value`:
      a top-level value renders as it would anywhere else. */
  lemma TranslateTopAgrees(constants: map<string, Num>, key: string, value: Value)
    ensures TranslateTop(constants, key, value) ==
      if MatchesName(key) then TranslateValue(constants, value, 0) else Err(InvalidName(key))
  {
  }

  /** The constants table after an entry: a number is stored under its
      key once its line is rendered. */
  function Stored(constants: map<string, Num>, key: string, value: Value): map<string, Num>
  {
    if value.Number? then constants[key := value.n] else constants
  }

  /** What `translate` leaves behind: the lines of the entries rendered,
      the constants table, and the exception that stopped it, if any. */
  datatype Outcome = Outcome(lines: seq<string>, constants: map<string, Num>, error: Option<Error>)

  /** `translate` over the top-level mapping, in document order. */
  function TranslateDocument(constants: map<string, Num>, data: seq<(string, Value)>): Outcome
    decreases |data|
  {
    if data == [] then Outcome([], constants, None)
    else
      var (key, value) := data[0];
      match TranslateTop(constants, key, value)
      case Err(e) => Outcome([], constants, Some(e))
      case Ok(text) =>
        var rest := TranslateDocument(Stored(constants, key, value), data[1..]);
        Outcome([key + " is " + text] + rest.lines, rest.constants, rest.error)
  }

  /** One rendered entry followed by the translation of the rest. */
  lemma DocumentCons(constants: map<string, Num>, data: seq<(string, Value)>, text: string)
    requires data != [] && TranslateTop(constants, data[0].0, data[0].1) == Ok(text)
    ensures var rest := TranslateDocument(Stored(constants, data[0].0, data[0].1), data[1..]);
      TranslateDocument(constants, data)
        == Outcome([data[0].0 + " is " + text] + rest.lines, rest.constants, rest.error)
  {
  }

  /** A translation that succeeds has exactly one line per top-level key,
      in order, each starting `key is `. */
  lemma {:induction false} DocumentLines(constants: map<string, Num>, data: seq<(string, Value)>)
    ensures var o := TranslateDocument(constants, data);
      o.error.None? ==>
        && |o.lines| == |data|
        && forall i | 0 <= i < |data| ::
             |o.lines[i]| >= |data[i].0| + 4 && o.lines[i][..|data[i].0| + 4] == data[i].0 + " is "
    decreases |data|
  {
    if data != [] && TranslateTop(constants, data[0].0, data[0].1).Ok? {
      var text := TranslateTop(constants, data[0].0, data[0].1).value;
      var c := Stored(constants, data[0].0, data[0].1);
      DocumentCons(constants, data, text);
      DocumentLines(c, data[1..]);
      var o := TranslateDocument(constants, data);
      var rest := TranslateDocument(c, data[1..]);
      if o.error.None? {
        forall i | 0 <= i < |data|
          ensures |o.lines[i]| >= |data[i].0| + 4 && o.lines[i][..|data[i].0| + 4] == data[i].0 + " is "
        {
          if i == 0 {
            assert o.lines[0] == (data[0].0 + " is ") + text;
          } else {
            assert o.lines[i] == rest.lines[i - 1] && data[i] == data[1..][i - 1];
          }
        }
      }
    }
  }

  /** The keys of the entries whose values are numbers. */
  function NumericKeys(data: seq<(string, Value)>): set<string>
  {
    set i | 0 <= i < |data| && data[i].1.Number? :: data[i].0
  }

  lemma NumericKeysCons(data: seq<(string, Value)>)
    requires data != []
    ensures NumericKeys(data)
      == (if data[0].1.Number? then {data[0].0} else {}) + NumericKeys(data[1..])
  {
    forall k | k in NumericKeys(data)
      ensures k in (if data[0].1.Number? then {data[0].0} else {}) + NumericKeys(data[1..])
    {
      var i :| 0 <= i < |data| && data[i].1.Number? && data[i].0 == k;
      if i > 0 {
        assert data[1..][i - 1] == data[i];
      }
    }
    forall k | k in NumericKeys(data[1..])
      ensures k in NumericKeys(data)
    {
      var i :| 0 <= i < |data[1..]| && data[1..][i].1.Number? && data[1..][i].0 == k;
      assert data[i + 1] == data[1..][i];
    }
  }

  /** A translation that succeeds has added every numeric key to the
      constants table, and nothing else. */
  lemma {:induction false} DocumentConstants(constants: map<string, Num>, data: seq<(string, Value)>)
    ensures var o := TranslateDocument(constants, data);
      o.error.None? ==> o.constants.Keys == constants.Keys + NumericKeys(data)
    decreases |data|
  {
    if data != [] && TranslateTop(constants, data[0].0, data[0].1).Ok? {
      var text := TranslateTop(constants, data[0].0, data[0].1).value;
      DocumentCons(constants, data, text);
      DocumentConstants(Stored(constants, data[0].0, data[0].1), data[1..]);
      NumericKeysCons(data);
    }
  }

  /** A reference to a constant that is not defined yet raises, even when
      a later key defines it: constants are visible only after their own
      line. */
  lemma UndefinedReferenceStops(constants: map<string, Num>, key: string, name: string, later: seq<(string, Value)>)
    requires MatchesName(key) && name !in constants
    ensures TranslateDocument(constants, [(key, Str("^" + name))] + later).error
      == Some(UndefinedConstant(name))
  {
    var data := [(key, Str("^" + name))] + later;
    assert data[0] == (key, Str("^" + name));
    assert ("^" + name)[1..] == name;
  }

  /** A reference to a defined constant as the first entry renders its
      value. */
  lemma ReferenceFirst(constants: map<string, Num>, key: string, name: string, rest: seq<(string, Value)>)
    requires MatchesName(key) && name in constants
    ensures var after := TranslateDocument(constants, rest);
      TranslateDocument(constants, [(key, Str("^" + name))] + rest)
        == Outcome([key + " is " + NumText(constants[name])] + after.lines, after.constants, after.error)
  {
    var data := [(key, Str("^" + name))] + rest;
    assert data[0] == (key, Str("^" + name)) && data[1..] == rest;
    assert ("^" + name)[1..] == name;
    DocumentCons(constants, data, NumText(constants[name]));
  }

  /** A numeric entry followed by a reference to it: both lines show the
      number, and the rest of the document sees it as a constant. */
  lemma DefinitionThenReference(constants: map<string, Num>, name: string, n: Num, key: string,
                                rest: seq<(string, Value)>)
    requires MatchesName(name) && MatchesName(key)
    ensures var o := TranslateDocument(constants, [(name, Number(n)), (key, Str("^" + name))] + rest);
      var after := TranslateDocument(constants[name := n], rest);
      o == Outcome([name + " is " + NumText(n), key + " is " + NumText(n)] + after.lines,
                   after.constants, after.error)
  {
    var data := [(name, Number(n)), (key, Str("^" + name))] + rest;
    var tail := [(key, Str("^" + name))] + rest;
    assert data[0] == (name, Number(n)) && data[1..] == tail;
    DocumentCons(constants, data, NumText(n));
    ReferenceFirst(constants[name := n], key, name, rest);
  }

  /** The record `translate` appends lines to, before a resumed
      translation of the remaining entries. */
  function Resume(done: seq<string>, o: Outcome): Outcome
  {
    Outcome(done + o.lines, o.constants, o.error)
  }

  lemma ResumeStep(constants: map<string, Num>, data: seq<(string, Value)>, k: nat, done: seq<string>, text: string)
    requires k < |data| && TranslateTop(constants, data[k].0, data[k].1) == Ok(text)
    ensures Resume(done, TranslateDocument(constants, data[k..]))
      == Resume(done + [data[k].0 + " is " + text],
                TranslateDocument(Stored(constants, data[k].0, data[k].1), data[k + 1..]))
  {
    assert data[k..][0] == data[k] && data[k..][1..] == data[k + 1..];
    var rest := TranslateDocument(Stored(constants, data[k].0, data[k].1), data[k + 1..]);
    assert done + ([data[k].0 + " is " + text] + rest.lines)
      == (done + [data[k].0 + " is " + text]) + rest.lines;
  }

  lemma ResumeStop(constants: map<string, Num>, data: seq<(string, Value)>, k: nat, done: seq<string>, e: Error)
    requires k < |data| && TranslateTop(constants, data[k].0, data[k].1) == Err(e)
    ensures Resume(done, TranslateDocument(constants, data[k..])) == Outcome(done, constants, Some(e))
  {
    assert data[k..][0] == data[k];
    assert done + [] == done;
  }

  lemma ResumeEnd(constants: map<string, Num>, data: seq<(string, Value)>, done: seq<string>)
    ensures Resume(done, TranslateDocument(constants, data[|data|..])) == Outcome(done, constants, None)
  {
    assert data[|data|..] == [];
    assert done + [] == done;
  }

  /** The translator object: the constants table persists across calls. */
  class Translator {
    var constants: map<string, Num>

    constructor ()
      ensures constants == map[]
    {
      constants := map[];
    }

    /** `translate`: validates and renders the top-level keys in order,
        storing each number as a constant after its line; on success the
        result is the lines joined by newlines, on the first exception the
        constants stored so far stay stored. */
    method Translate(data: seq<(string, Value)>) returns (r: Result<string, Error>)
      modifies this
      ensures var o := TranslateDocument(old(constants), data);
        && constants == o.constants
        && r == if o.error.Some? then Err(o.error.value) else Ok(Text.Join("\n", o.lines))
    {
      var result: seq<string> := [];
      var k := 0;
      assert data[0..] == data;
      while k < |data|
        invariant k <= |data|
        invariant TranslateDocument(old(constants), data) == Resume(result, TranslateDocument(constants, data[k..]))
        decreases |data| - k
      {
        var (key, value) := data[k];
        if !MatchesName(key) {
          ResumeStop(constants, data, k, result, InvalidName(key));
          return Err(InvalidName(key));
        }
        var text: string;
        if value.Str? && IsReference(value.s) {
          var name := value.s[1..];
          if name !in constants {
            ResumeStop(constants, data, k, result, UndefinedConstant(name));
            return Err(UndefinedConstant(name));
          }
          text := NumText(constants[name]);
        } else {
          var translated := TranslateValue(constants, value, 0);
          if translated.Err? {
            ResumeStop(constants, data, k, result, translated.error);
            return Err(translated.error);
          }
          text := translated.value;
        }
        ResumeStep(constants, data, k, result, text);
        result := result + [key + " is " + text];
        if value.Number? {
          constants := constants[key := value.n];
        }
        k := k + 1;
      }
      ResumeEnd(constants, data, result);
      r := Ok(Text.Join("\n", result));
    }
  }
}
