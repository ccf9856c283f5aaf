/** The translator on the documents of
    mirea_homework_3/test_config_translator.py, each given as the mapping
    `yaml.safe_load` returns for it and translated with an empty constants
    table. Expected texts are written as the renderer assembles them: a
    mapping is `{`, its entry lines joined by `,` and a newline, then `}`. */
module ConfigScenarios {
  import opened Results
  import Text
  import opened ConfigTranslator

  /** Every identifier is a name. */
  lemma Identifier(name: string)
    requires IsIdentifier(name)
    ensures MatchesName(name)
  {
    MatchesNameIff(name);
  }

  lemma AcceptsName()
    ensures MatchesName("name")
  {
    Identifier("name");
  }

  lemma AcceptsValue()
    ensures MatchesName("value")
  {
    Identifier("value");
  }

  lemma AcceptsArray()
    ensures MatchesName("array")
  {
    Identifier("array");
  }

  lemma AcceptsDictionary()
    ensures MatchesName("dictionary")
  {
    Identifier("dictionary");
  }

  lemma AcceptsKey1()
    ensures MatchesName("key1")
  {
    Identifier("key1");
  }

  lemma AcceptsKey2()
    ensures MatchesName("key2")
  {
    Identifier("key2");
  }

  lemma AcceptsConstant()
    ensures MatchesName("constant")
  {
    Identifier("constant");
  }

  lemma AcceptsReference()
    ensures MatchesName("reference")
  {
    Identifier("reference");
  }

  lemma AcceptsNested()
    ensures MatchesName("nested")
  {
    Identifier("nested");
  }

  lemma AcceptsDict()
    ensures MatchesName("dict")
  {
    Identifier("dict");
  }

  lemma AcceptsKey()
    ensures MatchesName("key")
  {
    Identifier("key");
  }

  /** `str()` of the numbers used below. */
  lemma NumberTexts()
    ensures NumText(Integer(1)) == "1" && NumText(Integer(2)) == "2" && NumText(Integer(3)) == "3"
    ensures NumText(Integer(5)) == "5" && NumText(Integer(10)) == "10"
    ensures NumText(Integer(42)) == "42" && NumText(Integer(100)) == "100"
  {
    assert Text.NatToString(10) == Text.NatToString(1) + [Text.DigitChar(0)];
    assert Text.NatToString(42) == Text.NatToString(4) + [Text.DigitChar(2)];
    assert Text.NatToString(100) == Text.NatToString(10) + [Text.DigitChar(0)];
  }

  /** One rendered list item followed by the rest of the list. */
  lemma ItemsCons(c: map<string, Num>, list: Value, items: seq<Value>, first: string, rest: seq<string>)
    requires items != [] && forall i | 0 <= i < |items| :: items[i] < list
    requires TranslateValue(c, items[0], 0) == Ok(first)
    requires TranslateItems(c, list, items[1..]) == Ok(rest)
    ensures TranslateItems(c, list, items) == Ok([first] + rest)
  {
  }

  /** One rendered mapping entry followed by the rest of the mapping. */
  lemma EntriesCons(c: map<string, Num>, dict: Value, entries: seq<(string, Value)>, indent: nat,
                    text: string, rest: seq<string>)
    requires entries != [] && forall i | 0 <= i < |entries| :: entries[i].1 < dict
    requires MatchesName(entries[0].0)
    requires TranslateValue(c, entries[0].1, indent + 4) == Ok(text)
    requires TranslateEntries(c, dict, entries[1..], indent) == Ok(rest)
    ensures TranslateEntries(c, dict, entries, indent)
      == Ok([Spaces(indent) + "    " + entries[0].0 + " = " + text] + rest)
  {
  }

  /** Joining two texts puts the separator between them. */
  lemma JoinTwo(sep: string, a: string, b: string)
    ensures Text.Join(sep, [a, b]) == a + sep + b
  {
    assert [a, b][1..] == [b];
  }

  /** A mapping of two entries renders as their two lines. */
  lemma TwoEntries(c: map<string, Num>, dict: Value, indent: nat,
                   k1: string, v1: Value, t1: string, k2: string, v2: Value, t2: string)
    requires dict == Dict([(k1, v1), (k2, v2)])
    requires MatchesName(k1) && MatchesName(k2)
    requires TranslateValue(c, v1, indent + 4) == Ok(t1)
    requires TranslateValue(c, v2, indent + 4) == Ok(t2)
    ensures TranslateEntries(c, dict, dict.entries, indent)
      == Ok([Spaces(indent) + "    " + k1 + " = " + t1, Spaces(indent) + "    " + k2 + " = " + t2])
  {
    var entries := dict.entries;
    var tail := entries[1..];
    assert tail[1..] == [] && tail[0] == (k2, v2) && entries[0] == (k1, v1);
    var line2 := Spaces(indent) + "    " + k2 + " = " + t2;
    EntriesCons(c, dict, tail, indent, t2, []);
    assert [line2] + [] == [line2];
    EntriesCons(c, dict, entries, indent, t1, [line2]);
    var line1 := Spaces(indent) + "    " + k1 + " = " + t1;
    assert [line1] + [line2] == [line1, line2];
  }

  /** A document of one top-level entry renders as its one line. */
  lemma SingleEntry(c: map<string, Num>, data: seq<(string, Value)>, key: string, v: Value, text: string)
    requires data == [(key, v)]
    requires TranslateTop(c, key, v) == Ok(text)
    ensures TranslateDocument(c, data) == Outcome([key + " is " + text], Stored(c, key, v), None)
  {
    assert data[0] == (key, v) && data[1..] == [];
    DocumentCons(c, data, text);
    assert [key + " is " + text] + [] == [key + " is " + text];
  }

  lemma ListText(list: Value)
    requires list == List([Number(Integer(1)), Number(Integer(2)), Number(Integer(3))])
    ensures TranslateValue(map[], list, 0) == Ok("( 1, 2, 3 )")
  {
    NumberTexts();
    var items := list.items;
    var tail2 := items[1..];
    var tail3 := tail2[1..];
    assert tail3[1..] == [] && tail3[0] == Number(Integer(3)) && tail2[0] == Number(Integer(2));
    ItemsCons(map[], list, tail3, "3", []);
    assert ["3"] + [] == ["3"];
    ItemsCons(map[], list, tail2, "2", ["3"]);
    assert ["2"] + ["3"] == ["2", "3"];
    ItemsCons(map[], list, items, "1", ["2", "3"]);
    assert ["1"] + ["2", "3"] == ["1", "2", "3"];
    assert Text.Join(", ", ["1", "2", "3"]) == "1" + ", " + ("2" + ", " + "3") by {
      assert ["1", "2", "3"][1..] == ["2", "3"] && ["2", "3"][1..] == ["3"];
    }
    ListLiteral();
  }

  lemma ListLiteral()
    ensures "( " + ("1" + ", " + ("2" + ", " + "3")) + " )" == "( 1, 2, 3 )"
  {
  }

  lemma DictText(dict: Value)
    requires dict == Dict([("key1", Str("value1")), ("key2", Str("value2"))])
    ensures TranslateValue(map[], dict, 0) == Ok("{\n" + ("    " + "key1" + " = " + "value1" + ",\n" + ("    " + "key2" + " = " + "value2")) + "\n" + "}")
  {
    AcceptsKey1(); AcceptsKey2();
    TwoEntries(map[], dict, 0, "key1", Str("value1"), "value1", "key2", Str("value2"), "value2");
    assert Spaces(0) == "";
    var line1, line2 := "    " + "key1" + " = " + "value1", "    " + "key2" + " = " + "value2";
    assert "" + "    " + "key1" + " = " + "value1" == line1 && "" + "    " + "key2" + " = " + "value2" == line2;
    JoinTwo(",\n", line1, line2);
    var x := "{\n" + Text.Join(",\n", [line1, line2]) + "\n";
    assert x + "" == x;
  }

  lemma SimpleLines()
    ensures "name" + " is " + "example" == "name is example" && "value" + " is " + "42" == "value is 42"
  {
  }

  /** `name: example`, `value: 42`. */
  lemma SimpleTranslation(data: seq<(string, Value)>)
    requires data == [("name", Str("example")), ("value", Number(Integer(42)))]
    ensures TranslateDocument(map[], data)
      == Outcome(["name is example", "value is 42"], map["value" := Integer(42)], None)
  {
    AcceptsName(); AcceptsValue(); NumberTexts(); SimpleLines();
    var tail := data[1..];
    assert tail[1..] == [] && tail[0] == ("value", Number(Integer(42)));
    DocumentCons(map[], data, "example");
    DocumentCons(map[], tail, "42");
  }

  /** A list of three numbers and a mapping of two strings. */
  lemma NestedStructures(data: seq<(string, Value)>)
    requires data == [("array", List([Number(Integer(1)), Number(Integer(2)), Number(Integer(3))])),
                      ("dictionary", Dict([("key1", Str("value1")), ("key2", Str("value2"))]))]
    ensures TranslateDocument(map[], data)
      == Outcome(["array" + " is " + "( 1, 2, 3 )",
                  "dictionary" + " is " + ("{\n" + ("    " + "key1" + " = " + "value1" + ",\n" + ("    " + "key2" + " = " + "value2")) + "\n" + "}")],
                 map[], None)
  {
    AcceptsArray();
    ListText(data[0].1);
    DictionaryEntry(data[1..]);
    DocumentCons(map[], data, "( 1, 2, 3 )");
  }

  lemma DictionaryEntry(tail: seq<(string, Value)>)
    requires tail == [("dictionary", Dict([("key1", Str("value1")), ("key2", Str("value2"))]))]
    ensures TranslateDocument(map[], tail)
      == Outcome(["dictionary" + " is " + ("{\n" + ("    " + "key1" + " = " + "value1" + ",\n" + ("    " + "key2" + " = " + "value2")) + "\n" + "}")], map[], None)
  {
    AcceptsDictionary();
    var dict := tail[0].1;
    DictText(dict);
    SingleEntry(map[], tail, "dictionary", dict,
      "{\n" + ("    " + "key1" + " = " + "value1" + ",\n" + ("    " + "key2" + " = " + "value2")) + "\n" + "}");
  }

  lemma ConstantLines()
    ensures "constant" + " is " + "100" == "constant is 100" && "reference" + " is " + "100" == "reference is 100"
    ensures "^constant" == "^" + "constant"
  {
  }

  /** `constant: 100` and a reference to it. */
  lemma Constants(data: seq<(string, Value)>)
    requires data == [("constant", Number(Integer(100))), ("reference", Str("^constant"))]
    ensures TranslateDocument(map[], data)
      == Outcome(["constant is 100", "reference is 100"], map["constant" := Integer(100)], None)
  {
    AcceptsConstant(); AcceptsReference(); NumberTexts(); ConstantLines();
    assert data == [("constant", Number(Integer(100))), ("reference", Str("^" + "constant"))] + [];
    DefinitionThenReference(map[], "constant", Integer(100), "reference", []);
  }

  /** A key with a hyphen is not a name. */
  lemma InvalidKey(data: seq<(string, Value)>)
    requires data == [("invalid-name", Str("value"))]
    ensures TranslateDocument(map[], data) == Outcome([], map[], Some(InvalidName("invalid-name")))
  {
    NotAName();
  }

  /** A character that is neither a name character nor a final newline
      rules the name out. */
  lemma NotANameAt(name: string, k: nat)
    requires 0 < k < |name| - 1 && !IsNameChar(name[k])
    ensures !MatchesName(name)
  {
    MatchesNameIff(name);
    assert name[..|name| - 1][k] == name[k];
  }

  lemma NotAName()
    ensures !MatchesName("invalid-name")
  {
    NotANameAt("invalid-name", 7);
  }

  /** A reference to a constant that was never defined. */
  lemma UndefinedReference(data: seq<(string, Value)>)
    requires data == [("reference", Str("^undefined_constant"))]
    ensures TranslateDocument(map[], data).error == Some(UndefinedConstant("undefined_constant"))
  {
    AcceptsReference();
    UndefinedLiteral();
    assert data == [("reference", Str("^" + "undefined_constant"))] + [];
    UndefinedReferenceStops(map[], "reference", "undefined_constant", []);
  }

  lemma UndefinedLiteral()
    ensures "^undefined_constant" == "^" + "undefined_constant"
  {
  }

  /** `^constant` against the table of the complex case. */
  lemma ReferenceText(c: map<string, Num>, v: Value, indent: nat)
    requires c == map["constant" := Integer(5)] && v == Str("^constant")
    ensures TranslateValue(c, v, indent) == Ok("5")
  {
    NumberTexts();
    assert "^constant"[1..] == "constant";
  }

  lemma ComplexList(c: map<string, Num>, list: Value)
    requires c == map["constant" := Integer(5)]
    requires list == List([Str("^constant"), Number(Integer(10))])
    ensures TranslateValue(c, list, 4) == Ok("( 5, 10 )")
  {
    NumberTexts();
    var items := list.items;
    var tail := items[1..];
    assert tail[1..] == [] && tail[0] == Number(Integer(10));
    ReferenceText(c, items[0], 0);
    ItemsCons(c, list, tail, "10", []);
    assert ["10"] + [] == ["10"];
    ItemsCons(c, list, items, "5", ["10"]);
    assert ["5"] + ["10"] == ["5", "10"];
    assert Text.Join(", ", ["5", "10"]) == "5" + ", " + "10" by {
      assert ["5", "10"][1..] == ["10"];
    }
    assert "( " + ("5" + ", " + "10") + " )" == "( 5, 10 )";
  }

  lemma ComplexInner(c: map<string, Num>, inner: Value)
    requires c == map["constant" := Integer(5)]
    requires inner == Dict([("key", Str("^constant"))])
    ensures TranslateValue(c, inner, 4) == Ok("{\n        key = 5\n    }")
  {
    AcceptsKey();
    var entries := inner.entries;
    assert entries[1..] == [];
    ReferenceText(c, entries[0].1, 8);
    assert Spaces(4) == "    ";
    EntriesCons(c, inner, entries, 4, "5", []);
    var line := "    " + "    " + "key" + " = " + "5";
    assert [line] + [] == [line];
    assert "{\n" + line + "\n" + "    " + "}" == "{\n        key = 5\n    }";
  }

  lemma ComplexEntries(c: map<string, Num>, nested: Value)
    requires c == map["constant" := Integer(5)]
    requires nested == Dict([("array", List([Str("^constant"), Number(Integer(10))])),
                             ("dict", Dict([("key", Str("^constant"))]))])
    ensures TranslateEntries(c, nested, nested.entries, 0) == Ok(["    " + "array" + " = " + "( 5, 10 )", "    " + "dict" + " = " + "{\n        key = 5\n    }"])
  {
    AcceptsArray(); AcceptsDict();
    var list, inner := List([Str("^constant"), Number(Integer(10))]), Dict([("key", Str("^constant"))]);
    ComplexList(c, list);
    ComplexInner(c, inner);
    TwoEntries(c, nested, 0, "array", list, "( 5, 10 )", "dict", inner, "{\n        key = 5\n    }");
    assert Spaces(0) == "";
    assert "" + "    " + "array" + " = " + "( 5, 10 )" == "    " + "array" + " = " + "( 5, 10 )";
    assert "" + "    " + "dict" + " = " + "{\n        key = 5\n    }" == "    " + "dict" + " = " + "{\n        key = 5\n    }";
  }

  lemma ComplexNested(c: map<string, Num>, nested: Value)
    requires c == map["constant" := Integer(5)]
    requires nested == Dict([("array", List([Str("^constant"), Number(Integer(10))])),
                             ("dict", Dict([("key", Str("^constant"))]))])
    ensures TranslateValue(c, nested, 0) == Ok("{\n" + ("    " + "array" + " = " + "( 5, 10 )" + ",\n" + ("    " + "dict" + " = " + "{\n        key = 5\n    }")) + "\n" + "}")
  {
    ComplexEntries(c, nested);
    var line1, line2 := "    " + "array" + " = " + "( 5, 10 )", "    " + "dict" + " = " + "{\n        key = 5\n    }";
    var parts := [line1, line2];
    assert TranslateEntries(c, nested, nested.entries, 0) == Ok(parts);
    var joined := Text.Join(",\n", parts);
    JoinTwo(",\n", line1, line2);
    assert Spaces(0) == "";
    var x := "{\n" + joined + "\n";
    assert x + "" == x;
    assert TranslateValue(c, nested, 0) == Ok(x + Spaces(0) + "}");
    assert TranslateValue(c, nested, 0) == Ok(x + "}");
  }

  lemma NestedEntry(c: map<string, Num>, tail: seq<(string, Value)>)
    requires c == map["constant" := Integer(5)]
    requires tail == [("nested", Dict([("array", List([Str("^constant"), Number(Integer(10))])),
                                       ("dict", Dict([("key", Str("^constant"))]))]))]
    ensures TranslateDocument(c, tail)
      == Outcome(["nested" + " is " + ("{\n" + ("    " + "array" + " = " + "( 5, 10 )" + ",\n" + ("    " + "dict" + " = " + "{\n        key = 5\n    }")) + "\n" + "}")], c, None)
  {
    AcceptsNested();
    var nested := tail[0].1;
    ComplexNested(c, nested);
    SingleEntry(c, tail, "nested", nested,
      "{\n" + ("    " + "array" + " = " + "( 5, 10 )" + ",\n" + ("    " + "dict" + " = " + "{\n        key = 5\n    }")) + "\n" + "}");
  }

  /** A constant referenced from a list and from a mapping nested inside
      a mapping. */
  lemma ComplexCase(data: seq<(string, Value)>)
    requires data == [("constant", Number(Integer(5))),
                      ("nested", Dict([("array", List([Str("^constant"), Number(Integer(10))])),
                                       ("dict", Dict([("key", Str("^constant"))]))]))]
    ensures TranslateDocument(map[], data)
      == Outcome(["constant" + " is " + "5",
                  "nested" + " is " + ("{\n" + ("    " + "array" + " = " + "( 5, 10 )" + ",\n" + ("    " + "dict" + " = " + "{\n        key = 5\n    }")) + "\n" + "}")],
                 map["constant" := Integer(5)], None)
  {
    AcceptsConstant(); NumberTexts();
    NestedEntry(map["constant" := Integer(5)], data[1..]);
    DocumentCons(map[], data, "5");
  }
}
