/**
 * Worked examples of `demangle`. Each example is stated on plain string
 * literals; the steps behind it go one rule at a time and write each text
 * as a concatenation of the pieces the argument needs, which spells the
 * same string.
 */
module DemanglingExamples {
  import opened Wrappers
  import opened CStrings
  import opened Demangling

  // ---------------------------------------------------------------------------
  // Dinkumware: "class Foo,struct Bar" becomes "Foo, Bar"

  lemma {:induction false} FooBarClass()
    ensures CutAll("class " + "Foo," + "struct " + "Bar", "class ") == "Foo," + "struct " + "Bar"
  {
    var rest := "Foo," + "struct " + "Bar";
    assert "class " + "Foo," + "struct " + "Bar" == "" + "class " + rest;
    FirstMatch("", "class ", rest, 0);
    CutFirst("", "class ", rest);
    MissingCharNoMatch(rest, "class ", 1);
    CutAllAbsent(rest, "class ");
    assert "" + rest == rest;
  }

  lemma {:induction false} FooBarStruct()
    ensures CutAll("Foo," + "struct " + "Bar", "struct ") == "Foo," + "Bar"
  {
    FirstMatch("Foo,", "struct ", "Bar", 0);
    CutFirst("Foo,", "struct ", "Bar");
    MissingCharNoMatch("Foo," + "Bar", "struct ", 0);
    CutAllAbsent("Foo," + "Bar", "struct ");
  }

  lemma {:induction false} FooBarCommas()
    ensures ReplaceAll(ReplaceAll("Foo," + "Bar", " ,", ","), ",", ", ") == "Foo" + ", " + "Bar"
  {
    var t := "Foo," + "Bar";
    MissingCharNoMatch(t, " ,", 0);
    ReplaceAllAbsent(t, " ,", ",");
    assert t == "Foo" + "," + "Bar";
    FirstMatch("Foo", ",", "Bar", 0);
    ReplaceFirst("Foo", ",", "Bar", ", ");
    MissingCharNoMatch("Bar", ",", 0);
    ReplaceAllAbsent("Bar", ",", ", ");
  }

  /** Both tags go and the comma gains a space. */
  lemma {:induction false} DinkumwareTags(cxa: CxaOutcome)
    ensures Demangle(Dinkumware, Defaults, "class Foo,struct Bar", cxa) == Ok("Foo, Bar")
  {
    TagsSpelling();
    FooBarClass();
    FooBarStruct();
    FooBarCommas();
    MissingCharNoMatch("Foo" + ", " + "Bar", " >", 1);
    ReplaceAllAbsent("Foo" + ", " + "Bar", " >", ">");
  }

  // ---------------------------------------------------------------------------
  // Dinkumware: "class std::vector<int,class std::allocator<int> >"
  // becomes "std::vector<int, std::allocator<int>>"

  lemma {:induction false} VectorClass()
    ensures CutAll("class " + "std::vector<int," + "class " + "std::" + "allocator<int> >", "class ")
         == "std::vector<int," + "std::" + "allocator<int> >"
  {
    var tail := "std::" + "allocator<int> >";
    var rest := "std::vector<int," + "class " + tail;
    assert "class " + "std::vector<int," + "class " + "std::" + "allocator<int> >" == "class " + rest;
    CutLeading("class ", rest);
    VectorInnerClass();
  }

  lemma {:induction false} VectorInnerClass()
    ensures CutAll("std::vector<int," + "class " + ("std::" + "allocator<int> >"), "class ")
         == "std::vector<int," + "std::" + "allocator<int> >"
  {
    var tail := "std::" + "allocator<int> >";
    FirstMatch("std::vector<int,", "class ", tail, 1);
    CutFirst("std::vector<int,", "class ", tail);
    assert "std::vector<int," + tail == "std::vector<int," + "std::" + "" + "allocator<int> >";
    NoMatchAround("std::vector<int," + "std::", "", "allocator<int> >", "class ", 1, 3);
    CutAllAbsent("std::vector<int," + "std::" + "" + "allocator<int> >", "class ");
  }

  lemma {:induction false} VectorStruct()
    ensures CutAll("std::vector<int," + "std::" + "allocator<int> >", "struct ")
         == "std::vector<int," + "std::" + "allocator<int> >"
  {
    MissingCharNoMatch("std::vector<int," + "std::" + "allocator<int> >", "struct ", 3);
    CutAllAbsent("std::vector<int," + "std::" + "allocator<int> >", "struct ");
  }

  lemma {:induction false} VectorSpaceComma()
    ensures ReplaceAll("std::vector<int," + "std::" + "allocator<int> >", " ,", ",")
         == "std::vector<int" + "," + "std::allocator<int> >"
  {
    var t := "std::vector<int," + "std::" + "allocator<int> >";
    VectorSpaceCommaSplit();
    NoMatchAround("std::vector<int,std::allocator<int>", "", " >", " ,", 0, 1);
    ReplaceAllAbsent(t, " ,", ",");
  }

  lemma VectorSpaceCommaSplit()
    ensures "std::vector<int," + "std::" + "allocator<int> >" == "std::vector<int,std::allocator<int>" + "" + " >"
    ensures "std::vector<int," + "std::" + "allocator<int> >" == "std::vector<int" + "," + "std::allocator<int> >"
  {
  }

  lemma {:induction false} VectorComma()
    ensures ReplaceAll("std::vector<int" + "," + "std::allocator<int> >", ",", ", ")
         == "std::vector<int" + ", " + "std::allocator<int> >"
  {
    FirstMatch("std::vector<int", ",", "std::allocator<int> >", 0);
    ReplaceFirst("std::vector<int", ",", "std::allocator<int> >", ", ");
    MissingCharNoMatch("std::allocator<int> >", ",", 0);
    ReplaceAllAbsent("std::allocator<int> >", ",", ", ");
  }

  lemma {:induction false} VectorBrackets()
    ensures ReplaceAll("std::vector<int" + ", " + "std::allocator<int> >", " >", ">")
         == "std::vector<int, std::allocator<int>" + ">"
  {
    var a := "std::vector<int, std::allocator<int>";
    VectorBracketsSplit();
    VectorBracketsFirst();
    ReplaceFirst(a, " >", "", ">");
    MissingCharNoMatch("", " >", 0);
    ReplaceAllAbsent("", " >", ">");
  }

  lemma VectorBracketsSplit()
    ensures "std::vector<int" + ", " + "std::allocator<int> >" == "std::vector<int, std::allocator<int>" + " >" + ""
  {
  }

  /** The only " >" is the last one. */
  lemma {:induction false} VectorBracketsFirst()
    ensures FindFrom("std::vector<int, std::allocator<int>" + " >" + "", 0, " >") == Some(|"std::vector<int, std::allocator<int>"|)
  {
    var a := "std::vector<int, std::allocator<int>";
    var x := "std::vector<int, std::allocator<int";
    assert a + " >"[..1] == x + (">" + "" + " ");
    MissingCharNoMatch(x, " >", 1);
    NoMatchAround(">", "", " ", " >", 0, 1);
    SeamByLast(x, ">" + "" + " ", " >");
    NoMatchJoin(x, ">" + "" + " ", " >");
    FirstMatchAfter(a, " >", "");
  }

  /** Tags inside template arguments go too, and the closing brackets are grouped. */
  lemma {:induction false} DinkumwareTemplate(cxa: CxaOutcome)
    ensures Demangle(Dinkumware, Defaults, "class " + "std::vector<int," + "class " + "std::" + "allocator<int> >", cxa)
         == Ok("std::vector<int, std::allocator<int>" + ">")
  {
    VectorClass();
    VectorStruct();
    VectorSpaceComma();
    VectorComma();
    VectorBrackets();
  }

  // ---------------------------------------------------------------------------
  // libc++: "std::__1::basic_string<char>" becomes "std::basic_string<char>"

  lemma {:induction false} BasicStringCut()
    ensures CutInlineNamespaces("std" + "::" + "__" + "1" + "::" + ("basic" + "_" + "string<char>"))
         == Ok("std" + "::" + "basic" + "_" + "string<char>")
  {
    InlineStep("1", "basic" + "_" + "string<char>");
    var s := "std" + "::" + "basic" + "_" + "string<char>";
    assert "std" + "::" + ("basic" + "_" + "string<char>") == s;
    NoMatchAround("std" + "::" + "basic", "_", "string<char>", InlinePrefix, 5, 6);
    CutInlineDone(s);
  }

  lemma {:induction false} LibCppBasicString(name: seq<char>)
    ensures Demangle(LibCpp, Defaults, name, CxaOutcome(0, "std::__1::basic_string<char>")) == Ok("std::basic_string<char>")
  {
    BasicStringSpelling();
    BasicStringCut();
    BasicStringUngrouped();
  }

  lemma {:induction false} BasicStringUngrouped()
    ensures ReplaceAll("std" + "::" + "basic" + "_" + "string<char>", " >", ">") == "std" + "::" + "basic" + "_" + "string<char>"
  {
    MissingCharNoMatch("std" + "::" + "basic" + "_" + "string<char>", " >", 0);
    ReplaceAllAbsent("std" + "::" + "basic" + "_" + "string<char>", " >", ">");
  }

  // ---------------------------------------------------------------------------
  // libc++: every search restarts at the front, so a library-internal name
  // that starts with "std::__" is cut as if it were an inline namespace:
  // "std::__1::__tree<int, std::__1::less<int> >" becomes "std::less<int>>"

  lemma {:induction false} TreeCut()
    ensures CutInlineNamespaces("std" + "::" + "__" + "1" + "::" + ("__" + "tree<int, std" + "::" + ("__" + "1" + "::" + "less<int> >")))
         == Ok("std" + "::" + "less<int> >")
  {
    var z1 := "__" + "tree<int, std" + "::" + ("__" + "1" + "::" + "less<int> >");
    InlineStep("1", z1);
    TreeInnerCut();
  }

  lemma {:induction false} TreeInnerCut()
    ensures CutInlineNamespaces("std" + "::" + ("__" + "tree<int, std" + "::" + ("__" + "1" + "::" + "less<int> >")))
         == Ok("std" + "::" + "less<int> >")
  {
    var z2 := "__" + "1" + "::" + "less<int> >";
    assert "std" + "::" + ("__" + "tree<int, std" + "::" + z2) == "std" + "::" + "__" + "tree<int, std" + "::" + z2;
    InlineStep("tree<int, std", z2);
    LessCut();
  }

  lemma {:induction false} LessCut()
    ensures CutInlineNamespaces("std" + "::" + ("__" + "1" + "::" + "less<int> >")) == Ok("std" + "::" + "less<int> >")
  {
    assert "std" + "::" + ("__" + "1" + "::" + "less<int> >") == "std" + "::" + "__" + "1" + "::" + "less<int> >";
    InlineStep("1", "less<int> >");
    MissingCharNoMatch("std" + "::" + "less<int> >", InlinePrefix, 5);
    CutInlineDone("std" + "::" + "less<int> >");
  }

  lemma {:induction false} LessGrouped()
    ensures ReplaceAll("std" + "::" + "less<int> >", " >", ">") == "std" + "::" + "less<int>" + ">"
  {
    var a := "std" + "::" + "less<int>";
    assert "std" + "::" + "less<int> >" == a + " >" + [];
    FirstMatch(a, " >", [], 0);
    ReplaceFirst(a, " >", [], ">");
    MissingCharNoMatch([], " >", 0);
    ReplaceAllAbsent([], " >", ">");
  }

  lemma {:induction false} LibCppRescan(name: seq<char>)
    ensures Demangle(LibCpp, Defaults, name, CxaOutcome(0, "std" + "::" + "__" + "1" + "::" + ("__" + "tree<int, std" + "::" + ("__" + "1" + "::" + "less<int> >"))))
         == Ok("std" + "::" + "less<int>" + ">")
  {
    TreeCut();
    LessGrouped();
  }

  /**
   * "std::__1::__tree<int>": once "__1" is gone the "std::__" of "__tree"
   * has no "::" after it, and the rule fails.
   */
  lemma {:induction false} LibCppUnterminated(name: seq<char>)
    ensures Demangle(LibCpp, Defaults, name, CxaOutcome(0, "std::__1::__tree<int>")) == Err(InlineNamespaceUnterminated)
  {
    UnterminatedSpelling();
    InlineStep("1", "__" + "tree<int>");
    TreeUnterminated();
  }

  lemma {:induction false} TreeUnterminated()
    ensures CutInlineNamespaces("std" + "::" + ("__" + "tree<int>")) == Err(InlineNamespaceUnterminated)
  {
    var s := "std" + "::" + ("__" + "tree<int>");
    assert FindFrom(s, 0, InlinePrefix) == Some(0) by {
      assert s == [] + InlinePrefix + "tree<int>";
      FirstMatch([], InlinePrefix, "tree<int>", 0);
    }
    assert FindFrom(s, 7, Colons).None? by {
      assert s[7..] == "tree<int>"[0..];
      MissingCharNoMatch("tree<int>", Colons, 0);
      FindFromShift("tree<int>", 0, s, 7, Colons);
    }
    CutInlineFails(s, 0);
  }

  // ---------------------------------------------------------------------------
  // libstdc++: "std::string" is spelled out; the expansion contains the
  // alias again, and the search resumes after it

  lemma {:induction false} StringUnwrapped()
    ensures ReplaceAll("std::string", StringAlias, StringExpansion) == StringExpansion
  {
    assert "std::string" == [] + StringAlias + [];
    FirstMatch([], StringAlias, [], 0);
    ReplaceFirst([], StringAlias, [], StringExpansion);
    MissingCharNoMatch([], StringAlias, 0);
    ReplaceAllAbsent([], StringAlias, StringExpansion);
    assert [] + StringExpansion + [] == StringExpansion;
  }

  lemma {:induction false} TraitsUngrouped()
    ensures ReplaceAll("std::char_traits<char>, ", " >", ">") == "std::char_traits<char>, "
  {
    assert "std::char_traits<char>, " == "std::char_traits<char>," + [] + " ";
    NoMatchAround("std::char_traits<char>,", [], " ", " >", 0, 1);
    ReplaceAllAbsent("std::char_traits<char>, ", " >", ">");
  }

  lemma {:induction false} AllocatorGrouped()
    ensures ReplaceAll("std::allocator<char> >", " >", ">") == "std::allocator<char>" + ">"
  {
    assert "std::allocator<char> >" == "std::allocator<char>" + " >" + [];
    FirstMatch("std::allocator<char>", " >", [], 0);
    ReplaceFirst("std::allocator<char>", " >", [], ">");
    MissingCharNoMatch([], " >", 0);
    ReplaceAllAbsent([], " >", ">");
  }

  /** No " >" spans a join between the pieces the expansion is built from. */
  lemma {:induction false} ExpansionJoins()
    ensures ReplaceAll(StringExpansion, " >", ">")
         == ReplaceAll("std::basic_", " >", ">") + ReplaceAll(StringAlias, " >", ">") + ReplaceAll("<char, ", " >", ">")
          + ReplaceAll("std::char_traits<char>, ", " >", ">") + ReplaceAll("std::allocator<char> >", " >", ">")
  {
    var a, b, c, d, e := "std::basic_", StringAlias, "<char, ", "std::char_traits<char>, ", "std::allocator<char> >";
    SeamByFirst(a + b + c + d, e, " >");
    ReplaceAllJoin(a + b + c + d, e, " >", ">");
    SeamByFirst(a + b + c, d, " >");
    ReplaceAllJoin(a + b + c, d, " >", ">");
    SeamByFirst(a + b, c, " >");
    ReplaceAllJoin(a + b, c, " >", ">");
    SeamByFirst(a, b, " >");
    ReplaceAllJoin(a, b, " >", ">");
  }

  lemma {:induction false} ExpansionGrouped()
    ensures ReplaceAll(StringExpansion, " >", ">")
         == "std::basic_" + "std::string" + "<char, " + "std::char_traits<char>, " + "std::allocator<char>" + ">"
  {
    ExpansionJoins();
    assert ReplaceAll("std::basic_", " >", ">") == "std::basic_" by {
      MissingCharNoMatch("std::basic_", " >", 0);
      ReplaceAllAbsent("std::basic_", " >", ">");
    }
    assert ReplaceAll(StringAlias, " >", ">") == StringAlias by {
      MissingCharNoMatch(StringAlias, " >", 0);
      ReplaceAllAbsent(StringAlias, " >", ">");
    }
    assert ReplaceAll("<char, ", " >", ">") == "<char, " by {
      MissingCharNoMatch("<char, ", " >", 1);
      ReplaceAllAbsent("<char, ", " >", ">");
    }
    TraitsUngrouped();
    AllocatorGrouped();
  }

  /**
   * "std::string" becomes
   * "std::basic_std::string<char, std::char_traits<char>, std::allocator<char>>".
   */
  lemma {:induction false} LibStdCppString(name: seq<char>)
    ensures Demangle(LibStdCpp, Defaults, name, CxaOutcome(0, "std::string"))
         == Ok("std::basic_" + "std::string" + "<char, " + "std::char_traits<char>, " + "std::allocator<char>" + ">")
  {
    StringUnwrapped();
    ExpansionGrouped();
  }

  /** Grouping is one left-to-right pass: "  >" becomes " >", not ">". */
  lemma {:induction false} GroupingSinglePass()
    ensures GroupAngleBrackets(Defaults, "  >") == " >"
  {
    assert "  >" == " " + " >";
    FirstMatch(" ", " >", [], 1);
    assert " " + " >" == " " + " >" + [];
    ReplaceFirst(" ", " >", [], ">");
    MissingCharNoMatch([], " >", 0);
    ReplaceAllAbsent([], " >", ">");
  }

  // ---------------------------------------------------------------------------
  // The short literals of the examples, spelled as the pieces their steps use

  lemma {:induction false} TagsSpelling()
    ensures "class Foo,struct Bar" == "class " + "Foo," + "struct " + "Bar"
    ensures "Foo, Bar" == "Foo" + ", " + "Bar"
  {
  }

  lemma {:induction false} BasicStringSpelling()
    ensures "std::__1::basic_string<char>" == "std" + "::" + "__" + "1" + "::" + ("basic" + "_" + "string<char>")
    ensures "std::basic_string<char>" == "std" + "::" + "basic" + "_" + "string<char>"
  {
  }

  lemma {:induction false} UnterminatedSpelling()
    ensures "std::__1::__tree<int>" == "std" + "::" + "__" + "1" + "::" + ("__" + "tree<int>")
  {
  }
}
