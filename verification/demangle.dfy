/**
 * `demangle`: the per-vendor rules that turn the name a standard library
 * reports for a type into the canonical text pretty_index stores.
 *
 * The vendor and the three build switches of the header become values: a
 * `Vendor` and a `Flags` record whose switches all default to on. What
 * `abi::__cxa_demangle` reports is a parameter (`CxaOutcome`), since the
 * demangler itself is outside the model. `Demangle` states the pipeline on
 * values; `DemangleName` runs it on heap buffers with the methods of
 * Buffers and is proved to produce the same text.
 */
module Demangling {
  import opened Wrappers
  import opened CStrings
  import opened Buffers

  /** The standard library the header was built against. */
  datatype Vendor = Dinkumware | LibCpp | LibStdCpp

  /** The build switches of the header. */
  datatype Flags = Flags(groupAngleBrackets: bool, cutInlineNamespaces: bool, unwrapTypedefs: bool)

  /** Every switch is on unless the build turns it off. */
  const Defaults := Flags(true, true, true)

  /** The status `abi::__cxa_demangle` set and, when it is 0, the text it returned. */
  datatype CxaOutcome = CxaOutcome(status: int, text: seq<char>)

  datatype Error =
    /** The demangler rejected the name; the payload is the message thrown. */
    | DemanglingFailed(message: seq<char>)
    /**
     * An "std::__" with no "::" after it. The header then passes a null
     * pointer to `strlen` and `memmove`, which is undefined; the model fails.
     */
    | InlineNamespaceUnterminated

  const InlinePrefix := "std::__"
  const Colons := "::"
  const StringAlias := "std::string"
  /** The header's expansion of the alias, which itself contains "std::string". */
  const StringExpansion := "std::basic_" + StringAlias + "<char, " + "std::char_traits<char>, " + "std::allocator<char> >"

  /** The message of the `std::runtime_error` thrown when demangling fails. */
  function FailureMessage(name: seq<char>): (m: seq<char>)
    ensures |m| > |name| && m[..|name|] == name
  {
    name + " - demangling failed"
  }

  /**
   * The libc++ loop: while "std::__" occurs, find the next "::" at least
   * seven characters after its start and move the text from there back to
   * just after "std", so "std::__1::x" becomes "std::x". Each round restarts
   * the search at the start of the text.
   */
  function CutInlineNamespaces(s: seq<char>): (r: Result<seq<char>, Error>)
    ensures r.Ok? ==> |r.value| <= |s|
    decreases |s|
  {
    match FindFrom(s, 0, InlinePrefix)
    case None => Ok(s)
    case Some(i) =>
      match FindFrom(s, i + 7, Colons)
      case None => Err(InlineNamespaceUnterminated)
      case Some(j) => CutInlineNamespaces(s[..i + 3] + s[j..])
  }

  /** The Dinkumware rules: drop the "class " and "struct " tags, then respace commas. */
  function TidyDinkumware(name: seq<char>): (r: seq<char>)
    ensures CommasSpaced(r)
  {
    ReplaceCommaSpaces(ReplaceAll(CutAll(CutAll(name, "class "), "struct "), " ,", ","), 0);
    ReplaceAll(ReplaceAll(CutAll(CutAll(name, "class "), "struct "), " ,", ","), ",", ", ")
  }

  /**
   * The libstdc++ rule: spell out the `std::string` alias, when switched on.
   * It only lengthens a name, and leaves a name without the alias alone.
   */
  function UnwrapTypedefs(flags: Flags, s: seq<char>): (r: seq<char>)
    ensures |s| <= |r|
    ensures !Occurs(s, StringAlias) ==> r == s
  {
    ReplaceAllAbsent(s, StringAlias, StringExpansion);
    if flags.unwrapTypedefs then ReplaceAll(s, StringAlias, StringExpansion) else s
  }

  /**
   * The last rule of every vendor: " >" becomes ">", when switched on. It
   * only shortens a name, and leaves a name without " >" alone.
   */
  function GroupAngleBrackets(flags: Flags, s: seq<char>): (r: seq<char>)
    ensures |r| <= |s|
    ensures !Occurs(s, " >") ==> r == s
  {
    ReplaceAllAbsent(s, " >", ">");
    if flags.groupAngleBrackets then ReplaceAll(s, " >", ">") else s
  }

  /** The text after the vendor's own rules, before angle brackets are grouped. */
  function VendorRules(vendor: Vendor, flags: Flags, name: seq<char>, cxa: CxaOutcome): (r: Result<seq<char>, Error>)
    ensures vendor == Dinkumware ==> r.Ok?
    ensures r.Err? ==> (cxa.status != 0 && r.error == DemanglingFailed(FailureMessage(name)))
                       || (cxa.status == 0 && r.error == InlineNamespaceUnterminated)
  {
    CutInlineErrors(cxa.text);
    match vendor
    case Dinkumware => Ok(TidyDinkumware(name))
    case LibCpp =>
      if cxa.status != 0 then Err(DemanglingFailed(FailureMessage(name)))
      else if flags.cutInlineNamespaces then CutInlineNamespaces(cxa.text)
      else Ok(cxa.text)
    case LibStdCpp =>
      if cxa.status != 0 then Err(DemanglingFailed(FailureMessage(name)))
      else Ok(UnwrapTypedefs(flags, cxa.text))
  }

  /**
   * `demangle(name)`: the canonical text for the type whose name the
   * library reported as `name` (Dinkumware) or whose mangled name is
   * `name` and demangles to `cxa` (libc++, libstdc++).
   */
  function Demangle(vendor: Vendor, flags: Flags, name: seq<char>, cxa: CxaOutcome): (r: Result<seq<char>, Error>)
    ensures r.Err? <==> vendor != Dinkumware && (cxa.status != 0 || (vendor == LibCpp && flags.cutInlineNamespaces && CutInlineNamespaces(cxa.text).Err?))
    ensures r.Err? && cxa.status != 0 ==> r.error == DemanglingFailed(FailureMessage(name))
  {
    match VendorRules(vendor, flags, name, cxa)
    case Err(e) => Err(e)
    case Ok(t) => Ok(GroupAngleBrackets(flags, t))
  }

  // ---------------------------------------------------------------------------
  // On heap buffers

  /**
   * The libc++ loop of `demangle` on the buffer: reports whether every
   * "std::__" had its "::", and if so the buffer holds the cut text.
   */
  method CutInlineLoop(str: array<char>, ghost s: seq<char>) returns (ok: bool)
    requires Holds(str, s)
    modifies str
    ensures ok <==> CutInlineNamespaces(s).Ok?
    ensures ok ==> Holds(str, CutInlineNamespaces(s).value)
  {
    ghost var cur := s;
    var it := StrStr(str, 0, InlinePrefix, cur);
    while it.Some?
      invariant Holds(str, cur) && CutInlineNamespaces(cur) == CutInlineNamespaces(s)
      invariant it == FindFrom(cur, 0, InlinePrefix)
      decreases |cur|
    {
      var i := it.value;
      var colons := StrStr(str, i + 7, Colons, cur);
      if colons.None? {
        CutInlineFails(cur, i);
        return false;
      }
      var j := colons.value;
      CutInlineUnfold(cur, i, j);
      MoveTailBack(str, i + 3, j, cur);
      cur := cur[..i + 3] + cur[j..];
      it := StrStr(str, 0, InlinePrefix, cur);
    }
    CutInlineDone(cur);
    return true;
  }

  /** The libc++ rule of `demangle` on the buffer, then `str_shrink_to_fit`. */
  method CutInlineNamespacesInPlace(str: array<char>, ghost s: seq<char>) returns (r: Result<array<char>, Error>)
    requires Holds(str, s)
    modifies str
    ensures CutInlineNamespaces(s).Err? ==> r == Err(CutInlineNamespaces(s).error)
    ensures CutInlineNamespaces(s).Ok? ==>
              r.Ok? && fresh(r.value) && r.value.Length == |CutInlineNamespaces(s).value| + 1 &&
              Holds(r.value, CutInlineNamespaces(s).value)
  {
    var ok := CutInlineLoop(str, s);
    if !ok {
      CutInlineErrors(s);
      return Err(InlineNamespaceUnterminated);
    }
    var res := StrShrinkToFit(str, CutInlineNamespaces(s).value);
    return Ok(res);
  }

  /** The vendor's own rules of `demangle` on heap buffers, one helper call per rule. */
  method VendorRulesInPlace(vendor: Vendor, flags: Flags, name: seq<char>, cxa: CxaOutcome) returns (r: Result<array<char>, Error>)
    requires IsCString(name) && (cxa.status == 0 ==> IsCString(cxa.text))
    ensures VendorRules(vendor, flags, name, cxa).Err? ==> r == Err(VendorRules(vendor, flags, name, cxa).error)
    ensures VendorRules(vendor, flags, name, cxa).Ok? ==>
              r.Ok? && fresh(r.value) && r.value.Length == |VendorRules(vendor, flags, name, cxa).value| + 1 &&
              Holds(r.value, VendorRules(vendor, flags, name, cxa).value)
  {
    PatternsAreCStrings();
    var str: array<char>;
    ghost var t: seq<char>;
    match vendor {
    case Dinkumware =>
      str := StrDup(name);
      t := name;
      str := StrCut(str, "class ", t);
      t := CutAll(t, "class ");
      str := StrCut(str, "struct ", t);
      t := CutAll(t, "struct ");
      str := StrRep(str, " ,", ",", t);
      t := ReplaceAll(t, " ,", ",");
      DemangleBlocksExact(t);
      str := StrRep(str, ",", ", ", t);
      t := ReplaceAll(t, ",", ", ");
    case LibCpp =>
      if cxa.status != 0 {
        return Err(DemanglingFailed(FailureMessage(name)));
      }
      str := StrDup(cxa.text);
      t := cxa.text;
      if flags.cutInlineNamespaces {
        var cut := CutInlineNamespacesInPlace(str, t);
        if cut.Err? {
          return Err(cut.error);
        }
        str := cut.value;
        t := CutInlineNamespaces(t).value;
      }
    case LibStdCpp =>
      if cxa.status != 0 {
        return Err(DemanglingFailed(FailureMessage(name)));
      }
      str := StrDup(cxa.text);
      t := cxa.text;
      if flags.unwrapTypedefs {
        DemangleBlocksExact(t);
        str := StrRep(str, StringAlias, StringExpansion, t);
        t := ReplaceAll(t, StringAlias, StringExpansion);
      }
    }
    return Ok(str);
  }

  /** `demangle` on heap buffers: the vendor's rules, then the grouping of angle brackets. */
  method DemangleName(vendor: Vendor, flags: Flags, name: seq<char>, cxa: CxaOutcome) returns (r: Result<array<char>, Error>)
    requires IsCString(name) && (cxa.status == 0 ==> IsCString(cxa.text))
    ensures Demangle(vendor, flags, name, cxa).Err? ==> r == Err(Demangle(vendor, flags, name, cxa).error)
    ensures Demangle(vendor, flags, name, cxa).Ok? ==>
              r.Ok? && fresh(r.value) && r.value.Length == |Demangle(vendor, flags, name, cxa).value| + 1 &&
              Holds(r.value, Demangle(vendor, flags, name, cxa).value)
  {
    r := VendorRulesInPlace(vendor, flags, name, cxa);
    if r.Ok? && flags.groupAngleBrackets {
      ghost var t := VendorRules(vendor, flags, name, cxa).value;
      PatternsAreCStrings();
      var str := StrRep(r.value, " >", ">", t);
      r := Ok(str);
    }
  }

  // ---------------------------------------------------------------------------
  // Lemmas

  /** Every pattern and replacement `demangle` uses is a C string. */
  lemma {:induction false} PatternsAreCStrings()
    ensures IsCString("class ") && IsCString("struct ") && IsCString(" ,") && IsCString(",")
    ensures IsCString(", ") && IsCString(" >") && IsCString(">")
    ensures IsCString(InlinePrefix) && IsCString(Colons)
    ensures IsCString(StringAlias) && IsCString(StringExpansion)
  {
    var a, b, c, d := "std::basic_", "<char, ", "std::char_traits<char>, ", "std::allocator<char> >";
    CStringConcat(a, StringAlias);
    CStringConcat(a + StringAlias, b);
    CStringConcat(a + StringAlias + b, c);
    CStringConcat(a + StringAlias + b + c, d);
  }

  lemma {:induction false} CutInlineUnfold(s: seq<char>, i: nat, j: nat)
    requires FindFrom(s, 0, InlinePrefix) == Some(i) && FindFrom(s, i + 7, Colons) == Some(j)
    ensures i + 3 <= j <= |s|
    ensures CutInlineNamespaces(s) == CutInlineNamespaces(s[..i + 3] + s[j..])
  {
  }

  lemma {:induction false} CutInlineFails(s: seq<char>, i: nat)
    requires FindFrom(s, 0, InlinePrefix) == Some(i) && FindFrom(s, i + 7, Colons).None?
    ensures CutInlineNamespaces(s) == Err(InlineNamespaceUnterminated)
  {
  }

  lemma {:induction false} CutInlineDone(s: seq<char>)
    requires FindFrom(s, 0, InlinePrefix).None?
    ensures CutInlineNamespaces(s) == Ok(s)
  {
  }

  /** The only way the libc++ rule fails is a missing "::". */
  lemma {:induction false} CutInlineErrors(s: seq<char>)
    ensures CutInlineNamespaces(s).Err? ==> CutInlineNamespaces(s).error == InlineNamespaceUnterminated
    decreases |s|
  {
    match FindFrom(s, 0, InlinePrefix)
    case None =>
    case Some(i) =>
      match FindFrom(s, i + 7, Colons)
      case None =>
      case Some(j) =>
        CutInlineUnfold(s, i, j);
        CutInlineErrors(s[..i + 3] + s[j..]);
  }

  /** Where the two searches of one libc++ round land in "std::__" + x + "::" + z. */
  lemma {:induction false} InlineMatches(x: seq<char>, z: seq<char>)
    requires ':' !in x
    ensures FindFrom(InlinePrefix + x + Colons + z, 0, InlinePrefix) == Some(0)
    ensures FindFrom(InlinePrefix + x + Colons + z, 7, Colons) == Some(|x| + 7)
  {
    var s := InlinePrefix + x + Colons + z;
    var after := x + Colons + z;
    assert s == [] + InlinePrefix + after;
    FirstMatch([], InlinePrefix, after, 0);
    FirstMatch(x, Colons, z, 0);
    assert s[7..] == after[0..];
    FindFromShift(after, 0, s, 7, Colons);
  }

  /**
   * One round of the libc++ rule on "std::__" + x + "::" + z, when x holds
   * no ':': everything from "__" up to the colons goes.
   */
  lemma {:induction false} InlineStep(x: seq<char>, z: seq<char>)
    requires ':' !in x
    ensures CutInlineNamespaces("std" + "::" + "__" + x + "::" + z) == CutInlineNamespaces("std" + "::" + z)
  {
    InlinePieces(x, z);
    InlineRound(x, z);
  }

  lemma {:induction false} InlineRound(x: seq<char>, z: seq<char>)
    requires ':' !in x
    ensures CutInlineNamespaces(InlinePrefix + x + Colons + z) == CutInlineNamespaces("std" + "::" + z)
  {
    var s := InlinePrefix + x + Colons + z;
    InlineMatches(x, z);
    CutInlineUnfold(s, 0, |x| + 7);
    assert s[..3] + s[|x| + 7..] == "std" + "::" + z by {
      assert s[..3] == "std";
      assert s[|x| + 7..] == "::" + z;
    }
  }

  lemma {:induction false} InlinePieces(x: seq<char>, z: seq<char>)
    ensures "std" + "::" + "__" + x + "::" + z == InlinePrefix + x + Colons + z
  {
    assert "std" + "::" + "__" == InlinePrefix;
  }

  // ---------------------------------------------------------------------------
  // What the rules guarantee

  /** After the libc++ rule no "std::__" is left anywhere. */
  lemma {:induction false} CutInlineRemovesAll(s: seq<char>)
    ensures CutInlineNamespaces(s).Ok? ==> !Occurs(CutInlineNamespaces(s).value, InlinePrefix)
    decreases |s|
  {
    FindFromSpec(s, 0, InlinePrefix);
    match FindFrom(s, 0, InlinePrefix)
    case None =>
    case Some(i) =>
      match FindFrom(s, i + 7, Colons)
      case None =>
      case Some(j) =>
        CutInlineUnfold(s, i, j);
        CutInlineRemovesAll(s[..i + 3] + s[j..]);
  }

  /** The libc++ rule keeps a C string a C string. */
  lemma {:induction false} CutInlineCString(s: seq<char>)
    requires IsCString(s)
    ensures CutInlineNamespaces(s).Ok? ==> IsCString(CutInlineNamespaces(s).value)
    decreases |s|
  {
    match FindFrom(s, 0, InlinePrefix)
    case None =>
    case Some(i) =>
      match FindFrom(s, i + 7, Colons)
      case None =>
      case Some(j) =>
        CutInlineUnfold(s, i, j);
        CStringSlice(s, 0, i + 3);
        CStringDrop(s, j);
        assert s[..i + 3] == s[0..i + 3];
        CStringConcat(s[..i + 3], s[j..]);
        CutInlineCString(s[..i + 3] + s[j..]);
  }

  /** `demangle` turns C strings into a C string. */
  lemma {:induction false} DemangleCString(vendor: Vendor, flags: Flags, name: seq<char>, cxa: CxaOutcome)
    requires IsCString(name) && (cxa.status == 0 ==> IsCString(cxa.text))
    ensures Demangle(vendor, flags, name, cxa).Ok? ==> IsCString(Demangle(vendor, flags, name, cxa).value)
  {
    PatternsAreCStrings();
    var t: seq<char>;
    match vendor {
      case Dinkumware =>
        CutAllCString(name, "class ");
        CutAllCString(CutAll(name, "class "), "struct ");
        t := CutAll(CutAll(name, "class "), "struct ");
        ReplaceFromCString(t, 0, " ,", ",");
        ReplaceFromCString(ReplaceAll(t, " ,", ","), 0, ",", ", ");
      case LibCpp =>
        if cxa.status == 0 {
          CutInlineCString(cxa.text);
        }
      case LibStdCpp =>
        if cxa.status == 0 {
          ReplaceFromCString(cxa.text, 0, StringAlias, StringExpansion);
        }
    }
    match VendorRules(vendor, flags, name, cxa) {
      case Err(_) =>
      case Ok(r) =>
        ReplaceFromCString(r, 0, " >", ">");
    }
  }

  /** None of the patterns `demangle` hands to `str_rep` can overlap itself. */
  lemma {:induction false} RepPatternsDoNotOverlap()
    ensures !SelfOverlapping(" ,") && !SelfOverlapping(",") && !SelfOverlapping(" >")
    ensures !SelfOverlapping(StringAlias)
  {
    var o := StringAlias;
    forall k | 0 < k < |o| ensures !BorderAt(o, k) {
      if k == 5 {
        assert o[k..][2] != o[..|o| - k][2];
      } else {
        assert o[k..][0] != o[..|o| - k][0];
      }
    }
    assert !BorderAt(" ,", 1) by {
      assert " ,"[1..][0] != " ,"[..1][0];
    }
    assert !BorderAt(" >", 1) by {
      assert " >"[1..][0] != " >"[..1][0];
    }
  }

  /**
   * For every call `demangle` makes, the block size `str_rep` computes as
   * written (counting overlapping matches) is the exact size of the result.
   */
  lemma {:induction false} DemangleBlocksExact(s: seq<char>)
    ensures |s| + 1 + (|","| - |" ,"|) * MatchesFrom(s, 0, " ,") == |ReplaceAll(s, " ,", ",")| + 1
    ensures |s| + 1 + (|", "| - |","|) * MatchesFrom(s, 0, ",") == |ReplaceAll(s, ",", ", ")| + 1
    ensures |s| + 1 + (|">"| - |" >"|) * MatchesFrom(s, 0, " >") == |ReplaceAll(s, " >", ">")| + 1
    ensures |s| + 1 + (|StringExpansion| - |StringAlias|) * MatchesFrom(s, 0, StringAlias)
         == |ReplaceAll(s, StringAlias, StringExpansion)| + 1
  {
    RepPatternsDoNotOverlap();
    MemNeededAgrees(s, " ,", ",");
    MemNeededAgrees(s, ",", ", ");
    MemNeededAgrees(s, " >", ">");
    MemNeededAgrees(s, StringAlias, StringExpansion);
  }
}
