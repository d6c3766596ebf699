/** The rules for names once more, with every character and every keyword written out. */
module NameRules {
  import opened Bytes
  import opened Characters
  import opened SchemaModel

  /** The keywords of C++20, alternative tokens included, by their length. */
  function KeywordsOfLength(n: nat): seq<string> {
    match n
    case 2 => ["do", "if", "or"]
    case 3 => ["and", "asm", "for", "int", "new", "not", "try", "xor"]
    case 4 => ["auto", "bool", "case", "char", "else", "enum", "goto", "long", "this", "true", "void"]
    case 5 =>
      ["bitor", "break", "catch", "class", "compl", "const", "false", "float", "or_eq", "short", "throw", "union",
       "using", "while"]
    case 6 =>
      ["and_eq", "bitand", "delete", "double", "export", "extern", "friend", "inline", "not_eq", "public", "return",
       "signed", "sizeof", "static", "struct", "switch", "typeid", "xor_eq"]
    case 7 =>
      ["alignas", "alignof", "char8_t", "concept", "default", "mutable", "nullptr", "private", "typedef", "virtual",
       "wchar_t"]
    case 8 =>
      ["char16_t", "char32_t", "co_await", "co_yield", "continue", "decltype", "explicit", "noexcept", "operator",
       "register", "requires", "template", "typename", "unsigned", "volatile"]
    case 9 => ["co_return", "consteval", "constexpr", "constinit", "namespace", "protected"]
    case 10 => ["const_cast"]
    case 11 => ["static_cast"]
    case 12 => ["dynamic_cast", "thread_local"]
    case 13 => ["static_assert"]
    case 16 => ["reinterpret_cast"]
    case _ => []
  }

  lemma KeywordsExactly(name: string)
    ensures IsCppKeyword(name) <==> name in KeywordsOfLength(|name|)
  {
    hide IsCppKeyword, KeywordsOfLength;
    if |name| <= 3 {
      UpToThree(name);
    } else if |name| == 4 {
      FourLetters(name);
    } else if |name| == 5 {
      FiveLetters(name);
    } else if |name| == 6 {
      SixLetters(name);
    } else if |name| == 7 {
      SevenLetters(name);
    } else if |name| == 8 {
      EightLetters(name);
    } else {
      LongKeywords(name);
    }
  }

  lemma UpToThree(name: string)
    requires |name| <= 3
    ensures IsCppKeyword(name) <==> name in KeywordsOfLength(|name|)
  {
  }

  lemma FourLetters(name: string)
    requires |name| == 4
    ensures IsCppKeyword(name) <==> name in KeywordsOfLength(|name|)
  {
  }

  lemma FiveLetters(name: string)
    requires |name| == 5
    ensures IsCppKeyword(name) <==> name in KeywordsOfLength(|name|)
  {
  }

  lemma SixLetters(name: string)
    requires |name| == 6
    ensures IsCppKeyword(name) <==> name in KeywordsOfLength(|name|)
  {
  }

  lemma SevenLetters(name: string)
    requires |name| == 7
    ensures IsCppKeyword(name) <==> name in KeywordsOfLength(|name|)
  {
  }

  lemma EightLetters(name: string)
    requires |name| == 8
    ensures IsCppKeyword(name) <==> name in KeywordsOfLength(|name|)
  {
  }

  lemma LongKeywords(name: string)
    requires 9 <= |name|
    ensures IsCppKeyword(name) <==> name in KeywordsOfLength(|name|)
  {
  }

  ghost predicate TwoUnderscores(name: string) {
    exists before, after :: name == before + "__" + after
  }

  lemma UnderscoresExactly(name: string)
    ensures HasDoubleUnderscore(name) <==> TwoUnderscores(name)
  {
    if HasDoubleUnderscore(name) {
      var i :| 0 <= i < |name| - 1 && name[i] == '_' && name[i + 1] == '_';
      assert name == name[..i] + "__" + name[i + 2..];
    }
    if TwoUnderscores(name) {
      var before, after :| name == before + "__" + after;
      assert name[|before|] == '_' && name[|before| + 1] == '_';
    }
  }

  /** A name of a document: a lower-case letter, then letters, digits and single underscores. */
  lemma SourceNameExactly(name: string)
    ensures IsValidSourceName(name)
            <==> && 1 <= |name| <= 128 && name[0] in "abcdefghijklmnopqrstuvwxyz"
                 && (forall c <- name :: c in "abcdefghijklmnopqrstuvwxyz" || c in "0123456789" || c == '_')
                 && !TwoUnderscores(name) && name !in KeywordsOfLength(|name|)
  {
    hide IsCppKeyword, HasDoubleUnderscore, TwoUnderscores, KeywordsOfLength;
    KeywordsExactly(name);
    UnderscoresExactly(name);
    forall c: char ensures (c in LETTERS <==> IsLower(c)) && (c in DIGITS <==> IsDigit(c)) {
      Ranges(c);
    }
  }

  /** A component of a namespace may have capitals as well, and any length. */
  lemma ComponentExactly(name: string)
    ensures IsValidNamespaceComponent(name)
            <==> && name != ""
                 && (name[0] in "abcdefghijklmnopqrstuvwxyz" || name[0] in "ABCDEFGHIJKLMNOPQRSTUVWXYZ")
                 && (forall c <- name ::
                       || c in "abcdefghijklmnopqrstuvwxyz" || c in "ABCDEFGHIJKLMNOPQRSTUVWXYZ"
                       || c in "0123456789" || c == '_')
                 && !TwoUnderscores(name) && name !in KeywordsOfLength(|name|)
  {
    hide IsCppKeyword, HasDoubleUnderscore, TwoUnderscores, KeywordsOfLength;
    KeywordsExactly(name);
    UnderscoresExactly(name);
    forall c: char
      ensures (c in LETTERS <==> IsLower(c)) && (c in CAPITALS <==> IsUpper(c)) && (c in DIGITS <==> IsDigit(c))
    {
      Ranges(c);
    }
  }

  lemma PlainName(name: string)
    requires 1 <= |name| <= 128 && (forall i | 0 <= i < |name| :: 'a' <= name[i] <= 'z')
    requires name !in KeywordsOfLength(|name|)
    ensures IsValidSourceName(name)
  {
    hide IsCppKeyword, KeywordsOfLength;
    KeywordsExactly(name);
  }

  /** Names of the shipped documents ... */
  lemma ShippedNames()
    ensures IsValidSourceName("nasdaq_totalview_itch_5_0") && IsValidSourceName("itch50_all")
  {
    hide IsCppKeyword;
    KeywordsExactly("nasdaq_totalview_itch_5_0");
    KeywordsExactly("itch50_all");
  }

  /** ... and what may not stand there. */
  lemma RefusedNames()
    ensures !IsValidSourceName("") && !IsValidSourceName("_x") && !IsValidSourceName("5x")
    ensures !IsValidSourceName("Xx") && !IsValidSourceName("xX") && !IsValidSourceName("a__b")
    ensures !IsValidSourceName("a-b") && !IsValidSourceName("while")
  {
    hide IsCppKeyword;
    assert "xX"[1] == 'X' && "a-b"[1] == '-' && "a__b"[1] == '_' && "a__b"[2] == '_';
    KeywordsExactly("while");
    assert KeywordsOfLength(5)[13] == "while";
  }

  // ---- Namespaces.

  predicate PlainComponent(part: string) {
    ':' !in part
  }

  /** Components without colons are found again behind any offset. */
  lemma {:induction false} ComponentsOfJoin(ns: string, start: nat, parts: seq<string>)
    requires start <= |ns| && parts != [] && ns[start..] == Join(parts)
    requires forall part <- parts :: PlainComponent(part)
    ensures Components(ns, start) == parts
    decreases parts
  {
    hide PlainComponent, Join, FindSeparator;
    FirstSeparator(ns, start, parts);
    FirstPart(ns, start, parts);
    if |parts| > 1 {
      ComponentsOfJoin(ns, start + |parts[0]| + 2, parts[1..]);
      assert parts == [parts[0]] + parts[1..];
    } else {
      assert parts == [parts[0]];
    }
  }

  lemma FirstPart(ns: string, start: nat, parts: seq<string>)
    requires start <= |ns| && parts != [] && ns[start..] == Join(parts)
    ensures |parts| == 1 ==> ns[start..] == parts[0]
    ensures |parts| > 1 ==>
              var at := start + |parts[0]|;
              at + 2 <= |ns| && ns[start..at] == parts[0] && ns[at + 2..] == Join(parts[1..])
  {
    if |parts| > 1 {
      var first, rest := parts[0], "::" + Join(parts[1..]);
      assert ns[start..] == first + rest;
      assert ns[start..start + |first|] == ns[start..][..|first|];
      assert ns[start + |first| + 2..] == ns[start..][|first| + 2..] == rest[2..];
    }
  }

  lemma FirstSeparator(ns: string, start: nat, parts: seq<string>)
    requires start <= |ns| && parts != [] && ns[start..] == Join(parts) && PlainComponent(parts[0])
    ensures FindSeparator(ns, start) == if |parts| == 1 then None else Some(start + |parts[0]|)
  {
    var first := parts[0];
    forall i | start <= i < start + |first| ensures !SeparatorAt(ns, i) {
      assert ns[i] == ns[start..][i - start] == first[i - start];
      assert first[i - start] in first;
    }
    if |parts| > 1 {
      var rest := "::" + Join(parts[1..]);
      assert ns[start..] == first + rest;
      assert ns[start + |first|] == rest[0] && ns[start + |first| + 1] == rest[1];
      assert SeparatorAt(ns, start + |first|);
    } else {
      assert |ns| == start + |first|;
    }
  }

  lemma ValidIsPlain(part: string)
    requires IsValidNamespaceComponent(part)
    ensures PlainComponent(part) && part != ""
  {
    hide IsCppKeyword, HasDoubleUnderscore;
  }

  /** Valid components with `::` between them. */
  ghost predicate IsNamespace(ns: string) {
    exists parts :: parts != [] && Join(parts) == ns && forall part <- parts :: IsValidNamespaceComponent(part)
  }

  /** A namespace is accepted exactly when it is that. */
  lemma NamespaceExactly(ns: string)
    ensures NamespaceAccepted(ns) <==> IsNamespace(ns)
  {
    hide IsValidNamespaceComponent, Join, PlainComponent;
    if NamespaceAccepted(ns) {
      JoinComponents(ns, 0);
      assert Components(ns, 0) != [] && Join(Components(ns, 0)) == ns[0..] == ns;
    }
    if parts :| parts != [] && Join(parts) == ns && forall part <- parts :: IsValidNamespaceComponent(part) {
      forall part | part in parts ensures PlainComponent(part) && part != "" {
        ValidIsPlain(part);
      }
      assert ns[0..] == ns;
      ComponentsOfJoin(ns, 0, parts);
      assert parts[0] in parts;
      JoinIsNotEmpty(parts);
    }
  }

  lemma JoinIsNotEmpty(parts: seq<string>)
    requires parts != [] && parts[0] != ""
    ensures Join(parts) != ""
  {
  }

  lemma ShippedComponents()
    ensures IsValidNamespaceComponent("feedforge") && IsValidNamespaceComponent("generated")
  {
    hide IsCppKeyword;
    KeywordsExactly("feedforge");
    KeywordsExactly("generated");
  }

  /** A namespace like the shipped ones ... */
  lemma ShippedNamespace()
    ensures NamespaceAccepted("feedforge" + "::" + "generated")
  {
    hide IsValidNamespaceComponent;
    ShippedComponents();
    var parts := ["feedforge", "generated"];
    assert parts[1..] == ["generated"] && Join(["generated"]) == "generated";
    assert Join(parts) == "feedforge" + "::" + "generated";
    NamespaceExactly("feedforge" + "::" + "generated");
  }

  /** ... and four that are refused: no component, an empty one in front or at the end, and a single colon. */
  lemma RefusedNamespaces()
    ensures !NamespaceAccepted("") && !NamespaceAccepted("x::") && !NamespaceAccepted("::x")
    ensures !NamespaceAccepted("x:y")
  {
    hide IsCppKeyword;
    assert SeparatorAt("x::", 1) && !SeparatorAt("x::", 0) && SeparatorAt("::x", 0);
    assert FindSeparator("x::", 0) == Some(1) && "x::"[0..1] == "x" && FindSeparator("::x", 0) == Some(0);
    assert Components("x::", 0) == ["x"] + Components("x::", 3);
    assert Components("x::", 3)[0] == "" && Components("x::", 0)[1] == "";
    assert Components("::x", 0)[0] == "";
    assert FindSeparator("x:y", 0).None?;
    assert "x:y"[0..] == "x:y" && "x:y"[1] == ':';
    assert Components("x:y", 0)[0] == "x:y" && "x:y" in Components("x:y", 0);
    assert "" in Components("x::", 0) && "" in Components("::x", 0);
  }
}
