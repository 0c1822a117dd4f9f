/**
  What the translator promises: clearing the optional wrapper undoes exactly
  one wrap, the bottom-up rendering agrees with a direct reading of GraphQL's
  nullability rules, optionality is decided from the original node alone,
  and implementor expansion lists exactly the implementing object types in
  type-map order.
 */
module VisitorProperties {
  import opened Strings
  import opened PythonVisitor

  // ---------------------------------------------------------------------------
  // clearOptional
  // ---------------------------------------------------------------------------

  /** What `replace` does with the pattern: a match at the start loses exactly
      its outer `Maybe<` and final `>`; text the pattern matches nowhere is
      left alone; and any change is the removal of the wrapper of the leftmost
      match. */
  lemma ClearOptionalMatches(str: string)
    ensures MatchesAt(str, 0) ==> ClearOptional(str) == str[6..|str| - 1]
    ensures (forall i: nat :: !MatchesAt(str, i)) ==> ClearOptional(str) == str
    ensures ClearOptional(str) != str
         ==> exists i: nat :: && MatchesAt(str, i) && (forall j: nat :: j < i ==> !MatchesAt(str, j))
                              && ClearOptional(str) == str[..i] + str[i + 6..|str| - 1]
  {
    if MatchesAt(str, 0) {
      assert StartsWith(str, "Maybe") by { assert str[..5] == str[0..6][..5]; }
      assert str[..0] == [];
    }
  }

  /** Behind the `Maybe` prefix test, the leftmost match is the one replaced,
      wherever it starts. */
  lemma ClearOptionalLeftmost(str: string, i: nat)
    requires StartsWith(str, "Maybe") && MatchesAt(str, i)
    requires forall j: nat :: j < i ==> !MatchesAt(str, j)
    ensures ClearOptional(str) == str[..i] + str[i + 6..|str| - 1]
  {
    assert FirstMatch(str, 0) == Some(i);
  }

  /** Wrapping line-free text once and clearing gives the text back, so only
      the outermost wrapper goes. */
  lemma ClearOptionalRoundTrip(s: string)
    requires NoLineTerminator(s)
    ensures ClearOptional("Maybe<" + s + ">") == s
  {
    var str := "Maybe<" + s + ">";
    assert str[..5] == "Maybe";
    assert str[0..6] == "Maybe<";
    assert str[6..|str| - 1] == s;
    assert MatchesAt(str, 0);
    assert str[..0] + str[6..|str| - 1] == s;
  }

  /** Of two nested wrappers only the outer one is removed. */
  lemma ClearOptionalOnlyOutermost(s: string)
    requires NoLineTerminator(s)
    ensures ClearOptional("Maybe<Maybe<" + s + ">>") == "Maybe<" + s + ">"
  {
    NoLineTerminatorConcat("Maybe<", s);
    NoLineTerminatorConcat("Maybe<" + s, ">");
    assert "Maybe<Maybe<" + s + ">>" == "Maybe<" + ("Maybe<" + s + ">") + ">";
    ClearOptionalRoundTrip("Maybe<" + s + ">");
  }

  /** The pattern's `.` does not cross a line break, so a wrapper around
      text with one is left in place. */
  lemma ClearOptionalKeepsWrapperAroundLineBreak()
    ensures ClearOptional("Maybe<a\nb>") == "Maybe<a\nb>"
  {
    var str := "Maybe<a\nb>";
    assert StartsWith(str, "Maybe") by { assert str[..5] == "Maybe"; }
    forall i: nat ensures !MatchesAt(str, i) {
      if i == 0 {
        assert str[6..|str| - 1][1] == '\n';
      } else if i + 7 <= |str| {
        assert str[i..i + 6][0] == str[i] != 'M';
      }
    }
  }

  // ---------------------------------------------------------------------------
  // Implementing-types expansion
  // ---------------------------------------------------------------------------

  /** Collecting implementors distributes over splitting the type map, so the
      result keeps type-map order. */
  lemma {:induction false} ImplementorNamesConcat(
    a: seq<SchemaType>, b: seq<SchemaType>, name: string, convertName: string -> string)
    ensures ImplementorNames(a + b, name, convertName)
         == ImplementorNames(a, name, convertName) + ImplementorNames(b, name, convertName)
  {
    if |b| == 0 {
      assert a + b == a;
    } else {
      var init := b[..|b| - 1];
      assert (a + b)[..|a + b| - 1] == a + init;
      assert (a + b)[|a + b| - 1] == b[|b| - 1];
      ImplementorNamesConcat(a, init, name, convertName);
    }
  }

  /** A name is collected exactly when some object type in the map implements
      `name` and converts to it. */
  lemma {:induction false} ImplementorNamesMembership(
    types: seq<SchemaType>, name: string, convertName: string -> string, x: string)
    ensures x in ImplementorNames(types, name, convertName)
        <==> exists k :: 0 <= k < |types| && Implements(types[k], name) && convertName(types[k].name) == x
  {
    if |types| > 0 {
      var init := types[..|types| - 1];
      ImplementorNamesMembership(init, name, convertName, x);
      if exists k :: 0 <= k < |types| && Implements(types[k], name) && convertName(types[k].name) == x {
        var k :| 0 <= k < |types| && Implements(types[k], name) && convertName(types[k].name) == x;
        if k < |types| - 1 {
          assert init[k] == types[k];
        }
      }
      if exists k :: 0 <= k < |init| && Implements(init[k], name) && convertName(init[k].name) == x {
        var k :| 0 <= k < |init| && Implements(init[k], name) && convertName(init[k].name) == x;
        assert types[k] == init[k];
      }
    }
  }

  /** Nothing is collected exactly when no object type implements `name`. */
  lemma ImplementorNamesEmpty(types: seq<SchemaType>, name: string, convertName: string -> string)
    ensures |ImplementorNames(types, name, convertName)| == 0
        <==> forall k :: 0 <= k < |types| ==> !Implements(types[k], name)
  {
    var names := ImplementorNames(types, name, convertName);
    if |names| > 0 {
      ImplementorNamesMembership(types, name, convertName, names[0]);
    }
    if exists k :: 0 <= k < |types| && Implements(types[k], name) {
      var k :| 0 <= k < |types| && Implements(types[k], name);
      ImplementorNamesMembership(types, name, convertName, convertName(types[k].name));
    }
  }

  /** With the expansion on and an implementor present, a name renders as its
      implementors joined by ` | `; otherwise it falls back to the name. */
  lemma TypeForNodeCases(v: Visitor, name: string)
    ensures v.config.useImplementingTypes && (exists k :: 0 <= k < |v.typeMap| && Implements(v.typeMap[k], name))
        ==> TypeForNode(v, name) == Join(ImplementorNames(v.typeMap, name, v.convertName), " | ")
    ensures !v.config.useImplementingTypes || (forall k :: 0 <= k < |v.typeMap| ==> !Implements(v.typeMap[k], name))
        ==> TypeForNode(v, name) == name
  {
    ImplementorNamesEmpty(v.typeMap, name, v.convertName);
  }

  lemma ImplementorNamesStep(types: seq<SchemaType>, k: nat, name: string, convertName: string -> string)
    requires k < |types|
    ensures ImplementorNames(types[..k + 1], name, convertName)
         == ImplementorNames(types[..k], name, convertName)
            + (if Implements(types[k], name) then [convertName(types[k].name)] else [])
  {
    assert types[..k + 1][..k] == types[..k];
  }

  /** Expansion keeps text line-free when names and converted names are. */
  lemma TypeForNodeWithoutLineTerminator(v: Visitor, name: string)
    requires NoLineTerminator(name) && ConvertedNamesWithoutLineTerminator(v)
    ensures NoLineTerminator(TypeForNode(v, name))
  {
    if v.config.useImplementingTypes {
      var parts := ImplementorNames(v.typeMap, name, v.convertName);
      forall k | 0 <= k < |parts| ensures NoLineTerminator(parts[k]) {
        ImplementorNamesMembership(v.typeMap, name, v.convertName, parts[k]);
      }
      JoinNoLineTerminator(parts, " | ");
    }
  }

  // ---------------------------------------------------------------------------
  // Type references: a direct reading of GraphQL nullability
  // ---------------------------------------------------------------------------

  /** The text a reference should get read straight off the grammar: a
      nullable position is wrapped exactly once, a non-null one not at all,
      and a list's element is rendered by the same rule. */
  function Expected(v: Visitor, t: TypeRef): string
    decreases t, 1
  {
    match t
    case NonNull(u) => ExpectedRequired(v, u)
    case _ => "Maybe<" + ExpectedRequired(v, t) + ">"
  }

  /** The text of `t` with its own nullability set aside. */
  function ExpectedRequired(v: Visitor, t: TypeRef): string
    decreases t, 0
  {
    match t
    case Named(n) => TypeForNode(v, n)
    case List(e) => WrapWithListType(v.config, Expected(v, e))
    case NonNull(u) => ExpectedRequired(v, u)
  }

  lemma WrapWithoutLineTerminator(pre: string, s: string, post: string)
    requires NoLineTerminator(pre) && NoLineTerminator(s) && NoLineTerminator(post)
    ensures NoLineTerminator(pre + s + post)
  {
    NoLineTerminatorConcat(pre, s);
    NoLineTerminatorConcat(pre + s, post);
  }

  lemma {:induction false} ExpectedWithoutLineTerminator(v: Visitor, t: TypeRef)
    requires NamesWithoutLineTerminator(t) && ConvertedNamesWithoutLineTerminator(v)
    ensures NoLineTerminator(ExpectedRequired(v, t)) && NoLineTerminator(Expected(v, t))
  {
    match t
    case Named(n) =>
      TypeForNodeWithoutLineTerminator(v, n);
      WrapWithoutLineTerminator("Maybe<", ExpectedRequired(v, t), ">");
    case List(e) =>
      ExpectedWithoutLineTerminator(v, e);
      var arr := if v.config.immutableTypes then "ReadonlyArray" else "Array";
      WrapWithoutLineTerminator(arr + "<", Expected(v, e), ">");
      assert ExpectedRequired(v, t) == arr + "<" + Expected(v, e) + ">";
      WrapWithoutLineTerminator("Maybe<", ExpectedRequired(v, t), ">");
    case NonNull(e) =>
      ExpectedWithoutLineTerminator(v, e);
  }

  /** The bottom-up wrap-then-clear rendering agrees with the direct reading
      on every well-formed reference. */
  lemma {:induction false} ResolveMatchesExpected(v: Visitor, t: TypeRef)
    requires WellFormed(t) && NamesWithoutLineTerminator(t) && ConvertedNamesWithoutLineTerminator(v)
    ensures Resolve(v, t) == Expected(v, t)
  {
    match t
    case Named(n) =>
    case List(e) =>
      ResolveMatchesExpected(v, e);
    case NonNull(e) =>
      ResolveMatchesExpected(v, e);
      ExpectedWithoutLineTerminator(v, e);
      ClearOptionalRoundTrip(ExpectedRequired(v, e));
  }

  /** A non-null marker removes exactly the one wrapper its child's text has:
      wrapping its text again gives the child's text. */
  lemma NonNullStripsOneWrapper(v: Visitor, t: TypeRef)
    requires WellFormed(t) && !t.NonNull?
    requires NamesWithoutLineTerminator(t) && ConvertedNamesWithoutLineTerminator(v)
    ensures Resolve(v, t) == "Maybe<" + Resolve(v, NonNull(t)) + ">"
  {
    ResolveMatchesExpected(v, t);
    ResolveMatchesExpected(v, NonNull(t));
  }

  /** A named reference and a list come out wrapped, whatever is inside. */
  lemma ResolveWrapped(v: Visitor, t: TypeRef)
    requires !t.NonNull?
    ensures StartsWith(Resolve(v, t), "Maybe<") && EndsWith(Resolve(v, t), ">")
  {
    var inner := if t.Named? then TypeForNode(v, t.name) else WrapWithListType(v.config, Resolve(v, t.of));
    var w := Resolve(v, t);
    assert w == "Maybe<" + inner + ">";
    assert w[..6] == "Maybe<";
    assert w[|w| - 1..] == ">";
  }

  /** A non-null marker over a reference rendered as one wrap of line-free
      text yields that text. */
  lemma NonNullOfWrapped(v: Visitor, t: TypeRef, s: string)
    requires Resolve(v, t) == "Maybe<" + s + ">" && NoLineTerminator(s)
    ensures Resolve(v, NonNull(t)) == s
  {
    ClearOptionalRoundTrip(s);
  }

  /** Rendering keeps text line-free when the names it starts from are. */
  lemma ResolveWithoutLineTerminator(v: Visitor, t: TypeRef)
    requires WellFormed(t) && NamesWithoutLineTerminator(t) && ConvertedNamesWithoutLineTerminator(v)
    ensures NoLineTerminator(Resolve(v, t))
  {
    ResolveMatchesExpected(v, t);
    ExpectedWithoutLineTerminator(v, t);
  }

  lemma NonNullListOfLineFree(v: Visitor, e: TypeRef)
    requires NoLineTerminator(Resolve(v, e))
    ensures Resolve(v, NonNull(List(e)))
         == (if v.config.immutableTypes then "ReadonlyArray" else "Array") + "<" + Resolve(v, e) + ">"
  {
    var arr := if v.config.immutableTypes then "ReadonlyArray" else "Array";
    var inner := Resolve(v, e);
    var list := arr + "<" + inner + ">";
    assert Resolve(v, List(e)) == "Maybe<" + list + ">";
    assert NoLineTerminator(list) by {
      WrapWithoutLineTerminator(arr + "<", inner, ">");
    }
    NonNullOfWrapped(v, List(e), list);
  }

  /** A list renders to exactly `Maybe<Array<e>>`, or `Maybe<ReadonlyArray<e>>`
      under `immutableTypes`, for the element's text `e`, whatever the element is. */
  lemma ListTypeWrapped(v: Visitor, e: TypeRef)
    ensures !v.config.immutableTypes ==> Resolve(v, List(e)) == "Maybe<Array<" + Resolve(v, e) + ">>"
    ensures v.config.immutableTypes ==> Resolve(v, List(e)) == "Maybe<ReadonlyArray<" + Resolve(v, e) + ">>"
  {
    var x := Resolve(v, e);
    var w := WrapWithListType(v.config, x);
    assert Resolve(v, List(e)) == "Maybe<" + w + ">";
    if v.config.immutableTypes {
      assert w == "ReadonlyArray" + "<" + x + ">";
      MaybeReadonlyArrayLiteral(x);
    } else {
      assert w == "Array" + "<" + x + ">";
      MaybeArrayLiteral(x);
    }
  }

  lemma MaybeArrayLiteral(x: string)
    ensures "Maybe<" + ("Array" + "<" + x + ">") + ">" == "Maybe<Array<" + x + ">>"
  {
  }

  lemma MaybeReadonlyArrayLiteral(x: string)
    ensures "Maybe<" + ("ReadonlyArray" + "<" + x + ">") + ">" == "Maybe<ReadonlyArray<" + x + ">>"
  {
  }

  /** Under a non-null marker the array is left bare. */
  lemma NonNullListBare(v: Visitor, e: TypeRef)
    requires WellFormed(e) && NamesWithoutLineTerminator(e) && ConvertedNamesWithoutLineTerminator(v)
    ensures Resolve(v, NonNull(List(e)))
         == (if v.config.immutableTypes then "ReadonlyArray" else "Array") + "<" + Resolve(v, e) + ">"
  {
    ResolveWithoutLineTerminator(v, e);
    NonNullListOfLineFree(v, e);
  }

  lemma NamedPlain(v: Visitor, x: string)
    requires !v.config.useImplementingTypes
    ensures Resolve(v, Named(x)) == "Maybe<" + x + ">"
  {
  }

  /** Helper: a list of mutable arrays over line-free element text, with the
      array text line-free too. */
  lemma ArrayOfLineFree(v: Visitor, e: TypeRef, x: string)
    requires !v.config.immutableTypes && Resolve(v, e) == x && NoLineTerminator(x)
    ensures Resolve(v, List(e)) == "Maybe<" + ("Array<" + x + ">") + ">"
    ensures NoLineTerminator("Array<" + x + ">")
  {
    assert Resolve(v, List(e)) == ListType(v, x);
    ListTypeOfText(v, x);
    WrapWithoutLineTerminator("Array<", x, ">");
  }

  /** Helper: the same with read-only arrays. */
  lemma ReadonlyArrayOfLineFree(v: Visitor, e: TypeRef, x: string)
    requires v.config.immutableTypes && Resolve(v, e) == x && NoLineTerminator(x)
    ensures Resolve(v, List(e)) == "Maybe<" + ("ReadonlyArray<" + x + ">") + ">"
    ensures NoLineTerminator("ReadonlyArray<" + x + ">")
  {
    assert Resolve(v, List(e)) == ListType(v, x);
    ListTypeOfText(v, x);
    WrapWithoutLineTerminator("ReadonlyArray<", x, ">");
  }

  /** Helper: `ListType` on element text `x` spelt out for either array kind. */
  lemma ListTypeOfText(v: Visitor, x: string)
    ensures !v.config.immutableTypes ==> ListType(v, x) == "Maybe<" + ("Array<" + x + ">") + ">"
    ensures v.config.immutableTypes ==> ListType(v, x) == "Maybe<" + ("ReadonlyArray<" + x + ">") + ">"
  {
    var w := WrapWithListType(v.config, x);
    assert ListType(v, x) == "Maybe<" + w + ">";
    if v.config.immutableTypes {
      assert w == "ReadonlyArray" + "<" + x + ">";
      ReadonlyArrayLiteral(x);
    } else {
      assert w == "Array" + "<" + x + ">";
      ArrayLiteral(x);
    }
  }

  lemma ReadonlyArrayLiteral(x: string)
    ensures "ReadonlyArray" + "<" + x + ">" == "ReadonlyArray<" + x + ">"
  {
  }

  lemma ArrayLiteral(x: string)
    ensures "Array" + "<" + x + ">" == "Array<" + x + ">"
  {
  }

  /** `[X!]!` renders with no wrapper left at either level. */
  lemma RequiredListOfRequired(v: Visitor, x: string)
    requires !v.config.useImplementingTypes && !v.config.immutableTypes && NoLineTerminator(x)
    ensures Resolve(v, NonNull(List(NonNull(Named(x))))) == "Array<" + x + ">"
  {
    NamedPlain(v, x);
    NonNullOfWrapped(v, Named(x), x);
    ArrayOfLineFree(v, NonNull(Named(x)), x);
    NonNullOfWrapped(v, List(NonNull(Named(x))), "Array<" + x + ">");
  }

  /** `[X]!` keeps the element's wrapper and drops only the list's. */
  lemma RequiredListOfNullable(v: Visitor, x: string)
    requires !v.config.useImplementingTypes && !v.config.immutableTypes && NoLineTerminator(x)
    ensures Resolve(v, NonNull(List(Named(x)))) == "Array<" + ("Maybe<" + x + ">") + ">"
  {
    var inner := "Maybe<" + x + ">";
    NamedPlain(v, x);
    WrapWithoutLineTerminator("Maybe<", x, ">");
    ArrayOfLineFree(v, Named(x), inner);
    NonNullOfWrapped(v, List(Named(x)), "Array<" + inner + ">");
  }

  /** The configured `maybeValue` plays no part in rendering references:
      the wrapper is always spelt `Maybe<...>`. */
  lemma {:induction false} ResolveIgnoresMaybeValue(v: Visitor, t: TypeRef, maybeValue: string)
    ensures Resolve(v.(config := v.config.(maybeValue := maybeValue)), t) == Resolve(v, t)
  {
    match t
    case Named(_) =>
    case List(e) => ResolveIgnoresMaybeValue(v, e, maybeValue);
    case NonNull(e) => ResolveIgnoresMaybeValue(v, e, maybeValue);
  }

  /** The alias definition carries the configured `maybeValue` verbatim: two
      visitors with the same export prefix emit the same alias only when
      they were configured with the same value. */
  lemma MaybeAliasDeterminesMaybeValue(v1: Visitor, v2: Visitor)
    requires v1.exportPrefix == v2.exportPrefix && GetMaybeValue(v1) == GetMaybeValue(v2)
    ensures v1.config.maybeValue == v2.config.maybeValue
  {
    var head := v1.exportPrefix + MaybeAliasHead;
    var s1, s2 := GetMaybeValue(v1), GetMaybeValue(v2);
    assert s1 == head + v1.config.maybeValue + ";";
    assert s2 == head + v2.config.maybeValue + ";";
    assert s1[|head|..|s1| - 1] == v1.config.maybeValue;
    assert s2[|head|..|s2| - 1] == v2.config.maybeValue;
  }

  // ---------------------------------------------------------------------------
  // Optional markers
  // ---------------------------------------------------------------------------

  /** In a field declaration the character after the name is `?` exactly when
      the field is optional, whatever text its type was rendered to. */
  lemma FieldMarker(v: Visitor, renderedType: string, f: FieldNode)
    ensures var line := FieldDefinition(v, renderedType, f);
      var k := |f.comment| + |v.indentation| + |ReadonlyPrefix(v.config)| + |f.name|;
      k < |line| && (line[k] == '?' <==> !v.config.avoidOptionals.field && !f.typeRef.NonNull?)
  {
    var typeString :=
      if v.config.wrapEntireDefinitions then "EntireFieldWrapper<" + renderedType + ">" else renderedType;
    var optional := FieldOptional(v.config, f.typeRef);
    MarkerAfterName(v, f, optional, typeString);
  }

  /** The line `comment indentation [readonly ]name[?]: type` carries the
      marker right after the name, and a colon there otherwise. */
  lemma MarkerAfterName(v: Visitor, f: FieldNode, optional: bool, typeString: string)
    ensures var line := f.comment
        + Indent(v, ReadonlyPrefix(v.config) + f.name + OptionalSign(optional) + ": " + typeString + Punctuation());
      var k := |f.comment| + |v.indentation| + |ReadonlyPrefix(v.config)| + |f.name|;
      k < |line| && line[k] == (if optional then '?' else ':')
  {
    var head := ReadonlyPrefix(v.config) + f.name;
    var sign := OptionalSign(optional);
    var withSign := head + sign;
    var withColon := withSign + ": ";
    var inner := withColon + typeString + Punctuation();
    assert withColon[|head|] == (if optional then '?' else ':');
    assert inner[|head|] == withColon[|head|];
    var line := f.comment + Indent(v, inner);
    assert line[|f.comment| + |v.indentation| + |head|] == inner[|head|];
  }

  /** Helper: the declaration line re-bracketed into one flat concatenation,
      so that the examples can read it off piece by piece. */
  lemma DeclarationLine(v: Visitor, f: FieldNode, optional: bool, typeString: string)
    ensures f.comment
        + Indent(v, ReadonlyPrefix(v.config) + f.name + OptionalSign(optional) + ": " + typeString + Punctuation())
         == (f.comment + v.indentation) + ReadonlyPrefix(v.config) + f.name + OptionalSign(optional) + ": " + typeString
  {
  }

  lemma MarkerColon(h: string, t: string)
    ensures h + "?" + ": " + t == h + "?: " + t
  {
  }

  /** Where the middle parts and the tail of a six-part concatenation sit. */
  lemma SixParts(a: string, b: string, c: string, d: string, e: string, g: string)
    ensures var s := a + b + c + d + e + g;
      |a| + |b| + |c| <= |s| && s[|a|..|a| + |b| + |c|] == b + c && EndsWith(s, e + g)
  {
    var s := a + b + c + d + e + g;
    assert s == a + (b + c) + (d + (e + g));
    assert s == (a + b + c + d) + (e + g);
    EndsWithConcat(a + b + c + d, e + g);
  }

  /** The line `comment indentation [readonly ]name[?]: type` starts, after the
      comment and the indentation, with `readonly ` under `immutableTypes` and
      with the name otherwise, and ends with the colon and the type text. */
  lemma DeclarationLineShape(v: Visitor, f: FieldNode, optional: bool, typeString: string)
    ensures var line := f.comment
        + Indent(v, ReadonlyPrefix(v.config) + f.name + OptionalSign(optional) + ": " + typeString + Punctuation());
      var k := |f.comment| + |v.indentation|;
      && (v.config.immutableTypes ==> k + 9 <= |line| && line[k..k + 9] == "readonly ")
      && (!v.config.immutableTypes ==> k + |f.name| <= |line| && line[k..k + |f.name|] == f.name)
      && EndsWith(line, ": " + typeString)
  {
    DeclarationLine(v, f, optional, typeString);
    var head, pre := f.comment + v.indentation, ReadonlyPrefix(v.config);
    SixParts(head, pre, f.name, OptionalSign(optional), ": ", typeString);
    var line := head + pre + f.name + OptionalSign(optional) + ": " + typeString;
    var k := |head|;
    if v.config.immutableTypes {
      assert line[k..k + 9] == (pre + f.name)[..9];
    } else {
      assert pre + f.name == f.name;
    }
  }

  /** A field line carries `readonly ` exactly under `immutableTypes`, and its
      type is wrapped in `EntireFieldWrapper<...>` exactly under
      `wrapEntireDefinitions`. */
  lemma FieldLineShape(v: Visitor, renderedType: string, f: FieldNode)
    ensures var line := FieldDefinition(v, renderedType, f);
      var k := |f.comment| + |v.indentation|;
      && (v.config.immutableTypes ==> k + 9 <= |line| && line[k..k + 9] == "readonly ")
      && (!v.config.immutableTypes ==> k + |f.name| <= |line| && line[k..k + |f.name|] == f.name)
      && (v.config.wrapEntireDefinitions ==> EndsWith(line, ": " + ("EntireFieldWrapper<" + renderedType + ">")))
      && (!v.config.wrapEntireDefinitions ==> EndsWith(line, ": " + renderedType))
  {
    var typeString :=
      if v.config.wrapEntireDefinitions then "EntireFieldWrapper<" + renderedType + ">" else renderedType;
    DeclarationLineShape(v, f, FieldOptional(v.config, f.typeRef), typeString);
  }

  /** An input-value line carries `readonly ` exactly under `immutableTypes`,
      and its type text is never wrapped, whatever `wrapEntireDefinitions` says. */
  lemma InputValueLineShape(v: Visitor, renderedType: string, f: FieldNode)
    ensures var line := InputValueDefinition(v, renderedType, f);
      var k := |f.comment| + |v.indentation|;
      && (v.config.immutableTypes ==> k + 9 <= |line| && line[k..k + 9] == "readonly ")
      && (!v.config.immutableTypes ==> k + |f.name| <= |line| && line[k..k + |f.name|] == f.name)
      && EndsWith(line, ": " + renderedType)
  {
    DeclarationLineShape(v, f, InputValueOptional(v.config, f.typeRef, f.hasDefaultValue), renderedType);
  }

  /** In an input-value declaration the character after the name is `?`
      exactly when optionals are not avoided for input values and the value is
      nullable or carries a default that may relax it. */
  lemma InputValueMarker(v: Visitor, renderedType: string, f: FieldNode)
    ensures var line := InputValueDefinition(v, renderedType, f);
      var k := |f.comment| + |v.indentation| + |ReadonlyPrefix(v.config)| + |f.name|;
      k < |line|
      && (line[k] == '?' <==>
            !v.config.avoidOptionals.inputValue
            && (!f.typeRef.NonNull? || (!v.config.avoidOptionals.defaultValue && f.hasDefaultValue)))
  {
    var optional := InputValueOptional(v.config, f.typeRef, f.hasDefaultValue);
    MarkerAfterName(v, f, optional, renderedType);
  }

  /** A non-null argument with a default value is still optional unless
      optionals are avoided for input values or for defaults. */
  lemma NonNullInputWithDefaultIsOptional(v: Visitor, renderedType: string, f: FieldNode)
    requires f.typeRef.NonNull? && f.hasDefaultValue
    requires !v.config.avoidOptionals.inputValue && !v.config.avoidOptionals.defaultValue
    ensures InputValueDefinition(v, renderedType, f)
         == f.comment + v.indentation + ReadonlyPrefix(v.config) + f.name + "?: " + renderedType
  {
    assert InputValueOptional(v.config, f.typeRef, f.hasDefaultValue);
  }
}
