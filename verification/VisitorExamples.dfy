/**
  Fields rendered end to end: the type reference is translated first, then
  the declaration line is built from that text and the original node.
 */
module VisitorExamples {
  import opened Strings
  import opened PythonVisitor
  import opened VisitorProperties

  /** Default optionality: every flag of `avoidOptionals` off, mutable
      arrays, no implementor expansion, no entire-field wrapper. */
  predicate DefaultFieldConfig(cfg: Config) {
    && cfg.avoidOptionals == AvoidOptionals(false, false, false)
    && !cfg.immutableTypes && !cfg.useImplementingTypes && !cfg.wrapEntireDefinitions
  }

  /** A field of type `X!` gets no marker and the bare name. */
  lemma RequiredScalarField(v: Visitor, name: string, x: string, comment: string)
    requires DefaultFieldConfig(v.config) && NoLineTerminator(x)
    ensures RenderField(v, FieldNode(name, NonNull(Named(x)), false, comment))
         == comment + v.indentation + name + ": " + x
  {
    var f := FieldNode(name, NonNull(Named(x)), false, comment);
    NonNullOfWrapped(v, Named(x), x);
    assert RenderField(v, f) == FieldDefinition(v, x, f);
  }

  /** A field of type `[X!]` gets the marker and a wrapped array of bare names. */
  lemma NullableListOfRequiredField(v: Visitor, name: string, x: string, comment: string)
    requires DefaultFieldConfig(v.config) && NoLineTerminator(x)
    ensures RenderField(v, FieldNode(name, List(NonNull(Named(x))), false, comment))
         == comment + v.indentation + name + "?: " + ("Maybe<" + ("Array<" + x + ">") + ">")
  {
    var f := FieldNode(name, List(NonNull(Named(x))), false, comment);
    NamedPlain(v, x);
    NonNullOfWrapped(v, Named(x), x);
    ArrayOfLineFree(v, NonNull(Named(x)), x);
    assert RenderField(v, f) == FieldDefinition(v, "Maybe<" + ("Array<" + x + ">") + ">", f);
  }

  /** `type Book { title: String!, tags: [String!] }` under the defaults:
      `title: String` and `tags?: Maybe<Array<String>>`, each after the
      field's comment text and the indentation. */
  lemma BookExample(v: Visitor, titleComment: string, tagsComment: string)
    requires DefaultFieldConfig(v.config)
    ensures RenderField(v, FieldNode("title", NonNull(Named("String")), false, titleComment))
         == titleComment + v.indentation + "title" + ": " + "String"
    ensures RenderField(v, FieldNode("tags", List(NonNull(Named("String"))), false, tagsComment))
         == tagsComment + v.indentation + "tags" + "?: " + ("Maybe<" + ("Array<" + "String" + ">") + ">")
  {
    assert NoLineTerminator("String");
    RequiredScalarField(v, "title", "String", titleComment);
    NullableListOfRequiredField(v, "tags", "String", tagsComment);
  }

  /** Default optionality, but read-only arrays and declarations, and the
      entire-field wrapper on; no implementor expansion. */
  predicate ImmutableWrappedConfig(cfg: Config) {
    && cfg.avoidOptionals == AvoidOptionals(false, false, false)
    && cfg.immutableTypes && !cfg.useImplementingTypes && cfg.wrapEntireDefinitions
  }

  /** A field of type `[X!]` becomes `readonly name?: EntireFieldWrapper<Maybe<ReadonlyArray<X>>>`. */
  lemma ImmutableWrappedListField(v: Visitor, name: string, x: string, comment: string)
    requires ImmutableWrappedConfig(v.config) && NoLineTerminator(x)
    ensures RenderField(v, FieldNode(name, List(NonNull(Named(x))), false, comment))
         == comment + v.indentation + "readonly " + name + "?: "
            + ("EntireFieldWrapper<" + ("Maybe<" + ("ReadonlyArray<" + x + ">") + ">") + ">")
  {
    var f := FieldNode(name, List(NonNull(Named(x))), false, comment);
    var rendered := "Maybe<" + ("ReadonlyArray<" + x + ">") + ">";
    var typeString := "EntireFieldWrapper<" + rendered + ">";
    NonNullOfWrapped(v, Named(x), x);
    ReadonlyArrayOfLineFree(v, NonNull(Named(x)), x);
    assert RenderField(v, f) == FieldDefinition(v, rendered, f);
    assert FieldOptional(v.config, f.typeRef) && ReadonlyPrefix(v.config) == "readonly ";
    DeclarationLine(v, f, true, typeString);
    MarkerColon(comment + v.indentation + "readonly " + name, typeString);
  }

  /** An argument of the same type is never given the entire-field wrapper:
      `readonly name?: Maybe<ReadonlyArray<X>>`. */
  lemma ImmutableListInputValue(v: Visitor, name: string, x: string, comment: string)
    requires ImmutableWrappedConfig(v.config) && NoLineTerminator(x)
    ensures RenderInputValue(v, FieldNode(name, List(NonNull(Named(x))), false, comment))
         == comment + v.indentation + "readonly " + name + "?: " + ("Maybe<" + ("ReadonlyArray<" + x + ">") + ">")
  {
    var f := FieldNode(name, List(NonNull(Named(x))), false, comment);
    var rendered := "Maybe<" + ("ReadonlyArray<" + x + ">") + ">";
    NonNullOfWrapped(v, Named(x), x);
    ReadonlyArrayOfLineFree(v, NonNull(Named(x)), x);
    assert RenderInputValue(v, f) == InputValueDefinition(v, rendered, f);
    assert InputValueOptional(v.config, f.typeRef, f.hasDefaultValue) && ReadonlyPrefix(v.config) == "readonly ";
    DeclarationLine(v, f, true, rendered);
    MarkerColon(comment + v.indentation + "readonly " + name, rendered);
  }

  /** A non-null argument with a default, `name: X! = ...`, is declared optional
      with the bare type: `readonly name?: X`. */
  lemma RequiredInputValueWithDefault(v: Visitor, name: string, x: string, comment: string)
    requires ImmutableWrappedConfig(v.config) && NoLineTerminator(x)
    ensures RenderInputValue(v, FieldNode(name, NonNull(Named(x)), true, comment))
         == comment + v.indentation + "readonly " + name + "?: " + x
  {
    var f := FieldNode(name, NonNull(Named(x)), true, comment);
    NonNullOfWrapped(v, Named(x), x);
    assert RenderInputValue(v, f) == InputValueDefinition(v, x, f);
    assert InputValueOptional(v.config, f.typeRef, f.hasDefaultValue) && ReadonlyPrefix(v.config) == "readonly ";
    DeclarationLine(v, f, true, x);
    MarkerColon(comment + v.indentation + "readonly " + name, x);
  }

  /** `tags: [String!]` as a field and as an argument under those settings. */
  lemma TagsUnderImmutableWrapping(v: Visitor, fieldComment: string, argComment: string)
    requires ImmutableWrappedConfig(v.config)
    ensures RenderField(v, FieldNode("tags", List(NonNull(Named("String"))), false, fieldComment))
         == fieldComment + v.indentation + "readonly " + "tags" + "?: "
            + ("EntireFieldWrapper<" + ("Maybe<" + ("ReadonlyArray<" + "String" + ">") + ">") + ">")
    ensures RenderInputValue(v, FieldNode("tags", List(NonNull(Named("String"))), false, argComment))
         == argComment + v.indentation + "readonly " + "tags" + "?: " + ("Maybe<" + ("ReadonlyArray<" + "String" + ">") + ">")
  {
    assert NoLineTerminator("String");
    ImmutableWrappedListField(v, "tags", "String", fieldComment);
    ImmutableListInputValue(v, "tags", "String", argComment);
  }

  /** A type map where `A` and `B` implement `I`, the interface `J` extends
      `I`, and `B` and `C` implement `J`.  `C` does not list `I` although `J`
      does, which GraphQL's schema validation would refuse; the expansion
      reads only the lists as given, and the map shows which of them it reads. */
  const ExampleTypeMap: seq<SchemaType> := [
    SchemaType("A", true, ["I"]),
    SchemaType("I", false, []),
    SchemaType("J", false, ["I"]),
    SchemaType("B", true, ["J", "I"]),
    SchemaType("C", true, ["J"])]

  /** `I` expands to the object types declaring it, in type-map order: the
      interface `J` is skipped although it lists `I`, because only object
      types are collected, and `C` is skipped because its own list lacks `I`. */
  lemma ExpandInterfaceI(v: Visitor)
    requires v.config.useImplementingTypes && v.typeMap == ExampleTypeMap
    ensures TypeForNode(v, "I") == v.convertName("A") + " | " + v.convertName("B")
  {
    var tm, c := v.typeMap, v.convertName;
    assert tm[..0] == [] && tm[..5] == tm;
    assert Implements(tm[0], "I") && !Implements(tm[1], "I") && !Implements(tm[2], "I");
    assert Implements(tm[3], "I") && !Implements(tm[4], "I");
    ImplementorNamesStep(tm, 0, "I", c);
    ImplementorNamesStep(tm, 1, "I", c);
    ImplementorNamesStep(tm, 2, "I", c);
    ImplementorNamesStep(tm, 3, "I", c);
    ImplementorNamesStep(tm, 4, "I", c);
    var names := [c("A"), c("B")];
    assert ImplementorNames(tm, "I", c) == names;
    assert names[1..] == [c("B")];
    assert Join(names, " | ") == c("A") + " | " + c("B");
  }

  /** `J` expands to `B | C`. */
  lemma ExpandInterfaceJ(v: Visitor)
    requires v.config.useImplementingTypes && v.typeMap == ExampleTypeMap
    ensures TypeForNode(v, "J") == v.convertName("B") + " | " + v.convertName("C")
  {
    var tm, c := v.typeMap, v.convertName;
    assert tm[..0] == [] && tm[..5] == tm;
    assert !Implements(tm[0], "J") && !Implements(tm[1], "J") && !Implements(tm[2], "J");
    assert Implements(tm[3], "J") && Implements(tm[4], "J");
    ImplementorNamesStep(tm, 0, "J", c);
    ImplementorNamesStep(tm, 1, "J", c);
    ImplementorNamesStep(tm, 2, "J", c);
    ImplementorNamesStep(tm, 3, "J", c);
    ImplementorNamesStep(tm, 4, "J", c);
    var names := [c("B"), c("C")];
    assert ImplementorNames(tm, "J", c) == names;
    assert names[1..] == [c("C")];
    assert Join(names, " | ") == c("B") + " | " + c("C");
  }

  /** A name nothing implements renders as itself even with expansion on. */
  lemma NoExpansionForObjectA(v: Visitor)
    requires v.config.useImplementingTypes && v.typeMap == ExampleTypeMap
    ensures TypeForNode(v, "A") == "A"
  {
    var tm := v.typeMap;
    assert !Implements(tm[0], "A") && !Implements(tm[1], "A") && !Implements(tm[2], "A");
    assert !Implements(tm[3], "A") && !Implements(tm[4], "A");
    TypeForNodeCases(v, "A");
  }
}
