/**
  The type-reference translator of the Python plugin's `PythonVisitor`.

  The visitor runs on the way *out* of each schema AST node, so every child
  has already been rendered to text when its parent is handled.  A named
  reference and a list are wrapped in `Maybe<...>`; a non-null marker strips
  one outer `Maybe<...>` from its child's text.  Together these turn
  GraphQL's "nullable unless `!`" into "wrapped unless unwrapped".
 */
module PythonVisitor {
  import opened Strings

  // ---------------------------------------------------------------------------
  // Data model
  // ---------------------------------------------------------------------------

  /** A GraphQL type reference (section 2.11 "Type References" of the GraphQL
      specification): a name, a list of a type, or a non-null type. */
  datatype TypeRef = Named(name: string) | List(of: TypeRef) | NonNull(of: TypeRef)

  /** The grammar never puts a non-null marker directly inside another one. */
  predicate WellFormed(t: TypeRef) {
    match t
    case Named(_) => true
    case List(e) => WellFormed(e)
    case NonNull(e) => !e.NonNull? && WellFormed(e)
  }

  /** Every name a reference mentions. */
  predicate NamesWithoutLineTerminator(t: TypeRef) {
    match t
    case Named(n) => NoLineTerminator(n)
    case List(e) => NamesWithoutLineTerminator(e)
    case NonNull(e) => NamesWithoutLineTerminator(e)
  }

  /** One entry of the schema's type map: its name, whether it is an object
      type, and the names of the interfaces it declares (interfaces may declare
      interfaces too; the expansion reads the list only of object types). */
  datatype SchemaType = SchemaType(name: string, isObject: bool, interfaces: seq<string>)

  datatype AvoidOptionals = AvoidOptionals(field: bool, inputValue: bool, defaultValue: bool)

  /** The parsed configuration the translator reads; fixed for a whole run. */
  datatype Config = Config(
    avoidOptionals: AvoidOptionals,
    immutableTypes: bool,
    maybeValue: string,
    useImplementingTypes: bool,
    wrapFieldDefinitions: bool,
    wrapEntireDefinitions: bool)

  /** The visitor's read-only context.  `convertName` (identifier casing),
      `exportPrefix` (`getExportPrefix()`), `indentation` (what `indent` puts
      in front of a line) and the two field-wrapper definitions are supplied
      by the shared plugin library and are left uninterpreted. */
  datatype Visitor = Visitor(
    config: Config,
    typeMap: seq<SchemaType>,
    convertName: string -> string,
    exportPrefix: string,
    indentation: string,
    fieldWrapperValue: string,
    entireFieldWrapperValue: string)

  /** An object field, input field or argument as it stands in the original
      AST: its name, its unrendered type, whether it declares a default value,
      and its already formatted documentation comment. */
  datatype FieldNode = FieldNode(name: string, typeRef: TypeRef, hasDefaultValue: bool, comment: string)

  /** Implementor expansion, when on, only yields line-free text: every
      converted object-type name is free of line terminators. */
  predicate ConvertedNamesWithoutLineTerminator(v: Visitor) {
    v.config.useImplementingTypes ==>
      forall k :: 0 <= k < |v.typeMap| ==> NoLineTerminator(v.convertName(v.typeMap[k].name))
  }

  // ---------------------------------------------------------------------------
  // Implementing-types expansion (`_getTypeForNode`)
  // ---------------------------------------------------------------------------

  /** An object type that lists `name` among its interfaces. */
  predicate Implements(t: SchemaType, name: string) {
    t.isObject && name in t.interfaces
  }

  /** The converted names of the object types of `types` that implement `name`,
      in type-map order. */
  function ImplementorNames(types: seq<SchemaType>, name: string, convertName: string -> string): seq<string> {
    if |types| == 0 then []
    else
      var last := types[|types| - 1];
      ImplementorNames(types[..|types| - 1], name, convertName)
        + (if Implements(last, name) then [convertName(last.name)] else [])
  }

  /** What a named reference renders to before it is wrapped: the implementors
      joined by ` | ` when that expansion is on and finds any, else the name
      itself (the base visitor's rendering). */
  function TypeForNode(v: Visitor, name: string): string {
    var implementing := ImplementorNames(v.typeMap, name, v.convertName);
    if v.config.useImplementingTypes && |implementing| > 0 then Join(implementing, " | ")
    else name
  }

  /** `_getTypeForNode`: one pass over the type map collecting implementors. */
  method GetTypeForNode(v: Visitor, name: string) returns (r: string)
    ensures r == TypeForNode(v, name)
  {
    if v.config.useImplementingTypes {
      var implementingTypes: seq<string> := [];
      for i := 0 to |v.typeMap|
        invariant implementingTypes == ImplementorNames(v.typeMap[..i], name, v.convertName)
      {
        var graphqlType := v.typeMap[i];
        if graphqlType.isObject {
          if name in graphqlType.interfaces {
            implementingTypes := implementingTypes + [v.convertName(graphqlType.name)];
          }
        }
        assert v.typeMap[..i + 1][..i] == v.typeMap[..i];
      }
      assert v.typeMap[..|v.typeMap|] == v.typeMap;
      if |implementingTypes| > 0 {
        return Join(implementingTypes, " | ");
      }
    }
    return name;
  }

  // ---------------------------------------------------------------------------
  // Wrapper preamble
  // ---------------------------------------------------------------------------

  const ExactSignature: string :=
    "type Exact<T extends { [key: string]: unknown }> = { [K in keyof T]: T[K] };"
  const MakeOptionalSignature: string :=
    "type MakeOptional<T, K extends keyof T> = Omit<T, K> & { [SubKey in K]?: Maybe<T[SubKey]> };"
  const MakeMaybeSignature: string :=
    "type MakeMaybe<T, K extends keyof T> = Omit<T, K> & { [SubKey in K]: Maybe<T[SubKey]> };"
  const MaybeAliasHead: string := "type Maybe<T> = "

  function GetExactDefinition(v: Visitor): string {
    v.exportPrefix + ExactSignature
  }

  function GetMakeOptionalDefinition(v: Visitor): string {
    v.exportPrefix + MakeOptionalSignature
  }

  function GetMakeMaybeDefinition(v: Visitor): string {
    v.exportPrefix + MakeMaybeSignature
  }

  /** The only place where the configured `maybeValue` appears. */
  function GetMaybeValue(v: Visitor): string {
    v.exportPrefix + MaybeAliasHead + v.config.maybeValue + ";"
  }

  /** `getWrapperDefinitions`: the four fixed definitions, then the optional
      field wrappers. */
  method GetWrapperDefinitions(v: Visitor) returns (definitions: seq<string>)
    ensures 4 <= |definitions| <= 6
    ensures definitions[..4] ==
      [GetMaybeValue(v), GetExactDefinition(v), GetMakeOptionalDefinition(v), GetMakeMaybeDefinition(v)]
    ensures |definitions| ==
      4 + (if v.config.wrapFieldDefinitions then 1 else 0) + (if v.config.wrapEntireDefinitions then 1 else 0)
    ensures v.config.wrapFieldDefinitions ==> definitions[4] == v.fieldWrapperValue
    ensures v.config.wrapEntireDefinitions ==> definitions[|definitions| - 1] == v.entireFieldWrapperValue
  {
    definitions := [
      GetMaybeValue(v),
      GetExactDefinition(v),
      GetMakeOptionalDefinition(v),
      GetMakeMaybeDefinition(v)
    ];
    if v.config.wrapFieldDefinitions {
      definitions := definitions + [v.fieldWrapperValue];
    }
    if v.config.wrapEntireDefinitions {
      definitions := definitions + [v.entireFieldWrapperValue];
    }
  }

  // ---------------------------------------------------------------------------
  // clearOptional: `str.replace(/Maybe<(.*?)>$/, '$1')` behind a `startsWith`
  // ---------------------------------------------------------------------------

  /** Whether `/Maybe<(.*?)>$/` matches when tried at index `i` of `str`: the
      literal `Maybe<` there, a final `>`, and between them only characters
      `.` accepts.  `$` without the `m` flag matches only at the very end, so
      the lazy group has to take everything up to the last character. */
  predicate MatchesAt(str: string, i: nat) {
    i + 7 <= |str| && str[i..i + 6] == "Maybe<" && str[|str| - 1] == '>'
    && NoLineTerminator(str[i + 6..|str| - 1])
  }

  /** The leftmost index from `from` on where the pattern matches. */
  function FirstMatch(str: string, from: nat): (r: Option<nat>)
    requires from <= |str|
    ensures r.Some? ==> from <= r.value && MatchesAt(str, r.value)
    ensures forall j :: from <= j && (r.None? || j < r.value) ==> !MatchesAt(str, j)
    decreases |str| - from
  {
    if MatchesAt(str, from) then Some(from)
    else if from == |str| then None
    else FirstMatch(str, from + 1)
  }

  /** Strips one `Maybe<...>` application: the leftmost match of the pattern is
      replaced by its group, and text not starting with `Maybe` is untouched. */
  function ClearOptional(str: string): (r: string)
    ensures !StartsWith(str, "Maybe") ==> r == str
    ensures r == str || |r| + 7 == |str|
  {
    if StartsWith(str, "Maybe") then
      match FirstMatch(str, 0)
      case None => str
      case Some(i) => str[..i] + str[i + 6..|str| - 1]
    else str
  }

  // ---------------------------------------------------------------------------
  // The per-node handlers and the bottom-up traversal
  // ---------------------------------------------------------------------------

  /** `NamedType`: the name's rendering, wrapped. */
  function NamedType(v: Visitor, name: string): string {
    "Maybe<" + TypeForNode(v, name) + ">"
  }

  /** `wrapWithListType`: the mutable or read-only array spelling. */
  function WrapWithListType(cfg: Config, str: string): string {
    (if cfg.immutableTypes then "ReadonlyArray" else "Array") + "<" + str + ">"
  }

  /** `ListType`: the element's text as an array, wrapped whatever the element was. */
  function ListType(v: Visitor, elementText: string): string {
    "Maybe<" + WrapWithListType(v.config, elementText) + ">"
  }

  /** `NonNullType`: the child's text with one outer wrapper cleared. */
  function NonNullType(childText: string): string {
    ClearOptional(childText)
  }

  /** The text a type reference renders to, children first. */
  function Resolve(v: Visitor, t: TypeRef): string {
    match t
    case Named(n) => NamedType(v, n)
    case List(e) => ListType(v, Resolve(v, e))
    case NonNull(e) => NonNullType(Resolve(v, e))
  }

  // ---------------------------------------------------------------------------
  // Field and input-value declarations
  // ---------------------------------------------------------------------------

  /** A field is optional unless optionals are avoided for fields or its
      ORIGINAL type node is non-null. */
  predicate FieldOptional(cfg: Config, original: TypeRef) {
    !cfg.avoidOptionals.field && !original.NonNull?
  }

  /** An input value is optional unless optionals are avoided for input values;
      beyond that, it is optional when its original type is nullable, or when it
      has a default value and defaults are not told to avoid optionals. */
  predicate InputValueOptional(cfg: Config, original: TypeRef, hasDefaultValue: bool) {
    !cfg.avoidOptionals.inputValue
    && (!original.NonNull? || (!cfg.avoidOptionals.defaultValue && hasDefaultValue))
  }

  function OptionalSign(addOptionalSign: bool): string {
    if addOptionalSign then "?" else ""
  }

  function ReadonlyPrefix(cfg: Config): string {
    if cfg.immutableTypes then "readonly " else ""
  }

  /** `indent(str)`. */
  function Indent(v: Visitor, str: string): string {
    v.indentation + str
  }

  /** `getPunctuation`: always empty in this plugin. */
  function Punctuation(): string {
    ""
  }

  /** `FieldDefinition`: `renderedType` is the field's type already turned into
      text; `original` is the field as it stands in the unrendered AST. */
  function FieldDefinition(v: Visitor, renderedType: string, original: FieldNode): string {
    var typeString :=
      if v.config.wrapEntireDefinitions then "EntireFieldWrapper<" + renderedType + ">" else renderedType;
    var addOptionalSign := FieldOptional(v.config, original.typeRef);
    original.comment
      + Indent(v, ReadonlyPrefix(v.config) + original.name + OptionalSign(addOptionalSign)
                  + ": " + typeString + Punctuation())
  }

  /** `InputValueDefinition`, with the same two views of the node. */
  function InputValueDefinition(v: Visitor, renderedType: string, original: FieldNode): string {
    var addOptionalSign := InputValueOptional(v.config, original.typeRef, original.hasDefaultValue);
    original.comment
      + Indent(v, ReadonlyPrefix(v.config) + original.name + OptionalSign(addOptionalSign)
                  + ": " + renderedType + Punctuation())
  }

  /** A field as the traversal emits it: its type rendered first, then the
      declaration built from the rendered text and the original node. */
  function RenderField(v: Visitor, f: FieldNode): string {
    FieldDefinition(v, Resolve(v, f.typeRef), f)
  }

  function RenderInputValue(v: Visitor, f: FieldNode): string {
    InputValueDefinition(v, Resolve(v, f.typeRef), f)
  }
}
