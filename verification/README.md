# PythonVisitor type-reference translator, in Dafny

This project models the core of the Python plugin's `PythonVisitor` in graphql-code-generator-python. The core is the code that turns GraphQL type references into type-expression text.

The visitor runs as a *leave* visitor, so each child node is already text when its parent is handled:

- a named reference becomes `Maybe<name>`;
- a list becomes `Maybe<Array<element>>`, or `Maybe<ReadonlyArray<element>>` under `immutableTypes`;
- a non-null marker clears one outer `Maybe<…>` from its child's text.

Together these turn GraphQL's "nullable unless `!`" into "wrapped unless unwrapped". The model also covers:

- how field and input-value declaration lines decide the `?` optional marker;
- the optional expansion of an interface name into the `|`-joined names of the object types that implement it;
- the preamble of wrapper definitions.

Files:

- `Strings.dfy` (module `Strings`): prefix and suffix tests, the JavaScript line terminators, and `Array.prototype.join`.
- `PythonVisitor.dfy` (module `PythonVisitor`): the data model, the handlers, and the two imperative operations.
  - `_getTypeForNode` is a method with a loop, proved equal to the specification function `TypeForNode`.
  - `getWrapperDefinitions` is a method whose postconditions give the built list entry by entry.
  - `clearOptional` is a function that follows the regular expression `/Maybe<(.*?)>$/` exactly.
- `VisitorProperties.dfy` (module `VisitorProperties`): the properties. The main theorem is `ResolveMatchesExpected`. It says that the bottom-up wrap-then-clear rendering equals `Expected`, a direct reading of the nullability rules in section 2.11 "Type References" of the GraphQL specification. In that reading a nullable position is wrapped once and a non-null position is not wrapped.
- `VisitorExamples.dfy` (module `VisitorExamples`): whole declaration lines and implementor expansion on a small concrete type map.

How the model reads the code:

- `clearOptional` calls `str.replace(/Maybe<(.*?)>$/, '$1')` behind `startsWith('Maybe')`. The model follows the JavaScript semantics:
  - the match is the leftmost index where the pattern matches (`FirstMatch`);
  - `$` without the `m` flag matches only at the end of the string;
  - `.` does not match LF, CR, U+2028 or U+2029.

  So the round trip `clearOptional("Maybe<" + s + ">") == s` holds exactly when `s` has no line terminator. `ClearOptionalKeepsWrapperAroundLineBreak` shows the other case: text with a line break keeps its wrapper.
- `./base-visitor` is not part of this model. The model assumes the base handlers behave like this:
  - `super._getTypeForNode(node)` is the plain name;
  - `super.NamedType` is `_getTypeForNode` of the name;
  - `super.ListType` is `wrapWithListType` of the element's text;
  - `super.NonNullType` is the child's text unchanged.
- The schema type map is a sequence of `SchemaType(name, isObject, interfaces)` records, in the order `getTypeMap()` enumerates them.
- A field's two views are modelled separately:
  - `node.type`, the rendered text, is the `renderedType` parameter;
  - `parent[key].type`, the original AST node, is `FieldNode.typeRef`.

Three facts of the code that the model keeps:

- The wrapper is always spelled `Maybe<…>` (visitor.ts:163, 167). The configured `maybeValue` appears only in the `type Maybe<T> = …` alias (visitor.ts:151). `ResolveIgnoresMaybeValue` states this.
- The default-value exception for input values applies only when `avoidOptionals.inputValue` is false (visitor.ts:201-204). `InputValueMarker` states the whole condition.
- `maybeValue` is never validated. Whatever text is configured goes into the alias verbatim.

## Model

| member | source | states |
|---|---|---|
| PythonVisitor.GetTypeForNode | packages/plugins/python/src/visitor.ts:94-118 | The loop over the type map returns exactly `TypeForNode`: the converted names of the implementing object types, in type-map order, joined by the bar separator when expansion is on and finds any; otherwise the plain name |
| PythonVisitor.GetWrapperDefinitions | packages/plugins/python/src/visitor.ts:120-136 | The list starts with the Maybe alias, Exact, MakeOptional and MakeMaybe in that order. Its length is 4 plus one per enabled wrapper flag, so between 4 and 6. The field wrapper is at index 4 when `wrapFieldDefinitions` is set. The entire-field wrapper is last when `wrapEntireDefinitions` is set |
| PythonVisitor.FirstMatch | packages/plugins/python/src/visitor.ts:156 | The result is an index where `/Maybe<(.*?)>$/` matches, and no earlier index from `from` on matches. `None` means no index matches |
| PythonVisitor.ClearOptional | packages/plugins/python/src/visitor.ts:154-160 | Text not starting with `Maybe` is returned unchanged. Otherwise the result is either the input or 7 characters shorter; `ClearOptionalMatches` says which characters go |
| VisitorProperties.ClearOptionalMatches | packages/plugins/python/src/visitor.ts:154-160 | If the pattern matches at the start, the result is the text between the leading `Maybe<` and the final `>`. If it matches nowhere, the text is unchanged. Any change removes exactly the `Maybe<` and the final `>` of the leftmost match |
| VisitorProperties.ClearOptionalLeftmost | packages/plugins/python/src/visitor.ts:154-160 | For text starting with `Maybe` whose leftmost match is at `i`, wherever `i` is, the result is the text with that match's `Maybe<` and the final `>` removed |
| VisitorProperties.ClearOptionalRoundTrip | packages/plugins/python/src/visitor.ts:154-160 | Clearing `Maybe<s>` gives back `s`, for any `s` without a line terminator |
| VisitorProperties.ClearOptionalOnlyOutermost | packages/plugins/python/src/visitor.ts:154-160 | Of two nested wrappers only the outer one is removed |
| VisitorProperties.ClearOptionalKeepsWrapperAroundLineBreak | packages/plugins/python/src/visitor.ts:156 | `.` does not cross a line break, so `Maybe<a\nb>` keeps its wrapper |
| VisitorProperties.ImplementorNamesConcat | packages/plugins/python/src/visitor.ts:102-110 | Collecting implementors distributes over splitting the type map, so the result keeps type-map order |
| VisitorProperties.ImplementorNamesMembership | packages/plugins/python/src/visitor.ts:102-110 | A name is collected if and only if it is the converted name of some object type in the map that lists the interface |
| VisitorProperties.ImplementorNamesEmpty | packages/plugins/python/src/visitor.ts:102-112 | Nothing is collected if and only if no object type lists the interface |
| VisitorProperties.TypeForNodeCases | packages/plugins/python/src/visitor.ts:97-117 | With expansion on and an implementor present, the result is the join of the implementors. With expansion off or no implementor, the result is the name itself |
| VisitorProperties.TypeForNodeWithoutLineTerminator | packages/plugins/python/src/visitor.ts:97-117 | Expansion yields line-free text when the name and the converted names are line-free |
| VisitorProperties.ExpectedWithoutLineTerminator | packages/plugins/python/src/visitor.ts:162-172 | The reference rendering is line-free when all names are |
| VisitorProperties.ResolveMatchesExpected | packages/plugins/python/src/visitor.ts:162-178 | On every well-formed reference, the bottom-up wrap-then-clear rendering equals the direct reading: nullable positions are wrapped once, non-null positions are bare, and list elements follow the same rule |
| VisitorProperties.NonNullStripsOneWrapper | packages/plugins/python/src/visitor.ts:174-178 | For a well-formed nullable reference `t`, `NonNull(t)` renders to `t`'s text minus its single outer `Maybe<…>` |
| VisitorProperties.ResolveWrapped | packages/plugins/python/src/visitor.ts:162-168 | A named reference or a list always renders to text starting with `Maybe<` and ending with `>` |
| VisitorProperties.NonNullOfWrapped | packages/plugins/python/src/visitor.ts:174-178 | A non-null marker over text `Maybe<s>`, with `s` line-free, yields `s` |
| VisitorProperties.ResolveWithoutLineTerminator | packages/plugins/python/src/visitor.ts:162-178 | Rendering keeps text line-free when the names it starts from are |
| VisitorProperties.NonNullListOfLineFree | packages/plugins/python/src/visitor.ts:166-178 | A required list of line-free element text renders to the bare `Array<e>` or `ReadonlyArray<e>` |
| VisitorProperties.ListTypeWrapped | packages/plugins/python/src/visitor.ts:166-172 | A list with element text `e` renders to exactly `Maybe<Array<e>>`, or `Maybe<ReadonlyArray<e>>` under `immutableTypes`, whatever the element is |
| VisitorProperties.NonNullListBare | packages/plugins/python/src/visitor.ts:166-178 | Under a non-null marker a well-formed list's array is left bare, and its element keeps its own rendering |
| VisitorProperties.NamedPlain | packages/plugins/python/src/visitor.ts:162-164 | Without expansion, a name `x` renders to `Maybe<x>` |
| VisitorProperties.RequiredListOfRequired | packages/plugins/python/src/visitor.ts:162-178 | `[X!]!` renders to `Array<X>`, with no wrapper left at either level |
| VisitorProperties.RequiredListOfNullable | packages/plugins/python/src/visitor.ts:162-178 | `[X]!` renders to `Array<Maybe<X>>`: the list's wrapper goes and the element's stays |
| VisitorProperties.ResolveIgnoresMaybeValue | packages/plugins/python/src/visitor.ts:162-168 | Changing the configured `maybeValue` does not change any rendered reference |
| VisitorProperties.MaybeAliasDeterminesMaybeValue | packages/plugins/python/src/visitor.ts:150-152 | With the same export prefix, two alias definitions are equal only when the configured `maybeValue`s are equal, so the alias carries the value verbatim |
| VisitorProperties.FieldMarker | packages/plugins/python/src/visitor.ts:180-197 | In a field line the character after the name is `?` if and only if `avoidOptionals.field` is false and the ORIGINAL type node is not non-null, whatever text the type was rendered to |
| VisitorProperties.MarkerAfterName | packages/plugins/python/src/visitor.ts:189-195 | In a declaration line, the character after the name is the marker when optional and the colon otherwise |
| VisitorProperties.InputValueMarker | packages/plugins/python/src/visitor.ts:199-215 | In an input-value line the character after the name is `?` if and only if `avoidOptionals.inputValue` is false and either the original type is nullable or (`avoidOptionals.defaultValue` is false and a default is present) |
| VisitorProperties.NonNullInputWithDefaultIsOptional | packages/plugins/python/src/visitor.ts:199-215 | A non-null argument with a default is still declared with `?` unless optionals are avoided for input values or defaults |
| VisitorProperties.DeclarationLineShape | packages/plugins/python/src/visitor.ts:189-214 | After the comment and the indentation, a declaration line starts with `readonly ` under `immutableTypes` and with the name otherwise. It ends with the colon and the type text |
| VisitorProperties.FieldLineShape | packages/plugins/python/src/visitor.ts:180-197 | A field line carries `readonly ` under `immutableTypes` and starts with the name otherwise. Its type is `EntireFieldWrapper<…>` of the rendered text under `wrapEntireDefinitions` and the rendered text otherwise |
| VisitorProperties.InputValueLineShape | packages/plugins/python/src/visitor.ts:199-215 | An input-value line carries `readonly ` under `immutableTypes` and starts with the name otherwise. Its type is always the rendered text, never wrapped, whatever `wrapEntireDefinitions` says |
| VisitorExamples.ImmutableWrappedListField | packages/plugins/python/src/visitor.ts:180-197 | With read-only types and the entire-field wrapper on, a field of type `[X!]` is `readonly name?: EntireFieldWrapper<Maybe<ReadonlyArray<X>>>` |
| VisitorExamples.ImmutableListInputValue | packages/plugins/python/src/visitor.ts:199-215 | Under the same settings, an argument of type `[X!]` is `readonly name?: Maybe<ReadonlyArray<X>>`, without the entire-field wrapper |
| VisitorExamples.RequiredInputValueWithDefault | packages/plugins/python/src/visitor.ts:199-215 | Under the same settings, a non-null argument `X!` with a default is `readonly name?: X` |
| VisitorExamples.TagsUnderImmutableWrapping | packages/plugins/python/src/visitor.ts:162-215 | `tags: [String!]` is `readonly tags?: EntireFieldWrapper<Maybe<ReadonlyArray<String>>>` as a field and `readonly tags?: Maybe<ReadonlyArray<String>>` as an argument |
| VisitorExamples.RequiredScalarField | packages/plugins/python/src/visitor.ts:180-197 | A field of type `X!` under default settings is `name: X`, with no marker and no wrapper |
| VisitorExamples.NullableListOfRequiredField | packages/plugins/python/src/visitor.ts:180-197 | A field of type `[X!]` under default settings is `name?: Maybe<Array<X>>` |
| VisitorExamples.BookExample | packages/plugins/python/src/visitor.ts:162-197 | `type Book { title: String!, tags: [String!] }` gives `title: String` and `tags?: Maybe<Array<String>>` |
| VisitorExamples.ExpandInterfaceI | packages/plugins/python/src/visitor.ts:97-117 | On the example type map, `I` expands to the object types declaring it, `A` then `B` joined by the bar separator, in type-map order. Interface `J` is skipped because only object types are collected. `C` is skipped because its own interface list lacks `I`. GraphQL schema validation would reject that list, since `J` lists `I` |
| VisitorExamples.ExpandInterfaceJ | packages/plugins/python/src/visitor.ts:97-117 | On the example type map, `J` expands to `B` then `C` joined by the bar separator |
| VisitorExamples.NoExpansionForObjectA | packages/plugins/python/src/visitor.ts:97-117 | A name that no object type lists renders as itself even with expansion on |
| PythonVisitor.ImplementorNames | packages/plugins/python/src/visitor.ts:102-110 | No contract; stated by `ImplementorNamesConcat`, `ImplementorNamesMembership` and `ImplementorNamesEmpty` |
| PythonVisitor.TypeForNode | packages/plugins/python/src/visitor.ts:97-117 | No contract; stated by `TypeForNodeCases` and implemented by `GetTypeForNode` |
| PythonVisitor.GetMaybeValue | packages/plugins/python/src/visitor.ts:150-152 | No contract; stated by `MaybeAliasDeterminesMaybeValue` and placed first by `GetWrapperDefinitions` |
| PythonVisitor.GetExactDefinition | packages/plugins/python/src/visitor.ts:138-140 | No contract; the export prefix followed by the `Exact` signature, placed second by `GetWrapperDefinitions` |
| PythonVisitor.GetMakeOptionalDefinition | packages/plugins/python/src/visitor.ts:142-144 | No contract; the export prefix followed by the `MakeOptional` signature, placed third by `GetWrapperDefinitions` |
| PythonVisitor.GetMakeMaybeDefinition | packages/plugins/python/src/visitor.ts:146-148 | No contract; the export prefix followed by the `MakeMaybe` signature, placed fourth by `GetWrapperDefinitions` |
| PythonVisitor.NamedType | packages/plugins/python/src/visitor.ts:162-164 | No contract; stated by `ResolveWrapped`, `NamedPlain` and `ResolveMatchesExpected` |
| PythonVisitor.WrapWithListType | packages/plugins/python/src/visitor.ts:170-172 | No contract; stated by `ListTypeWrapped` and `NonNullListBare` |
| PythonVisitor.ListType | packages/plugins/python/src/visitor.ts:166-168 | No contract; stated by `ListTypeWrapped` and `ResolveWrapped` |
| PythonVisitor.NonNullType | packages/plugins/python/src/visitor.ts:174-178 | No contract; stated by `NonNullStripsOneWrapper` and `NonNullOfWrapped` |
| PythonVisitor.Resolve | packages/plugins/python/src/visitor.ts:162-178 | No contract; the bottom-up traversal, stated by `ResolveMatchesExpected` |
| PythonVisitor.FieldOptional | packages/plugins/python/src/visitor.ts:185 | No contract; stated by `FieldMarker` |
| PythonVisitor.InputValueOptional | packages/plugins/python/src/visitor.ts:201-204 | No contract; stated by `InputValueMarker` and `NonNullInputWithDefaultIsOptional` |
| PythonVisitor.FieldDefinition | packages/plugins/python/src/visitor.ts:180-197 | No contract; stated by `FieldMarker` and `FieldLineShape` |
| PythonVisitor.InputValueDefinition | packages/plugins/python/src/visitor.ts:199-215 | No contract; stated by `InputValueMarker`, `InputValueLineShape` and `NonNullInputWithDefaultIsOptional` |
| PythonVisitor.RenderField | packages/plugins/python/src/visitor.ts:180-197 | No contract; a field's type rendered first, then its line; stated by the field examples |
| PythonVisitor.RenderInputValue | packages/plugins/python/src/visitor.ts:199-215 | No contract; an argument's type rendered first, then its line; stated by the argument examples |
| PythonVisitor.Punctuation | packages/plugins/python/src/visitor.ts:217-219 | No contract; always the empty string |

## Left out

- `packages/plugins/python/src/index.ts`: plumbing that transforms the schema AST, runs graphql-js `visit`, and joins the results with newlines. It has no logic of its own.
- The constructor (visitor.ts:53-92): configuration defaulting (`getConfigValue`, `normalizeAvoidOptionals`), `autoBind`, `setArgumentsTransformer` with `PythonOperationVariablesToObject`, and `setDeclarationBlockConfig`. These are calls into library code that is not part of this model. The parsed configuration is taken as a plain immutable `Config` record.
- `./base-visitor` is not part of this model. Its handlers are assumed to behave as described above.
- `convertName`, `getExportPrefix`, `indent`, `getFieldComment`, `transformComment`, `getFieldWrapperValue` and `getEntireFieldWrapperValue` are library helpers whose definitions are not visible, so they are uninterpreted:
  - `convertName` is a function field;
  - the export prefix, the indentation and the two wrapper definitions are string fields;
  - the comment is a field of `FieldNode`.
- graphql-js schema objects (`getTypeMap`, `GraphQLObjectType`, `getInterfaces`) are replaced by a sequence of `SchemaType` records.
- The enum and union emission switches (`constEnums`, `enumsAsTypes`, `futureProof*` and the rest) are only forwarded to code that is not part of this model.
- `getPunctuation` ignores its `declarationKind` argument and always returns the empty string. `Punctuation` models it without the argument.
- ClearOptionalRoundTrip: requires `s` to be free of line terminators. This is weaker than an unconditional round trip because the pattern's `.` does not match them. GraphQL names cannot contain line terminators, so every reference the visitor meets satisfies this. `ConvertedNamesWithoutLineTerminator` asks the same of the converted implementor names.
- ResolveMatchesExpected: requires `ConvertedNamesWithoutLineTerminator`, for the same reason.
- The case where the leftmost match starts after index 0 is modelled (`FirstMatch`) and stated (`ClearOptionalLeftmost`), but no well-formed reference reaches it.
