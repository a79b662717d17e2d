# JSON Schema draft-02 keyword table, modelled in Dafny

This project models the draft-02 environment of JSV, a JSON Schema validator:
`lib/json-schema-draft-02.js`. That file defines the meta-schema, whose
`properties` table holds one entry per schema keyword. Each entry has a
`parser`, which turns the keyword's value in a schema document into an
attribute, and most have a `validator`, which appends errors to a report.

The model covers five pieces:

- **Type predicates** (`TYPE_VALIDATORS`): module `TypeValidators`.
- **Parsers**: module `Schemas`. `Compile` is the meta-schema's own parser. It produces a
  `Schema` record with one typed attribute per keyword. An absent keyword gets what its
  parser returns for `undefined`, which is the keyword's default.
- **Validators**, written twice:
  - module `Keywords` states what each validator appends, as pure functions of the
    instance, the schema and the parent. `Errors` is the dispatching validator.
  - module `Validator` holds the imperative validators. Each appends to a `Report` object
    in loops, as the source does. Each method is proved to append exactly the
    corresponding `Keywords` sequence.
- **Initializer**: module `Initializer`. It covers the `full`, `describedby`, `extends` and
  `self` steps on a `SchemaObject` class.
- **Hyper-schema `links` parser**: module `HyperLinks`. It filters links by relation and
  expands `{name}` placeholders in each href.

Module `KeywordProperties` proves what each keyword promises:

- the exact error lists of `type`, `disallow`, `enum` and `uniqueItems`;
- what dispatch runs;
- the `optional` check on undefined instances;
- the per-key errors of `additionalProperties`;
- the element-wise behaviour of `items`;
- the bounds.

Module `ParserProperties` states, keyword by keyword, what `Compile` makes of any document:
the attribute each parser builds from each kind of value, and the default when the keyword
is absent.

Module `Findings` models two passages as written. Each differs from the evident intent.

JSON values are a datatype. Numbers are exact reals. Objects are member sequences in key
order, and a missing property is the `Undefined` instance. The regular-expression engine
and the table of format validators are the `Host` parameter.

## Model

| member | source | states |
|---|---|---|
| TypeValidators.TypeHolds | lib/json-schema-draft-02.js:58-90 | `any` holds for every instance; `integer` holds exactly for integral numbers; every other registered name holds exactly when getType() reports that name |
| TypeValidators.KeyNameRegistered | lib/json-schema-draft-02.js:670-672 | a registered type name is looked up only for the string of that name, however deeply wrapped in one-element arrays, or for a bare `null` under "null"; booleans, numbers, objects, longer arrays and a wrapped `null` never reach a predicate |
| JsonInstance.EqualReflexive | lib/json-schema-draft-02.js:562-572 | every parsed JSON value (distinct keys) is equal to itself under deep equality |
| Keywords.ValidatorOf | lib/json-schema-draft-02.js:745-765 | only names the meta-schema declares select a validator; every validationRequired name has one |
| Keywords.PushUnique | lib/json-schema-draft-02.js:751-755 | pushUnique keeps every earlier name, adds the new one, adds nothing else, and changes nothing when the name is already there |
| KeywordProperties.DispatchedNames | lib/json-schema-draft-02.js:745-765 | dispatch runs exactly the schema's keys plus `optional`, and runs each once when the keys are distinct |
| KeywordProperties.RunNamesAppend | lib/json-schema-draft-02.js:757-764 | running the names `a + b` appends the errors of `a` and then those of `b` |
| KeywordProperties.RunSingleName | lib/json-schema-draft-02.js:757-764 | running one name appends what that name's validator appends |
| KeywordProperties.UnknownNameIgnored | lib/json-schema-draft-02.js:757-764 | a name without a declared validator contributes nothing, wherever it appears |
| KeywordProperties.ErrorsDispatch | lib/json-schema-draft-02.js:745-765 | validation appends the keys' errors in key order, then the `optional` check unless `optional` is itself a key |
| KeywordProperties.TwoKeywords | lib/json-schema-draft-02.js:745-765 | for a defined instance and a schema with two keys (neither `optional`), validation appends the first key's errors and then the second's |
| KeywordProperties.KeywordOnUndefined | lib/json-schema-draft-02.js:258-262 | on an undefined instance only `optional` can report, unless the schema has a pattern, an enum or an extends |
| KeywordProperties.NameOnUndefined | lib/json-schema-draft-02.js:258-262 | on an undefined instance of a quiet schema, a name reports the `optional` check if it is `optional`, else nothing |
| KeywordProperties.UndefinedRun | lib/json-schema-draft-02.js:745-765 | running distinct names on an undefined instance reports exactly the `optional` check when `optional` is among them, else nothing |
| KeywordProperties.UndefinedErrors | lib/json-schema-draft-02.js:258-262 | an undefined instance fails such a schema with exactly one `optional` error iff `optional` is false |
| KeywordProperties.DefinedNeverMissing | lib/json-schema-draft-02.js:258-262 | a defined instance never fails `optional` |
| KeywordProperties.EmptyDocumentCompiles | lib/json-schema-draft-02.js:729-743 | the document `{}` compiles to the empty schema, every attribute at its parser's default |
| Schemas.Compile | lib/json-schema-draft-02.js:729-743 | a document that is not an object compiles to the empty schema; an object keeps its keys, in order, as the schema's names |
| ParserProperties.CompileType | lib/json-schema-draft-02.js:107-125 | a document's `type` becomes its name, its compiled schema, or its array mapped element by element; absent or scalar it is the empty schema's "any" |
| ParserProperties.CompileProperties | lib/json-schema-draft-02.js:172-186 | a document's `properties` object declares its keys in order, each with its value compiled; otherwise the empty schema's none |
| ParserProperties.CompileItems | lib/json-schema-draft-02.js:210-220 | a document's `items` is one compiled schema, a tuple of compiled schemas of the array's length, or the empty schema's default |
| ParserProperties.CompileFlags | lib/json-schema-draft-02.js:254-256 | `optional` and `uniqueItems` hold iff the document's value is truthy; absent, both are false as in the empty schema |
| ParserProperties.CompileAdditional | lib/json-schema-draft-02.js:272-280 | a document's additionalProperties is a compiled schema, false exactly for the literal false, else the empty schema's default |
| ParserProperties.CompileRequires | lib/json-schema-draft-02.js:306-312 | a document's `requires` string names a sibling, its object is a compiled schema, and any other value requires nothing, as the empty schema |
| ParserProperties.CompileUpperBounds | lib/json-schema-draft-02.js:333-337 | a document's minimum, maximum, maxItems and maxLength are bounds exactly when they are numbers, with those values; absent, none, as in the empty schema |
| ParserProperties.CompileCanEqual | lib/json-schema-draft-02.js:379-385 | minimumCanEqual and maximumCanEqual are false exactly for the literal false; otherwise inclusive, as in the empty schema |
| ParserProperties.CompileLowerBounds | lib/json-schema-draft-02.js:409-415 | a document's minItems and minLength are the number given or 0, and divisibleBy the number given or 1, the empty schema's values |
| ParserProperties.CompilePattern | lib/json-schema-draft-02.js:479-487 | a document's `pattern` is set exactly for a string, with that source, compiled iff the engine accepts it; absent, none |
| ParserProperties.CompileEnum | lib/json-schema-draft-02.js:556-560 | a document's `enum` is set exactly for an array, to that array; otherwise none, as in the empty schema |
| ParserProperties.CompileFormat | lib/json-schema-draft-02.js:589-593 | a document's `format` is set exactly for a string, to that name; otherwise none |
| ParserProperties.CompileDisallow | lib/json-schema-draft-02.js:653-657 | a document's `disallow` string becomes a list of one, its array the list; anything else disallows nothing |
| ParserProperties.CompileExtends | lib/json-schema-draft-02.js:700-708 | a document's `extends` is one compiled schema, or a list of compiled schemas of the array's length; any other value extends nothing |
| KeywordProperties.EmptySchemaValidates | lib/json-schema-draft-02.js:291-292 | validating against the empty schema reports only the missing-instance check, so every defined value passes it |
| KeywordProperties.TypeAcceptedFrom | lib/json-schema-draft-02.js:136-153 | the scan over the type list accepts iff some alternative accepts: a schema reporting no errors, an unregistered name, or a predicate that holds |
| KeywordProperties.TypeErrorsSpec | lib/json-schema-draft-02.js:127-161 | `type` appends exactly one error, carrying the type list, iff the instance is defined, the list is non-empty and no alternative accepts; otherwise nothing, and a failed schema alternative's own errors never appear |
| KeywordProperties.UnknownTypeAccepts | lib/json-schema-draft-02.js:145-151 | a type name with no registered predicate makes `type` accept |
| KeywordProperties.SchemaAlternativeAccepts | lib/json-schema-draft-02.js:138-143 | an instance valid against a schema alternative passes `type` |
| KeywordProperties.DisallowFromExists | lib/json-schema-draft-02.js:668-682 | the scan finds a match iff some entry names a registered predicate that holds |
| KeywordProperties.DisallowErrorsSpec | lib/json-schema-draft-02.js:659-689 | `disallow` appends exactly one error iff the instance is defined and some registered disallowed predicate holds; otherwise nothing |
| KeywordProperties.DisallowUnregistered | lib/json-schema-draft-02.js:670-675 | names without a predicate never cause a `disallow` error |
| KeywordProperties.DisallowEntryMatches | lib/json-schema-draft-02.js:670-675 | a disallow entry matches iff it names (possibly wrapped in one-element arrays) a registered type the instance has, or is a bare `null` and the instance is null |
| KeywordProperties.PropertiesFromContains | lib/json-schema-draft-02.js:188-201 | every error from validating a declared property's value against its schema appears in the `properties` errors |
| KeywordProperties.OptionalRuns | lib/json-schema-draft-02.js:757-764 | a list of dispatched names that includes `optional` reports at least the `optional` check's errors |
| KeywordProperties.MissingReported | lib/json-schema-draft-02.js:258-262 | whatever its other keywords, a schema that is not optional reports an undefined instance with its `optional` error |
| KeywordProperties.MissingPropertyReported | lib/json-schema-draft-02.js:188-201 | a declared, non-optional property absent from the object is reported with its schema's `optional` error, whatever else that schema holds |
| KeywordProperties.UndeclaredMembers | lib/json-schema-draft-02.js:289-290 | the keys checked against additionalProperties are exactly the own keys that `properties` does not declare |
| KeywordProperties.AdditionalFalseFrom | lib/json-schema-draft-02.js:289-297 | with additionalProperties false, the scan from a member on appends one error per undeclared key after it |
| KeywordProperties.AdditionalFalseErrors | lib/json-schema-draft-02.js:282-299 | with additionalProperties false, an object gets exactly one `additionalProperties` error per own key that `properties` does not declare |
| KeywordProperties.AdditionalDeclaredFrom | lib/json-schema-draft-02.js:289-297 | from a member on, keys that are all declared contribute nothing |
| KeywordProperties.ExtraMembersSpec | lib/json-schema-draft-02.js:289-290 | the members checked against additionalProperties are exactly the own members whose keys `properties` does not declare |
| KeywordProperties.AdditionalUndeclaredFrom | lib/json-schema-draft-02.js:289-297 | from a member on, the scan appends, in order, the additionalProperties check of each later undeclared member and nothing for declared ones |
| KeywordProperties.AdditionalOnlyUndeclared | lib/json-schema-draft-02.js:282-299 | on any object, additionalProperties appends exactly the checks of the undeclared members in order: each validated against the additionalProperties schema, or one error each when it is false; declared keys are never checked against it |
| KeywordProperties.ItemsFromClean | lib/json-schema-draft-02.js:230-244 | the element scan reports nothing iff no element from that point on reports anything |
| KeywordProperties.ItemsSchemaClean | lib/json-schema-draft-02.js:240-243 | in single-schema form, an array passes `items` iff every element passes that schema with the array as parent |
| KeywordProperties.ElementClean | lib/json-schema-draft-02.js:230-238 | in tuple form, element k is clean iff it passes `items[k]` within the tuple, or `additionalProperties` past it (its schema, always for the empty schema, never for false) |
| KeywordProperties.ItemsTupleClean | lib/json-schema-draft-02.js:230-238 | in tuple form, at any array length, an array passes iff every element within the tuple passes its own schema and every surplus element passes `additionalProperties`; with additionalProperties false, any surplus element fails |
| KeywordProperties.ItemsSurplus | lib/json-schema-draft-02.js:231-237 | in tuple form with additionalProperties false, each element past the tuple yields one `additionalProperties` error |
| KeywordProperties.RowFromSpec | lib/json-schema-draft-02.js:464-468 | one row of the scan reports exactly the later positions whose elements equal element x |
| KeywordProperties.PairsFromSpec | lib/json-schema-draft-02.js:463-469 | the rows from x on report exactly the pairs p < q (p at least x) of equal elements |
| KeywordProperties.RowFromOrdered | lib/json-schema-draft-02.js:464-468 | one row reports its pairs in strictly increasing order of the second position |
| KeywordProperties.PairsFromOrdered | lib/json-schema-draft-02.js:463-469 | the rows from x on report their pairs in strictly increasing scan order, row by row |
| KeywordProperties.UniqueErrorsSpec | lib/json-schema-draft-02.js:459-471 | with uniqueItems set, the errors are exactly the index pairs x < y of equal elements, with detail {x, y}, each reported once, in scan order |
| KeywordProperties.DistinctRow | lib/json-schema-draft-02.js:464-468 | a row whose element differs from every later one reports nothing |
| KeywordProperties.DistinctPairs | lib/json-schema-draft-02.js:463-469 | pairwise distinct elements from x on report nothing |
| KeywordProperties.DistinctItemsPass | lib/json-schema-draft-02.js:459-471 | an array of pairwise distinct elements never fails uniqueItems |
| KeywordProperties.RepeatedItemReported | lib/json-schema-draft-02.js:459-471 | a value repeated at positions p < q is reported as the pair (p, q) |
| KeywordProperties.EnumFromExists | lib/json-schema-draft-02.js:565-569 | the scan over the enum list finds the instance iff it is defined and equals some listed value |
| KeywordProperties.EnumErrorsSpec | lib/json-schema-draft-02.js:562-572 | `enum` appends exactly one error iff the instance equals none of the listed values; an absent enum appends nothing |
| KeywordProperties.EnumAcceptsListed | lib/json-schema-draft-02.js:562-572 | every listed value passes `enum` |
| KeywordProperties.DivisibleByMultiple | lib/json-schema-draft-02.js:634-644 | for a divisor other than 0 and 1, a number passes iff it is an integer multiple of the divisor |
| KeywordProperties.DivisibleByZeroAndOne | lib/json-schema-draft-02.js:634-644 | divisor 0 rejects every number with one error; divisor 1 accepts every number |
| KeywordProperties.MinimumSchema | lib/json-schema-draft-02.js:339-348 | a number fails `minimum` iff it is below the bound, or equals it while minimumCanEqual is false; the error carries the bound |
| KeywordProperties.MinimumNames | lib/json-schema-draft-02.js:339-348 | the name minimum selects the lower-bound check; minimumCanEqual has no validator of its own |
| KeywordProperties.MaximumSchema | lib/json-schema-draft-02.js:361-370 | a number fails `maximum` iff it is above the bound, or equals it while maximumCanEqual is false |
| KeywordProperties.MaximumNames | lib/json-schema-draft-02.js:361-370 | the name maximum selects the upper-bound check; maximumCanEqual has no validator of its own |
| KeywordProperties.MinimumInclusiveByDefault | lib/json-schema-draft-02.js:379-385 | without minimumCanEqual the bound itself passes |
| KeywordProperties.CountNames | lib/json-schema-draft-02.js:417-447 | the names minItems and maxItems select the array-length checks |
| KeywordProperties.CountSchema | lib/json-schema-draft-02.js:417-447 | an array fails minItems iff its length is below the bound, and maxItems iff above, in that order |
| KeywordProperties.LengthNames | lib/json-schema-draft-02.js:518-547 | the names minLength and maxLength select the string-length checks |
| KeywordProperties.LengthSchema | lib/json-schema-draft-02.js:518-547 | a string fails minLength iff its length is below the bound, and maxLength iff above, in that order |
| KeywordProperties.BoundsOwnTypeOnly | lib/json-schema-draft-02.js:188-471 | numeric bounds apply only to numbers; count, uniqueness and `items` only to arrays; length only to strings; `properties` and additionalProperties only to objects; uniqueItems checks nothing unless set |
| JsonInstance.GetProperty | lib/json-schema-draft-02.js:319 | property access is total: an object's member, an array's element under its index name or its length under "length", and undefined for every other name and every other value |
| JsonInstance.IndexOfDecimal | lib/json-schema-draft-02.js:319 | every array index is found under String(index), its canonical decimal name; ArrayIndex accepts only such names and reads back the index |
| KeywordProperties.RequiresSiblingSpec | lib/json-schema-draft-02.js:314-326 | a sibling requirement reports one error naming the sibling iff the parent lacks that property: no such member in an object; neither that element index nor "length" in an array |
| KeywordProperties.RequiresArrayIndex | lib/json-schema-draft-02.js:316-320 | with the array itself as parent, as under `items`, a requirement naming String(i) is met iff i is an index of the array |
| KeywordProperties.RequiresSchemaSpec | lib/json-schema-draft-02.js:322-323 | a schema requirement validates the parent against it, with no parent of its own |
| KeywordProperties.RequiresNeedsBoth | lib/json-schema-draft-02.js:316 | `requires` checks nothing without a defined instance and a defined parent |
| KeywordProperties.PatternSpec | lib/json-schema-draft-02.js:489-501 | `pattern` appends at most one error: always for an expression that did not compile, else iff a string does not match |
| KeywordProperties.FormatSpec | lib/json-schema-draft-02.js:595-606 | `format` reports a string iff its format is registered and the format's validator rejects it; unknown formats never fail |
| KeywordProperties.ExtendsFromClean | lib/json-schema-draft-02.js:715-719 | a list of extensions reports nothing iff each extension accepts the instance with the same parent |
| KeywordProperties.ExtendsClean | lib/json-schema-draft-02.js:710-721 | the instance passes `extends` iff it passes every extended schema |
| Validator.Report.constructor | lib/json-schema-draft-02.js:139-140 | a fresh report holds no errors |
| Validator.Report.AddError | lib/json-schema-draft-02.js:156 | addError appends exactly one error and changes nothing else |
| Validator.Validate | lib/json-schema-draft-02.js:745-765 | the dispatch loop appends exactly `Errors`: each key, then each missing validationRequired name, through its validator |
| Validator.RunName | lib/json-schema-draft-02.js:757-763 | one dispatch step appends exactly what the name's validator appends |
| Validator.ValidateKeyword | lib/json-schema-draft-02.js:759-762 | calling a keyword's validator appends exactly that keyword's errors |
| Validator.ValidateType | lib/json-schema-draft-02.js:127-161 | appends exactly `TypeErrors`: one error carrying the type list when the instance is defined, the list non-empty and the scan finds no accepting alternative; otherwise the report is unchanged |
| Validator.AcceptsType | lib/json-schema-draft-02.js:136-153 | the loop over the alternatives returns true exactly when some alternative accepts, stopping at the first |
| Validator.AltAccepted | lib/json-schema-draft-02.js:138-151 | one alternative accepts iff it is a schema whose validation on a fresh subreport reports nothing, or a name whose type predicate holds or is not registered |
| Validator.ValidateDisallow | lib/json-schema-draft-02.js:659-689 | the disallow loop appends exactly `DisallowErrors` |
| Validator.ValidateProperties | lib/json-schema-draft-02.js:188-201 | the properties loop appends exactly `PropertiesErrors` |
| Validator.ValidateEmpty | lib/json-schema-draft-02.js:240-243 | validating against the empty schema appends exactly its `optional` check |
| Validator.ValidateItems | lib/json-schema-draft-02.js:222-246 | the items loop appends exactly `ItemsErrors` |
| Validator.ValidateElement | lib/json-schema-draft-02.js:230-243 | one element is validated against the schema `items` gives it |
| Validator.ValidateAdditional | lib/json-schema-draft-02.js:282-299 | the additionalProperties loop appends exactly `AdditionalErrors` |
| Validator.ValidateOptional | lib/json-schema-draft-02.js:258-262 | appends exactly `OptionalErrors` |
| Validator.ValidateRequires | lib/json-schema-draft-02.js:314-326 | appends exactly `RequiresErrors` |
| Validator.ValidateMinimum | lib/json-schema-draft-02.js:339-348 | appends exactly `MinimumErrors` |
| Validator.ValidateMaximum | lib/json-schema-draft-02.js:361-370 | appends exactly `MaximumErrors` |
| Validator.ValidateDivisibleBy | lib/json-schema-draft-02.js:634-644 | appends exactly `DivisibleByErrors` |
| Validator.ValidateMinItems | lib/json-schema-draft-02.js:417-425 | appends exactly `MinItemsErrors` |
| Validator.ValidateMaxItems | lib/json-schema-draft-02.js:439-447 | appends exactly `MaxItemsErrors` |
| Validator.ValidateUnique | lib/json-schema-draft-02.js:459-471 | the nested pairwise loop appends exactly `UniqueErrors` |
| Validator.ScanRow | lib/json-schema-draft-02.js:464-468 | the inner loop appends exactly one row of pair errors |
| Validator.ValidatePattern | lib/json-schema-draft-02.js:489-501 | appends exactly `PatternErrors` |
| Validator.ValidateMinLength | lib/json-schema-draft-02.js:518-525 | appends exactly `MinLengthErrors` |
| Validator.ValidateMaxLength | lib/json-schema-draft-02.js:539-547 | appends exactly `MaxLengthErrors` |
| Validator.ValidateFormat | lib/json-schema-draft-02.js:595-606 | appends exactly `FormatErrors` |
| Validator.ValidateEnum | lib/json-schema-draft-02.js:562-572 | the enum loop appends exactly `EnumErrors` |
| Validator.ValidateExtends | lib/json-schema-draft-02.js:710-721 | appends exactly `ExtendsErrors` |
| Initializer.SchemaObject.constructor | lib/json-schema-draft-02.js:791 | createSchema gives an object with the merged document, the describing schema and the URI |
| Initializer.Resolve | lib/json-schema-draft-02.js:770-795 | the loop either returns the registered `full` target, or stops with neither a `full` nor a `describedby` link applying, its describing schema rebound only to registered schemas; a single `extends` schema yields a fresh object holding the merge |
| Initializer.Initialize | lib/json-schema-draft-02.js:767-804 | the result is the `full` target unchanged, or the settled object taking its `self` link's URI; without links or extends the instance is returned unchanged |
| HyperLinks.FirstClose | lib/json-schema-draft-02.js:831 | finds the first closing brace from a position on |
| HyperLinks.Placeholder | lib/json-schema-draft-02.js:831 | a placeholder match starts with `{`, ends at the first `}` and has a non-empty name |
| HyperLinks.ExpandText | lib/json-schema-draft-02.js:831-834 | text without `{` passes through href expansion unchanged |
| HyperLinks.ExpandNoClose | lib/json-schema-draft-02.js:831-834 | text without `}`, a stray `{` included, holds no placeholder and is kept unchanged |
| HyperLinks.ExpandHole | lib/json-schema-draft-02.js:831-834 | a `{name}` placeholder is replaced by the lookup of that name |
| HyperLinks.ExpandRender | lib/json-schema-draft-02.js:831-834 | expanding a template substitutes exactly its placeholders and keeps its text |
| HyperLinks.PresentPropertyTarget | lib/json-schema-draft-02.js:831-835 | an href that is one placeholder for a property the instance has yields String() of that property, resolved unless it is empty |
| HyperLinks.FilterAppend | lib/json-schema-draft-02.js:821-825 | filtering a concatenation filters each part and keeps their order |
| HyperLinks.FilterSingle | lib/json-schema-draft-02.js:821-825 | a single link is kept, once, exactly when its `rel` is the relation |
| HyperLinks.FilterNone | lib/json-schema-draft-02.js:821-825 | links none of which has the relation are all dropped |
| HyperLinks.FilterLast | lib/json-schema-draft-02.js:821-825 | the last link kept is the last link of the relation in the list |
| HyperLinks.ParseLinks | lib/json-schema-draft-02.js:817-840 | without an instance the parser returns link objects, with one their targets; without a relation it keeps every link |
| HyperLinks.ParseFilteredTargets | lib/json-schema-draft-02.js:821-836 | with a relation and an instance, the hrefs are the targets of the links of that relation, one each, in their order |
| HyperLinks.ParseLastTarget | lib/json-schema-draft-02.js:821-836 | with a relation and an instance, the last href is the target of the last link of that relation |
| HyperLinks.FilterMembers | lib/json-schema-draft-02.js:821-825 | a truthy `rel` keeps exactly the links of that relation |
| HyperLinks.FilterAll | lib/json-schema-draft-02.js:821-825 | filtering returns the list unchanged iff every link has that relation |
| HyperLinks.ParseFilters | lib/json-schema-draft-02.js:821-825 | with a relation and no instance, the parser returns the filtered list itself, whose members are exactly the links of that relation |
| HyperLinks.ParseTargets | lib/json-schema-draft-02.js:827-836 | with an instance, the i-th target is the i-th template filled from the instance, resolved unless it came out empty |
| HyperLinks.AbsentPropertyEmptyTarget | lib/json-schema-draft-02.js:831-835 | an href that is one placeholder for an absent property yields the empty target, unresolved |
| Findings.InheritedNameSlipsThrough | lib/json-schema-draft-02.js:290 | `{"constructor": 1}` with additionalProperties false passes as written but is reported by the corrected validator |
| Findings.AsWrittenAgreesFrom | lib/json-schema-draft-02.js:289-297 | the scans as written and corrected agree when no key is an inherited name |
| Findings.AsWrittenAgrees | lib/json-schema-draft-02.js:282-299 | the validators as written and corrected agree on objects without inherited names as keys |
| Findings.LineEnd | lib/json-schema-draft-02.js:831 | `.` matches up to the first line terminator |
| Findings.LastClose | lib/json-schema-draft-02.js:831 | finds the last closing brace before a bound |
| Findings.GreedyPlaceholder | lib/json-schema-draft-02.js:831 | the as-written match starts with `{` and ends at the LAST `}` before the first line terminator, with at least one character between; with no `}` there, nothing matches |
| Findings.TwoPlaceholdersMerge | lib/json-schema-draft-02.js:831 | `{a}/{b}` as written makes one lookup of `a}/{b`; corrected, it looks up `a` and `b` |
| Findings.TwoPlaceholdersDiffer | lib/json-schema-draft-02.js:831 | the two expansions of `{a}/{b}` differ |
| Findings.NoPlaceholderAgrees | lib/json-schema-draft-02.js:831 | hrefs without `{` come out unchanged both as written and corrected |

## Left out

- I/O, the environment bootstrap and the global registration of the three draft-02 schemas (lib/json-schema-draft-02.js:54-56, 807-958) are not modelled. The meta-schema's keyword table appears only as constants (`DeclaredKeywords`, `ValidationRequired`).
- Draft02.php is bootstrap wiring for another runtime and is not part of this model.
- The regular-expression engine is the `Host` parameter: whether a source compiles, and whether it matches a string. The `try`/`catch` around a pattern test that throws is not modelled.
- The table of format validators is the `Host.formats` map. A format validator's own additions to the report are not modelled.
- Human-readable message strings are left out. An error keeps the instance, the schema, the keyword tag and the detail value.
- TypeValidators.TypeHolds: `integer` is an exact "integral number" test. The source looks for a "." in the number's decimal text, which differs for exponent forms: `1e-7` prints without a ".", so the source calls it an integer and the model does not.
- DivisibleByErrors is exact real arithmetic, not the IEEE `(value / divisor) % 1` test. An explicit divisor of 1 accepts every number, fractions included, as the source does.
- String lengths count code points, not UTF-16 code units.
- Property-key coercion of `disallow` entries models strings, `null`, booleans and nested one-element arrays (`KeyName`). Other values cannot name a registered predicate. A `type` entry is first parsed into a `TypeAlt` (null, booleans and numbers read as "any") and its name is then taken by `Keywords.AltName`.
- Only the dispatch path of the `properties` parser is modelled. Its `arg` form, which compiles the schema of one named property, is not.
- The `parentSchema` argument is left out. No validator in the table reads it.
- The external helpers of the unseen jsv module are parameters or fresh objects:
  - `createSchema` makes a fresh `SchemaObject`; registration and recursive initialization are left out;
  - `mergeSchemas` and `clone` are the `merge` parameter;
  - `resolveURI` and `formatURI` together are the `resolve` parameter;
  - `getLink` is the `LinkOf` parameter;
  - `String()` is the `show` parameter.
- Initializer.Resolve: the source loops forever when `describedby` links form a cycle. The model stops after `fuel` rebindings with the outcome `Unsettled`.
- Initializer.Extension: the `extends` attribute is read from the instance's own document and the raw `extends` document is what gets merged. The source (lib/json-schema-draft-02.js:788) clones the built extension's `_value`, which for a `$ref` schema (lib/json-schema-draft-02.js:897) is the referenced document. Re-parsing `extends` under a rebound describing schema is not modelled either.
- Schemas.Compile: for a document that is not an object the source keeps the raw value (lib/json-schema-draft-02.js:742), so every attribute reads as undefined. The model uses the empty schema instead. Both dispatch only `optional`, which treats undefined as false.
- Schemas.Compile: nested schemas (lib/json-schema-draft-02.js:114, 180, 212, 274, 310, 702) are compiled without the initializer, although `createSchema` runs it on each. So a nested `{"$ref": ...}` validates as a schema with no keywords, and a nested `extends` is never merged.
- JsonInstance.GetProperty: names inherited from the prototypes (`constructor`, `toString`, an array's `push`, ...) are undefined in the model, where `value[key]` finds them; and indexing into a string value, with its "length", is not modelled. An array index is any canonical decimal name below the length; the 2^32 - 1 bound on JavaScript indices never matters, as no array is that long.
- HyperLinks.ParseLinks: links are records with an optional relation and a string href. A link without an href, on which the source throws, is not modelled, and neither is `toArray` of a value that is not an array.
- KeywordProperties.MinimumSchema, MaximumSchema, LengthSchema and CountSchema are stated over compiled schemas whose keys and attributes are given, not over literal documents. CountSchema and LengthSchema assume both bounds are present.
- Findings.PrototypeNames leaves out `__proto__`: whether it shows up as a declared name depends on how the unseen `mapObject` of jsv copies keys, which is not part of this model.

## Findings

| source | as written | input that shows it | evidently intended | confidence | as-written member | corrected member |
|---|---|---|---|---|---|---|
| lib/json-schema-draft-02.js:290 | `!propertySchemas[key]` treats every name inherited from Object.prototype (`constructor`, `toString`, ...) as declared, without the `!== O[key]` guard used elsewhere | `{"constructor": 1}` against `{"additionalProperties": false}` gives no error | one error per own key that `properties` does not declare (Keywords.AdditionalErrors) | not executed | Findings.InheritedNameSlipsThrough | KeywordProperties.AdditionalFalseErrors |
| lib/json-schema-draft-02.js:831 | the greedy `/\{(.+)\}/g` runs each placeholder to the last `}` on the line | href `{a}/{b}` makes one lookup of the name `a}/{b` | each `{name}` replaced separately, as `/\{([^}]+)\}/g` does (HyperLinks.Expand) | not executed | Findings.TwoPlaceholdersMerge | HyperLinks.ExpandRender |
