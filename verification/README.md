# Verified models of the `common/` layer

A Dafny model of the string compilers, parsers, transducers and the log queue in the `common/` layer that
this repository carries, and of the factor algebra of the LoRA converter, with proofs of what they promise.
`dafny verify dfyconfig.toml` checks everything.

Where the source updates things in place the model does too: a class or a loop is proved against a function,
and what the source promises is proved about that function. Where a promise does not hold for all inputs, the
exact condition under which it holds is proved, with an input that breaks it.

| files | what they model |
|---|---|
| Basics, Gbnf, Decimals | shared types; grammar expressions and what they accept; digit strings as numbers |
| IntRange | integer ranges as grammar rules (`build_min_max_int`, `uniform_range`), bounds out of order included |
| RuleStore, ObjectRule, ObjectTexts, NotStrings | `_add_rule`; the object rule with its chain of "-rest" rules, also in terms of texts; excluded keys |
| Pattern, PatternMeaning, PatternStray | translation of regular expressions, its meaning, and when it never ends |
| Primitives, Schema, SchemaNames, SchemaClosed, SchemaRefs, SchemaEndless, SchemaConverter, JsonText | the built-in rules; `visit` with `$ref`, `allOf` and all keywords, as functions and as the converter object; the closed grammar; references that share a name; conversions that never return |
| SchemaObjects, SchemaGuarded, SchemaChoices, SchemaAccepts, SchemaLimits | what converted schemas accept, keyword by keyword; the names no schema can take |
| PrimitiveTexts, ValueTexts, SchemaTypes | the languages of the built-in rules, JSON values among them; schemas of a type or a format |
| LogRing | the asynchronous log: ring, growth, pause and resume, one worker and many producers as atomic steps |
| Lora, LoraRows, LoraShapes | `LoraTorchTensor`: indexing by tuples and by one bare index, reshape, permute, transpose, stack and cat on the factors |
| ToolStream, StreamGrowth, CallScripts, ReplyMeaning, BareValues, MsgDiff, QuoteNorm | the tool-call mapper, the message differ and its client; the quote normaliser and the brace counter |
| DiffSplit, DiffSegments, DiffTight | marker segments and the two-ended diff split |
| JsonHeal, JsonHealing, JsonDocuments, JsonKept | the SAX stack, the closing text and the healing of truncated JSON |
| Utf8, LineEditor, EditorLaws, EditorObject | UTF-8 scanning; the line editor on values, laws of its keys, and the editor as the program runs it |
| Base64, Base64Bits, Escapes, Csv | base64, in-place unescaping, CSV rows |

Results that correct an expectation:

- A lower or upper bound alone is not always exact: `IntRange.MinAloneExact` and `IntRange.MaxAloneExact` give
  the condition on the bound's digits. Two further corners of the int64 sentinels are `ThrowsExactly` and
  `SentinelCollision`; bounds out of order seldom give an empty rule (`EmptyRangeExact`).
- With the empty key excluded the empty key is what is accepted, and an excluded key can get in by an escape:
  `NotStrings.ExcludedExact` and `SpellingExact`.
- A stray closing bracket keeps the pattern compiler busy for ever: `PatternStray.DivergesExact`.
- References that share a name share a rule: `SchemaRefs.SecondLook` and `SecondDocumentLost`.
- "allOf" members that come back to themselves are collected for ever: `SchemaEndless.NeverReturns`.
- A property with the empty key takes the grammar's root for itself, and one whose key escapes to the name of a
  built-in rule with "-" in it takes that name: `SchemaAccepts.EmptyKeyIsRoot` and `SchemaTypes.DashedTaken`; no
  other built-in name can be taken (`SchemaGuarded.ConversionGuarded`).
- The empty schema accepts objects alone: `SchemaTypes.TypeConverts`.
- Limits out of order: a maximum of 0 or 1 items, or of 0 characters, wins over a greater minimum:
  `SchemaChoices.ArrayAccepts` and `SchemaAccepts.LengthAccepts`.
- The end marker of `pause` needs two free slots: `LogRing.PauseReturnsIff` and `FullRingReached`.
- A bare slice can leave nothing of a shared factor: `LoraRows.GetRowsExact` and `SharedFactorLost`.
- The diff split can compare a consumed segment again: `DiffSplit.SplitExact` and `RepeatedMarkerLost`.
- Healing drops a constant at the end of the text that no longer word begins with: `JsonKept.DroppedWord` and
  `ConstantDropped`.
- A bare argument value can make the differ throw while it is being written: `BareValues.BareGrowsExact` and
  `BareValuesThrow`.
- Enter right after a completion can drop a byte of the line: `LineEditor.FinishExact` and `CompletionLosesByte`.

## Model

| member | source | states |
|---|---|---|
| IntRange.TwoSidedExact | app/src/main/cpp/llama/common/json-schema-to-grammar.cpp:72-155 | With both bounds given, the range rule accepts exactly the decimal numerals of the integers between them, and besides them only "-0", when the lower bound is negative and the upper is not. |
| IntRange.UniformExact | app/src/main/cpp/llama/common/json-schema-to-grammar.cpp:72-126 | `uniform_range(from, to)` accepts exactly the digit strings of that length lexicographically between the two. |
| IntRange.NonnegativeExact | app/src/main/cpp/llama/common/json-schema-to-grammar.cpp:143-154 | The length-by-length alternatives accept exactly the numerals of the integers of a non-negative interval. |
| IntRange.MinAloneExact | app/src/main/cpp/llama/common/json-schema-to-grammar.cpp:157-206 | A lower bound alone (below 10^15) is exact up to 16 digits if and only if it is negative or no digit but the first and the last is 0 or 1; otherwise the dropped leading zeros of the remainder show. |
| IntRange.MaxAloneExact | app/src/main/cpp/llama/common/json-schema-to-grammar.cpp:209-222 | An upper bound alone (above -10^15) is exact if and only if it is non-negative, or its numeral starts with 1, has a second digit and no 0 or 1 strictly inside. |
| IntRange.LowerBoundLarge | app/src/main/cpp/llama/common/json-schema-to-grammar.cpp:184-205 | What a single lower bound accepts is decided by the first digit, or by the remainder read again as a number when the first digit equals the bound's. |
| IntRange.LeadingZeroDropped | app/src/main/cpp/llama/common/json-schema-to-grammar.cpp:197 | Reading a remainder that starts with 0 as a number loses at least one digit: the cause of the inexact bounds. |
| IntRange.ThrowsExactly | app/src/main/cpp/llama/common/json-schema-to-grammar.cpp:157-225 | The "at least one of min_value or max_value" exception is thrown exactly when neither bound is given, or for the lower bound 1 - 2^63 alone. |
| IntRange.SentinelCollision | app/src/main/cpp/llama/common/json-schema-to-grammar.cpp:128-141 | For every upper bound, negative ones included, the lower bound 1 - 2^63 together with it rejects an integer of the interval, because its negation means "no bound". |
| IntRange.EmptyRangeExact | app/src/main/cpp/llama/common/json-schema-to-grammar.cpp:72-155 | With both bounds given and the lower one above the upper one, the rule accepts nothing if and only if the two are of one sign and their digits differ in the last one alone; otherwise it accepts some text although no integer is meant. |
| IntRange.TenToFive | app/src/main/cpp/llama/common/json-schema-to-grammar.cpp:72-155 | From 10 down to 5: "12" is accepted. |
| IntRange.BuildMinMaxInt | app/src/main/cpp/llama/common/json-schema-to-grammar.cpp:44-226 | The recursive writer with its case split on signs and missing bounds builds the expression `MinMax`, error included. |
| IntRange.UniformRange | app/src/main/cpp/llama/common/json-schema-to-grammar.cpp:72-126 | The common-prefix loop of `uniform_range` and the split behind it build `Uniform`. |
| IntRange.NonnegativeRange | app/src/main/cpp/llama/common/json-schema-to-grammar.cpp:143-154 | The loop over numeral lengths builds `Nonnegative`. |
| RuleStore.AddRule | app/src/main/cpp/llama/common/json-schema-to-grammar.cpp:324-337 | `_add_rule` never changes an existing binding, returns a key that is bound to the given rule, and adds at most that key. |
| RuleStore.AddRuleStable | app/src/main/cpp/llama/common/json-schema-to-grammar.cpp:324-337 | Asked again against any later table, it returns the same key and changes nothing. |
| RuleStore.FirstAvailable | app/src/main/cpp/llama/common/json-schema-to-grammar.cpp:330-336 | The counter stops at the first number whose key is free or already holds the rule; it always stops. |
| RuleStore.Store.Add | app/src/main/cpp/llama/common/json-schema-to-grammar.cpp:324-337 | The in-place table update with its counting loop does what `AddRule` says. |
| ObjectRule.ObjectExact | app/src/main/cpp/llama/common/json-schema-to-grammar.cpp:665-716 | The object rule accepts exactly the objects whose keys are the required ones in order, then an ordered choice of the optional ones, each pair one that its own rule accepts, commas only between pairs. |
| ObjectRule.PicksAreSubsequences | app/src/main/cpp/llama/common/json-schema-to-grammar.cpp:665-716 | When no property is called "*", those choices are a subsequence of the optional properties followed by any number of additional keys. |
| ObjectRule.EmptyObject | app/src/main/cpp/llama/common/json-schema-to-grammar.cpp:665-716 | "{}" is accepted if and only if nothing is required. |
| ObjectRule.LinearChain | app/src/main/cpp/llama/common/json-schema-to-grammar.cpp:679-706 | All alternatives share one chain of "-rest" rules: at most one new rule for each optional key but the last. |
| ObjectRule.ChainReused | app/src/main/cpp/llama/common/json-schema-to-grammar.cpp:679-699 | Written again against any later table a chain is the same expression and adds no rule. |
| ObjectRule.GetRecursiveRefs | app/src/main/cpp/llama/common/json-schema-to-grammar.cpp:679-699 | The recursive writer of the chain, adding rules in place, builds `RecursiveRefs`. |
| ObjectRule.BuildObjectRule | app/src/main/cpp/llama/common/json-schema-to-grammar.cpp:665-716 | The loops over required and optional keys build `ObjectExpr` and leave exactly its rule table. |
| ObjectTexts.SpaceExact | app/src/main/cpp/llama/common/json-schema-to-grammar.cpp:228 | White space is nothing, one blank, or one or two newlines with up to twenty blanks and tabs behind them. |
| ObjectTexts.ObjectWithExact | app/src/main/cpp/llama/common/json-schema-to-grammar.cpp:665-716 | An object with given keys is braces around its pairs, commas between them, white space behind each brace and comma. |
| ObjectTexts.PicksArePositions | app/src/main/cpp/llama/common/json-schema-to-grammar.cpp:679-706 | The choices of optional keys are the keys at increasing positions; only that of "*" may be repeated. |
| NotStrings.BodyExact | app/src/main/cpp/llama/common/json-schema-to-grammar.cpp:550-609 | For every list of excluded strings and every text: once some excluded string is not empty, the rule accepts between its quotes the empty text iff it is not excluded, and the texts that leave the excluded strings at some point, by a character other than a quote that none of them has there or behind the end of one that no other continues, with written string characters behind it; otherwise the empty text alone. |
| NotStrings.PlainExact | app/src/main/cpp/llama/common/json-schema-to-grammar.cpp:550-609 | A non-empty plain text is accepted iff it is no prefix, proper or whole, of an excluded string. |
| NotStrings.ExcludedExact | app/src/main/cpp/llama/common/json-schema-to-grammar.cpp:550-609 | No excluded key written plainly is accepted if and only if none is excluded or one of them is not empty. |
| NotStrings.EmptyKeyAccepted | app/src/main/cpp/llama/common/json-schema-to-grammar.cpp:550-609 | With the empty key alone excluded, it is the one key accepted. |
| NotStrings.SpellingExact | app/src/main/cpp/llama/common/json-schema-to-grammar.cpp:550-609 | Which spellings of an excluded key pass: exactly those with an escape whose first backslash leaves the excluded strings with written characters behind it, or, when that backslash is still inside one of them, that leave them later. |
| NotStrings.EscapedKeys | app/src/main/cpp/llama/common/json-schema-to-grammar.cpp:550-609 | With "a" excluded its spelling \u0061 is accepted; with a quote excluded its spelling \" is rejected. |
| NotStrings.LoneBackslash | app/src/main/cpp/llama/common/json-schema-to-grammar.cpp:550-609 | A lone backslash, which no JSON string holds, is accepted between the quotes exactly when some excluded string is not empty and none begins with a backslash. |
| NotStrings.TrieSpells | app/src/main/cpp/llama/common/json-schema-to-grammar.cpp:552-571 | The trie spells exactly the prefixes of the strings put in. |
| NotStrings.VisitNode | app/src/main/cpp/llama/common/json-schema-to-grammar.cpp:575-600 | The recursive visit with its loop over children and the collected `rejects` builds `Visit`. |
| NotStrings.BuildNotStrings | app/src/main/cpp/llama/common/json-schema-to-grammar.cpp:567-608 | Inserting the strings one by one and visiting the trie builds `NotStringsExpr`. |
| PatternMeaning.TranslationExact | app/src/main/cpp/llama/common/json-schema-to-grammar.cpp:348-540 | For every regular expression over literals, the dot, groups, alternation, star, plus, question mark and "{m,n}" with m <= n, translating its anchored written form ends, only adds rules, and gives a rule that accepts exactly the quoted strings the expression matches. |
| PatternMeaning.LiteralStops | app/src/main/cpp/llama/common/json-schema-to-grammar.cpp:505-534 | The look-ahead of the literal scan: a literal of several characters is never followed by an operator that binds to it. |
| PatternMeaning.MergedSame | app/src/main/cpp/llama/common/json-schema-to-grammar.cpp:380-410 | Joining consecutive literals changes nothing a sequence accepts. |
| PatternStray.DivergesExact | app/src/main/cpp/llama/common/json-schema-to-grammar.cpp:412-538 | The translation never ends if and only if the pattern is anchored and a scan over its brackets and operators, without any rules or items, comes to a closing square or curly bracket without its partner. |
| PatternStray.StrayDiverges | app/src/main/cpp/llama/common/json-schema-to-grammar.cpp:412-538 | Such a bracket behind any regular expressions of the fragment, at the top level or in any number of groups still open, makes the translation go on for ever, whatever follows. |
| Pattern.PatternVisitor.Transform | app/src/main/cpp/llama/common/json-schema-to-grammar.cpp:412-538 | The inner loop over the shared index, with its nested call for groups, does what `Loop` says. |
| Pattern.PatternVisitor.Curly | app/src/main/cpp/llama/common/json-schema-to-grammar.cpp:455-504 | Reading "{m,n}" replaces the last item by its repetition, or leaves the covered fragment, as `Loop` says. |
| Pattern.PatternVisitor.ScanLiteral | app/src/main/cpp/llama/common/json-schema-to-grammar.cpp:505-534 | The literal loop takes exactly the characters up to `LiteralEnd`. |
| Pattern.VisitPattern | app/src/main/cpp/llama/common/json-schema-to-grammar.cpp:348-540 | The whole translation, anchors included, gives `Translate`. |
| Primitives.PrimitiveClosed | app/src/main/cpp/llama/common/json-schema-to-grammar.cpp:718-735 | Adding a built-in rule adds all rules it depends on: the table is as closed as before. |
| SchemaClosed.ConversionClosed | app/src/main/cpp/llama/common/json-schema-to-grammar.cpp:824-995 | However the references go round, a conversion that halts for no reason (no error, nothing left uncovered, no loop) gives a grammar in which every name used is defined and "root" is defined. |
| SchemaAccepts.ObjectConverts | app/src/main/cpp/llama/common/json-schema-to-grammar.cpp:855-875 | The grammar of an object schema accepts from its root exactly the objects whose keys are the listed ones that are required, as they are listed, then an ordered choice of the other listed ones, then additional ones if allowed, each value one that the rule of its own sub-schema accepts. The rule is called "root" unless a property has the empty key. |
| SchemaAccepts.ObjectAccepts | app/src/main/cpp/llama/common/json-schema-to-grammar.cpp:625-716 | The same wherever in a schema an object schema is visited, under whatever name and in whatever state, in the finished grammar of the whole conversion. |
| SchemaObjects.ObjectSchemaMeans | app/src/main/cpp/llama/common/json-schema-to-grammar.cpp:625-716 | The same for every grammar that keeps the rules added: keys by their JSON texts, and additional keys any JSON strings, or those that leave the listed ones. |
| SchemaAccepts.AllOfConverts | app/src/main/cpp/llama/common/json-schema-to-grammar.cpp:877-925 | The grammar of an "allOf" that ends accepts exactly the constants its members give as many times as there are members, if there are any; otherwise exactly the objects of all properties that the members list, wherever their references lead, those of members that must hold required, each value by the last schema for its key. |
| SchemaAccepts.AllOfAccepts | app/src/main/cpp/llama/common/json-schema-to-grammar.cpp:877-925 | The same wherever an "allOf" is visited. |
| SchemaAccepts.ClosedObject | app/src/main/cpp/llama/common/json-schema-to-grammar.cpp:855-875 | Without properties and with "additionalProperties": false nothing but an empty object is accepted. |
| SchemaAccepts.EmptyKeyIsRoot | app/src/main/cpp/llama/common/json-schema-to-grammar.cpp:636-646 | With the empty key first, whatever its schema and the other properties are, the grammar's root is the rule of that key's value. |
| SchemaAccepts.EmptyKeyTakesRoot | app/src/main/cpp/llama/common/json-schema-to-grammar.cpp:827 | {"properties": {"": {"const": c}}} accepts from its root c and white space, and no object. |
| SchemaGuarded.ConversionGuarded | app/src/main/cpp/llama/common/json-schema-to-grammar.cpp:259-276 | Whatever the keys, types, references and patterns of a schema, the finished grammar binds "space" and each built-in name without "-" to its own rule, if at all. |
| SchemaTypes.DashedTaken | app/src/main/cpp/llama/common/json-schema-to-grammar.cpp:324-337 | After a first property "integral part" with a constant, whatever follows, the rule for integers accepts that constant, with a minus sign or without, and nothing else. |
| SchemaTypes.TypeConverts | app/src/main/cpp/llama/common/json-schema-to-grammar.cpp:981-994 | A schema that says no more than a type, or nothing, accepts from the grammar's root exactly the values of that type: objects, arrays, strings, numbers, integers, booleans, null, any value, UUIDs; the empty schema accepts objects. |
| SchemaTypes.TypeAccepts | app/src/main/cpp/llama/common/json-schema-to-grammar.cpp:981-994 | The same wherever such a schema is visited, as long as no property has taken the name of a part of numbers. |
| ValueTexts.ValueExact | app/src/main/cpp/llama/common/json-schema-to-grammar.cpp:235-248 | The rule "value" accepts exactly the JSON values, nested to any depth, with numbers of up to sixteen digits in each part. |
| ValueTexts.ContainersExact | app/src/main/cpp/llama/common/json-schema-to-grammar.cpp:242-243 | "object" accepts exactly the JSON objects and "array" exactly the JSON lists. |
| PrimitiveTexts.NumberExact | app/src/main/cpp/llama/common/json-schema-to-grammar.cpp:239 | A number is a sign or none, an integral part without needless zeros, a fraction or none, and an exponent or none. |
| PrimitiveTexts.IntegerExact | app/src/main/cpp/llama/common/json-schema-to-grammar.cpp:240 | An integer is a sign or none and up to sixteen digits without needless zeros. |
| PrimitiveTexts.StringExact | app/src/main/cpp/llama/common/json-schema-to-grammar.cpp:246 | A string is any characters of a JSON string between quotes. |
| PrimitiveTexts.BooleanExact | app/src/main/cpp/llama/common/json-schema-to-grammar.cpp:236 | "true" or "false". |
| PrimitiveTexts.NullExact | app/src/main/cpp/llama/common/json-schema-to-grammar.cpp:247 | "null". |
| PrimitiveTexts.UuidExact | app/src/main/cpp/llama/common/json-schema-to-grammar.cpp:244 | Between quotes, 36 characters, hexadecimal digits and hyphens behind 8, 12, 16 and 20 of them. |
| PrimitiveTexts.DateExact | app/src/main/cpp/llama/common/json-schema-to-grammar.cpp:251 | Four digits, a month from 01 to 12 and a day from 01 to 31. |
| PrimitiveTexts.TimeExact | app/src/main/cpp/llama/common/json-schema-to-grammar.cpp:252 | Hours below 24, minutes and seconds below 60, thousandths or none, and "Z" or an offset. |
| PrimitiveTexts.DateTimeExact | app/src/main/cpp/llama/common/json-schema-to-grammar.cpp:253 | A date, "T" and a time. |
| SchemaTypes.UuidAccepts | app/src/main/cpp/llama/common/json-schema-to-grammar.cpp:949-951 | The formats "uuid" and "uuid1" to "uuid5" accept the quoted UUIDs. |
| SchemaTypes.DateAccepts | app/src/main/cpp/llama/common/json-schema-to-grammar.cpp:952-955 | The format "date" accepts the quoted dates. |
| SchemaTypes.TimeAccepts | app/src/main/cpp/llama/common/json-schema-to-grammar.cpp:952-955 | The format "time" accepts the quoted times. |
| SchemaTypes.DateTimeAccepts | app/src/main/cpp/llama/common/json-schema-to-grammar.cpp:952-955 | The format "date-time" accepts the quoted dates with times, as long as no property has taken its name. |
| SchemaAccepts.LengthAccepts | app/src/main/cpp/llama/common/json-schema-to-grammar.cpp:956-961 | A string schema with limits accepts the JSON strings with an allowed number of written characters; a maximum of 0 allows none, whatever the minimum. |
| SchemaLimits.RangeAccepts | app/src/main/cpp/llama/common/json-schema-to-grammar.cpp:962-980 | An integer schema with both limits accepts the numerals between them, and "-0" if they lie on both sides of 0. |
| SchemaLimits.PatternAccepts | app/src/main/cpp/llama/common/json-schema-to-grammar.cpp:946-948 | A pattern of the fragment accepts the quoted strings it matches, whatever other keywords there are. |
| SchemaChoices.ConstantAccepts | app/src/main/cpp/llama/common/json-schema-to-grammar.cpp:845-847 | "const" accepts that constant alone. |
| SchemaChoices.EnumAccepts | app/src/main/cpp/llama/common/json-schema-to-grammar.cpp:848-854 | "enum" accepts exactly the constants listed; an empty list accepts white space. |
| SchemaChoices.ChoiceAccepts | app/src/main/cpp/llama/common/json-schema-to-grammar.cpp:832-844 | "oneOf", "anyOf" and a list of types accept what the rule of one of the alternatives accepts; none at all, the empty text. |
| SchemaChoices.ReferenceAccepts | app/src/main/cpp/llama/common/json-schema-to-grammar.cpp:611-623 | A reference accepts what the rule of its name accepts if there is one or it is being resolved, and otherwise what the schema it stands for accepts. |
| SchemaChoices.ArrayAccepts | app/src/main/cpp/llama/common/json-schema-to-grammar.cpp:926-945 | An array schema accepts the lists with an allowed number of items, each accepted by the item's rule; with a list of schemas, the lists with one item for each, in order. For limits out of order a maximum of 0 or 1 wins. |
| SchemaEndless.NeverReturns | app/src/main/cpp/llama/common/json-schema-to-grammar.cpp:877-914 | A conversion whose schema leads into a ring of "allOf" members, each of which comes back to the ring through its properties, or through references that never end, never returns; one that never returns has such a ring behind its schema or behind one of the references. |
| SchemaEndless.ReturnsWithoutRings | app/src/main/cpp/llama/common/json-schema-to-grammar.cpp:877-914 | Without such a ring, and without references that only name one another, every conversion returns, however the references go round. |
| SchemaEndless.CirclesExact | app/src/main/cpp/llama/common/json-schema-to-grammar.cpp:877-914 | Visiting comes back to an "allOf" member that is being visited exactly when it leads into a set of references that never leaves itself. |
| SchemaEndless.AllOfSelfNeverReturns | app/src/main/cpp/llama/common/json-schema-to-grammar.cpp:877-914 | With #/$defs/A holding a property that is an "allOf" of #/$defs/A, the conversion of that "allOf" never returns. |
| SchemaClosed.VisitGood | app/src/main/cpp/llama/common/json-schema-to-grammar.cpp:824-995 | Each visit keeps the table closed but for the names of the references being resolved, and gives a key that is in the table; for a schema with sub-schemas its own name is defined. |
| SchemaClosed.ResolveGood | app/src/main/cpp/llama/common/json-schema-to-grammar.cpp:611-623 | Resolving a reference keeps the table closed but for the promised names and gives a name that is defined or promised. |
| SchemaRefs.LooksExact | app/src/main/cpp/llama/common/json-schema-to-grammar.cpp:611-623 | What a reference stands for makes a difference exactly when no rule has its name and it is not being resolved. |
| SchemaRefs.SecondLook | app/src/main/cpp/llama/common/json-schema-to-grammar.cpp:611-623 | For all references a and b: after a has been resolved, b is looked at if and only if it has another name, no rule has its name and it is not being resolved; when a stands for a type or format with a rule of its own no name is taken, and b is looked at if and only if it was before. |
| SchemaRefs.SecondIgnored | app/src/main/cpp/llama/common/json-schema-to-grammar.cpp:611-623 | The second of two references with one name gives the rule of the first, whatever it stands for. |
| SchemaRefs.NamesAlike | app/src/main/cpp/llama/common/json-schema-to-grammar.cpp:612-615 | Two references have one name whenever their fragments differ in nothing but the characters between the parts, whatever documents they name. |
| SchemaRefs.ClashingNames | app/src/main/cpp/llama/common/json-schema-to-grammar.cpp:612-615 | #/$defs/a_b and #/$defs/a.b have one name. |
| SchemaRefs.SecondDocumentLost | app/src/main/cpp/llama/common/json-schema-to-grammar.cpp:611-623 | Either of https://one#/x and https://two#/x converts to the same grammar whatever the second document holds. |
| SchemaClosed.LoopsExact | app/src/main/cpp/llama/common/json-schema-to-grammar.cpp:882-884 | Following the references of an "allOf" member never ends exactly when they never lead out of a set of references. |
| SchemaClosed.AllOfGood | app/src/main/cpp/llama/common/json-schema-to-grammar.cpp:877-925 | An "allOf" whose members end in schemas gives an expression over defined names, by shared constants or by one object of all members' properties. |
| SchemaClosed.SeparatedExact | app/src/main/cpp/llama/common/json-schema-to-grammar.cpp:17-42 | The repetition with a separator accepts exactly the lists of a permitted number of items, separators only between them. |
| SchemaNames.PatternClosed | app/src/main/cpp/llama/common/json-schema-to-grammar.cpp:348-540 | Whatever the pattern, a translation that succeeds uses defined or promised rules only. |
| SchemaNames.ObjectClosed | app/src/main/cpp/llama/common/json-schema-to-grammar.cpp:665-716 | The object rule and its chain use the pairs' rules, the space rule and each other. |
| Schema.Chase | app/src/main/cpp/llama/common/json-schema-to-grammar.cpp:882-884 | Following a member ends at a schema that is no reference, with the last reference on the way, at one that is unknown, or finds that it goes round; the source has no such test and would go on. |
| SchemaConverter.Converter.ResolveRef | app/src/main/cpp/llama/common/json-schema-to-grammar.cpp:611-623 | The guard set is extended, the schema visited and the set restored, as `Schema.ResolveRef` says. |
| SchemaConverter.Converter.Visit | app/src/main/cpp/llama/common/json-schema-to-grammar.cpp:824-844 | The dispatch over the keywords updates the rule table in place as `Schema.Visit` says. |
| SchemaConverter.Converter.VisitAs | app/src/main/cpp/llama/common/json-schema-to-grammar.cpp:845-945 | The same for a schema of a fixed type. |
| SchemaConverter.Converter.VisitAlternatives | app/src/main/cpp/llama/common/json-schema-to-grammar.cpp:339-346 | The union loop visits the alternatives in order under their numbered names. |
| SchemaConverter.Converter.VisitProperties | app/src/main/cpp/llama/common/json-schema-to-grammar.cpp:635-650 | The property loop adds one pair rule for each property, in order. |
| SchemaConverter.Converter.BuildObject | app/src/main/cpp/llama/common/json-schema-to-grammar.cpp:625-716 | Properties, additional properties and the object rule, in this order, as `Schema.VisitObject` gives them; what that accepts is `SchemaAccepts.ObjectAccepts`. |
| SchemaConverter.Converter.VisitAllOf | app/src/main/cpp/llama/common/json-schema-to-grammar.cpp:877-925 | Members are collected first, then the constants or the object are written, as `Schema.VisitAllOf` gives them; what that accepts is `SchemaAccepts.AllOfAccepts`. Where the source would go on for ever that is recorded instead. |
| SchemaConverter.Converter.VisitLeaf | app/src/main/cpp/llama/common/json-schema-to-grammar.cpp:946-994 | Patterns, formats, lengths, integer ranges and primitive types. |
| SchemaConverter.Converter.AddPrimitive | app/src/main/cpp/llama/common/json-schema-to-grammar.cpp:718-735 | The recursive addition of a built-in rule and its dependencies ends and gives the table of `Primitives.AddPrimitive`. |
| LogRing.NothingLost | app/src/main/cpp/llama/common/log.cpp:172-343 | Over every interleaving of producers, worker and controller from a fresh log: what was sent while running is what was printed, then the message being printed, then the ring, in order and each once, ring doubling included; the file holds what was printed while it was open. |
| LogRing.RunKeepsInv | app/src/main/cpp/llama/common/log.cpp:172-343 | Every run of enabled steps keeps the invariant (the end marker of a pause finding two free slots) and the record of accepted messages grows by exactly those sent while running. |
| LogRing.StepKeepsInv | app/src/main/cpp/llama/common/log.cpp:172-343 | Every single atomic step keeps the invariant. |
| LogRing.PauseDrains | app/src/main/cpp/llama/common/log.cpp:283-305 | When pause returns the ring is empty, everything accepted has been printed and written, and no worker exists. |
| LogRing.ChangesOnlyWhenStopped | app/src/main/cpp/llama/common/log.cpp:307-343 | The file and the colours change only while no worker exists, nothing is running and the ring is empty. |
| LogRing.RequestsObeyed | app/src/main/cpp/llama/common/log.cpp:307-343 | After any run the file and the colours are those of the last completed request, and every line was printed with the file that the last request completed before it asked for. |
| LogRing.RequestSets | app/src/main/cpp/llama/common/log.cpp:307-343 | From the call of `set_file` or `set_colors` to behind its return, over all runs between: the one is then as asked, the other as before. |
| LogRing.RequestCompletes | app/src/main/cpp/llama/common/log.cpp:307-343 | Every request whose end marker finds room can be carried out: some run, without another request, ends with the log running and the file or the colours as asked. |
| LogRing.PauseProgresses | app/src/main/cpp/llama/common/log.cpp:283-305 | While pause waits some step is possible, and every step of the worker brings it nearer to its exit. |
| LogRing.MarkerKeptIff | app/src/main/cpp/llama/common/log.cpp:293-299 | The end marker joins the queue if and only if two slots are free. |
| LogRing.PauseReturnsIff | app/src/main/cpp/llama/common/log.cpp:283-305 | From every state of a running log, some run ends the pause if and only if two slots are free when it is called; otherwise no run whatever does. |
| LogRing.FullRingDeadlocks | app/src/main/cpp/llama/common/log.cpp:293-304 | With a single free slot everything queued is gone and the pause is stuck, whether the worker waits or prints. |
| LogRing.FullRingReached | app/src/main/cpp/llama/common/log.cpp:172-305 | Any capacity - 1 messages to a new log whose worker has taken none make the ring full: pausing then loses them all and never returns. |
| LogRing.AddedContents | app/src/main/cpp/llama/common/log.cpp:172-248 | Adding appends one entry to the queue, whether or not the ring is doubled. |
| LogRing.TakenContents | app/src/main/cpp/llama/common/log.cpp:262-268 | Taking removes the oldest entry. |
| LogRing.CommonLog.AddMessage | app/src/main/cpp/llama/common/log.cpp:172-248 | `add` on the object is the step on values, discarding while paused. |
| LogRing.CommonLog.Grow | app/src/main/cpp/llama/common/log.cpp:224-245 | The do-while that moves the entries doubles the ring: old contents first, fresh entries behind. |
| LogRing.CommonLog.WorkerTake | app/src/main/cpp/llama/common/log.cpp:262-268 | One pass of the worker up to the unlock is the step `Take`. |
| LogRing.CommonLog.Pause | app/src/main/cpp/llama/common/log.cpp:283-302 | The locked part of `pause` is the step `CallPause`. |
| LogRing.CommonLog.Resume | app/src/main/cpp/llama/common/log.cpp:250-281 | `resume` is the step `Resume`. |
| Lora.GetItemCommutes | app/src/main/cpp/llama/convert_lora_to_gguf.py:78-115 | Slicing commutes with the product B.A for every tuple of slices and integers that cuts A only where its batch axes broadcast, negative integers and all slice forms included. |
| Lora.GetItemValidIff | app/src/main/cpp/llama/convert_lora_to_gguf.py:78-115 | The sliced factors broadcast as before if and only if only broadcast batch axes of A are cut. |
| Lora.GetItemShape | app/src/main/cpp/llama/convert_lora_to_gguf.py:78-125 | The reported shape of the sliced pair is the sliced shape. |
| LoraRows.GetRowsExact | app/src/main/cpp/llama/convert_lora_to_gguf.py:68-77 | A bare integer fails on matrices, and outside a batch axis on which A broadcasts; after a bare slice the factors are a well-formed pair if and only if A has the axis in full, keeps its one position, or nothing is left of B. |
| LoraRows.GetRowsCommutes | app/src/main/cpp/llama/convert_lora_to_gguf.py:68-77 | Whenever they are, indexing by a bare integer or slice commutes with the product. |
| LoraRows.RowsAreIndexed | app/src/main/cpp/llama/convert_lora_to_gguf.py:68-77 | A bare index is that index followed by full slices. |
| LoraRows.SharedFactorLost | app/src/main/cpp/llama/convert_lora_to_gguf.py:73-77 | Of a batch of four that shares one matrix A, the last two alone have none left. |
| Lora.ReshapeCommutes | app/src/main/cpp/llama/convert_lora_to_gguf.py:131-155 | Whenever reshape succeeds and A has no real batch axes, the product of the new factors is the reshaped product, -1 included. |
| LoraShapes.ReshapeSucceeds | app/src/main/cpp/llama/convert_lora_to_gguf.py:131-155 | For factors that are not empty, reshape succeeds if and only if A has no real batch axes and the shape, of at least two axes, stands for one with the same row length and as many elements; one -1 stands for any number, several only for 1. The result then has that shape. |
| LoraShapes.PermuteSucceeds | app/src/main/cpp/llama/convert_lora_to_gguf.py:163-174 | Permute succeeds if and only if the axes are a permutation, negative ones counted from the end, that keeps the last one while A has no real batch axes or swaps the two of a matrix; the product is then permuted that way. |
| Lora.ReshapeNeedsOnes | app/src/main/cpp/llama/convert_lora_to_gguf.py:131-155 | For factors that are not empty, reshape succeeds only if A has no real batch axes. |
| Lora.PermuteCommutes | app/src/main/cpp/llama/convert_lora_to_gguf.py:163-174 | Whenever permute is carried out, the product of the new factors is the permuted product. |
| Lora.TransposeInvolutive | app/src/main/cpp/llama/convert_lora_to_gguf.py:176-180 | 2-D transpose succeeds, transposes the product, and doing it twice gives the factors back. |
| Lora.StackCommutes | app/src/main/cpp/llama/convert_lora_to_gguf.py:196-206 | Stacking on axis 0 commutes with the product. |
| Lora.CatCommutes | app/src/main/cpp/llama/convert_lora_to_gguf.py:207-222 | Concatenating matrices that share A concatenates the products. |
| StreamGrowth.StepGrowsIff | app/src/main/cpp/llama/common/chat-peg-parser.cpp:234-407 | Every event keeps the state's invariant, and the message only grows by appending if and only if the event is a growing one. |
| StreamGrowth.TextGrows | app/src/main/cpp/llama/common/chat-peg-parser.cpp:234-407 | The same event with more text gives a message that grows the one with less; a name may get longer by more than white space. |
| StreamGrowth.NameGrowsExact | app/src/main/cpp/llama/common/chat-peg-parser.cpp:277-292 | Under two names for one call the message grows exactly when the trimmed name does. |
| StreamGrowth.ViewGrows | app/src/main/cpp/llama/common/chat-peg-parser.cpp:217-407 | A parse of more of the reply delivers a message that grows the one delivered before. |
| StreamGrowth.StreamingLosesNothing | app/src/main/cpp/llama/common/chat.cpp:149-215 | Along every growing sequence of parses the differ never throws, and adding up its deltas rebuilds every message. |
| StreamGrowth.FlushIsIdle | app/src/main/cpp/llama/common/chat-peg-parser.cpp:224-232 | In a state events can reach, the final flush has nothing to do. |
| CallScripts.ReplyRuns | app/src/main/cpp/llama/common/chat-peg-parser.cpp:217-407 | Every reply of texts, reasoning and tagged calls, names before or after the arguments, maps to exactly its message; the closed arguments are the JSON object of the escaped pairs. |
| CallScripts.ReplyStreams | app/src/main/cpp/llama/common/chat.cpp:149-215 | However such a reply is cut into growing parses, nothing throws, every message is rebuilt, and the last is the message of the reply. |
| CallScripts.CallRuns | app/src/main/cpp/llama/common/chat-peg-parser.cpp:234-407 | One call adds exactly itself to the message, whatever was being done before. |
| CallScripts.ArgumentsReadBack | app/src/main/cpp/llama/common/chat-peg-parser.cpp:70-76 | Read as JSON, the closed arguments are exactly the given keys and values in order. |
| ReplyMeaning.ReplyMeans | app/src/main/cpp/llama/common/chat-peg-parser.cpp:217-407 | From any state a reply of texts, reasoning and tagged calls delivers what its characters mean: names, ids, keys and values by their characters, each in its own place and order, and closed arguments that read as JSON the keys and values in order. |
| ReplyMeaning.StreamMeans | app/src/main/cpp/llama/common/chat-peg-parser.cpp:217-407 | And so does the last message of every stream that such a reply is cut into. |
| ReplyMeaning.ValueExact | app/src/main/cpp/llama/common/chat-peg-parser.cpp:11-37 | The value of an argument is the text without one white-space character at each end, if there is one, and everything else of it. |
| ReplyMeaning.KeyExact | app/src/main/cpp/llama/common/chat-peg-parser.cpp:309-313 | A key loses one white-space character in front and all behind. |
| ReplyMeaning.NameExact | app/src/main/cpp/llama/common/chat-peg-parser.cpp:277-279 | A name loses the white space behind it and nothing else. |
| ReplyMeaning.IdExact | app/src/main/cpp/llama/common/chat-peg-parser.cpp:269-275 | An id loses the white space behind it, and then the quotes around it if there are any. |
| ReplyMeaning.ObjectCallRuns | app/src/main/cpp/llama/common/chat-peg-parser.cpp:294-300 | Arguments given as one object with closed braces are delivered as they stand, white space behind them taken off. |
| ReplyMeaning.BareWrites | app/src/main/cpp/llama/common/chat-peg-parser.cpp:322-375 | A bare value is written as the text inside one white-space character at either end if that reads as anything but a string, and as a JSON string otherwise; lists and objects are read with their quotes normalised. |
| BareValues.BareGrowsExact | app/src/main/cpp/llama/common/chat-peg-parser.cpp:322-375 | For all states of an open call and all texts of a bare value, one beginning the other: the message grows if and only if both are quoted or neither is and, quoted, one begins the other; in lists and objects, iff both are written raw or neither is and no escaped single quote is cut. |
| BareValues.BareViewsExact | app/src/main/cpp/llama/common/chat.cpp:149-215 | Over whole parses that differ in the text of the last value the deltas are computed and add up if and only if the same holds. |
| BareValues.BareValuesThrow | app/src/main/cpp/llama/common/chat-peg-parser.cpp:337-374 | "tru" then "true", "1" then "1x", and an opening quote then the whole string: each time the differ throws. |
| BareValues.NormalizedGrows | app/src/main/cpp/llama/common/chat-peg-parser.cpp:83-160 | What the quote normaliser gives for a text begins what it gives for a longer one if and only if the text does not end behind a backslash before a single quote. |
| ToolStream.Mapper.Map | app/src/main/cpp/llama/common/chat-peg-parser.cpp:234-407 | The mapper object's handling of an event is the step on values. |
| ToolStream.Mapper.MapValue | app/src/main/cpp/llama/common/chat-peg-parser.cpp:322-375 | A value extends the arguments through `args_target` as `Step` says. |
| ToolStream.Mapper.MapClose | app/src/main/cpp/llama/common/chat-peg-parser.cpp:384-406 | Closing adds the owed quote and the missing braces and delivers the call. |
| ToolStream.Mapper.FromAst | app/src/main/cpp/llama/common/chat-peg-parser.cpp:217-232 | Walking all events and flushing gives `Flush` of `Run`. |
| ToolStream.TrimTrailingSpace | app/src/main/cpp/llama/common/chat-peg-parser.cpp:11-21 | At most the given number of trailing spaces is removed. |
| ToolStream.TrimLeadingSpace | app/src/main/cpp/llama/common/chat-peg-parser.cpp:23-33 | At most the given number of leading spaces is removed. |
| MsgDiff.DiffsExact | app/src/main/cpp/llama/common/chat.cpp:149-215 | The deltas are computed and add up to the new message if and only if the new message grows the old one. |
| MsgDiff.ThrowsExactly | app/src/main/cpp/llama/common/chat.cpp:50-63 | No delta is computed exactly when two texts are not comparable, a call was lost, or the last call's name changed to something that does not extend it. |
| MsgDiff.StreamRebuilds | app/src/main/cpp/llama/tests/test-chat.cpp:893-917 | The accumulating client ends each step with the parsed message if and only if every message grows the one before. |
| MsgDiff.GrowsTransitive | app/src/main/cpp/llama/common/chat.cpp:149-215 | Growing composes. |
| MsgDiff.ComputeDiffs | app/src/main/cpp/llama/common/chat.cpp:149-215 | The branch-by-branch construction of the delta list gives `Diffs`, error cases included. |
| QuoteNorm.NormalizesToJson | app/src/main/cpp/llama/common/chat-peg-parser.cpp:83-160 | For every tree of dictionaries, lists, strings and plain words printed Python-style with any choice of quotes, the normaliser returns its JSON printing, and leaves that printing as it is. |
| QuoteNorm.JsonTextBalanced | app/src/main/cpp/llama/common/chat-peg-parser.cpp:41-67 | The brace counter gives 0 on every such JSON printing. |
| QuoteNorm.NormalizeQuotesToJson | app/src/main/cpp/llama/common/chat-peg-parser.cpp:83-160 | The loop over quote flags, with its skipped characters, gives `Normalized`. |
| QuoteNorm.JsonBraceDepth | app/src/main/cpp/llama/common/chat-peg-parser.cpp:41-67 | The loop over string and escape flags gives `Depth`. |
| DiffSplit.SegmentsConcatBack | app/src/main/cpp/llama/common/chat-auto-parser-helpers.cpp:252-282 | The segments concatenate back to the text. |
| DiffSplit.SegmentsShaped | app/src/main/cpp/llama/common/chat-auto-parser-helpers.cpp:252-282 | Every marker runs from an opener to the first closer of its kind, text holds no opener unless one never closes, and there is no segment only for the empty text. |
| DiffSegments.SegmentsExact | app/src/main/cpp/llama/common/chat-auto-parser-helpers.cpp:252-282 | The segments of a text are the only ones that concatenate back to it, are markers up to their first closer and texts without openers, and leave no text beside another but a last marker that never closes. |
| DiffSplit.SplitExact | app/src/main/cpp/llama/common/chat-auto-parser-helpers.cpp:85-190 | prefix+left+suffix and prefix+right+suffix are the two texts if and only if the loop does not leave a side whose last segment it has taken while a segment of the other side equals it. |
| DiffTight.SplitTight | app/src/main/cpp/llama/common/chat-auto-parser-helpers.cpp:85-190 | A split of two different texts that loses nothing leaves nothing they share at an end: the segments taken agree at both ends, the next ones differ, and at ends that are text the longest common suffix and then the longest common prefix have been taken off character by character. |
| DiffTight.SameText | app/src/main/cpp/llama/common/chat-auto-parser-helpers.cpp:85-190 | The same text twice is all prefix. |
| DiffTight.LoneMarkerLast | app/src/main/cpp/llama/common/chat-auto-parser-helpers.cpp:139-163 | A lone marker that the other text both begins and ends with is taken for its end. |
| DiffSplit.LosslessWithoutRepeats | app/src/main/cpp/llama/common/chat-auto-parser-helpers.cpp:85-190 | Whenever neither text repeats a segment the split is lossless. |
| DiffSplit.RepeatedMarkerLost | app/src/main/cpp/llama/common/chat-auto-parser-helpers.cpp:139-163 | For all distinct markers, "ab" against "acbb" is split wrongly: the first text is said to end in "bb". |
| DiffSplit.LoopCovered | app/src/main/cpp/llama/common/chat-auto-parser-helpers.cpp:112-137 | The two-ended loop itself never loses or repeats a segment. |
| DiffSplit.SegmentizeMarkers | app/src/main/cpp/llama/common/chat-auto-parser-helpers.cpp:252-282 | The scan with its last border and marker flag gives `Segments`. |
| DiffSplit.MatchEnds | app/src/main/cpp/llama/common/chat-auto-parser-helpers.cpp:100-163 | The loop over four iterators and two flags, and the single-segment cases behind it, give the final state. |
| DiffSplit.CalculateDiffSplit | app/src/main/cpp/llama/common/chat-auto-parser-helpers.cpp:85-190 | The whole split, every exit path included, gives `Split`. |
| DiffSplit.PrefixLength | app/src/main/cpp/llama/common/chat-auto-parser-helpers.cpp:67-74 | The common prefix length, and no longer one. |
| DiffSplit.SuffixLength | app/src/main/cpp/llama/common/chat-auto-parser-helpers.cpp:76-83 | The common suffix length. |
| JsonDocuments.DocumentHeals | app/src/main/cpp/llama/common/json-partial.cpp:160-298 | A JSON document cut anywhere inside a container, also inside a string, a number or a word, heals to a document that contains the marker exactly once, at the end of one string, and gives back the input but for at most its last scalar. |
| JsonHealing.HealingWorks | app/src/main/cpp/llama/common/json-partial.cpp:160-298 | Inside a container healing always succeeds, on every input the parser has not refused. |
| JsonKept.KeptExact | app/src/main/cpp/llama/common/json-partial.cpp:149-298 | Inside a container healing keeps the input as it is, unless the input stops inside a word or, without white space, right behind one other than "null"; then it drops exactly that word. |
| JsonKept.KeptOfDocument | app/src/main/cpp/llama/common/json-partial.cpp:149-298 | Of a document cut anywhere inside a container what is kept begins the document: no number that was cut short survives. |
| JsonKept.DroppedWord | app/src/main/cpp/llama/common/json-partial.cpp:149-158 | The word dropped behind whole text could have gone on as a longer word if and only if it is neither "true" nor "false". |
| JsonKept.ConstantDropped | app/src/main/cpp/llama/common/json-partial.cpp:149-158 | "[true" loses the constant, "[null" keeps it. |
| JsonHealing.TopLevelExact | app/src/main/cpp/llama/common/json-partial.cpp:299-318 | Outside every container exactly the open strings heal. |
| JsonHeal.RunKeepsInv | app/src/main/cpp/llama/common/json-partial.cpp:40-112 | The handler's stack is the path of open containers and keys, and what is awaited agrees with its top. |
| JsonHeal.ClosingCloses | app/src/main/cpp/llama/common/json-partial.cpp:160-172 | The closing text closes exactly what is open: it completes the document after a finished value. |
| JsonDocuments.ValidIsDocument | app/src/main/cpp/llama/common/json-partial.cpp:40-112 | The callbacks' grammar accepts exactly the token texts of JSON documents. |
| JsonDocuments.CutIsViable | app/src/main/cpp/llama/common/json-partial.cpp:114-160 | Every cut of a document is an input the parser stops in without refusing it. |
| JsonHeal.Locator.Parse | app/src/main/cpp/llama/common/json-partial.cpp:40-112 | The callbacks push and pop the stack in place as `Run` says. |
| JsonHeal.BuildClosing | app/src/main/cpp/llama/common/json-partial.cpp:160-172 | The loop from the top of the stack gives `Closing`. |
| JsonHeal.CommonJsonParse | app/src/main/cpp/llama/common/json-partial.cpp:114-298 | Parsing, closing and the case split give `Heal`. |
| LineEditor.RunKeepsGood | app/src/main/cpp/llama/common/console.cpp:753-1002 | Whatever is typed, completed or recalled, the line is a list of whole encoded characters, the cursor stands between two of them, and the history is well-formed. |
| LineEditor.InsertExact | app/src/main/cpp/llama/common/console.cpp:957-996 | Typing keeps that if and only if the code is at most 0x10FFFF. |
| LineEditor.CharsOfFlat | app/src/main/cpp/llama/common/console.cpp:365-409 | A line of encoded characters is cut by decoding into exactly those characters. |
| LineEditor.BackspaceUndoesInsert | app/src/main/cpp/llama/common/console.cpp:929-996 | Typing a character and deleting it backwards restores the line and the cursor. |
| LineEditor.BackspaceIsLeftDelete | app/src/main/cpp/llama/common/console.cpp:456-482 | Deleting backwards is moving left and deleting forwards. |
| LineEditor.HistoryRestores | app/src/main/cpp/llama/common/console.cpp:699-751 | However far one goes back in the history, as many steps forward restore the line that was being edited. |
| LineEditor.LastLineFirst | app/src/main/cpp/llama/common/console.cpp:703-726 | A finished line is the entry that looking back shows first. |
| EditorLaws.UpsShow | app/src/main/cpp/llama/common/console.cpp:714-726 | Going back in the history shows its lines from the last one on. |
| EditorLaws.DownsShow | app/src/main/cpp/llama/common/console.cpp:727-738 | Coming forward again shows them in the other order. |
| EditorLaws.LeftRightUndo | app/src/main/cpp/llama/common/console.cpp:815-834 | Left and right undo each other, and do nothing at the ends. |
| EditorLaws.HomeAndEnd | app/src/main/cpp/llama/common/console.cpp:529-547 | Home is moving left, End moving right, as often as there are characters or more. |
| EditorLaws.WordsExact | app/src/main/cpp/llama/common/console.cpp:581-664 | Word by word the cursor goes to the one position with white space, then a word, passed to the left, and with white space, a word and white space passed to the right. |
| EditorLaws.TypedWhere | app/src/main/cpp/llama/common/console.cpp:957-996 | A typed character stands before the cursor, with the text on both sides as it was. |
| EditorLaws.DeletedWhere | app/src/main/cpp/llama/common/console.cpp:456-482 | Deleting takes away the character at the cursor, deleting backwards the one before it, and nothing else. |
| EditorLaws.LineEnds | app/src/main/cpp/llama/common/console.cpp:1004-1040 | A backslash at the end becomes the newline and asks for the opposite of what is set; a slash is taken off and ends the input, leaving nothing of a single blank; any other line gets a newline. |
| EditorLaws.LineRemembered | app/src/main/cpp/llama/common/console.cpp:699-712 | A finished line is remembered without its newline, unless it is empty, the input has ended, or it is the last one again. |
| LineEditor.FinishExact | app/src/main/cpp/llama/common/console.cpp:797-1040 | Whatever keys are pressed on a new line, it finishes right if and only if the last one is no completion, or the completed line ends in a mark just as the line before the completions did. |
| LineEditor.CompletionExact | app/src/main/cpp/llama/common/console.cpp:797-1040 | For every state and every completion: finishing after it is right if and only if the flag from before fits the completed line. |
| LineEditor.CompletionLosesByte | app/src/main/cpp/llama/common/console.cpp:797-809 | After typing "/" and completing it to "/a", Enter gives "/": the flag was not looked at again. |
| LineEditor.SessionKeepsHistory | app/src/main/cpp/llama/common/console.cpp:699-1041 | Over any number of lines, none finished right after a completion, the history holds only whole lines of characters. |
| EditorObject.Editor.Handle | app/src/main/cpp/llama/common/console.cpp:753-1002 | One turn of the edit loop on bytes, widths, both positions and the terminal column is the step on values, and keeps: exactly one width for each character, the byte position that of the cursor, the column the sum of the widths before it. |
| EditorObject.Editor.SetLineContents | app/src/main/cpp/llama/common/console.cpp:484-527 | Erasing and refilling the line shows the new one with the cursor at the given byte or at the end. |
| EditorObject.Editor.DeleteAtCursor | app/src/main/cpp/llama/common/console.cpp:456-482 | One character is removed from bytes and widths; the cursor and the column stay. |
| EditorObject.Editor.DeleteBackwards | app/src/main/cpp/llama/common/console.cpp:929-955 | The character before the cursor is removed. |
| EditorObject.Editor.InsertCode | app/src/main/cpp/llama/common/console.cpp:957-996 | The character is inserted at the cursor, at the end or in the middle. |
| EditorObject.Editor.MoveWordLeft | app/src/main/cpp/llama/common/console.cpp:581-617 | White space, then the word before it. |
| EditorObject.Editor.MoveWordRight | app/src/main/cpp/llama/common/console.cpp:619-664 | White space, the word, and the white space behind it. |
| EditorObject.Editor.MoveToLineStart | app/src/main/cpp/llama/common/console.cpp:529-537 | The column is stepped back to 0. |
| EditorObject.Editor.HistoryPrev | app/src/main/cpp/llama/common/console.cpp:714-726 | The edited line is set aside once and the next older entry shown. |
| EditorObject.Editor.HistoryNext | app/src/main/cpp/llama/common/console.cpp:727-738 | The next newer entry is shown, or the line set aside. |
| EditorObject.Editor.FinishLine | app/src/main/cpp/llama/common/console.cpp:1004-1040 | The mark is taken off, the newline added, and the line remembered, as `Finish` says. |
| Utf8.DecodeAppended | app/src/main/cpp/llama/common/console.cpp:365-430 | Decoding an appended code point gives it back and takes exactly its bytes, wherever it stands. |
| Utf8.BitsPlaced | app/src/main/cpp/llama/common/console.cpp:411-430 | An appended code point has its bits in the fewest bytes that hold them, six in each but the first (section 3 of RFC 3629). |
| Utf8.DecodeExact | app/src/main/cpp/llama/common/console.cpp:365-409 | Decoding gives the bits of what has the shape of a character, overlong forms included, and one replacement character for any other byte. |
| Utf8.ScannersAgree | app/src/main/cpp/llama/common/console.cpp:432-448 | On every line of characters both scanners step from each character to its neighbour, as far as decoding advances. |
| Utf8.EncodedShape | app/src/main/cpp/llama/common/console.cpp:411-430 | An appended code point is one leading byte and up to three continuation bytes. |
| Utf8.PrevUtf8CharPos | app/src/main/cpp/llama/common/console.cpp:432-439 | The loop over continuation bytes to the left. |
| Utf8.NextUtf8CharPos | app/src/main/cpp/llama/common/console.cpp:441-448 | The loop over continuation bytes to the right. |
| Base64.RoundTrip | app/src/main/cpp/llama/common/base64.hpp:80-244 | Decoding what was encoded gives it back, for every byte string and either alphabet, with the alphabet given or detected, padding checked or not. |
| Base64.AutoIsEither | app/src/main/cpp/llama/common/base64.hpp:345-389 | Detection succeeds exactly when one of the alphabets does, with that alphabet's result. |
| Base64.AcceptsExact | app/src/main/cpp/llama/common/base64.hpp:200-244 | With a given alphabet decoding succeeds exactly on its characters followed by padding (any rest when loose), and gives one byte for every eight bits. |
| Base64Bits.DecodedBits | app/src/main/cpp/llama/common/base64.hpp:200-244 | Any characters of the alphabet, padded or not, are decoded to the bytes their bits make up, and the bits left over, whatever they are, are dropped. |
| Base64.GroupBits | app/src/main/cpp/llama/common/base64.hpp:80-144 | Up to three bytes and the characters for them are one number in base 256 and base 64, the last bits filled up with zeros and the group with "=". |
| Base64.SymbolTable | app/src/main/cpp/llama/common/base64.hpp:84-86 | The letters, the digits, and "+" and "/" or "-" and "_", in the order of RFC 4648. |
| Base64.EncodedSize | app/src/main/cpp/llama/common/base64.hpp:338-341 | The encoded length is `required_encode_size`, and `max_decode_size` of it exceeds the text by at most two bytes. |
| Base64.DecodedSize | app/src/main/cpp/llama/common/base64.hpp:324-327 | No input, accepted or not, gives more than `max_decode_size` bytes. |
| Base64.Encode | app/src/main/cpp/llama/common/base64.hpp:80-144 | The loop with its three padding exits gives `Encoded`. |
| Base64.Decode | app/src/main/cpp/llama/common/base64.hpp:200-244 | The loop over `last` and `bits` gives `Decoded`, error cases included. |
| Base64.DecodeInPlace | app/src/main/cpp/llama/common/base64.hpp:294-298 | Decoding over the text itself gives the same bytes and the same outcome as decoding a copy, writes strictly behind the read position and leaves the rest of the buffer. |
| Escapes.ProcessEscapes | app/src/main/cpp/llama/common/common.cpp:576-611 | Over the buffer itself, with two indices, the text becomes the left-to-right unescape of the original; nothing unread is overwritten. |
| Escapes.TakePiece | app/src/main/cpp/llama/common/common.cpp:580-608 | One turn of the loop, the fall-through of \x included, writes what the next piece stands for and changes nothing behind it. |
| Escapes.SpellingsRead | app/src/main/cpp/llama/common/common.cpp:576-611 | However each byte is spelled (itself, a letter escape, two hexadecimal characters), unescaping gives the bytes meant. |
| Escapes.LettersExact | app/src/main/cpp/llama/common/common.cpp:582-588 | n, r and t stand for newline, return and tab, quotes and the backslash for themselves; any other letter but x keeps its backslash. |
| Escapes.HexExact | app/src/main/cpp/llama/common/common.cpp:589-603 | Two hexadecimal digits, small or capital, stand for the byte with that number. |
| Escapes.UndoesDoubling | app/src/main/cpp/llama/common/common.cpp:576-611 | It undoes the escaper that doubles backslashes, on every text. |
| Escapes.SameLengthExact | app/src/main/cpp/llama/common/common.cpp:576-611 | Text never gets longer, and keeps its length exactly when it is unchanged. |
| Csv.RowReadBack | app/src/main/cpp/llama/common/arg.cpp:942-984 | A row written with any mix of quoted and bare fields is read back as those fields. |
| Csv.BareExact | app/src/main/cpp/llama/common/arg.cpp:942-984 | A field can be written bare if and only if it holds no comma and does not begin with a quote. |
| Csv.RewriteStable | app/src/main/cpp/llama/common/arg.cpp:942-984 | Every row read, written again with all fields quoted, reads as the same fields. |
| Csv.ParseCsvRow | app/src/main/cpp/llama/common/arg.cpp:942-984 | The loop over the quote flag and the skipped character gives `Row`. |

## Left out

- PatternMeaning.TranslationExact: covers the fragment without bracket classes, backslash escapes and stray closers, with counts below INT_MAX and m <= n; on bracket classes, escapes and quotes the model stops (`NotCovered`), on a stray closer the source does not end.
- IntRange.MinAloneExact: bounds of 10^15 and more are left out: the number of digits that may still follow is then negative or out of order.
- IntRange.MaxAloneExact: bounds of -10^15 and less are left out, for the same reason.
- IntRange.BuildMinMaxInt: a repetition that requires more digits than it permits, as is written for single bounds of 10^15 and more, is read as accepting nothing.
- Pattern.PatternVisitor.Transform: bracket classes, backslash escapes and quotes end as `Outside`: their text is copied into the grammar, where it may mean something else.
- Pattern.PatternVisitor.ScanLiteral: the same for a backslash or a quote inside a literal.
- Pattern.VisitPattern: the same, as `NotCovered`.
- PatternStray.DivergesExact: the same; a scan that comes to one of them before a stray bracket is not decided.
- NotStrings.BodyExact: characters that are special inside a GBNF character class are taken for themselves, and the key rule refers to "char" by that name rather than by the key `_add_primitive` returns.
- ObjectRule.PicksAreSubsequences: a property called "*" is left out, because the source marks additional properties by that name.
- SchemaClosed.ConversionClosed: says nothing about a conversion that halts, whether by an exception or a recorded error, by a pattern outside the fragment, by a pattern that is never finished, or by "allOf" members that are followed for ever.
- SchemaAccepts.ObjectConverts: that the root is another rule when a property has the empty key is shown where that property comes first (`EmptyKeyIsRoot`), not for every order and every schema of it.
- SchemaAccepts.AllOfAccepts: an "allOf" whose members go round, which never ends, is left out.
- SchemaTypes.TypeAccepts: assumes for numbers, and for what may hold them, that "integral-part" and "decimal-part" are bound to their own rules; `DashedTaken` shows how a property can take the name.
- SchemaTypes.DateTimeAccepts: the same for the name "date-time".
- SchemaTypes.TypeConverts: the names of the rules for parts ("char", "decimal-part", "integral-part"), which the source takes for types too, are left out.
- SchemaLimits.RangeAccepts: one limit alone is left to `IntRange.MinAloneExact` and `MaxAloneExact`.
- SchemaEndless.NeverReturns: that a ring behind a reference is reached at all is left open, as a name taken earlier may hide it; a ring behind the converted schema itself is always reached.
- Schema.Chase: finds by a set of references seen that the source goes round for ever.
- SchemaConverter.Converter.VisitAllOf: the same, and by the set of members being visited.
- SchemaConverter.Converter.VisitLeaf: a pattern outside the fragment halts the model's conversion as `Uncovered`.
- SchemaRefs.SecondLook: says nothing about a conversion that halts.
- BareValues.BareGrowsExact: assumes of the JSON library that what begins with a quote is a string or nothing and that what begins with a bracket is no string, and an argument that owes no closing quote.
- Lora.ReshapeCommutes: A with real batch axes is left out; for non-empty factors the source's reshape then fails (`ReshapeNeedsOnes`).
- LoraShapes.ReshapeSucceeds: factors with an empty axis are left out, where the source divides by zero or any number of elements fits.
- DiffTight.SplitTight: says nothing about a split that loses text, which `DiffSplit.SplitExact` describes.
- JsonKept.KeptExact: words are those of JSON, true, false, null and numbers; a text the parser has refused is left out.
- Lora.CatCommutes: concatenation of higher rank, and on other axes, is left out.
- LogRing.NothingLost: assumes that every end marker finds two free slots; without it `PauseReturnsIff` and `FullRingDeadlocks` hold.
- JsonHeal.CommonJsonParse: the branches that pad a cut \u escape are left out.
- JsonDocuments.DocumentHeals: cuts inside a \u escape are left out, since the JSON library's lexer decides there; a cut at a character inside an earlier token is a separate outcome, shown never to arise.
- StreamGrowth.StepGrowsIff: assumes that the pointer to the current call is not dangling, which a call-less event after a delivered call could make it.
- Which escape sequences and modifiers mean which key, and the completion callback: keys arrive decoded.
- EditorObject.Editor.Handle: assumes that the terminal reports widths honestly and does not wrap; the Windows branches and colours are left out.
- Grammar text: rules are expressions, not GBNF text, so the escaping of literals and the printing of the table are left out; two rules are equal when their expressions are.
- Trie nodes are values, and the alternatives of shared "allOf" constants stand in the order of their last mention rather than sorted.
- `resolve_refs`: fetching remote schemas and following JSON pointers are left out; the table of references is given.
- Boolean schemas and malformed keywords, which make the JSON library throw.
- The PEG parser and the JSON library: the mapper takes its events, and what a bare value reads as, as given.
- Log levels, prefixes, time stamps and formatting: a message is its text with its attributes.
- Lora.GetItemCommutes: an `Ellipsis` inside a tuple is left out, and an integer on one of the last two axes, which the constructor's assertions refuse.
- Tensor entries are real numbers; data types and devices are left out.
- Bytes that are no UTF-8 in keys and argument values.
- Template builders, the sampling loop, downloads and the option table: foreign code, input and output, or flat lists.
