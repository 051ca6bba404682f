# Verified model of the app-server protocol tooling and runtime

A Dafny model of the parts of the codex app server where a local mistake would be hard to see:

- **Schema tooling** (`codex-rs/app-server-protocol`): bundling JSON schemas under namespaces, flattening the
  bundle, pruning methods, filtering generated TypeScript, and the canonical form that schema files are compared in.
- **Runtime** (`codex-rs/app-server`): the in-process client loop, thread listings, command execution, and the
  per-thread state behind turns, items, rollbacks and interrupts.

Code that computes a value is a function with lemmas about it. Code that updates variables is a method or a class,
proved against a function, and what the code promises is proved about that function. Concurrent code is a state
machine: a run is any sequence of enabled steps, `After` gives the state it leads to, and the theorems hold for every run.

## How the files fit together

| files | what they cover |
|---|---|
| `Sorting`, `JsonText`, `Canonical` | canonical JSON: stable sort, serialized text read back uniquely, canonical form |
| `TsScanner`, `TsFilter`, `TsFields`, `TsFile`, `TsTokens` | splitting TypeScript at top-level delimiters, filtering union arms and fields, declared fields with comments, whole files, and what the scanner and parsers read |
| `SchemaJson`, `RefRewrites`, `Reachability`, `MethodPruning` | `$ref` rewriting, the two worklists, removal of method variants |
| `Bundle`, `BundleClosure`, `BundleMeaning`, `BundleContents` | building the bundle, its closure, what its references mean, what it holds and when it is built |
| `FlatV2`, `FlatContents` | flattening the bundle, what the flat schema holds and when there is one |
| `InProcess` | request/reply accounting, event delivery and shutdown of the in-process runtime |
| `ThreadList`, `LoadedList` | cursor paging over stored and over loaded threads |
| `OutputPump`, `CommandLoop`, `CommandSessions` | output caps, control requests and exit codes, the process table |
| `ThreadEvents` | turn results, file-change items, rollback and interrupt replies |
| `Wrappers` | the optional value |

Two JSON types are used on purpose. A `serde_json` object keeps insertion order but compares without it, so
canonical form, whose point is order, uses `JsonText.Value` with fields in sequence, while the bundler, which only
looks keys up, uses `SchemaJson.Json` with fields in a map.

## What turned out to need a condition

These promises do not hold of the code for every input. For each there is a concrete run or value where it fails, and
the condition under which it holds.

- The field filter does not know comments. A comma or semicolon in the comment before an experimental field keeps the
  field: `CommaKeepsField`. An apostrophe there makes the next field part of this one, so both are dropped:
  `ApostropheLosesField`. `FieldDroppedExactly` gives the exact condition for one field and `ReadAsDeclared` for a whole
  body; `DeclaredFieldsFiltered` and `DeclaredFileFiltered` are what then holds. The checked-in
  `codex-rs/app-server-protocol/schema/typescript/v2/ThreadResumeParams.ts` shows the first case: `history`, `path` and
  `persistExtendedHistory`, experimental in `codex-rs/app-server-protocol/src/protocol/v2.rs:2594-2638`, are still there.
- One pruning pass can leave an experimental variant: `OnePassNotAlwaysEnough`; `PruneCorrect` gives the exact condition.
- The forced rewrite pass of the bundler changes nothing exactly when the forced name is not the first segment of a
  recorded namespace: `ForcedPassIsIdentity`. `ForcedPassChanges` is a table where it does change a reference.
- A built bundle can hold a reference to nothing: a definition called `X2` is dropped when a namespace records `X`, and
  the reference to it is sent to that namespace: `NumberedLocalDangles`. `LandsExactly` and `ClaimedNameResolves` say
  exactly which references resolve, and `BundleClosed` when all do.
- Flattening can change what a reference means: when v2 and the root both define a name that a shared definition refers
  to, the one in v2 wins silently: `DisplacedMeaningLost`. `FlattenKeepsMeaning` gives the exact condition.
- Two un-namespaced schemas may define the same root name; the last one silently wins: `RootDefinitionReplaced`;
  `OwnRootDefinitionKept` says when a schema's own definition is the one its reference leads to.
- A local definition of a type that a namespace records is dropped for the recorded one, without comparing them:
  `LocalDefinitionDropped`; `RecordedTypeTakesOver` says when the two agree.
- The body of a filtered file may not be found again: `DroppedFieldLosesFile`; `FilterFileCorrect` gives the exact
  condition.
- A second answer to an old request can reach a newer request that reuses its id: `SecondAnswerMisdelivered`;
  `AnswerReachesItsCause` shows an answer is delivered to its cause exactly when it is the first one for a forwarded
  request, under that request's id.
- A command can share a key with one that outlived its connection: `ReusedConnectionSharesKey`; `KeysUniqueExactly`
  shows that using such a command's id again is the only way.
- A rollback event that comes between reserving the slot and a failed submission makes the request be answered
  twice: `EarlyEventAnswersTwice`; `AnsweredAtMostOnce` shows this is the only way.

## Model

| member | source | states |
|---|---|---|
| JsonText.TextInjective | codex-rs/app-server-protocol/src/schema_fixtures.rs:170-187 | the serialized text used as a tie-breaker determines the value: two well-formed values with the same text are equal |
| JsonText.TextExactly | codex-rs/app-server-protocol/src/schema_fixtures.rs:170-187 | the compact text of each kind of value: literals, numbers as they are, escaped strings between quotes, arrays and objects as their parts between commas |
| JsonText.EscapeReads | codex-rs/app-server-protocol/src/schema_fixtures.rs:170-187 | every character is written so that a JSON reader reads it back; only quotes, backslashes and control characters are escaped, in two characters where there is such a form |
| Sorting.StringLeExactly | codex-rs/app-server-protocol/src/schema_fixtures.rs:177-187 | the order of keys and texts: a prefix comes first, otherwise the first difference decides |
| Canonical.SortKeyExactly | codex-rs/app-server-protocol/src/schema_fixtures.rs:206-223 | an item has a sort key if and only if it is no array and, as an object, has a text under `$ref` or `title`; the key is then the tagged scalar or text, `$ref` before `title` |
| Canonical.CanonSortKey | codex-rs/app-server-protocol/src/schema_fixtures.rs:206-223 | an item keeps its sort key when it is itself canonicalized, so sorting before or after gives the same order |
| Canonical.CanonDecidesEquivalence | codex-rs/app-server-protocol/src/schema_fixtures.rs:148-204 | two values have the same canonical form if and only if they differ only in object key order and in the order of arrays whose every item is a scalar or an object with a text under `$ref` or `title` |
| Canonical.ArrayForm | codex-rs/app-server-protocol/src/schema_fixtures.rs:169-191 | the form of an array is a permutation of its items' forms in order of key and then text when all items are of that kind, and otherwise the items' forms in their own order |
| Canonical.ObjectForm | codex-rs/app-server-protocol/src/schema_fixtures.rs:192-201 | the form of an object holds the forms of its fields in key order |
| Canonical.ReorderedArray | codex-rs/app-server-protocol/src/schema_fixtures.rs:169-191 | reordering an array of such items does not change its form |
| Canonical.CanonIdempotent | codex-rs/app-server-protocol/src/schema_fixtures.rs:148-204 | canonicalizing twice is canonicalizing once, and the form is equivalent to the value |
| Canonical.CanonWellFormed | codex-rs/app-server-protocol/src/schema_fixtures.rs:148-204 | canonicalizing keeps object keys distinct and numbers well formed at every depth |
| Canonical.Canonicalize | codex-rs/app-server-protocol/src/schema_fixtures.rs:148-204 | the recursive pass with its loops computes the form the lemmas are about |
| Canonical.SortKeyed | codex-rs/app-server-protocol/src/schema_fixtures.rs:152-191 | an array is sorted only when every item has a key; one item without a key leaves the order alone |
| TsScanner.ScanState.Observe | codex-rs/app-server-protocol/src/export.rs:884-918 | one character moves the scanner through quotes, escapes and brackets as the specification scanner does |
| TsScanner.SplitTopLevelMulti | codex-rs/app-server-protocol/src/export.rs:754-773 | the index-slicing loop returns the specified split of the whole input |
| TsScanner.SplitCharacterized | codex-rs/app-server-protocol/src/export.rs:754-773 | the split is the one decomposition of the text into trimmed pieces without a top-level delimiter, set between gaps of blanks and delimiters: nothing else is lost and no other list fits |
| TsScanner.SplitSelectJoin | codex-rs/app-server-protocol/src/export.rs:754-773 | keeping any of the pieces, joining them with a separator and splitting again gives back exactly the kept pieces |
| TsScanner.TrimPadded | codex-rs/app-server-protocol/src/export.rs:762-771 | trimming undoes any padding of a trimmed piece |
| TsTokens.ScanExactly | codex-rs/app-server-protocol/src/export.rs:884-918 | whatever was read, the scanner is within a string, and after a backslash, exactly when the text is, and each depth is the greatest excess of opening over closing brackets, outside strings, in any end of the text |
| TsTokens.Tokenized | codex-rs/app-server-protocol/src/export.rs:884-918 | every text can be read as characters outside strings, strings and perhaps an unfinished string, so that says it for every text |
| TsTokens.SpacesAre | codex-rs/app-server-protocol/src/export.rs:754-773 | blanks are the 25 characters with the Unicode property White_Space |
| TsFilter.FindTopLevelBraceSpan | codex-rs/app-server-protocol/src/export.rs:731-748 | the loop finds the specified span |
| TsFilter.BraceSpanExactly | codex-rs/app-server-protocol/src/export.rs:731-748 | a span is found if and only if some top-level brace is opened and later closed, and it is the first to close, from the last brace opened before that |
| TsFilter.ParseStringLiteral | codex-rs/app-server-protocol/src/export.rs:847-870 | the loop reads the specified literal and its end, escapes included |
| TsTokens.LiteralExactly | codex-rs/app-server-protocol/src/export.rs:847-870 | a literal is read if and only if the input begins with a quoted text in which that quote and the backslash only come after a backslash, and then exactly that text |
| TsTokens.NameExactly | codex-rs/app-server-protocol/src/export.rs:811-845 | a property name is read if and only if the input is, after blanks, that name as a word, with or without a question mark, or as a string, and then a colon |
| TsTokens.CommentEndExactly | codex-rs/app-server-protocol/src/export.rs:798-809 | a block comment ends at its first end mark |
| TsFilter.StripLeadingBlockComments | codex-rs/app-server-protocol/src/export.rs:798-809 | the loop computes the specified stripping |
| TsFilter.StripExactly | codex-rs/app-server-protocol/src/export.rs:798-809 | a rest is what stripping leaves if and only if only blanks and closed comments precede it and it starts with neither; an unclosed comment stays |
| TsFilter.FilterTextStable | codex-rs/app-server-protocol/src/export.rs:301-324 | a filtered text splits into exactly the kept pieces in order, and filtering it again changes nothing |
| TsFilter.AliasBodyReplaced | codex-rs/app-server-protocol/src/export.rs:702-712 | a new body put between the same prefix and suffix is found again as the body, whatever it holds |
| TsFilter.FilterUnionCorrect | codex-rs/app-server-protocol/src/export.rs:300-319 | the filtered alias keeps prefix and suffix, its arms are exactly the original arms that are not experimental, and filtering is idempotent |
| TsTokens.ArmDroppedExactly | codex-rs/app-server-protocol/src/export.rs:775-790 | an arm is dropped if and only if, between its first closed braces, the first property called `method` has a string value that is experimental and not empty |
| TsTokens.AliasExactly | codex-rs/app-server-protocol/src/export.rs:702-712 | a file has an alias body to filter if and only if some semicolon comes after some equals sign |
| TsFilter.FilterFieldsCorrect | codex-rs/app-server-protocol/src/export.rs:374-385 | of the pieces the splitter reads in the body, exactly those whose name is not read as experimental stay, in order and verbatim, and filtering is idempotent; when pieces are the declared fields is `TsFields.ReadAsDeclared` |
| TsTokens.FieldDroppedByName | codex-rs/app-server-protocol/src/export.rs:374-385 | a piece is dropped if and only if, behind blanks and closed comments, it is a property with an experimental name |
| TsFields.FieldDroppedExactly | codex-rs/app-server-protocol/src/export.rs:374-385 | for every declared field, with any comments before it: it is dropped if and only if its name is experimental and the splitter sees no delimiter in those comments |
| TsFields.ReadAsDeclared | codex-rs/app-server-protocol/src/export.rs:754-773 | the pieces of a body of declared fields are those fields if and only if the splitter sees no delimiter in any field or its comments and only the last leaves a string or bracket open |
| TsFields.DeclaredFieldsFiltered | codex-rs/app-server-protocol/src/export.rs:374-385 | then exactly the fields whose declared name is experimental go, and the others stay as written, comments included |
| TsFields.DeclaredFileFiltered | codex-rs/app-server-protocol/src/export.rs:366-387 | the same for a whole file: the text around the body stays and the body becomes the fields that are not experimental |
| TsFields.FieldParts | codex-rs/app-server-protocol/src/export.rs:754-773 | after comments that leave nothing open, a field is read alone if and only if its comments and its type, each on its own, have no delimiter the splitter sees; it is closed if and only if its type is |
| TsFields.CommaKeepsField | codex-rs/app-server-protocol/src/export.rs:374-385 | a body whose one experimental field stays, because of a comma in its comment |
| TsFields.ApostropheLosesField | codex-rs/app-server-protocol/src/export.rs:374-385 | a body that loses a field that is not experimental, because of an apostrophe in the comment of the one before |
| TsFile.BodyReplaced | codex-rs/app-server-protocol/src/export.rs:714-748 | another text put in place of a found body is found there as the body if and only if, read from inside the braces, it neither opens nor closes at the top and ends ready to close |
| TsTokens.BodyStartExactly | codex-rs/app-server-protocol/src/export.rs:714-729 | the body is looked for after the first equals sign or, without one, after the first `export interface` |
| TsFile.FilteredFits | codex-rs/app-server-protocol/src/export.rs:374-387 | the filtered body can take the place of the body if and only if it does not keep a field left open without keeping one with an unmatched closing brace |
| TsFile.BalancedFits | codex-rs/app-server-protocol/src/export.rs:374-387 | a body without unmatched closing braces is found again whichever fields are dropped |
| TsFile.FilterFileCorrect | codex-rs/app-server-protocol/src/export.rs:366-387 | the whole file, alias or interface: only the body changes; it is found again exactly under that condition, and then the pieces the splitter reads in it are exactly the kept ones and filtering again changes nothing |
| TsFile.DroppedFieldLosesBody | codex-rs/app-server-protocol/src/export.rs:731-748 | a text between braces that is found, and whose filtered form is not |
| TsFile.DroppedFieldLosesFile | codex-rs/app-server-protocol/src/export.rs:366-387 | a whole file whose body is found, and whose filtered form has no body |
| TsFilter.GeneratedArmMethod | codex-rs/app-server-protocol/src/export.rs:775-790 | of an arm in the generated shape the method is recovered, so the arm goes exactly when its method is experimental |
| SchemaJson.RefsOfRewrite | codex-rs/app-server-protocol/src/export.rs:1501-1560 | the references of a rewritten tree are the images of its references |
| SchemaJson.RefsExactly | codex-rs/app-server-protocol/src/export.rs:1162-1178 | the references of a tree are exactly those that some path of keys and indices in it leads to |
| SchemaJson.RewriteIdentity | codex-rs/app-server-protocol/src/export.rs:1501-1560 | a rewrite that fixes every reference in the tree changes nothing else either |
| SchemaJson.RewriteCompose | codex-rs/app-server-protocol/src/export.rs:1501-1560 | two rewriting passes are one pass with the composed rewrite |
| RefRewrites.RewriteToNamespaceIdempotent | codex-rs/app-server-protocol/src/export.rs:1501-1533 | moving references into a namespace twice is doing it once |
| RefRewrites.ClaimedExactly | codex-rs/app-server-protocol/src/export.rs:1584-1596 | a namespace claims a name if and only if the name is recorded under it, or is not recorded and its form without all trailing digits is |
| RefRewrites.NamedAfterKnown | codex-rs/app-server-protocol/src/export.rs:1535-1560 | after known references were retargeted, the named rewrite changes a reference if and only if its target namespace starts with that name |
| RefRewrites.ForcedPassIsIdentity | codex-rs/app-server-protocol/src/export.rs:1854-1879 | the forced pass leaves every retargeted schema alone if and only if the name is not the first segment of a recorded namespace |
| RefRewrites.ForcedPassChanges | codex-rs/app-server-protocol/src/export.rs:1854-1879 | a table and a reference that the forced pass changes |
| Reachability.ReachSetCorrect | codex-rs/app-server-protocol/src/export.rs:1112-1132 | the closure is exactly the names some path of references reaches from the seeds |
| Reachability.ReachSetLeast | codex-rs/app-server-protocol/src/export.rs:1112-1132 | it is inside every closed set holding the seeds |
| Reachability.CollectDefinitionDependencies | codex-rs/app-server-protocol/src/export.rs:1112-1132 | the worklist that marks on pop terminates with exactly the reachable names |
| Reachability.ReachableLocalDefinitions | codex-rs/app-server-protocol/src/export.rs:1376-1460 | the worklist that marks on push terminates with exactly the definitions reachable from outside the definition map |
| Reachability.RefsOutsideExactly | codex-rs/app-server-protocol/src/export.rs:1393-1416 | the references that worklist starts from are exactly those on paths that go into no `definitions` or `$defs` map |
| Reachability.LocalNameExactly | codex-rs/app-server-protocol/src/export.rs:1440-1460 | a reference names a definition if and only if it is that definition's path or goes on below it |
| MethodPruning.PruneExperimentalMethods | codex-rs/app-server-protocol/src/export.rs:487-494 | pruning is by the listed methods, the empty name excepted |
| MethodPruning.PruneInner | codex-rs/app-server-protocol/src/export.rs:496-511 | the recursive retain computes the specified prune |
| MethodPruning.VariantExactly | codex-rs/app-server-protocol/src/export.rs:513-536 | a variant is a value whose `method` property is a listed constant, or no constant and a list of exactly one listed method |
| MethodPruning.SurvivorsInOrder | codex-rs/app-server-protocol/src/export.rs:496-511 | the items left of an array are, in order and unchanged before their own pruning, exactly those that are no variants |
| MethodPruning.PruneItemsSurvive | codex-rs/app-server-protocol/src/export.rs:496-511 | of an array exactly the non-variants survive, in order, each pruned |
| MethodPruning.PrunedVariant | codex-rs/app-server-protocol/src/export.rs:513-536 | a pruned value is a variant if and only if it was one or pruning its list of names left one experimental method alone |
| MethodPruning.PruneFixed | codex-rs/app-server-protocol/src/export.rs:496-511 | pruning changes a value if and only if some array in it holds a variant |
| MethodPruning.PruneCorrect | codex-rs/app-server-protocol/src/export.rs:487-511 | one pass leaves no variant at any depth, and is idempotent, if and only if no kept item is unmasked |
| MethodPruning.ScalarEnumsSuffice | codex-rs/app-server-protocol/src/export.rs:513-536 | schemas whose method lists hold only plain values, as generated ones do, always meet that condition |
| MethodPruning.OnePassNotAlwaysEnough | codex-rs/app-server-protocol/src/export.rs:496-511 | a value for which one pass leaves a variant |
| MethodPruning.StripMethodVariants | codex-rs/app-server-protocol/src/export.rs:1340-1374 | of the listed alternatives exactly those go whose `method` property is a listed constant, or no constant and a list that starts with a listed method; the others stay in order, of the definitions exactly those still named through references stay unchanged, and nothing else changes; a schema without alternatives is returned as it was |
| MethodPruning.StrippedStillResolves | codex-rs/app-server-protocol/src/export.rs:1340-1358 | every reference left in a stripped schema that named a definition still names that same definition |
| Bundle.CollectNamespacedTypes | codex-rs/app-server-protocol/src/export.rs:1562-1582 | the nested loops compute the specified table of types |
| BundleClosure.TypesAreFirstNamed | codex-rs/app-server-protocol/src/export.rs:1562-1582 | a type is recorded if and only if some namespaced schema names it, and then under the namespace of the first that does |
| Bundle.BuildSchemaBundle | codex-rs/app-server-protocol/src/export.rs:939-1020 | the loops over schemas and local definitions build the specified bundle or stop with its first error |
| BundleContents.BuiltExactly | codex-rs/app-server-protocol/src/export.rs:939-1020 | a bundle is built if and only if no two schemas of one namespace give different values for one name; otherwise the error names such a namespace and name |
| BundleContents.NamespaceResolves | codex-rs/app-server-protocol/src/export.rs:939-1020 | a reference into a namespace leads to a value if and only if some schema of it gives that value: all of itself but its definitions, or one of its definitions annotated, with every reference moved into the namespace |
| BundleContents.NamespacedSchemaWhole | codex-rs/app-server-protocol/src/export.rs:939-1005 | a reference to a namespaced schema leads to an object with all its fields but `definitions`, or to its array or scalar, references moved |
| BundleContents.RootResolves | codex-rs/app-server-protocol/src/export.rs:970-1005 | a reference to a root name leads to a value if and only if the last un-namespaced schema to give anything there gives it; definitions that a namespace claims are not given outside v1 |
| BundleContents.RootSchemaWhole | codex-rs/app-server-protocol/src/export.rs:939-1005 | a reference to the last un-namespaced schema of its name leads to all its fields but `definitions`, references retargeted |
| BundleClosure.ForcedExactly | codex-rs/app-server-protocol/src/export.rs:974-989 | the names to be forced are exactly the definitions of an un-namespaced schema outside v1 that a namespace claims, each once |
| BundleClosure.ForcedDeeper | codex-rs/app-server-protocol/src/export.rs:1854-1879 | forcing a name that is its own namespace sends a reference already in it one level deeper |
| BundleClosure.NamespacedMeaningKept | codex-rs/app-server-protocol/src/export.rs:1226-1269 | in a bundle that was built, every local definition of every namespaced schema is found, as that schema defined it, under its namespaced reference: no later schema replaced it |
| BundleClosure.NamespacedNameKept | codex-rs/app-server-protocol/src/export.rs:1226-1269 | the same for a namespaced schema's own name: its reference leads to the schema itself, references moved into the namespace |
| BundleMeaning.EntriesExactly | codex-rs/app-server-protocol/src/export.rs:1226-1269 | the entries of a namespace are exactly the names and local definitions of its schemas |
| BundleMeaning.LandsExactly | codex-rs/app-server-protocol/src/export.rs:939-1020 | a reference lands on an entry of a built bundle if and only if some schema gives what it names, at the root in one segment or in a namespace in two |
| BundleMeaning.BundleClosed | codex-rs/app-server-protocol/src/export.rs:939-1020 | every local reference in a built bundle resolves, to a root entry in one segment or to a namespace entry in two, whenever every retargeted reference is given by some schema; `$defs`, special names and other schemas' definitions are allowed |
| BundleMeaning.BundleableServed | codex-rs/app-server-protocol/src/export.rs:939-1020 | schemas whose references name their own schema, one of its definitions or a recorded type always meet that |
| BundleMeaning.ClaimedNameResolves | codex-rs/app-server-protocol/src/export.rs:1584-1596 | a root schema's reference to a name that a namespace claims, itself or without its trailing digits, resolves if and only if some schema of that namespace gives that name |
| BundleMeaning.NumberedLocalDangles | codex-rs/app-server-protocol/src/export.rs:974-989 | two schemas that build without error although the bundle holds a reference to nothing |
| BundleClosure.BundleSelfContained | codex-rs/app-server-protocol/src/export.rs:1501-1533 | every local reference inside a namespace points into that namespace |
| BundleClosure.RootEntryIsLast | codex-rs/app-server-protocol/src/export.rs:970-1005 | a root entry is what the last un-namespaced schema with that name put there |
| BundleMeaning.OwnRootDefinitionKept | codex-rs/app-server-protocol/src/export.rs:991-1004 | a root reference leads to what a schema gave under that name if and only if that equals what the last schema gave |
| BundleMeaning.RootDefinitionReplaced | codex-rs/app-server-protocol/src/export.rs:991-1004 | two schemas that build without error although the second replaces the first one's definition |
| BundleMeaning.EntryMeans | codex-rs/app-server-protocol/src/export.rs:1226-1269 | a reference into a namespace leads to what any schema that gives that name put there, be it the schema itself or its local definition |
| BundleMeaning.RecordedTypeLands | codex-rs/app-server-protocol/src/export.rs:1535-1560 | an un-namespaced schema's reference to a recorded type, a schema or a local definition, leads to what the schema that first recorded it gave |
| BundleMeaning.RecordedTypeTakesOver | codex-rs/app-server-protocol/src/export.rs:974-989 | so it leads to the schema's own definition of that type if and only if the two are equal, and outside v1 its own is dropped |
| BundleMeaning.LocalDefinitionDropped | codex-rs/app-server-protocol/src/export.rs:974-989 | two schemas that build without error although the second one's own definition is dropped for a different one |
| FlatV2.BuildFlatV2Schema | codex-rs/app-server-protocol/src/export.rs:1034-1082 | the build computes the specified flat schema or its specified error |
| FlatContents.FlatDecided | codex-rs/app-server-protocol/src/export.rs:1034-1224 | without an object, a definitions map or a v2 map flattening fails with that reason; otherwise the flat schema is refused if and only if a reference still goes to v2, or names nothing, with exactly the missing names, and else is the result |
| FlatContents.FlatHolds | codex-rs/app-server-protocol/src/export.rs:1034-1082 | a flat schema's definitions are exactly those of v2, `ClientRequest` and `ServerNotification` where present, and the root ones a path of references outside v2 leads to from these two; of one name the shared one goes first, then that of v2; the title gets its suffix and every other field stays, references rewritten |
| FlatContents.NeededExactly | codex-rs/app-server-protocol/src/export.rs:1056-1132 | the root definitions collected are exactly those such a path leads to |
| FlatV2.FlattenKeepsMeaning | codex-rs/app-server-protocol/src/export.rs:1034-1151 | a surviving reference, along any path, that resolved in the bundle resolves, rewritten, to the rewritten copy of the same value if and only if no v2 or shared definition displaces the one it goes through or the path leads to the same value there |
| FlatV2.DisplacedLeads | codex-rs/app-server-protocol/src/export.rs:1034-1151 | whenever a shared definition refers to a root definition that v2 also has, the flat reference leads to the one of v2 |
| FlatV2.DisplacedMeaningLost | codex-rs/app-server-protocol/src/export.rs:1034-1151 | a bundle that flattens although a reference then leads to another definition |
| FlatV2.FlatIsClosed | codex-rs/app-server-protocol/src/export.rs:1153-1224 | an accepted flat schema has no v2 reference left, and the definition every local reference names is there |
| FlatV2.BuiltBundleFlattens | codex-rs/app-server-protocol/src/export.rs:1034-1224 | a closed bundle built from schemas whose only namespace is v2 always flattens, and every local reference of the flat schema has one segment and resolves |
| InProcess.ExactlyOneReply | codex-rs/app-server/src/in_process.rs:491-706 | in every run each client request taken has at most one reply, exactly one once the loop has drained, and nobody else gets one |
| InProcess.RequestDecided | codex-rs/app-server/src/in_process.rs:499-545 | a request under a pending id is refused with -32600, else with -32603 and the end of the loop if the processor is closed, else with -32001 if its queue is full, else it is queued and waits; a refused one changes nothing else |
| InProcess.ProcessorGetsAccepted | codex-rs/app-server/src/in_process.rs:514-558 | in every run the commands the processor took and those still queued are, in order, one for each request and notification that was accepted; the queue stays within capacity, and the requests counted as forwarded are exactly those |
| InProcess.DrainTells | codex-rs/app-server/src/in_process.rs:700-706 | the drain sends every pending request one -32603, in the order of the table |
| InProcess.LoopEndsExactly | codex-rs/app-server/src/in_process.rs:495-684 | in every run the loop runs until the first shutdown, gone client or writer, closed processor met by a request or notification, or closed consumer met by a notification |
| InProcess.StepPossible | codex-rs/app-server/src/in_process.rs:491-706 | in every run each step can come exactly when the history allows: messages until the end unless a send is held, each request with its own ticket, one drain after the end |
| InProcess.PendingUndisturbed | codex-rs/app-server/src/in_process.rs:499-545 | from when a request waits until an answer for its id or the drain, whatever else happens it goes on waiting, and every other request with that id is refused as a duplicate and never forwarded |
| InProcess.AnswerReachesItsCause | codex-rs/app-server/src/in_process.rs:491-706 | while each forwarded request has been answered at most once and under its own id, the next answer goes to the request that caused it, however ids are reused, if and only if it too keeps to that |
| InProcess.SecondAnswerMisdelivered | codex-rs/app-server/src/in_process.rs:491-706 | a run where a second answer reaches another request with the same id |
| InProcess.EventStreamSafe | codex-rs/app-server/src/in_process.rs:601-684 | in every run the event queue stays within capacity, the client sees a subsequence of what was produced, and an event that must be delivered is lost only when its consumer is gone; a server request that is not queued is failed back |
| InProcess.EventDecided | codex-rs/app-server/src/in_process.rs:601-684 | an event joins the queue if and only if there is room and a consumer; with a consumer but no room the end of a turn and the three legacy events wait; otherwise a server request is failed back and anything else is dropped |
| InProcess.UnparkDecided | codex-rs/app-server/src/in_process.rs:642-684 | an event that waited joins the queue once there is room and is dropped when its consumer is gone |
| InProcess.Loop.OnRequest | codex-rs/app-server/src/in_process.rs:499-545 | the handler makes the specified step |
| InProcess.Loop.OnAnswer | codex-rs/app-server/src/in_process.rs:581-600 | the handler makes the specified step, dropping an unmatched answer |
| InProcess.Loop.OnOutgoing | codex-rs/app-server/src/in_process.rs:601-684 | the handler makes the specified step and fails a server request back exactly when it could not be queued |
| InProcess.Loop.DrainPending | codex-rs/app-server/src/in_process.rs:700-706 | the loop over the table makes the specified drain, in any order of the table |
| ThreadList.SourceFiltersExact | codex-rs/app-server/src/filters.rs:6-83 | the store's filter and the filter after it together keep exactly the sources the client asked for, the default and the empty list included |
| ThreadList.KindMatchesExactly | codex-rs/app-server/src/filters.rs:53-82 | a source is of exactly the kinds listed for it, sub-agents also of the general one |
| ThreadList.RequestedPageSize | codex-rs/app-server/src/codex_message_processor.rs:3011-3014 | the page size is the size from 1 to 100 nearest to the limit, and 25 without one |
| ThreadList.ListThreadsCommon | codex-rs/app-server/src/codex_message_processor.rs:4173-4308 | a page is exactly the matching rows of a stretch starting at the cursor, or at the end for a cursor beyond it, never more than asked, and its cursor is the end of the stretch; a bad cursor is refused; when the store advances, a page with a cursor is full and got on, and one without ends only at the end |
| ThreadList.FollowCursor | codex-rs/app-server/src/codex_message_processor.rs:4173-4308 | with a store whose cursors advance, following cursors with any page sizes gives all matching rows, each once and in order, unless the store fails |
| ThreadList.TwoFiltersAreOne | codex-rs/app-server/src/codex_message_processor.rs:4255-4279 | filtering in the store and then in the server is filtering once by both |
| ThreadList.ListingIsWhatWasAsked | codex-rs/app-server/src/codex_message_processor.rs:4173-4308 | the rows listed are exactly the stored threads of the wanted sources and directory |
| LoadedList.BinarySearch | codex-rs/app-server/src/codex_message_processor.rs:3119-3122 | finds the id or the place where it would go |
| LoadedList.ThreadLoadedList | codex-rs/app-server/src/codex_message_processor.rs:3080-3137 | a page holds in increasing order exactly the loaded ids after the cursor up to its last one, or all of them when there is no next cursor; it is as long as the limit, by default the number of ids in 32 bits and at least one, and shorter only when it is the last; a malformed cursor is refused unless nothing is loaded |
| LoadedList.FollowLoaded | codex-rs/app-server/src/codex_message_processor.rs:3080-3137 | a client that calls page after page, with any limits while the loaded set changes, goes through exactly the calls that `FollowingIsStable` speaks of, and stops early only at a page without a cursor |
| LoadedList.FollowingIsStable | codex-rs/app-server/src/codex_message_processor.rs:3080-3137 | while threads come and go between calls, following cursors repeats no id, invents none, and misses none that stayed loaded |
| OutputPump.PumpOutput | codex-rs/app-server/src/command_exec.rs:563-619 | however the output is cut into chunks, the first cap bytes are delivered, streamed or buffered, and the last notification says the cap was reached exactly when it was |
| CommandLoop.ControlsConserved | codex-rs/app-server/src/command_exec.rs:401-561 | in every run each control request has at most one outcome, and exactly one once the command is over |
| CommandLoop.StepAnswers | codex-rs/app-server/src/command_exec.rs:496-652 | serving answers the first queued control: input without streaming is refused, input the process does not take is told so, likewise a new size; the end tells every queued and waiting control, and any later one, that the command no longer runs |
| CommandLoop.TerminatingExactly | codex-rs/app-server/src/command_exec.rs:496-536 | in every run the process has been asked to end if and only if a terminate was served, all senders were gone or the expiry came |
| CommandLoop.QueueBounded | codex-rs/app-server/src/command_exec.rs:240-240 | in every run at most 32 controls are queued |
| CommandLoop.StepPossible | codex-rs/app-server/src/command_exec.rs:401-561 | in every run each step can come exactly when the history allows: the senders are gone only once all they issued is answered, the expiry comes once, the exit once, and the end after it |
| CommandLoop.FirstComeFirstServed | codex-rs/app-server/src/command_exec.rs:401-536 | in every run the answered, the queued and the waiting controls are, in that order, the controls in the order they were issued |
| CommandLoop.TimedOutTracksExpiry | codex-rs/app-server/src/command_exec.rs:439-561 | in every run the timed-out flag is set if and only if the expiry fired before the exit |
| CommandLoop.ReportedCode | codex-rs/app-server/src/command_exec.rs:496-541 | in every run the reported code is 124 when the expiry came before the exit, otherwise the exit's own code or -1, and nothing later changes it |
| CommandLoop.RunCommand | codex-rs/app-server/src/command_exec.rs:439-541 | over any schedule the loop stops at the first exit and leaves exactly the outcomes and code of the run so far, so the theorems about runs are about it |
| CommandSessions.CommandExecManager.Start | codex-rs/app-server/src/command_exec.rs:142-303 | admission refuses, generates an id and registers as specified |
| CommandSessions.AdmitDecided | codex-rs/app-server/src/command_exec.rs:142-303 | which starts are let in, under which key and registered or not, and with which error the others are refused, in order of the checks; a generated id is the counter, which goes up, around at the end of 64 bits |
| CommandSessions.CommandTracked | codex-rs/app-server/src/command_exec.rs:142-303 | in every run a command is live from when it is let in until its spawn fails or it is unregistered; under the windows sandbox it executes at once, elsewhere once spawned, and it is answered once completed |
| CommandSessions.StepPossible | codex-rs/app-server/src/command_exec.rs:142-303 | so each step of a command can come exactly in its turn |
| CommandSessions.CommandExecManager.ConnectionClosed | codex-rs/app-server/src/command_exec.rs:372-399 | the loop removes exactly the connection's sessions and signals exactly its active ones |
| CommandSessions.StartsAnsweredOnce | codex-rs/app-server/src/command_exec.rs:142-303 | in every run a start request has exactly one reply once refused or finished, and none before |
| CommandSessions.GeneratedNeverCollides | codex-rs/app-server/src/command_exec.rs:142-170 | in every run with fewer than 2^63 generated ids, a generated process id is not refused as a duplicate |
| CommandSessions.GeneratedIdsDiffer | codex-rs/app-server/src/command_exec.rs:162-170 | in every such run two generated ids differ, whichever connections they are for |
| CommandSessions.KeysUniqueExactly | codex-rs/app-server/src/command_exec.rs:142-303 | in every such run no two live commands ever share a key if and only if no start uses the client id of a command that was live when its connection closed and still is |
| CommandSessions.LiveKeysUnique | codex-rs/app-server/src/command_exec.rs:142-303 | in such a run without that reuse the table holds exactly the registered live commands whose connection has not been closed under them |
| CommandSessions.CloseTerminatesAll | codex-rs/app-server/src/command_exec.rs:372-399 | closing a connection removes exactly its sessions and keeps the others as they are; without reuse it tells exactly those live commands of it to terminate that can be signalled and were not closed before |
| CommandSessions.ReusedConnectionSharesKey | codex-rs/app-server/src/command_exec.rs:372-399 | a run where a start after a close shares a key with a command still running |
| ThreadEvents.TurnEndReported | codex-rs/app-server/src/bespoke_event_handling.rs:1958-1996 | in every run a completed turn is reported failed with an error if and only if that is the latest turn-affecting error since the previous turn end, an aborted turn carries none, and no error outlives its turn |
| ThreadEvents.LastErrorIsLatest | codex-rs/app-server/src/bespoke_event_handling.rs:1277-1319 | in every run the recorded error is the latest one that affects the turn |
| ThreadEvents.StepReported | codex-rs/app-server/src/bespoke_event_handling.rs:1277-1515 | in every run a file change not open in the log is reported started and its end completed, a turn error is reported as final and a stream error as one that is retried |
| ThreadEvents.NoDoubleStart | codex-rs/app-server/src/bespoke_event_handling.rs:1467-1515 | in every run a file change is never reported started again before its completion or a turn end was reported |
| ThreadEvents.StartedIsOpen | codex-rs/app-server/src/bespoke_event_handling.rs:1874-1902 | in every run the started set is exactly the file changes reported started and not since closed |
| ThreadEvents.AnsweredAtMostOnce | codex-rs/app-server/src/codex_message_processor.rs:2869-2932 | in every run each request is answered at most once if and only if no rollback event comes between reserving the slot and a failed submission; then every request waits in one place or has had its one answer |
| ThreadEvents.EarlyEventAnswersTwice | codex-rs/app-server/src/codex_message_processor.rs:2912-2931 | a run where that event does come first and the request is answered twice |
| ThreadEvents.RefusedRollbackDisturbsNothing | codex-rs/app-server/src/codex_message_processor.rs:2895-2911 | one refused rollback gets one error and leaves every other request's account as it was |
| ThreadEvents.RollbackHoldsSlot | codex-rs/app-server/src/codex_message_processor.rs:2895-2911 | from when a rollback holds the slot until an event or a failed submission settles it, whatever else happens it keeps the slot and gets no reply, and every rollback asked for meanwhile gets exactly one reply, an error |
| ThreadEvents.RollbackSettled | codex-rs/app-server/src/bespoke_event_handling.rs:1693-1763 | the first step that settles it answers it and frees the slot: done if the rollout could be read back, no rollout, unreadable rollout, refused by the core, or not submitted otherwise |
| ThreadEvents.RollbackDecided | codex-rs/app-server/src/codex_message_processor.rs:2869-2911 | a rollback of no turns, without a thread, or while another holds the slot is refused with that reason, in that order; any other takes the slot and is submitted |
| ThreadEvents.InterruptDecided | codex-rs/app-server/src/codex_message_processor.rs:6459-6488 | an interrupt without a thread is refused, any other waits behind those before it |
| ThreadEvents.StepPossible | codex-rs/app-server/src/codex_message_processor.rs:2869-2932 | in every run a new request comes only when no rollback is being submitted, the end of a submission only when one is, and events at any time |
| ThreadEvents.AbortAnswersInterrupts | codex-rs/app-server/src/bespoke_event_handling.rs:1664-1692 | in every run an abort answers every waiting interrupt exactly once, in order, before the turn's end is reported, and leaves none waiting |
| ThreadEvents.ThreadState.ThreadRollback | codex-rs/app-server/src/codex_message_processor.rs:2869-2911 | the handler makes the specified step and submits exactly when it took the slot |
| ThreadEvents.ThreadState.Submitted | codex-rs/app-server/src/codex_message_processor.rs:2912-2931 | a failed submission clears the slot and answers |
| ThreadEvents.ThreadState.TurnInterrupt | codex-rs/app-server/src/codex_message_processor.rs:6459-6488 | the request is queued behind those already waiting |
| ThreadEvents.ThreadState.OnTurnAborted | codex-rs/app-server/src/bespoke_event_handling.rs:1664-1692 | the loop over the taken queue makes the specified step |
| ThreadEvents.ThreadState.OnTurnComplete | codex-rs/app-server/src/bespoke_event_handling.rs:1958-1976 | the handler makes the specified step |
| ThreadEvents.ThreadState.OnError | codex-rs/app-server/src/bespoke_event_handling.rs:1277-1319 | a failed rollback is answered and is not recorded; any other error is recorded and reported |
| ThreadEvents.ThreadState.OnThreadRolledBack | codex-rs/app-server/src/bespoke_event_handling.rs:1693-1763 | the slot is taken and answered with the outcome of reading the rollout |
| ThreadEvents.ThreadState.OnPatchStarts | codex-rs/app-server/src/bespoke_event_handling.rs:1467-1494 | only the first start is reported |
| ThreadEvents.ThreadState.CompleteFileChangeItem | codex-rs/app-server/src/bespoke_event_handling.rs:1874-1902 | the item is closed and reported completed |

## Left out

- FlattenKeepsMeaning: paths with a segment called `$ref`, or that hold the v2 prefix a second time, are not covered, because no definition or keyword on a path is named so.
- BundleClosed: names must not clash with namespaces, and no definition is called `$ref`.
- FieldDroppedExactly: the declared name is an identifier; quoted property names are not covered.
- AnswerReachesItsCause: the exact condition is for the next answer after a run that kept to it; what later answers do after a violation is not stated.
- KeysUniqueExactly: stated for fewer than 2^63 generated ids.
- FilterUnionCorrect: the pruning of unused import lines that ends the function is not modelled.
- FilterFileCorrect: the pruning of unused import lines that ends the function is not modelled.
- RunCommand: takes the order in which the select arms fire, and what senders do meanwhile, as an input.
- ListThreadsCommon: the store is a parameter that returns the next rows in order; database and rollout scanning are not part of this model.
- ThreadState: a handler's locked section and the messages it then sends are one step; interleavings inside one handler are not modelled. Only V2 interrupts are ever queued, so the V1 reply form is not modelled.
- JSON trees are values: update in place of `serde_json::Value` is not captured, and numbers are held as their printed text.
- `annotate_schema` and titles: a parameter that keeps references. Numbered-collision checks on titles are not modelled.
- Overflow of the scanner's 32-bit bracket depths.
- Escapes in JSON pointers (section 3 of RFC 6901) and percent-decoding of references: local references are plain names.
- Removal of experimental fields and type definitions from JSON schemas: map removals settled by reading one branch each.
- Files, processes, PTYs, Prettier, clocks and channels: their results are steps or parameters.
- Shutdown timeouts and forced aborts of the in-process runtime; internals of the outgoing message sender.
- Fuzzy search and login slots, authentication, plugins, file-system requests, configuration mappings and the desktop UI.
- Texts of error messages: only the kind and code of an error are kept.
