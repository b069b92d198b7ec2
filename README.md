# Argument type compatibility rule of supergraph composition

This project models `FieldArgumentsOfTheSameTypeRule`, the validation rule that
checks, while composing GraphQL subgraphs into a supergraph, that every subgraph
gives an argument the same type. The rule has two callbacks:

- `ObjectTypeFieldArg` handles arguments of object-type fields. Each subgraph's
  local type is first normalised against the type elected for the supergraph.
  If the local type has the supergraph type's base (the type with one trailing
  `!` removed) and the supergraph type is non-null, the local type reads as the
  supergraph type. So a nullable `User` under `User!` counts as `User!`. Every
  other local type is kept as written. Subgraph ids are then grouped by the
  resulting type, in first-insertion order. One `FIELD_ARGUMENT_TYPE_MISMATCH`
  error is reported when more than one group remains.
- `DirectiveFieldArg` handles arguments of directive definitions. It returns
  early for a non-executable directive, and for a directive whose argument is
  not declared in every subgraph. Otherwise it groups the raw types, with no
  normalisation, so `Int` and `Int!` differ. It reports one error unless
  exactly one group remains.

The messages read
`Type of argument "<coordinate>" is incompatible across subgraphs: it has <first> but <second> and ...`.
Each group reads `type "<T>" in subgraph[s] <names>`. Names come from the
context's id-to-name lookup. Object-field groups list names as `"a", "b"`.
Directive groups use `joinItems`, which puts an Oxford comma before the last
of three or more names.

Layout:

- `wrappers.dfy` (`Wrappers`): an `Option` for "an error or none", and how it
  extends the error sink.
- `text.dfy` (`Text`): `Array.prototype.join`, quoting, and `joinItems`.
- `type_normalization.dfy` (`TypeNormalization`): the non-null normalisation.
- `type_grouping.dfy` (`TypeGrouping`): the grouping as the source runs it
  (`GroupByType`). Beside it sits an independent reference definition: one
  group per distinct type in first-occurrence order, holding that type's
  subgraphs. The file proves the two equal and derives the partition
  properties. It also views the source's insertion-ordered `Map` as a key
  order over a Dafny `map`.
- `validation_context.dfy` (`ValidationContext`): the error record. It also
  holds a `Context` class with the subgraph count, the id-to-name lookup and
  an append-only error sink.
- `field_arguments_rule.dfy` (`FieldArgumentsOfTheSameTypeRule`):
  - the messages;
  - the two decisions as pure functions returning `Option<ValidationError>`;
  - the loops that fill the maps, as methods proved against `GroupByType`;
  - the two callbacks, each appending exactly what its function returns;
  - the rule's properties.

An argument's `byGraph` map is a sequence of `(graph, typ)` declarations in
insertion order. The methods that fill a `Map` keep a key order plus a Dafny
`map`; `Entries` gives the `Array.from(map.entries())` view.

In one edge case the code does something one might not expect, and the
model follows the code. One would expect no error when no subgraph declares
the argument, but `DirectiveFieldArg` returns early only when exactly one
group remains (`typesPerSubgraph.size === 1`). So if the subgraph count is
also zero, there are no groups and the callback still reports an error.
JavaScript's destructuring then leaves `first` undefined, so the message
contains `it has undefined but `. `DirectiveFieldArgError` states this case
in its contract, and `DirectiveArgMessage` prints `undefined`. Whether the
case is reachable depends on the traversal that invokes the callback, which
is not part of this model. It is unreachable if composition always has at
least one subgraph.

## Model

| member | source | states |
|---|---|---|
| `Text.QuotedJoin` | src/supergraph/validation/rules/field-arguments-of-the-same-type-rule.ts:52-54 | joining names with `", "` inside outer quotes gives every name quoted, separated by `, ` |
| `Text.JoinItems` | src/supergraph/validation/rules/field-arguments-of-the-same-type-rule.ts:131-141 | the result is empty exactly when there are no items; one item is quoted; two quoted items are joined by ` and ` |
| `Text.OxfordComma` | src/supergraph/validation/rules/field-arguments-of-the-same-type-rule.ts:138-139 | for three or more items, all items are quoted, all but the last separated by `, `, and `, and ` precedes the last |
| `Text.OxfordCommaGrowth` | src/supergraph/validation/rules/field-arguments-of-the-same-type-rule.ts:136-139 | adding a third item turns `"a" and "b"` into `"a", "b", and "c"` |
| `TypeNormalization.StripNonNull` | src/supergraph/validation/rules/field-arguments-of-the-same-type-rule.ts:21 | removing `/!$/` drops exactly one trailing `!` when there is one and leaves other types unchanged |
| `TypeNormalization.Normalize` | src/supergraph/validation/rules/field-arguments-of-the-same-type-rule.ts:18-37 | a local type with the supergraph type's base under a non-null supergraph type becomes the supergraph type; in every other case the local type is kept; the base never changes |
| `TypeNormalization.NormalizeIdempotent` | src/supergraph/validation/rules/field-arguments-of-the-same-type-rule.ts:18-37 | normalising a normalised type against the same supergraph type gives it back |
| `TypeNormalization.CompatibleLocalsAgree` | src/supergraph/validation/rules/field-arguments-of-the-same-type-rule.ts:24-34 | local types that differ from a non-null supergraph type only by `!` all normalise to the supergraph type |
| `TypeNormalization.DifferentBasesStayApart` | src/supergraph/validation/rules/field-arguments-of-the-same-type-rule.ts:35-37 | local types with different bases never normalise to the same type |
| `TypeNormalization.NullableUpgradedUnderNonNull` | src/supergraph/validation/rules/field-arguments-of-the-same-type-rule.ts:24-28 | the comment's two rows, `User` under `User!` reads `User!` and `User` under `String!` stays `User`, plus a nullable supergraph type: `User!` under `User` stays `User!` |
| `TypeGrouping.AddToGroupsNew` | src/supergraph/validation/rules/field-arguments-of-the-same-type-rule.ts:43-44 | a subgraph whose type has no group yet starts a new group at the end |
| `TypeGrouping.AddToGroupsExisting` | src/supergraph/validation/rules/field-arguments-of-the-same-type-rule.ts:41-42 | a subgraph whose type has a group is appended to that group only; the number of groups is unchanged |
| `TypeGrouping.GroupByTypeIsReference` | src/supergraph/validation/rules/field-arguments-of-the-same-type-rule.ts:39-46 | the groups built by the `forEach` equal one group per distinct type, in first-occurrence order, each holding the subgraphs of that type in declaration order |
| `TypeGrouping.GroupsPartition` | src/supergraph/validation/rules/field-arguments-of-the-same-type-rule.ts:39-46 | group keys are distinct; each group is non-empty and holds exactly the subgraphs declaring its key; every declared type is a key |
| `TypeGrouping.ExactlyOneGroup` | src/supergraph/validation/rules/field-arguments-of-the-same-type-rule.ts:39-46 | with distinct subgraph ids, each subgraph's type is a key, and a group holds the subgraph exactly when its key is the subgraph's type |
| `TypeGrouping.FirstOccurrenceOrder` | src/supergraph/validation/rules/field-arguments-of-the-same-type-rule.ts:39-49 | groups follow first insertion: every earlier group's type is declared before any declaration of a later group's type |
| `TypeGrouping.GroupCount` | src/supergraph/validation/rules/field-arguments-of-the-same-type-rule.ts:48 | there are more than one group exactly when two declared types differ, and none exactly when nothing is declared |
| `TypeGrouping.TwoDistinctTypes` | src/supergraph/validation/rules/field-arguments-of-the-same-type-rule.ts:39-46 | two declarations of different types give one group each, in declaration order |
| `TypeGrouping.PushExisting` | src/supergraph/validation/rules/field-arguments-of-the-same-type-rule.ts:39-42 | pushing onto an existing key's array keeps the key order and records the subgraph in that key's group |
| `TypeGrouping.SetNew` | src/supergraph/validation/rules/field-arguments-of-the-same-type-rule.ts:43-44 | setting a new key appends it to the key order and adds a one-subgraph group at the end |
| `TypeGrouping.EntryIsGroup` | src/supergraph/validation/rules/field-arguments-of-the-same-type-rule.ts:88-94 | once the map matches the grouping of a prefix, a key's subgraphs are exactly that prefix's subgraphs of the key |
| `ValidationContext.Context.ReportError` | src/supergraph/validation/rules/field-arguments-of-the-same-type-rule.ts:58-71 | reporting appends the error after every earlier one and changes nothing else |
| `FieldArgumentsOfTheSameTypeRule.ObjectTypeFieldArgError` | src/supergraph/validation/rules/field-arguments-of-the-same-type-rule.ts:48-72 | an error exists exactly when two subgraphs' normalised types differ, and it carries code `FIELD_ARGUMENT_TYPE_MISMATCH` |
| `FieldArgumentsOfTheSameTypeRule.DirectiveFieldArgError` | src/supergraph/validation/rules/field-arguments-of-the-same-type-rule.ts:74-127 | an error exists exactly when the directive is executable, the argument is declared in as many subgraphs as there are, and the raw types differ or nothing declares it; the code is `FIELD_ARGUMENT_TYPE_MISMATCH` |
| `FieldArgumentsOfTheSameTypeRule.CollectNormalizedGroups` | src/supergraph/validation/rules/field-arguments-of-the-same-type-rule.ts:10-46 | the loop over `byGraph` with `get`/`push`/`set` yields exactly the grouping of the normalised declarations |
| `FieldArgumentsOfTheSameTypeRule.CollectSubgraphType` | src/supergraph/validation/rules/field-arguments-of-the-same-type-rule.ts:87-95 | keeps the key order valid; adding a subgraph already in the type's set changes nothing; otherwise the subgraph is recorded in its type's group |
| `FieldArgumentsOfTheSameTypeRule.CollectRawGroups` | src/supergraph/validation/rules/field-arguments-of-the-same-type-rule.ts:85-99 | the loop over `byGraph` with `collectSubgraphType` yields exactly the grouping of the raw declarations |
| `FieldArgumentsOfTheSameTypeRule.ObjectTypeFieldArg` | src/supergraph/validation/rules/field-arguments-of-the-same-type-rule.ts:9-73 | the sink afterwards is the old sink plus the error of `ObjectTypeFieldArgError`, if any; nothing else changes |
| `FieldArgumentsOfTheSameTypeRule.DirectiveFieldArg` | src/supergraph/validation/rules/field-arguments-of-the-same-type-rule.ts:74-127 | the sink afterwards is the old sink plus the error of `DirectiveFieldArgError`, if any; nothing else changes |
| `FieldArgumentsOfTheSameTypeRule.NormalizedGroupsPartition` | src/supergraph/validation/rules/field-arguments-of-the-same-type-rule.ts:18-46 | each subgraph is in the group keyed by its normalised type and in no other |
| `FieldArgumentsOfTheSameTypeRule.NullableSubsumption` | src/supergraph/validation/rules/field-arguments-of-the-same-type-rule.ts:24-34 | under a non-null supergraph type, subgraphs mixing `T` and `T!` of its base produce no error |
| `FieldArgumentsOfTheSameTypeRule.NullabilityDifferenceOnlyReportedForDirectives` | src/supergraph/validation/rules/field-arguments-of-the-same-type-rule.ts:97-103 | `Int` against `Int!` is reported for an executable directive in both subgraphs, but not for an object-field argument whose supergraph type is `Int!` |
| `FieldArgumentsOfTheSameTypeRule.PluralSubgraphs` | src/supergraph/validation/rules/field-arguments-of-the-same-type-rule.ts:51-52 | a group text, in either message, begins `type "<T>" in subgraphs ` exactly when the group has more than one subgraph |
| `FieldArgumentsOfTheSameTypeRule.SingleSubgraphGroup` | src/supergraph/validation/rules/field-arguments-of-the-same-type-rule.ts:51-54 | a one-subgraph group reads `type "<T>" in subgraph "<name>"`, with no plural |
| `FieldArgumentsOfTheSameTypeRule.TwoSubgraphsDisagree` | src/supergraph/validation/rules/field-arguments-of-the-same-type-rule.ts:48-64 | two subgraphs with different normalised types give the message `first but second`, one group each, in declaration order |
| `FieldArgumentsOfTheSameTypeRule.TwoGroupMessage` | src/supergraph/validation/rules/field-arguments-of-the-same-type-rule.ts:57-64 | with exactly two groups no ` and ` tail is added: the message ends `<first> but <second>` |
| `FieldArgumentsOfTheSameTypeRule.DifferentBasesAlwaysReported` | src/supergraph/validation/rules/field-arguments-of-the-same-type-rule.ts:18-48 | two subgraphs whose local types have different bases are always reported with code `FIELD_ARGUMENT_TYPE_MISMATCH`, whatever the supergraph type |
| `FieldArgumentsOfTheSameTypeRule.IntVersusStringNamesBothSubgraphs` | src/supergraph/validation/rules/field-arguments-of-the-same-type-rule.ts:18-64 | for every elected supergraph type, `Int` against `String` is reported, naming each subgraph by its display name under its normalised type |
| `FieldArgumentsOfTheSameTypeRule.MessageSentence` | src/supergraph/validation/rules/field-arguments-of-the-same-type-rule.ts:57-64 | both messages read `it has <first> but <second>`, with further groups joined by ` and ` (the directive form at lines 114-119) |
| `FieldArgumentsOfTheSameTypeRule.FieldGroupNames` | src/supergraph/validation/rules/field-arguments-of-the-same-type-rule.ts:51-54 | an object-field group names its subgraphs by display name, each quoted, separated by `, ` |
| `FieldArgumentsOfTheSameTypeRule.DirectiveSmallGroups` | src/supergraph/validation/rules/field-arguments-of-the-same-type-rule.ts:105-111 | a directive group of one subgraph reads `type "<T>" in subgraph "a"`, one of two subgraphs `type "<T>" in subgraphs "a" and "b"`, with display names |
| `FieldArgumentsOfTheSameTypeRule.DirectiveGroupNames` | src/supergraph/validation/rules/field-arguments-of-the-same-type-rule.ts:105-111 | a directive group of three or more subgraphs lists their display names with an Oxford comma |

## Left out

- The visitor traversal (`SupergraphVisitorMap`) and the rule factory that returns the two callbacks. The callbacks are modelled as two methods that take the context; the traversal is not part of this model.
- `SupergraphValidationContext` is not part of this model. Only the part the rule uses is modelled: the subgraph count, `graphIdToName` as an uninterpreted function parameter, and `reportError` as an append to a sequence.
- `GraphQLError` and its `extensions` object come from a foreign library. An error is modelled as a `(message, code)` record.
- The regular expression `/!$/` is modelled as "remove one trailing `!`". List modifiers are not interpreted, as in the source, whose comments mark that as not implemented.
- The election of the supergraph argument type happens before this rule and is not shown. It is an input (`ArgState.typ`).
- The test file `__tests__/supergraph/base.spec.ts` exercises `composeServices`, which is not part of this model: name collisions, suffixing, URLs, directive retention and printing.
- In the source, the arrays and sets held in the maps are mutable objects updated through shared references. In the model, map values are sequences that are replaced. A JavaScript `Set` is a sequence that skips an element already present.
- `FieldArgumentsOfTheSameTypeRule.DirectiveFieldArg`: requires that `byGraph` has distinct subgraph ids. A JavaScript `Map` guarantees this, and the source relies on it when it compares `byGraph.size` with the subgraph count.
