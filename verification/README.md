# Verification of js-ceramic's core algorithms and protocols

This project models the parts of js-ceramic that compute or coordinate something difficult, and proves what they
are for. Each part is a specification, the source's own algorithm proved against it, and theorems about the
specification. What `dafny verify dfyconfig.toml` checks is the whole project.

| part | files | main results |
|---|---|---|
| Interface conformance of model schemas | `JsonSchema`, `InterfacesUtils`, `InterfaceConformance`, `InterfaceNumbers`, `InterfaceOptions`, `InterfaceForms`, `InterfaceThrows`, `InterfaceOrder`, `InterfaceStrictness` | which implementations are accepted, as a relation between keywords; an accepted implementation has only instances of the interface; exactly for which strings, numbers, `anyOf`, `oneOf` and second forms that holds; when the check throws; conformance is a preorder, through an `anyOf` exactly when its alternatives implement each other |
| Query filters | `Knex`, `QueryFilterParser`, `QueryFilterConverter`, `QueryFilterMeaning`, `QueryFilterAcceptance`, `QueryFilterGroups`, `QueryFilterNotIn`, `QueryFilterConditions` | the builder conditions select exactly the rows for which the filter is true under SQL three-valued logic, with `in` for `notIn` and without its empty groups; exactly when empty groups or `notIn` change the answer; exactly which filters compile |
| Keyset pagination | `InsertionOrder`, `Pagination` | following cursors reads every row exactly once, in the order that is asked for, in both directions; with any number of sort keys that agree, and only with those; exactly when the two directions agree |
| Merkle trees | `MerkleElements`, `MerkleTree`, `MerkleTreeFactory`, `MerkleProofs`, `MerkleValues` | the root is a function of the sorted leaves; proofs over the heap of nodes are complete and sound; the arithmetic path is the path along the parent references |
| Per-stream task lanes | `TaskLanes`, `TaskFairness`, `NamedTaskQueue`, `ExecutionQueue` | mutual exclusion, order of submission, a bounded and fair semaphore and no left-over lanes, over every interleaving |
| Anchor polling | `AnchorLoop`, `AnchorPolling`, `AnchorHandling`, `AnchorProcessingLoop`, `KeyOrder`, `AnchorRequestStore` | no request is lost while requests overwrite entries that are being processed; the protocol runs on the lanes of the named queue, and a terminal event removes the entry exactly when no other tip was saved meanwhile, as soon as the lane starts; every sweep is fair while keys come and go |
| The feed | `KeyOrder`, `FeedAggregationStore`, `FeedKeys`, `FeedDelivery`, `FeedPuts` | keys order like time within exact limits; a reader receives each entry once and in order, up to the writes that commit late; which one write a reader without a token misses |
| Tile documents | `StreamState`, `TileDocumentHandler`, `TileRuns`, `TileContent` | the content of a tile is its patches applied in order; invariants of every run of accepted commits; exactly when `forbidControllerChange` protects the controllers, and what happens otherwise |
| Identifiers | `StreamRef`, `StreamRefRoundTrip`, `StreamRefBytes`, `StreamRefErrors` | stream and commit identifiers survive encoding, and are equal exactly when their bytes are; the bytes themselves; what is refused |
| Model interfaces and the index | `ModelInterfaces`, `InterfaceLoading`, `ModelIndex` | the memoised loading computes reachability, also for concurrent calls that share promises in flight; a query over an interface reads exactly the indexed models that implement it |

`Wrappers` holds optional values and results: a `Failure` stands for an exception of the source.

## How things are modelled

- Libraries are small explicit semantics. A knex builder is a list of conditions joined by AND or OR, with AND
  binding tighter, evaluated in three-valued logic. A p-queue is a FIFO with a bound on what runs, and the
  semaphore serves in the order of asking. A level store is a map whose queries return keys in lexicographic order.
  Varints, multihashes and CIDs follow the multiformats unsigned-varint and CIDv1 specifications.
- Objects the source updates in place are classes (tree nodes with parent references, lanes, the semaphore, the
  polling loop, the feed source, the stream state, the index, the table of interfaces being loaded). Loops are loops.
  Each method is proved against a function of the old state or of its inputs.
- Concurrency is a state machine whose steps are what happens between two suspension points; the methods of the
  classes are shown to be those steps, and the theorems hold for every sequence of enabled steps.
- Signatures, DID resolution, schema validation of tile contents, JSON patches and the regular expression engine are
  arbitrary functions. Clocks, batches found in a store and the outcome of network calls are parameters.

## What turned out not to hold

The model keeps what the code does; where a promise fails, a lemma shows an input and another says when it holds.

- `notIn` is compiled as `in`: the flipped negation is computed and then not passed on
  (`packages/indexing/src/query-filter-converter.ts:161-173`). Every filter that uses it, whatever its other operators,
  is answered wrongly for some fields and values.
- Empty `and` and `or` groups vanish together with the negations around them. An empty `or`, and the negation of an
  empty `and`, select every row instead of none. Compilation is faithful, whatever the conditions in the groups,
  exactly when every part that vanishes is true where it stands in an `and` or alone, and false in an `or`.
- The conformance check never looks at `enum` of numbers and booleans, so it is sound for them exactly when every value
  that the implementation admits is listed; it measures constants in UTF-16 units, so it is sound for strings exactly when
  no admitted constant has fewer characters than the minimum.
- The check accepts `anyOf` on one matching pair: everything accepted is sound only when the `anyOf` excludes nothing,
  and a given implementation is when each of its alternatives matches an expected one. It treats `oneOf` like `allOf`:
  everything whose options match is sound exactly when the expected options are disjoint, which a test on keywords
  shows for discriminated unions. It looks at the first form of a schema only: everything accepted is sound exactly
  when the first form alone implies the others, and a given implementation is when it matches the others as well (a
  `type` next to `allOf` by its own or that of a member of its `allOf`).
- Conformance composes through an intermediate interface whose `anyOf` alternatives all implement each other. Through
  any other non-empty `anyOf` (of alternatives through which it composes) it does not.
- A `$ref` in a list is never resolved and never accepted. In `allOf` and `oneOf`, against a list of the same length
  and when no other member throws, it makes the check throw exactly when that list holds something without a `type`;
  lists of different lengths are rejected without looking at it. In `anyOf` an earlier alternative may be matched
  first.
- Backward pages break ties by ascending stream id, so both directions agree exactly when no two rows agree in all sort
  keys.
- With several sort keys the cursor conditions are joined by AND. Rows are lost exactly when going on in the listing
  goes back in a single key (or to a smaller stream id on an equal value); read one at a time, every row is returned
  exactly when that never happens.
- More than a million feed keys in one millisecond order wrongly; a write that commits after a reader has passed its
  key is never delivered.
- A reader that opens without a token starts at the first key of the present millisecond, and reads above it. If the
  store makes its first write of that millisecond afterwards, the write gets the same key and is never delivered; every
  other write after opening is.
- `forbidControllerChange` does not protect the controllers of a tile from a signed commit whose header has `controllers`
  with null (or another value that JavaScript takes for false): both guards skip it, and it overwrites the old value. A
  run keeps control throughout exactly when no commit does that. Nobody else ever gets control, but after the next
  anchor nobody has it: the document accepts anchors only, and never changes again. In the same way null for `schema`
  ends the schema check.
- An anchor drops pending tile content that JavaScript takes for false without being null.
- A signed commit whose patch or schema fails has already pushed its log entry when it throws.
- The comment on `loadAllModelInterfaces` announces duplicate entries; the code removes them, and so does the model.

## Model

| member | source | states |
|---|---|---|
| InterfacesUtils.ValidateSchemaType | packages/stream-model-handler/src/interfaces-utils.ts:484-607 | reports no error, some error, or throws exactly as the recursive specification `Check` decides, and every error lies at or below the checked path |
| InterfacesUtils.ValidateForm | packages/stream-model-handler/src/interfaces-utils.ts:508-556 | the choice among `allOf`, `anyOf`, `oneOf` and `type`, in that order, gives the verdict of the specification |
| InterfacesUtils.ValidateBody | packages/stream-model-handler/src/interfaces-utils.ts:555-604 | the switch over `type`, with the throw when neither schema has one |
| InterfacesUtils.ValidateArraySchema | packages/stream-model-handler/src/interfaces-utils.ts:82-142 | no error iff sizes are at least as restrictive and both item schemas resolve and conform |
| InterfacesUtils.ValidateBooleanSchema | packages/stream-model-handler/src/interfaces-utils.ts:144-162 | no error iff an expected constant is the implemented one |
| InterfacesUtils.ValidateObjectSchema | packages/stream-model-handler/src/interfaces-utils.ts:164-198 | the two loops together give the verdict of the specification on required names and properties |
| InterfacesUtils.ValidateRequired | packages/stream-model-handler/src/interfaces-utils.ts:171-177 | no error iff every name required by the interface is required by the implementation |
| InterfacesUtils.ValidateProperties | packages/stream-model-handler/src/interfaces-utils.ts:179-195 | no error iff every expected property is there and conforms; a throw in one aborts all |
| InterfacesUtils.ValidateProperty | packages/stream-model-handler/src/interfaces-utils.ts:186-192 | the verdict on two resolved properties, including references that resolve to nothing |
| InterfacesUtils.ValidateNumberSchema | packages/stream-model-handler/src/interfaces-utils.ts:200-308 | no error iff the bounds are at least as restrictive, or the constant lies inside them; otherwise one error for each violated keyword, in order |
| InterfacesUtils.ValidateStringSchema | packages/stream-model-handler/src/interfaces-utils.ts:310-426 | no error iff constant, enumeration, pattern and lengths conform; otherwise one error for each violated keyword, in order |
| InterfacesUtils.ValidateEnum | packages/stream-model-handler/src/interfaces-utils.ts:327-371 | no error iff the implemented values are a subset that meets the expected ones, or the constant is among them |
| InterfacesUtils.ValidateAllSchemaTypes | packages/stream-model-handler/src/interfaces-utils.ts:428-460 | no error iff the lists are equally long and every expected schema has a conforming one; otherwise an error at exactly the positions that nothing matches |
| InterfacesUtils.ValidateAnySchemaTypes | packages/stream-model-handler/src/interfaces-utils.ts:462-482 | no error iff some pair conforms or nothing is expected |
| InterfacesUtils.FindMatch | packages/stream-model-handler/src/interfaces-utils.ts:448-454 | whether the first schema that does not reject accepts |
| InterfaceStrictness.AcceptedExactly | packages/stream-model-handler/src/interfaces-utils.ts:484-607 | without a throw in the way an implementation is accepted iff its title, constants, enumerations, patterns, bounds, lengths, sizes and required names are as strict as the expected ones, through lists, items and properties |
| InterfaceStrictness.TypeAcceptedExactly | packages/stream-model-handler/src/interfaces-utils.ts:555-604 | the same at one `type` |
| InterfaceStrictness.NumbersConformIff | packages/stream-model-handler/src/interfaces-utils.ts:200-308 | numbers are accepted iff constants lie within the expected bounds and other bounds are not wider, exclusive ones included |
| InterfaceStrictness.TextsConformIff | packages/stream-model-handler/src/interfaces-utils.ts:310-426 | texts are accepted iff they are listed, patterned and bounded at least as much |
| InterfaceStrictness.EachAcceptedExactly | packages/stream-model-handler/src/interfaces-utils.ts:428-460 | a list is accepted iff it is as long and each expected member is implemented by some |
| InterfaceStrictness.SomeAcceptedExactly | packages/stream-model-handler/src/interfaces-utils.ts:462-482 | an `anyOf` is accepted iff some pair is, or nothing is expected |
| InterfaceStrictness.PropertiesAcceptedExactly | packages/stream-model-handler/src/interfaces-utils.ts:179-195 | properties are accepted iff each expected one is there and as strict |
| InterfaceStrictness.TitlesAgree | packages/stream-model-handler/src/interfaces-utils.ts:499-507 | an accepted pair agrees in an expected title |
| InterfaceStrictness.ReferenceStandsForTarget | packages/stream-model-handler/src/interfaces-utils.ts:64-71 | for items and properties a reference is its target, on either side |
| InterfaceStrictness.LostReferenceIsNotAccepted | packages/stream-model-handler/src/interfaces-utils.ts:186-192 | a reference that resolves to nothing is never accepted |
| InterfaceStrictness.NumberErrorsName | packages/stream-model-handler/src/interfaces-utils.ts:200-308 | numbers are reported for exactly the keywords that are not implemented |
| InterfaceStrictness.StringErrorsName | packages/stream-model-handler/src/interfaces-utils.ts:310-426 | texts are reported for exactly the keywords that are not implemented |
| JsonSchema.Utf16Length | packages/stream-model-handler/src/interfaces-utils.ts:386-407 | the length that JavaScript measures lies between one and two units per character |
| InterfaceConformance.ConformanceIsSound | packages/stream-model-handler/src/interfaces-utils.ts:484-607 | if the check accepts, every JSON value valid under the implementation is valid under the interface, by the value semantics of JSON Schema 2020-12, for pairs that the check reads: each implemented `anyOf` alternative matches an expected one, each implemented `oneOf` option matches one expected option and is apart from the others, and forms beside the first are matched too |
| InterfaceConformance.OneOfIsSound | packages/stream-model-handler/src/interfaces-utils.ts:532-539 | exactly one expected option has an instance when options are matched and the others are apart |
| InterfaceConformance.SecondTypeIsSound | packages/stream-model-handler/src/interfaces-utils.ts:508-556 | a `type` beside another form holds when that of the implementation, or of a member of its `allOf`, conforms |
| InterfaceConformance.BodyIsSound | packages/stream-model-handler/src/interfaces-utils.ts:557-602 | soundness at one `type`, through array items and object properties; an expected `enum` of numbers or booleans has to be implemented |
| InterfaceConformance.PropertyIsSound | packages/stream-model-handler/src/interfaces-utils.ts:180-194 | soundness for one property that a value has |
| InterfaceConformance.StringInclusion | packages/stream-model-handler/src/interfaces-utils.ts:310-426 | for accepted strings inclusion holds iff no admitted constant has fewer characters than the expected minimum |
| InterfaceConformance.BooleanInclusion | packages/stream-model-handler/src/interfaces-utils.ts:144-162 | for accepted booleans inclusion holds iff every boolean that the implementation admits is in the expected `enum` |
| InterfaceNumbers.NumberInclusion | packages/stream-model-handler/src/interfaces-utils.ts:200-308 | for accepted numbers inclusion holds iff every number that the implementation admits is in the expected `enum`, decided on the keywords |
| InterfaceNumbers.ListsAllExactly | packages/stream-model-handler/src/interfaces-utils.ts:200-308 | the test on keywords (constant, own `enum`, integers between the bounds, a single point) says exactly that no admitted number is missing from a finite list |
| InterfaceOptions.ApartIsDisjoint | packages/stream-model-handler/src/interfaces-utils.ts:532-539 | schemas with different types, constants, enumerations, bounds, or a required property whose schemas differ so, have no common instance |
| InterfaceOptions.NumbersApartExactly | packages/stream-model-handler/src/interfaces-utils.ts:200-308 | for numbers the test on keywords is exactly disjointness |
| InterfaceForms.OneOfIsSoundIff | packages/stream-model-handler/src/interfaces-utils.ts:532-539 | everything accepted for a `oneOf` with matched options has only instances of it iff the expected options are disjoint |
| InterfaceForms.ApartOptionsAreDisjoint | packages/stream-model-handler/src/interfaces-utils.ts:532-539 | options that are apart by their keywords are disjoint, so that everything accepted for them is sound |
| InterfaceForms.OverlapIsUnsound | packages/stream-model-handler/src/interfaces-utils.ts:532-539 | any two options with a common instance give an accepted `oneOf` that has it and an interface that does not |
| InterfaceForms.SecondFormIsSoundIff | packages/stream-model-handler/src/interfaces-utils.ts:508-556 | everything accepted for an interface with several forms has only instances of it iff its first form alone has |
| InterfaceForms.AnyOfIsSoundIff | packages/stream-model-handler/src/interfaces-utils.ts:462-482 | everything accepted for an `anyOf` has only instances of it iff every value is one |
| InterfaceThrows.NoCrash | packages/stream-model-handler/src/interfaces-utils.ts:484-607 | the check does not throw when every compared part of the interface has a `type` or a list form and references resolve |
| InterfaceThrows.ThrowsExactly | packages/stream-model-handler/src/interfaces-utils.ts:484-607 | some implementation makes the check throw iff some compared part of the interface has no form, unless alternatives of an `anyOf` stand before it |
| InterfaceThrows.AnyOfThrowsIff | packages/stream-model-handler/src/interfaces-utils.ts:462-482 | some list makes an `anyOf` throw iff one schema is rejected by alternatives up to one that throws on it |
| InterfaceThrows.EachThrowsIff | packages/stream-model-handler/src/interfaces-utils.ts:447-458 | the loop over a list throws iff the search for one of its members does |
| InterfaceThrows.ReferenceThrowsIff | packages/stream-model-handler/src/interfaces-utils.ts:555-604 | a reference compared directly throws iff the other schema has no `type`, and is rejected otherwise |
| InterfaceThrows.ReferenceInListThrowsIff | packages/stream-model-handler/src/interfaces-utils.ts:428-460 | a reference in an `allOf` or `oneOf` whose other members do not throw, against a list of the same length, throws iff that list holds something without a `type`, and is rejected otherwise |
| InterfaceOrder.ConformanceIsReflexive | packages/stream-model-handler/src/interfaces-utils.ts:484-607 | every well-formed schema implements itself |
| InterfaceOrder.ConformanceIsTransitive | packages/stream-model-handler/src/interfaces-utils.ts:484-607 | conformance composes through every intermediate interface whose `anyOf` alternatives implement each other, with any well-formed schemas on both sides |
| InterfaceOrder.TransitiveEach | packages/stream-model-handler/src/interfaces-utils.ts:428-460 | list matching composes |
| InterfaceOrder.TransitiveBody | packages/stream-model-handler/src/interfaces-utils.ts:164-198 | conformance at one `type` composes, through properties and items |
| InterfaceOrder.TransitiveChoice | packages/stream-model-handler/src/interfaces-utils.ts:462-482 | what an alternative implements and what implements another alternative meet, as these implement each other |
| InterfaceOrder.AnyOfConformsIff | packages/stream-model-handler/src/interfaces-utils.ts:462-482 | an `anyOf` is implemented by another iff some pair of alternatives conforms |
| InterfaceOrder.ComposesThroughAnyOfIff | packages/stream-model-handler/src/interfaces-utils.ts:462-482 | conformance composes through an `anyOf` iff its alternatives all implement each other |
| InterfaceOrder.DisagreementDoesNotCompose | packages/stream-model-handler/src/interfaces-utils.ts:462-482 | the two schemas between which it fails, for any two alternatives that do not conform |
| InterfaceConformance.AnyOfWithAChoiceIsUnsound | packages/stream-model-handler/src/interfaces-utils.ts:469-476 | an accepted `anyOf` with two alternatives that has an instance the interface lacks (the exact condition is `AnyOfIsSoundIff`) |
| InterfaceConformance.OneOfIsUnsound | packages/stream-model-handler/src/interfaces-utils.ts:532-539 | an accepted `oneOf` that has an instance the interface lacks (the exact condition is `OneOfIsSoundIff`) |
| InterfaceConformance.NumberEnumIsIgnored | packages/stream-model-handler/src/interfaces-utils.ts:200-308 | an accepted number outside the expected enumeration (the exact condition is `NumberInclusion`) |
| InterfaceConformance.SecondFormIsIgnored | packages/stream-model-handler/src/interfaces-utils.ts:509-524 | next to `allOf` a different `type` is accepted (the exact condition is `SecondFormIsSoundIff`) |
| InterfaceConformance.AstralConstantIsUnsound | packages/stream-model-handler/src/interfaces-utils.ts:404-414 | one character above U+FFFF is accepted for a minimum length of two |
| Knex.EvalFolds | packages/indexing/src/query-filter-converter.ts:228-244 | a builder that uses one connective is the conjunction or disjunction of its conditions |
| Knex.EvalPrints | packages/indexing/src/query-filter-converter.ts:228-252 | the same when some conditions print nothing: the connective joins the others, and nothing is printed when none is left |
| QueryFilterParser.ParseObjectFilter | packages/indexing/src/query-filter-parser.ts:76-163 | the loops build the entries of the specification, or fail as it does |
| QueryFilterParser.ParseChildFilters | packages/indexing/src/query-filter-parser.ts:86-160 | one parsed filter per operator, or the error of the first that is not accepted |
| QueryFilterParser.ValidateCombinedOps | packages/indexing/src/query-filter-parser.ts:58-74 | two operators pass iff they are a lower and an upper bound, and come out in that order |
| QueryFilterConverter.ConvertQueryFilter | packages/indexing/src/query-filter-converter.ts:260-286 | the closure appends to any builder exactly the conditions of the specification; an undefined filter adds none |
| QueryFilterConverter.Convert | packages/indexing/src/query-filter-converter.ts:260-286 | the recursion on the conversion state, with negation carried as a flag |
| QueryFilterConverter.HandleCombinator | packages/indexing/src/query-filter-converter.ts:220-258 | the closures that share `first` append one group per filter joined by the connective, negated as a whole |
| QueryFilterConverter.CombineNext | packages/indexing/src/query-filter-converter.ts:232-242 | what one closure appends once `first` is false |
| QueryFilterConverter.HandleWhereQuery | packages/indexing/src/query-filter-converter.ts:113-218 | several keys are joined by AND and negated as a whole, one key is negated by itself |
| QueryFilterConverter.HandleEntries | packages/indexing/src/query-filter-converter.ts:126-204 | the loop over the keys appends one condition per key and selects them in order |
| QueryFilterConverter.HandleEntry | packages/indexing/src/query-filter-converter.ts:131-201 | one key extends the closure by its condition, or throws |
| QueryFilterConverter.HandleQueryAdds | packages/indexing/src/query-filter-converter.ts:38-59 | the one condition that `handleQuery` appends |
| QueryFilterConverter.HandleInAdds | packages/indexing/src/query-filter-converter.ts:79-111 | the one condition that `handleIn` appends |
| QueryFilterMeaning.ConversionPreservesMeaning | packages/indexing/src/query-filter-converter.ts:113-286 | for every convertible filter, negation flag and connective the conditions evaluate to the (negated) truth of what the filter prints, or print nothing when it does |
| QueryFilterMeaning.ParsingPreservesMeaning | packages/indexing/src/query-filter-parser.ts:165-223 | a parsed filter means what the API filter means with `in` for `notIn` |
| QueryFilterMeaning.PrintsPruned | packages/indexing/src/query-filter-parser.ts:165-223 | a parsed filter prints the truth of the API filter without its empty groups |
| QueryFilterMeaning.CompilationPreservesMeaning | packages/indexing/src/insertion-order.ts:234-239 | every compiled filter selects a row iff what is left of it without its empty groups, with `in` for `notIn`, is true for the row, or nothing is left |
| QueryFilterGroups.CompilationIsFaithful | packages/indexing/src/insertion-order.ts:234-239 | without `notIn` and with harmless groups a compiled filter selects a row iff the filter is true for it |
| QueryFilterGroups.HarmlessExactly | packages/indexing/src/query-filter-converter.ts:220-258 | all filters with the same groups, whatever their conditions, are answered faithfully on every row iff the empty groups are harmless |
| QueryFilterGroups.PruningKeepsTruth | packages/indexing/src/query-filter-converter.ts:246-252 | harmless groups may vanish without changing the truth of the filter |
| QueryFilterGroups.EmptyGroupsSelectEverything | packages/indexing/src/query-filter-converter.ts:246-252 | an empty `or` and the negation of an empty `and` are false but select every row |
| QueryFilterMeaning.NothingToReplace | packages/indexing/src/query-filter-converter.ts:154-178 | replacing `notIn` changes a filter iff it uses `notIn` |
| QueryFilterMeaning.NotInIsCompiledAsIn | packages/indexing/src/query-filter-converter.ts:160-173 | a `notIn` condition is answered as documented exactly on the rows where the field is NULL |
| QueryFilterNotIn.NotInExactly | packages/indexing/src/query-filter-converter.ts:154-178 | filters with the same harmless groups and operators are all answered faithfully, on every row of every database, iff none of the operators is `notIn` |
| QueryFilterNotIn.ForcedTruths | packages/indexing/src/query-filter-converter.ts:154-178 | fields and values can be chosen so that a filter has a given truth, and the opposite one with `in` for `notIn` |
| QueryFilterConditions.ConditionSelectsExactly | packages/indexing/src/query-filter-parser.ts:40-64 | a compiled filter of one condition selects exactly the rows whose field, read as boolean, number or string like the value, compares as the operator says |
| QueryFilterConditions.GroupsMean | packages/indexing/src/query-filter-converter.ts:220-258 | the truth of groups and negations in three-valued logic, from that of their members |
| QueryFilterConditions.SelectsUsedFields | packages/indexing/src/query-filter-converter.ts:113-258 | exactly the fields that the conditions are on are selected |
| QueryFilterAcceptance.ConvertsExactly | packages/indexing/src/query-filter-converter.ts:113-286 | for which parsed filters the conversion does not throw |
| QueryFilterAcceptance.CompilesExactly | packages/indexing/src/query-filter-parser.ts:76-223 | exactly which API filters compile, all others fail |
| InsertionOrder.ApplyCursor | packages/indexing/src/insertion-order.ts:252-280 | appends one group per cursor field, or the one for the timestamp |
| InsertionOrder.ApplySorting | packages/indexing/src/insertion-order.ts:282-301 | appends the sort keys, reversed when asked, and always the ascending stream id |
| InsertionOrder.MakeQuery | packages/indexing/src/insertion-order.ts:197-227 | cursor conditions and order of the query |
| InsertionOrder.ForwardPage | packages/indexing/src/insertion-order.ts:116-141 | the first rows after the cursor with their cursors, whether there are more, and the cursors at both ends |
| InsertionOrder.BackwardQuery | packages/indexing/src/insertion-order.ts:184-195 | the selected rows turned around in place |
| InsertionOrder.ReverseInPlace | packages/indexing/src/insertion-order.ts:192-193 | the array is the reverse of what it was |
| InsertionOrder.BackwardPage | packages/indexing/src/insertion-order.ts:142-162 | the reverse of the first rows of the descending listing, through `slice(-limit)`, with their cursors |
| Pagination.SortSorts | packages/indexing/src/insertion-order.ts:282-301 | the order of the query sorts unique rows strictly and keeps them all |
| Pagination.SortedIsUnique | packages/indexing/src/insertion-order.ts:282-301 | there is only one strictly sorted listing of some rows |
| Pagination.SortedIsOrdered | packages/indexing/src/insertion-order.ts:282-301 | rows are sorted by the terms of the query iff they are in insertion order, or in the order that the sort keys ask for |
| Pagination.CursorConditionsAreJoined | packages/indexing/src/insertion-order.ts:252-280 | a row passes a cursor iff it passes every one of its groups |
| Pagination.CursorSelectsWhatFollows | packages/indexing/src/insertion-order.ts:252-301 | with at most one sort key the cursor of a row selects exactly the rows after it in the order of the query |
| Pagination.OneKeyAgrees | packages/indexing/src/insertion-order.ts:266-301 | at most one sort key always agrees |
| Pagination.CursorSelectsLater | packages/indexing/src/insertion-order.ts:252-301 | when the keys agree, for any number of them, a cursor selects exactly the rows after it |
| Pagination.CursorResumes | packages/indexing/src/insertion-order.ts:171-227 | for any number of agreeing sort keys, from the cursor behind the first n rows the database returns the rest of the whole listing |
| Pagination.NextPage | packages/indexing/src/insertion-order.ts:116-141 | a forward page is the next slice of the whole listing, and its end cursor stands behind it |
| Pagination.PreviousPage | packages/indexing/src/insertion-order.ts:142-162 | a backward page is the next slice of the descending listing turned around |
| Pagination.ReadForward | packages/indexing/src/insertion-order.ts:116-141 | for any number of agreeing sort keys, following end cursors yields every row exactly once in full pages; without sort keys from the oldest to the newest, otherwise in the order of the first key in which rows differ, by ascending id on ties |
| Pagination.ReadBackward | packages/indexing/src/insertion-order.ts:142-162 | for any number of agreeing sort keys, following start cursors yields every row exactly once; turned around the pages are in the opposite order, by ascending id on ties |
| Pagination.DirectionsAgreeIffNoTies | packages/indexing/src/insertion-order.ts:282-301 | for any sort keys, with missing values sorted at one end, both directions give the same listing iff no two rows agree in all sort keys |
| Pagination.OppositeOrders | packages/indexing/src/insertion-order.ts:282-301 | rows that differ in a sort key change places when the direction does, tied ones keep the order of their ids |
| Pagination.CursorSelectsPerKey | packages/indexing/src/insertion-order.ts:266-277 | with several keys a row passes iff it is beyond the cursor in each key separately |
| Pagination.ReturnedRowsFollowTheCursor | packages/indexing/src/insertion-order.ts:266-301 | for any number of keys every returned row is strictly after the cursor |
| Pagination.SeveralKeysLoseNothingIff | packages/indexing/src/insertion-order.ts:266-301 | the database returns the rest of the listing from every cursor of the listing iff going on in the listing never goes back in a single key |
| Pagination.ReadOneByOne | packages/indexing/src/insertion-order.ts:116-141 | reading one row at a time returns rows in order and without repetition, and all of them iff the keys agree |
| Pagination.SecondKeyLosesARow | packages/indexing/src/insertion-order.ts:266-277 | two rows and two keys for which nothing is returned after the first row, although the second follows |
| MerkleTreeFactory.MerkleTreeFactory.Build | packages/anchor-utils/src/merkle/merkle-tree-factory.ts:54-76 | fails without leaves, or above the depth limit with that limit and the number of leaves it allows; otherwise a valid tree over the leaves, sorted when there is an order, with their metadata |
| MerkleTreeFactory.MerkleTreeFactory.BuildRoot | packages/anchor-utils/src/merkle/merkle-tree-factory.ts:78-104 | the root over one leaf or over a level, with the metadata mixed in |
| MerkleTreeFactory.MerkleTreeFactory.BuildLevel | packages/anchor-utils/src/merkle/merkle-tree-factory.ts:78-104 | the nodes form a tree of fresh inner nodes over exactly the given leaves, linked, halved and merged |
| MerkleTreeFactory.MerkleTreeFactory.BuildHalves | packages/anchor-utils/src/merkle/merkle-tree-factory.ts:94-99 | two disjoint trees that split the leaves in the middle |
| MerkleTreeFactory.MerkleTreeFactory.MergeNodes | packages/anchor-utils/src/merkle/merkle-tree-factory.ts:100-103 | the parent over two trees; both parent references are set |
| MerkleTreeFactory.SortNodesSorts | packages/anchor-utils/src/merkle/merkle-tree-factory.ts:67-69 | leaves are sorted under any total preorder |
| MerkleTreeFactory.SortNodesKeeps | packages/anchor-utils/src/merkle/merkle-tree-factory.ts:67-69 | sorting keeps the nodes and their data |
| MerkleTree.MerkleTree.GetDirectPathFromRoot | packages/anchor-utils/src/merkle/merkle-tree.ts:100-104 | the path that leads from the root to this leaf, or an error for an index without a leaf |
| MerkleTree.MerkleTree.PathFromRoot | packages/anchor-utils/src/merkle/merkle-tree.ts:9-23 | climbing parent references collects the path from the root |
| MerkleTree.MerkleTree.GetProof | packages/anchor-utils/src/merkle/merkle-tree.ts:88-92 | the tops of the subtrees beside the path, from the leaf upwards; an error over a single leaf |
| MerkleTree.MerkleTree.CalculateProof | packages/anchor-utils/src/merkle/merkle-tree.ts:29-42 | climbing parent references collects those siblings |
| MerkleTree.MerkleTree.VerifyProof | packages/anchor-utils/src/merkle/merkle-tree.ts:112-127 | whether merging upwards along the proof gives the root; fails on a node without a parent |
| MerkleTree.PathByIndex | packages/anchor-utils/src/merkle/merkle-tree.ts:135-146 | the path obtained by halving the number of leaves |
| MerkleTree.PathByIndexHelper | packages/anchor-utils/src/merkle/merkle-tree.ts:148-170 | the rest of the halving path is appended |
| MerkleTree.PathToReaches | packages/anchor-utils/src/merkle/merkle-tree.ts:100-104 | following the path of an index from the root reaches that leaf |
| MerkleTree.RecomputeInjective | packages/anchor-utils/src/merkle/merkle-tree.ts:112-127 | with an injective merge different values recompute to different roots |
| MerkleProofs.ArithmeticPathIsTreePath | packages/anchor-utils/src/merkle/merkle-tree.ts:100-170 | in a built tree the arithmetic path is the path along the parent references and leads to the leaf |
| MerkleProofs.DistinctIndicesHaveDistinctPaths | packages/anchor-utils/src/merkle/merkle-tree.ts:135-170 | distinct indices have distinct paths |
| MerkleProofs.BuiltPathsRespectDepth | packages/anchor-utils/src/merkle/merkle-tree-factory.ts:60-64 | within the leaf limit of a depth no path is longer than the depth |
| MerkleProofs.FoldRecomputes | packages/anchor-utils/src/merkle/merkle-tree.ts:112-127 | merging along the siblings recomputes the root, the metadata entering at the last one only |
| MerkleProofs.ProofsAreComplete | packages/anchor-utils/src/merkle/merkle-tree.ts:29-127 | the proof of a leaf leads from its value to the root |
| MerkleProofs.ProofsAreSound | packages/anchor-utils/src/merkle/merkle-tree.ts:29-127 | with an injective merge the proof of a leaf accepts a value iff it is the value of that leaf |
| MerkleProofs.ProveAndVerify | packages/anchor-utils/src/merkle/merkle-tree.ts:88-127 | `verifyProof(getProof(i), x)` accepts the leaf value, and under an injective merge nothing else |
| MerkleValues.RootIsValueOfLeaves | packages/anchor-utils/src/merkle/merkle-tree-factory.ts:54-126 | the root is the merge of both halves of the leaves, the odd one on the right, with the metadata at the top only |
| MerkleValues.DepthLimitIsExact | packages/anchor-utils/src/merkle/merkle-tree-factory.ts:60-64 | no path is longer than the depth iff there are no more than 2^depth leaves |
| MerkleValues.SortIsStable | packages/anchor-utils/src/merkle/merkle-tree-factory.ts:66-69 | leaves that compare equal keep their order |
| NamedTaskQueue.NamedTaskQueue.Queue | packages/core/src/state-management/named-task-queue.ts:26-35 | returns the lane of the name, made when there is none |
| NamedTaskQueue.NamedTaskQueue.Remove | packages/core/src/state-management/named-task-queue.ts:42-47 | forgets the lane iff nothing waits or runs in it |
| NamedTaskQueue.NamedTaskQueue.Run | packages/core/src/state-management/named-task-queue.ts:57-68 | appends the task to the lane of the name |
| NamedTaskQueue.NamedTaskQueue.StartNext | packages/core/src/ancillary/task-queue.ts:81-83 | an idle lane takes the task at its front |
| NamedTaskQueue.NamedTaskQueue.Settle | packages/core/src/ancillary/task-queue.ts:81-83 | the running task of a lane is over |
| ExecutionQueue.ExecutionQueue.Run | packages/core/src/state-management/execution-queue.ts:30-53 | a submission appends to the lane of the stream and to its history |
| ExecutionQueue.ExecutionQueue.StartNext | packages/core/src/state-management/execution-queue.ts:34-49 | a task that its lane starts asks the semaphore for a permit, behind all who asked before |
| ExecutionQueue.ExecutionQueue.GrantPermit | packages/core/src/state-management/execution-queue.ts:39-49 | a task begins iff a permit is free and someone asked; it is the running task of the lane that asked first |
| ExecutionQueue.ExecutionQueue.ReleasePermit | packages/core/src/state-management/execution-queue.ts:39-49 | a task that is over gives its permit back to the semaphore, before its lane knows |
| ExecutionQueue.ExecutionQueue.FinishTask | packages/core/src/ancillary/task-queue.ts:68-83 | the lane is free again and the callback of the task is due |
| ExecutionQueue.ExecutionQueue.CleanUp | packages/core/src/state-management/named-task-queue.ts:65-87 | the callback removes the lane if it is idle |
| TaskLanes.StepKeepsInv | packages/core/src/state-management/execution-queue.ts:30-53 | every submission, start, grant, release, end and callback keeps the invariant of the lanes |
| TaskLanes.StepKeepsPermits | packages/core/src/state-management/execution-queue.ts:34-49 | permits are neither lost nor made |
| TaskLanes.OnlyIdleLanesAreDeleted | packages/core/src/state-management/named-task-queue.ts:42-47 | a lane is only deleted idle, by the callback of a task of its name |
| TaskLanes.LanesAreSafe | packages/core/src/state-management/named-task-queue.ts:26-88 | in every run at most one task of a name runs, tasks of a name begin in the order of submission even if the lane was made anew, and the semaphore bounds the tasks that run |
| TaskLanes.QuiescenceLeavesNothing | packages/core/src/state-management/named-task-queue.ts:26-88 | when nothing is left to happen there is no lane, all permits are free and every submitted task has begun |
| TaskFairness.PermitsInTurn | packages/core/src/state-management/execution-queue.ts:34-49 | in every run permits are granted in the order in which lanes asked |
| TaskFairness.FirstInTurnBegins | packages/core/src/state-management/execution-queue.ts:34-49 | who is granted a permit begins the task its lane is running |
| AnchorLoop.StepKeepsInv | packages/core/src/anchor/anchor-processing-loop.ts:51-94 | every step of requesters, handlers and failures keeps the invariant |
| AnchorLoop.RemovedOnlyWhenHandled | packages/core/src/anchor/anchor-processing-loop.ts:74-84 | an entry leaves the store only after a terminal event for the very tip it holds was handled |
| AnchorLoop.ReplacedOnlyByRequests | packages/core/src/anchor/ethereum/ethereum-anchor-service.ts:105-112 | a stored tip is only replaced by that of a newer request |
| AnchorLoop.NoRequestIsLost | packages/core/src/anchor/anchor-processing-loop.ts:51-94 | in every run the latest request of each stream is stored or was handled, and no stream has two handlers in flight |
| AnchorPolling.StepRefines | packages/core/src/anchor/anchor-processing-loop.ts:51-94 | every step on the lanes of the named queue is a step of the polling protocol with exclusive lanes, or none |
| AnchorPolling.StepKeepsCoupled | packages/core/src/state-management/named-task-queue.ts:26-88 | every step keeps that the tasks in lanes belong to those who wait or work, without duplicates, also in lanes that were dropped |
| AnchorPolling.ReachableBySteps | packages/core/src/anchor/anchor-processing-loop.ts:51-94 | the states that lie in every invariant are exactly those that some run of steps reaches |
| AnchorPolling.ReachableIsProtocol | packages/core/src/anchor/anchor-processing-loop.ts:51-94 | every state that can be reached on the lanes satisfies the invariant of the protocol |
| AnchorPolling.LaneNeverStalls | packages/core/src/state-management/named-task-queue.ts:26-47 | a lane with a waiting task and no running one can go on: the owner of the task is waiting for it |
| AnchorPolling.HandlerHasItsLane | packages/core/src/anchor/anchor-processing-loop.ts:76-84 | a handler that loads again or removes is the running task of its lane |
| AnchorPolling.WriterHasItsLane | packages/core/src/anchor/ethereum/ethereum-anchor-service.ts:105-112 | a requester that saves is the running task of its lane |
| AnchorPolling.LatestIsKept | packages/core/src/anchor/anchor-processing-loop.ts:51-94 | in every reachable state the latest request of a stream is stored, or a terminal event for it was handled |
| AnchorPolling.OthersDoNotDisturb | packages/core/src/anchor/anchor-processing-loop.ts:51-94 | no step of others moves a handler, except that its lane may start its task |
| AnchorHandling.HandlingEnds | packages/core/src/anchor/anchor-processing-loop.ts:51-94 | what the handler comes to: over without an entry or a terminal event; waiting iff no step starts its task; otherwise the entry is removed iff no other tip was saved since it was loaded, a newer one stays, and the id is free |
| AnchorHandling.InLaneIffStarted | packages/core/src/anchor/anchor-processing-loop.ts:76-84 | a waiting handler gets into its lane iff some step of the schedule starts its task |
| AnchorHandling.InLaneRemovesIff | packages/core/src/anchor/anchor-processing-loop.ts:76-84 | in its lane a handler removes the entry iff it still has the processed tip |
| AnchorHandling.OthersFollow | packages/core/src/anchor/anchor-processing-loop.ts:51-94 | while a handler waits its entry is only replaced by newer requests |
| AnchorHandling.NobodySavesInLane | packages/core/src/anchor/ethereum/ethereum-anchor-service.ts:105-112 | while a handler is in its lane nobody saves for its stream |
| AnchorHandling.AloneItRemoves | packages/core/src/anchor/anchor-processing-loop.ts:51-94 | with a free lane and nobody else about, a terminal event and the start of the lane lead to the removal |
| AnchorHandling.CleanUpForgets | packages/core/src/state-management/named-task-queue.ts:42-47 | the callback forgets an idle lane and changes nothing else |
| AnchorProcessingLoop.AnchorProcessingLoop.ProcessEntry | packages/core/src/anchor/anchor-processing-loop.ts:51-94 | with any steps of others wherever the handler awaits something, outcome and state are those of `AnchorHandling`; an entry is removed only if its tip is the latest requested and was handled |
| AnchorProcessingLoop.AnchorProcessingLoop.CompareAndRemove | packages/core/src/anchor/anchor-processing-loop.ts:76-84 | the entry goes iff its tip is the processed one; then no newer request existed, otherwise another tip (or none) is stored |
| AnchorProcessingLoop.AnchorProcessingLoop.Await | packages/core/src/anchor/processing-loop.ts:114-137 | while a handler waits, exactly the possible steps of others happen, and the handler stays where it was or is let into its lane |
| AnchorRequestStore.InfiniteList.Iterate | packages/core/src/store/anchor-request-store.ts:163-191 | yields the batch and moves the position to its last key, or restarts on an empty batch |
| AnchorRequestStore.InfiniteList.Sweep | packages/core/src/store/anchor-request-store.ts:137-197 | yields exactly the batches of the sweep and then starts from the beginning again |
| AnchorRequestStore.SweepAscends | packages/core/src/store/anchor-request-store.ts:157-168 | whatever changes between the queries, the yielded keys are strictly ascending and above the start |
| AnchorRequestStore.SweepIsComplete | packages/core/src/store/anchor-request-store.ts:157-168 | a key that is stored throughout is yielded, for every batch size |
| AnchorRequestStore.SweepIsFair | packages/core/src/store/anchor-request-store.ts:137-197 | a key that is stored throughout is yielded exactly once |
| AnchorRequestStore.SweepYieldsStoredKeys | packages/core/src/store/anchor-request-store.ts:157-168 | nothing is yielded that was never stored |
| FeedAggregationStore.MonotonicKey.Next | packages/core/src/store/feed-aggregation-store.ts:36-45 | the key is the millisecond followed by a counter that restarts with every new millisecond |
| FeedAggregationStore.FeedAggregationStore.Put | packages/core/src/store/feed-aggregation-store.ts:99-103 | stores the stream under the next key |
| FeedAggregationStore.FeedAggregationStore.DeleteStale | packages/core/src/store/feed-aggregation-store.ts:87-97 | removes exactly the keys below the threshold |
| FeedAggregationStore.StreamIDFeedSource.constructor | packages/core/src/store/feed-aggregation-store.ts:133-140 | starts at the given token, or at the first key of the millisecond of opening |
| FeedAggregationStore.StreamIDFeedSource.Pull | packages/core/src/store/feed-aggregation-store.ts:145-159 | delivers what was found and moves the token to its last key; nothing found changes nothing |
| FeedKeys.IssueKeys | packages/core/src/store/feed-aggregation-store.ts:29-46 | the keys of a whole run are each millisecond with the number of keys issued in it before |
| FeedKeys.KeyOrderIsTimeOrder | packages/core/src/store/feed-aggregation-store.ts:36-45 | within a digit width and a million keys per millisecond keys compare like millisecond and counter, both directions |
| FeedKeys.KeysAscendIff | packages/core/src/store/feed-aggregation-store.ts:25-46 | on a clock that does not go back the keys are strictly increasing iff no millisecond issues more than a million |
| FeedKeys.MillionthKeyFallsBack | packages/core/src/store/feed-aggregation-store.ts:37-39 | the key after the millionth of a millisecond does not follow it |
| FeedKeys.StaleExactly | packages/core/src/store/feed-aggregation-store.ts:87-88 | the shorter threshold text selects exactly the keys of earlier milliseconds |
| FeedDelivery.PullInto | packages/core/src/store/feed-aggregation-store.ts:145-159 | a pull of the source is the pull step of the feed |
| FeedDelivery.PutInto | packages/core/src/store/feed-aggregation-store.ts:99-103 | a put of the store is a commit step of the feed under the generated key |
| FeedDelivery.DeleteStaleFrom | packages/core/src/store/feed-aggregation-store.ts:87-97 | cleaning up is the deletion step of the feed |
| FeedDelivery.BatchIsListing | packages/core/src/store/feed-aggregation-store.ts:145-158 | a batch lists everything committed from the token to its last key |
| FeedDelivery.ListingsJoin | packages/core/src/store/feed-aggregation-store.ts:145-159 | listings of adjoining ranges join to the listing of the whole range |
| FeedDelivery.StepKeepsInv | packages/core/src/store/feed-aggregation-store.ts:87-159 | every commit, pull and deletion keeps the invariant of the feed |
| FeedDelivery.DeliveryIsExact | packages/core/src/store/feed-aggregation-store.ts:145-159 | in every run the reader has received once each, in key order, exactly the entries between its tokens that did not commit late; nothing is missing iff none did |
| FeedDelivery.CaughtUp | packages/core/src/store/feed-aggregation-store.ts:145-149 | a reader that finds nothing more has received exactly what lies above its start and did not commit late |
| FeedDelivery.OnlyAboveTheStart | packages/core/src/store/feed-aggregation-store.ts:145-146 | in no run is an entry delivered whose key is not above the starting token |
| FeedDelivery.OrderedFeedIsComplete | packages/core/src/store/feed-aggregation-store.ts:99-159 | when writes commit in the order of their keys, everything above the starting token is delivered once and in order |
| FeedDelivery.OverlappingWritesMaySkip | packages/core/src/store/feed-aggregation-store.ts:99-103 | a run in which two writes commit in the other order and one is never delivered |
| FeedDelivery.ResumingNeitherRepeatsNorSkips | packages/core/src/store/feed-aggregation-store.ts:118-121 | reading on from any delivered token completes what one reader would have received |
| FeedPuts.FeedOfPuts | packages/core/src/store/feed-aggregation-store.ts:99-159 | a store that commits each write before the next takes its key, and a reader that opens without a token: an exact feed, and once the reader finds nothing more it has received every write since opening except the first of the millisecond of opening |
| FeedPuts.AboveTheStartIff | packages/core/src/store/feed-aggregation-store.ts:133-140 | a write after opening has a key above the starting token iff it is not the first of that millisecond |
| FeedPuts.AscendingCommitsAreOrdered | packages/core/src/store/feed-aggregation-store.ts:99-103 | commits that go through an ascending list of keys are ordered |
| FeedPuts.FirstPutIsNeverDelivered | packages/core/src/store/feed-aggregation-store.ts:133-146 | that first write is committed and in no run delivered |
| FeedPuts.OpenThenPut | packages/core/src/store/feed-aggregation-store.ts:99-140 | the objects get there: opening and then writing gives the reader and the write the same key |
| StreamState.StreamState.AnchorTimestampFromState | packages/common/src/utils/stream-utils.ts:366-375 | the last timestamp of the log that is set |
| StreamState.StreamState.ApplyAnchorTimestampsToLog | packages/stream-handler-common/src/anchor-commit-utils.ts:18-28 | the backward loop gives each entry the timestamp of the first TIME entry after it |
| StreamState.StreamState.ApplyAnchorCommit | packages/stream-handler-common/src/anchor-commit-utils.ts:30-61 | accepted iff it links to the tip and passed validation; the whole new state, or no change |
| TileDocumentHandler.StringArraysEqual | packages/stream-tile-handler/src/tile-document-handler.ts:20-30 | whether the arrays are equal |
| TileDocumentHandler.TileDocumentHandler.ApplyGenesis | packages/stream-tile-handler/src/tile-document-handler.ts:87-127 | accepted iff signed or empty, with one valid controller and a matching schema; the whole first state |
| TileDocumentHandler.TileDocumentHandler.ApplySigned | packages/stream-tile-handler/src/tile-document-handler.ts:136-211 | exactly when a signed commit is accepted, the whole new state, and what a rejected one leaves behind, with header fields that are missing, null or given |
| TileDocumentHandler.TileDocumentHandler.ApplyCommit | packages/stream-tile-handler/src/tile-document-handler.ts:60-79 | the dispatch between anchor and signed commits |
| TileContent.SignedCommitTakesEffect | packages/stream-tile-handler/src/tile-document-handler.ts:187-208 | a signed commit stores the patched content and its header fields as what comes next, appends its entry, and leaves the anchored state |
| TileContent.AnchorTakesEffect | packages/stream-handler-common/src/anchor-commit-utils.ts:43-61 | an anchor makes the pending metadata current, and the pending content unless JavaScript takes it for false |
| TileContent.ContentIsPatched | packages/stream-tile-handler/src/tile-document-handler.ts:190-208 | after any run from the first commit a reader sees its content with all patches applied in order, wherever the anchors are, as long as none makes it null or false |
| TileContent.RunsPatchContent | packages/stream-tile-handler/src/tile-document-handler.ts:190-208 | the same for every run, with null and false values as anchors treat them |
| TileContent.GenesisIsAsGiven | packages/stream-tile-handler/src/tile-document-handler.ts:113-127 | a new document has the data, header and entry of its first commit |
| TileContent.GenesisAcceptedIff | packages/stream-tile-handler/src/tile-document-handler.ts:87-125 | a first commit with one controller is accepted iff that is a DID that signed it, or there is no data, and the schema holds |
| TileContent.AcceptedCommitsBelong | packages/common/src/utils/stream-utils.ts:253-272 | accepted commits follow the tip, name the stream if any, and are signed by the controller of the moment |
| TileContent.ValidAnchorIsAccepted | packages/stream-handler-common/src/anchor-commit-utils.ts:30-41 | every anchor that follows the tip and passed validation is accepted |
| TileContent.UpdateIsAcceptedIff | packages/stream-tile-handler/src/tile-document-handler.ts:136-204 | an update signed by the controller is accepted iff the patch applies and the result obeys the schema |
| TileContent.ControllerMayChange | packages/stream-tile-handler/src/tile-document-handler.ts:157-179 | without the flag the controller may hand over, and the next one has to sign |
| TileContent.RunIsChain | packages/common/src/utils/stream-utils.ts:253-272 | the commits of a run are a chain behind the tip, and the log lists them with their kinds |
| TileContent.RunsKeepOneController | packages/stream-tile-handler/src/tile-document-handler.ts:157-164 | in every run each metadata has one controller, or null |
| TileRuns.StepKeepsInv | packages/stream-tile-handler/src/tile-document-handler.ts:60-211 | an accepted commit keeps the shape of the log and state, and the new state extends the old |
| TileRuns.RunsKeepInv | packages/common/src/utils/stream-utils.ts:219-237 | through every run: one INIT entry in front, pending content iff the last entry is DATA, anchored iff it is TIME, and each later state is a superset of each earlier |
| TileRuns.RunsFromGenesis | packages/stream-tile-handler/src/tile-document-handler.ts:60-127 | the same from every accepted genesis commit |
| TileRuns.AnchorKeepsWhatIsVisible | packages/stream-handler-common/src/anchor-commit-utils.ts:52-58 | an anchor keeps the visible metadata, and the visible content iff no falsy content is pending |
| TileRuns.AnchorStampsTheLog | packages/stream-handler-common/src/anchor-commit-utils.ts:18-50 | right after an anchor each entry that is not TIME carries the timestamp of the first TIME entry after it |
| TileRuns.AnchorIsLast | packages/stream-handler-common/src/anchor-commit-utils.ts:44-48 | the anchor itself ends the log with its timestamp |
| TileRuns.StepKeepsControlIff | packages/stream-tile-handler/src/tile-document-handler.ts:157-196 | an accepted commit keeps controllers and flag iff it is not a signed one with null for `controllers` |
| TileRuns.RunsKeepControlIff | packages/stream-tile-handler/src/tile-document-handler.ts:157-208 | every state of a run keeps control iff no commit of the run clears the controllers |
| TileRuns.RunsMoveControl | packages/stream-tile-handler/src/tile-document-handler.ts:157-208 | in every run the commits alone decide whether control is kept, cleared but not anchored, or lost |
| TileRuns.ForbiddenControllerChange | packages/stream-tile-handler/src/tile-document-handler.ts:87-208 | a tile created with the flag keeps the flag; it has its controllers iff they were not cleared, or given again before an anchor; only its first controller is ever asked to sign, and nobody iff control is lost |
| TileRuns.FrozenForever | packages/stream-tile-handler/src/tile-document-handler.ts:146-147 | a document without a controller accepts anchors only, and its content and metadata never change |
| TileRuns.ClearedControllersFreeze | packages/stream-handler-common/src/anchor-commit-utils.ts:52-58 | a tile with the flag, one signed commit with null for `controllers` and an anchor: accepted, and frozen |
| TileRuns.SchemaIsEnforcedUnlessCleared | packages/stream-tile-handler/src/tile-document-handler.ts:195-203 | with a schema in force, a commit that gives no other is accepted iff its content obeys it or its header has null for `schema` |
| StreamRefRoundTrip.ReadVarintRoundTrip | packages/streamid/src/reading-bytes.ts:5-10 | every encodable number is read back and what follows it is left |
| StreamRefRoundTrip.ReadCidRoundTrip | packages/streamid/src/reading-bytes.ts:16-27 | every CIDv1 is read back whatever follows it |
| StreamRefRoundTrip.HeaderRoundTrip | packages/streamid/src/stream-ref-parsing.ts:24-30 | codec, type and genesis are read back and the rest decides the kind |
| StreamRefRoundTrip.StreamIDRoundTrip | packages/streamid/src/stream-id.ts:175-180 | parsing the bytes of a stream identifier returns its components, and not as a commit |
| StreamRefRoundTrip.CommitIDRoundTrip | packages/streamid/src/commit-id.ts:184-190 | parsing the bytes of a commit identifier returns its components, and not as a stream |
| StreamRefRoundTrip.EncodingsNeverCoincide | packages/streamid/src/stream-ref-parsing.ts:24-55 | no bytes encode both kinds |
| StreamRefRoundTrip.EqualIffSameBytes | packages/streamid/src/commit-id.ts:195-199 | constructed commit identifiers are equal iff their bytes are |
| StreamRefRoundTrip.NormalisationIsNeeded | packages/streamid/src/stream-ref-parsing.ts:103-120 | without mapping the genesis CID to null, equal identifiers would have different bytes |
| StreamRefRoundTrip.StreamIDsEqualIffSameBytes | packages/streamid/src/stream-id.ts:175-180 | stream identifiers are equal iff their bytes are |
| StreamRefRoundTrip.VersionZeroIsRejected | packages/streamid/src/reading-bytes.ts:16-20 | an identifier over a version 0 CID is not read back |
| StreamRefBytes.VarintFormat | packages/streamid/src/reading-bytes.ts:5-10 | numbers are encoded in groups of seven bits, lowest first, without superfluous bytes |
| StreamRefBytes.VarintIsUnique | packages/streamid/src/reading-bytes.ts:5-10 | such an encoding is the one that is produced |
| StreamRefBytes.CodecBytes | packages/streamid/src/stream-id.ts:175-180 | identifiers start with the bytes ce 01 |
| StreamRefBytes.StreamIDLayout | packages/streamid/src/stream-id.ts:175-180 | codec, type and the fields of the genesis CID, byte by byte |
| StreamRefBytes.CommitIDLayout | packages/streamid/src/commit-id.ts:184-190 | the stream identifier, followed by a zero or by the commit CID |
| StreamRefErrors.ReadsIffItEnds | packages/streamid/src/reading-bytes.ts:5-10 | a number is read iff one of the first eight bytes ends it |
| StreamRefErrors.TruncatedStreamID | packages/streamid/src/stream-ref-parsing.ts:24-55 | no proper beginning of a stream identifier is an identifier |
| StreamRefErrors.TruncatedCommitID | packages/streamid/src/stream-ref-parsing.ts:24-55 | of a commit identifier only the stream part is |
| StreamRefErrors.OtherCodecsAreRefused | packages/streamid/src/stream-ref-parsing.ts:24-30 | any other codec in front is refused |
| StreamRefErrors.ExplicitVersionZero | packages/streamid/src/reading-bytes.ts:16-27 | a written version 0 is read iff the codec is that of version 0 |
| StreamRef.CommitID.Make | packages/streamid/src/commit-id.ts:130-140 | the genesis commit is never stored, the commit is the one given, and only what is no CID fails |
| ModelInterfaces.LoadingInterfaceImplements.LoadAllModelInterfaces | packages/stream-model/src/model.ts:50-73 | one call by itself, for any correctly filled table: exactly what is reachable from the input over the names in the models, each once, or a failure iff something reachable is not an interface of a version that has them; nothing is fetched twice |
| ModelInterfaces.LoadingInterfaceImplements.LoadOne | packages/stream-model/src/model.ts:56-65 | afterwards the table holds the right answer for this interface and is otherwise only extended |
| ModelInterfaces.LoadingInterfaceImplements.Collect | packages/stream-model/src/model.ts:66-72 | the answer for a list from the answers of the table, without duplicates |
| ModelInterfaces.EntryFromParents | packages/stream-model/src/model.ts:58-62 | the answer for one interface from the answer for what it implements directly |
| ModelInterfaces.LoadInterfaceImplements | packages/stream-model/src/model.ts:35-48 | succeeds iff the model is an interface of a version other than 1.0, with exactly the names it implements |
| ModelInterfaces.AnswerFromEntries | packages/stream-model/src/model.ts:66-72 | the answers for all starting points together are the reachable set |
| ModelInterfaces.ReachesBySteps | packages/stream-model/src/model.ts:58-62 | reachability by chains is reachability by one step and the rest |
| InterfaceLoading.StepKeepsInv | packages/stream-model/src/model.ts:50-73 | every fetch, settling, rejection, call and return keeps every settled promise right and every claim needed |
| InterfaceLoading.ConcurrentLoadsAreRight | packages/stream-model/src/model.ts:50-73 | for all concurrent calls over one table of promises in flight, in any order: every answer is exactly what is reachable, or a failure iff that is not all interfaces; nothing is fetched twice or without need |
| InterfaceLoading.NoCallIsStuck | packages/stream-model/src/model.ts:56-71 | while a call has no answer some promise can make a step, as interfaces cannot implement themselves |
| InterfaceLoading.RunsAreBounded | packages/stream-model/src/model.ts:50-73 | beside new calls a run has at most two steps for each fetched interface and one for each answer |
| ModelIndex.DatabaseIndexApi.AddModelImplements | packages/indexing/src/database-index-api.ts:107-111 | records one implementation and keeps all others |
| ModelIndex.DatabaseIndexApi.IndexModelsInDatabase | packages/indexing/src/database-index-api.ts:137-174 | marks the models as indexed and records exactly the announced implementations |
| ModelIndex.DatabaseIndexApi.IndexModels | packages/indexing/src/database-index-api.ts:118-135 | appends the models that were not indexed, up to the first that is still synchronising |
| ModelIndex.DatabaseIndexApi.StopIndexingModels | packages/indexing/src/database-index-api.ts:181-208 | removes the models, keeps the order of the others, and marks them as stopped |
| ModelIndex.DatabaseIndexApi.GetQueryModels | packages/indexing/src/database-index-api.ts:336-373 | the selected models, or a failure iff nothing is named or a selected model cannot be queried |
| ModelIndex.QueryReadsImplementers | packages/indexing/src/database-index-api.ts:349-365 | an indexed model is selected iff it, or an interface it implements transitively, is named |
| ModelIndex.QueryFailsOnUnknown | packages/indexing/src/database-index-api.ts:352-365 | everything selected is indexed iff every name is an indexed model or has a known implementer |
| ModelIndex.LocalIndexApi.GetIndexModelArgs | packages/indexing/src/local-index-api.ts:29-60 | succeeds iff the model can be indexed, and announces exactly the interfaces it implements |
| ModelIndex.LocalIndexApi.ConvertModels | packages/indexing/src/local-index-api.ts:162-191 | succeeds iff all models can be indexed and none was stopped before |
| ModelIndex.LocalIndexApi.IndexModels | packages/indexing/src/local-index-api.ts:183-194 | succeeds iff every model can be indexed, was never stopped, and is synchronised where that is needed; keeps the invariant of the index, and refused requests change nothing |
| ModelIndex.LocalIndexApi.StopIndexingModels | packages/indexing/src/local-index-api.ts:196-199 | keeps the invariant; the models are stopped for good |
| ModelIndex.LocalIndexApi.QueryModels | packages/indexing/src/database-index-api.ts:336-373 | after any run of indexing and stopping a query reads exactly the indexed models that are named or implement a named interface, and when it fails |

## Left out

- Schema references are trees: a `$ref` stands beside the schema it resolves to, so pointer syntax and cyclic references are not modelled.
- Keywords that the conformance check never reads: `enum` of arrays and objects, an expected `const: null` (skipped by `!= null`), `additionalProperties`, `multipleOf`, `uniqueItems` and others; and `type` given as a list.
- Conformance of relations, views and immutable fields (`isMatch` and a subset test), and the aggregation of errors over several interfaces: easy members.
- The expected and actual values inside reported errors; the model keeps where an error was found.
- InterfaceConformance.ConformanceIsSound: leaves out implementations whose alternatives, options or second forms match nothing expected, overlapping options, and numbers and constants outside what is listed or long enough, because inclusion fails there (see the counterexamples and the exact conditions).
- InterfaceConformance.BodyIsSound: leaves out `enum` of numbers and booleans that is not implemented and short constants, where inclusion fails exactly (`NumberInclusion`, `BooleanInclusion`, `StringInclusion`).
- InterfaceOrder.ConformanceIsTransitive: leaves out an intermediate `anyOf` with alternatives that do not implement each other, where it fails (`ComposesThroughAnyOfIff`).
- InterfaceOptions.ApartIsDisjoint: one direction, since disjointness of texts depends on the regular expressions; `NumbersApartExactly` has both.
- InterfaceThrows.ThrowsExactly: leaves out parts without a form behind the first alternative of an `anyOf`, which may not be reached (`AnyOfThrowsIff`); `NoCrash` covers them in the other direction.
- The SQL text that knex prints, casts and quoting, the account filter and the legacy `filter` object.
- Following cursors over NULL sort values, the base64 and JSON encoding of cursors, the union over several tables, collation (ids and values are positions in the database's order), and pages of size zero.
- Merge functions that return nodes with children of their own choice, and comparison of root data by reference: data is compared by value.
- The retry that `onError` may start (it adds to the old queue object), `pause`, `clear`, `onIdle`, and metrics of queues.
- The do/while loop that keeps the processing queue full, aborting it, and starting it twice.
- Timeouts, sleeping, query errors and shutdown of the endless scan; `list`, which is one sweep of it in batches.
- How a waiting pull is woken by a write, and clocks that go back or change their number of digits.
- FeedDelivery.DeliveryIsExact: assumes that cleaning up spares entries that were not delivered yet.
- Signature, DID and capability checks, JSON patches and schema validation of tiles are arbitrary functions; patches that change the pending content in place before failing are not modelled.
- `controllers` that are neither an array of strings nor taken for false by JavaScript (an empty string stands for an element that is), `schema` that is neither a string nor taken for false, and a flag that is an object; header fields other than these and `forbidControllerChange`, anchor proofs, the `type` field of states, and anchor statuses set outside the handler.
- ModelInterfaces.LoadingInterfaceImplements.LoadOne: fills the table when a load is finished; promises in flight are in `InterfaceLoading`.
- Base36 and URL texts of identifiers, named stream types, random CIDs, varints of 2^53 and more, and trailing bytes behind a commit CID.
- Restoring the index from the database, table creation and migration, relations and field indices of models, and errors while loading streams other than a missing or unsuitable model.
- Cyclic `implements` graphs, which content-addressed models cannot form; which of several failures a call reports is left open.
- Network, IPFS, Ethereum, HTTP, command line and logging code, the repository and conflict resolution.
