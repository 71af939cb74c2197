# A verified model of the query compiler

This project models a library that turns an untrusted query request into a reviewed plan, prints that plan as
PostgreSQL fragments, and carries pagination state in sealed cursor tokens. It states what the library promises about
these steps and proves it with Dafny; `dafny verify dfyconfig.toml` checks everything.

The modules follow the program.

- **Schemas** (`Relationships`, `RelationHeap`, `Schemas`, `SchemaReport`, `SchemaBuilder`). Declarations, what makes them
  well-formed, and `NewSchema` with its nested validation loops. They report exactly the list of violations in
  `SchemaReport`, which is empty exactly for the well-formed configurations. The relationship index they build is
  prefix-closed, and made of clones, so that no caller reaches it through the declarations it passed.
- **Compilation** (`PlanHeap`, `Violations`, `Compilation`, `FieldPhase`, `IncludePhase`, `FilterSpec`, `FilterPhase`,
  `SortPhase`, `Compile`). Each phase is an imperative method over the request's slices and filter nodes on the heap, the
  plan, the capped violation collector and the application. It is proved equal to a function of the *trail*: every
  violation and every application call so far, in order. `FilterProofs`, `Admission`, `Calls`, `NormalForm` and
  `ErrorLimit` then prove what that function means, without phases: which requests compile, to what plan, at what
  unbounded cost, with which calls, that plans recompile to themselves, and that the error limit decides nothing.
- **The reference** (`Declarations`). What a configuration and a request mean, said of the declarations alone: no index,
  no phase, no loop. `DeclarationProofs`, `DeclaredFilters`, `DeclaredSchema`, `DeclaredCompile` and `DeclaredCalls` prove
  that `NewSchema` and `Compile` do exactly that: `DeclaredSchema.AcceptedExactly` for configurations,
  `DeclaredCompile.CompilesExactly` for requests, plans and costs, `DeclaredCalls.CallsAreNamed` for the calls. `Defaults`
  says what silence means, and `Verdicts`, `ElementVerdicts` and `SchemaVerdicts` give the code and the questions of every
  refusal.
- **Plan isolation** (`PlanIsolation`). The same methods copy what they keep, phase by phase, so that a plan shares no
  object with the request, the constraints or the decoder; no caller can change it afterwards.
- **PostgreSQL** (`Like`, `SqlLexer`, `SqlGrammar`, `SqlMeaning`, `Postgres`, `PostgresCompiler`, `PostgresProofs`,
  `PostgresReadable`, `PostgresTheorem`, `PostgresOrder`). A lexer, an unambiguous grammar with SQL's precedence,
  three-valued evaluation and LIKE matching (section 8.5 of ISO/IEC 9075-2:2003) give the printed text a meaning of its
  own. The theorem `PostgresTheorem.CompiledFragment` says that this meaning is the plan's. `PostgresOrder` does the same
  for ORDER BY and the projection.
- **Cursors** (`Keyring`, `CursorCodec`, `CursorReference`, `CursorService`, `ReplayMachine`, `CursorRun`, `CursorPaging`,
  `CursorLibrary`, `CursorWitness`). The codec over an ideal AEAD and an invertible dot-free encoding (section 5 of RFC
  4648), runs of encodes, rotations and clock steps, and the interleavings of concurrent decodes with an atomic replay
  store. `CursorReference` says which tokens are issued and what every text opens to; `CursorRun` shows that each call of
  the codec is a run of that interleaving machine.
  `CursorLibrary` builds libraries that meet the assumed laws, so that they contradict nothing, and `CursorWitness` builds
  tokens for which a promise fails.
- **Traversal** (`RowOrder`, `Seek`, `Records`). The order a cursor plan puts rows in, and seek pagination over any strict
  total order, on tables that stay still and on tables that change between pages.
- **Text** (`Text`, `Utf8`, `StrictJson`, `JsonNesting`, `ViolationPath`, `PathText`). Lengths in bytes, the strict first
  pass over JSON, and the parser of violation paths, with the printer it undoes.

## Modelling decisions

- A `char` is one code point of a valid UTF-8 string; `Text.ByteLength` is what `len` reports for it, by section 4 of RFC
  3629 (`Utf8.LengthIsOctets`).
- Costs are a 64-bit `newtype`, so that every addition and subtraction on them is proved not to overflow; the sums they
  stand for are unbounded. Other sizes are unbounded integers. The record comparison wraps around explicitly.
- The answers of the authorizer and the cursor decoder are pure functions of what they are asked; every call made to them
  is recorded in the trail. `Violations.Authority.Held` is every object the application can reach: the decoder may keep
  the sort list it is passed and the state it hands out.
- A slice is an array of its own; appending makes a new one. Go may append in place where capacity is left, but only in a
  slice nothing else refers to yet.
- Time counts nanoseconds; a token's remaining lifetime saturates at the largest duration, as `time.Time.Sub` does.
- A database row gives each column a value or null; comparison of non-null values is an arbitrary function for the
  meaning of a filter, and an arbitrary total preorder for sorting. When a plan leaves the null order open, PostgreSQL's
  default applies.
- Each locked section, and each call of the replay store, is one atomic step. Honouring cancellation, the store may
  instead turn a cancelled call away and consume nothing.

## Results that are not plain promises

- The record comparison of the reference traversal subtracts `int`s. `Records.AgreesWhenNarrow` says exactly when it
  orders records as intended (no deciding difference overflows); `Records.WideScoresCycle` gives three records on which
  it goes round in a circle. The traversal theorem for that comparison holds under the checkable spread.
- One success per token needs a replay store that, if it forgets expired fingerprints, also refuses expired tokens.
  `ReplayMachine.OneSuccessPerToken` proves it for every interleaving of such a store, and
  `ReplayMachine.PruningNeedsRefusal` gives the interleaving that breaks it for any other pruning store.
- The documentation promises one-time consumption (`docs/api.md:118-119`), but the store knows a token by the fingerprint
  of its text, and one sealed part has several texts: Go's `RawURLEncoding` skips line breaks and ignores unused trailing
  bits. `ReplayMachine.PartTwiceExactly` gives the exact condition: a sealed part can be accepted twice, in some
  interleaving, exactly when two of its spellings have different fingerprints. `CursorWitness.LineFeedSucceedsToo` is the
  input: an issued token, and the same token with a line feed at its end. The promise holds for tokens spelled as `Encode`
  spells them, which a caller can check by encoding the decoded part again (`ReplayMachine.OneSuccessPerSealedPart`).
- `Encode` seals positions without checking their text, `Decode` reads canonical text only. A token with any other
  position is issued and never decodes (`CursorCodec.RunsRoundTrip`, `CursorPaging.NextPageCompiles`);
  `CursorWitness.FarTimeNeverDecodes` is such a token, for a time in the year 10000.
- Recompilation gives the same plan without its cursor: a plan does not keep the token it was given. It is the identity
  exactly when the request carried no token (`NormalForm.RecompilesToItself`).

## Model

| member | source | states |
|---|---|---|
| Violations.CappedKeepsVerdict | errors.go:71-83 | No error limit hides that something was reported; a positive limit keeps that many violations from the front, any other keeps all |
| Utf8.LengthIsOctets | cursor/cursor.go:383-400 | The length bounds compare is the number of octets from which a string can be read back (section 4 of RFC 3629) |
| Violations.Collector.Add | errors.go:71-76 | A full collector drops the violation, any other appends it; the retained items stay the capped prefix of the unbounded list |
| Violations.Collector.Err | errors.go:78-83 | An error is returned exactly when something was ever reported |
| Relationships.RelationshipDepth | schema.go:454-462 | The depth of a path is one more than its dots |
| Relationships.RelationshipPrefixes | compile.go:238-246 | The loop returns the prefixes that end before a dot, shortest first, then the path |
| Relationships.DepthCountsPrefixes | schema.go:454-462 | The depth equals the number of prefixes for every string |
| Relationships.PrefixesOfFullName | schema.go:362-365 | Appending one declared name appends exactly one prefix |
| IncludePhase.PrefixesOfPrefix | compile.go:238-246 | The prefixes of a path's prefix are an initial part of the path's own prefixes |
| Relationships.SiblingsOwnApart | schema.go:359-391 | Entries below different siblings never share a key, so that the nested index loses nothing |
| Relationships.KeyHasChain | schema.go:359-391 | Every index key is spelled by a chain of nested declarations |
| Relationships.ChainIsIndexed | schema.go:359-391 | Every chain of nested declarations is indexed, under its own definition |
| Relationships.ChainResources | schema.go:380-390 | No resource recurs along a chain, nor equals the root |
| Relationships.IndexIsPrefixClosed | schema.go:359-391 | The index holds every prefix of every key; its depth is the number of prefixes; resources along a path are distinct; costs are within the limit |
| SchemaBuilder.NormalizeBounds | schema.go:238-261 | Exactly the bounds that are not positive are replaced, each by its own default |
| SchemaBuilder.ValidateDeclaredBounds | schema.go:263-275 | Reports each negative declared bound under its own index, and nothing else |
| SchemaBuilder.ValidateFields | schema.go:277-292 | The loop reports the specified violations in order, and its map finds the first field of each name |
| SchemaBuilder.ValidateFilters | schema.go:293-317 | The nested loops report the specified violations in order, and the map finds the first filter of each name |
| SchemaBuilder.ValidateSorts | schema.go:318-333 | The loop reports the specified violations in order, and its map finds the first sort of each name |
| SchemaBuilder.RelationIndexer.IndexRelationships | schema.go:359-391 | The recursion over the shared index reports and indexes as specified on every declaration tree, cycles and repetitions included; every definition it keeps is a clone of new objects |
| RelationHeap.CloneRelation | schema.go:446-452 | The clone is an equal tree made of new objects only |
| RelationHeap.RewriteDeclarations | schema.go:357-358 | Whatever a caller does to its declarations afterwards, following and overwriting any reference in any order, an index that shares nothing with them stays as it was |
| SchemaBuilder.ValidatePagination | schema.go:393-444 | Reports the specified violations in order, looking names up through the index |
| SchemaReport.FieldsClean | schema.go:277-292 | Nothing is reported exactly for valid, distinct, affordable fields |
| SchemaReport.FiltersClean | schema.go:293-317 | Nothing is reported exactly for valid, distinct filters whose distinct operators suit their type; DeclaredSchema.FilterFitsExactly says which operators suit which |
| SchemaReport.SortsClean | schema.go:318-333 | Nothing is reported exactly for valid, distinct sorts |
| SchemaReport.RelationsClean | schema.go:359-391 | Nothing is reported exactly for a well-formed relationship tree without cycles; the index then gains exactly the tree's entries |
| SchemaReport.PaginationClean | schema.go:393-444 | Nothing is reported exactly when page sizes fit, cursor mode has one tie-breaker, and the default sort is declared, distinct and leaves room for it |
| SchemaReport.FindsDistinct | schema.go:289-291 | A map that finds the first of each name indexes exactly the names when they are distinct |
| SchemaReport.ReportedExactly | schema.go:179-225 | The whole report is empty exactly for a well-formed configuration; the index is then the one its declarations determine |
| DeclaredSchema.OperatorsSuit | schema.go:337-350 | An operator is accepted for a declared type exactly when it is equality or membership, an ordering on a type other than bool and bytes, a pattern on strings, or the null test on a nullable filter |
| DeclaredSchema.FilterFitsExactly | schema.go:292-315 | A filter is declared well exactly when its name, type and cost are, and each of its operators, none repeated, fits its type |
| DeclaredSchema.TreeFitsExactly | schema.go:359-391 | A relationship tree is well formed exactly when siblings differ, every declaration in it is named and priced well, and no resource lies below itself or is a root |
| DeclaredSchema.AcceptedExactly | schema.go:179-225 | The configurations NewSchema accepts are exactly those of the reference: literal bounds, names, types, operators, costs, trees and pagination |
| SchemaVerdicts.FieldSays | schema.go:278-291 | What is reported about one field: an invalid element for its name or type, one for its cost, a conflict for a name already taken |
| SchemaVerdicts.FilterSays | schema.go:292-315 | What is reported about one filter: name, type or missing operators, cost, then each operator repeated or unfit for the type, then a name already taken |
| SchemaVerdicts.SortSays | schema.go:316-332 | What is reported about one sort: name or type, null order, cost, a name already taken |
| SchemaVerdicts.RelationSays | schema.go:359-391 | What is reported about one relationship, that a path already taken keeps its first entry, and that nothing below a cycle is looked at |
| SchemaVerdicts.DefaultTermSays | schema.go:417-439 | What is reported about one default sort term: undeclared or without direction, null order unknown or not the declared one, repeated |
| SchemaBuilder.NewSchema | schema.go:179-225 | A schema is returned exactly for a configuration the reference admits, is its snapshot, has every invariant compilation relies on, and is made of new objects; otherwise the error is what the limit retains of the specified report |
| SchemaBuilder.DeclareThenRewrite | schema.go:355-358 | A caller that goes on to rewrite the relationships it declared, in any order, changes nothing in the schema |
| Schemas.SnapshotIsValid | schema.go:179-225 | The snapshot of a well-formed configuration has positive bounds, known logic, exact index maps and a prefix-closed relationship index |
| FieldPhase.ConstraintsAccepted | compile.go:114-134 | The constraint phase reports nothing exactly for a list of valid, distinct, bounded constraints, and asks nobody |
| Compile.CompilePolicy | compile.go:89-134 | The revision check and the constraint checks report as specified; the plan holds a copy of the constraints, cut to the limit |
| FieldPhase.CompileFields | compile.go:138-189 | The loop asks, admits and charges each field as specified; execution fields and the unbounded charge are exact; the plan's lists stay its own or are new. DeclaredCompile.ExecutionNamed and FieldPriced say which fields these are and what they cost |
| FieldPhase.FieldsAccepted | compile.go:138-172 | The field phase reports nothing exactly for declared, distinct, current and permitted fields, then keeps them all and asks about each once |
| Admission.ExecutionFieldsOnce | compile.go:173-188 | The execution fields are exactly the response fields and the required ones, none twice, the response last |
| IncludePhase.CompileIncludes | compile.go:191-236 | The loop admits, asks and charges as specified; each approved edge is charged once; the plan's list stays its own or is new. DeclaredCompile.EdgePriced says what an edge costs |
| IncludePhase.EdgeRunTidy | compile.go:219-230 | Along any include, approved edges stay distinct, permitted and after their parents |
| IncludePhase.IncludesAccepted | compile.go:191-236 | Nothing is reported exactly for declared, shallow, distinct paths permitted edge by edge; the edges are exactly the prefixes of the paths, each asked about once, parents first |
| FilterSpec.FilterKeyInjective | compile.go:286-291 | The NUL-joined duplicate key identifies name and operator |
| FilterSpec.ValueKeyInjective | compile.go:341-345 | The NUL-joined value key identifies type and text |
| FilterProofs.WalkBounded | compile.go:260-313 | Accepted or not, the walk visits at most MaxFilterNodes nodes and admits at most MaxValues values |
| FilterProofs.ValuesRunClean | compile.go:324-359 | The operand checks report nothing exactly for the right number of distinct, well-typed, bounded operands |
| FilterProofs.WalkNodeClean | compile.go:260-322 | From any counters and duplicate set, a subtree is clean exactly when it is well formed, fits what is left and repeats no key; the counters then advance by its exact size |
| FilterProofs.FilterAccepted | compile.go:250-359 | The filter phase reports nothing exactly when the whole tree is admissible; it then returns the tree unchanged and has asked about each predicate once, left to right |
| FilterPhase.CompileFilterNode | compile.go:260-322 | The recursive method with its shared counters and duplicate set does what the walk specifies, on every input; what it returns is made of new objects that refer to nothing else |
| FilterPhase.CompileChildren | compile.go:309-320 | The children loop appends compiled children, each made of new objects, to a new array; the rest of the array stays unused |
| FilterPhase.ValidatePredicateValues | compile.go:324-359 | The operand loop reports exactly the specified violations in order |
| FilterPhase.CompileFilter | compile.go:250-258 | The filter phase is the walk from empty counters, and whatever it returns holds declared predicates only |
| FilterPhase.FilterCost | compile.go:526-542 | The saturating sum is the unbounded cost of all predicates, or the largest int when that cost is larger |
| SortPhase.CompileSorts | compile.go:361-406 | The loop admits and completes terms as specified |
| SortPhase.SortsAccepted | compile.go:361-406 | Nothing is reported exactly for declared, distinct, permitted terms whose null order agrees with the declaration; only missing null orders are filled in |
| SortPhase.CompilePage | compile.go:409-478 | The page is normalised, checked and the order completed as specified |
| SortPhase.PageChecksClean | compile.go:410-453 | The page checks report nothing exactly for a page that is consistent with its mode and within every bound |
| SortPhase.CursorOrderIsTotal | compile.go:454-475 | In cursor mode the completed order is within the sort limit, repeats no name, carries declared null orders and contains the unique tie-breaker |
| SortPhase.CompileCursor | compile.go:482-516 | The decoder is called once, with the revision and final order, exactly when one token is present; the plan's state is made of new objects the decoder does not hold |
| SortPhase.DecodeState | compile.go:497-513 | The decoder is passed a copy of the order, and its answer is checked and copied; whatever the decoder keeps is not what the plan gets |
| SortPhase.CursorAccepted | compile.go:497-516 | A supplied token is accepted exactly when it decodes to a state of the right direction whose positions match the sorts in number, size and type; the plan then holds that state and no token |
| Compilation.Plan.AddPlanCost | compile.go:518-524 | The bounded accumulator equals the unbounded sum until that sum passes the limit, and reports that it has passed from then on |
| Compile.CompileRequest | compile.go:81-112 | A plan is returned exactly when the run reports nothing; it is the run's plan; an error is the capped list of the run; the calls made are the run's; all the plan is made of is new and nothing of it is held by the application |
| Admission.Accepted | compile.go:81-112 | A request compiles exactly when every component is admissible and the cost is within the limit, and then to the plan it names |
| Admission.CostDecides | compile.go:99-107 | An admissible request is rejected exactly when one, plus execution fields, distinct edges, predicates and final sorts, each at its declared cost (DeclaredCompile.FieldPriced, EdgePriced, LeafPriced, SortPriced), exceed the limit in unbounded arithmetic; otherwise the plan's cost is that sum |
| Admission.SumOfSameNames | compile.go:219-230 | Charging edges once does not depend on the order of discovery |
| DeclaredCompile.FieldPriced | compile.go:173-187 | A field is charged at the cost of its declaration |
| DeclaredCompile.EdgePriced | compile.go:219-230 | An included edge is charged at the cost of the relationship declared at its end |
| DeclaredCompile.LeafPriced | compile.go:526-542 | A predicate is charged at the cost of the filter it names |
| DeclaredCompile.SortPriced | compile.go:102-104 | A sort term is charged at the cost of the sort it names |
| DeclaredCompile.ExecutionNamed | compile.go:173-188 | The execution fields are the required fields missing from the response, in declaration order, and then the response, and nothing else |
| DeclarationProofs.PathIndexed | schema.go:359-391 | A path of nested declarations is indexed under its own definition and depth, and its prefixes are its beginnings |
| DeclaredFilters.NodesAgree | compile.go:260-322 | The recursive admissibility of a filter says of every node a list of child indexes leads to that it is shallow enough, well shaped and admissible |
| DeclaredFilters.LeavesListed | compile.go:260-322 | The predicates of a tree are those at its leaves, depth first and left to right |
| DeclaredFilters.FilterAgrees | compile.go:250-359 | A filter is admissible exactly when every node is in its place, the nodes and the operands are few enough and no two predicates share name and operator |
| DeclaredCompile.CompilesExactly | compile.go:81-112 | For the schema of any configuration a request compiles to a plan exactly when the declarations admit it, name that plan and price it within the limit: which fields, edges, predicates and terms, in which order, on which page, at which cost |
| DeclaredCompile.PlanOperandsSuit | schema.go:337-350 | In every compiled plan pattern operands are strings, ordered operands are neither bool nor bytes, each predicate has the number of operands its operator takes, and only nullable filters are tested for null |
| DeclaredCalls.CallsAreNamed | compile.go:81-112 | The calls behind every plan, of its own parts: each response field, each edge after the edges on its way, each predicate left to right, each term of the order, and the decoder with revision and order; none without an authorizer |
| Defaults.AbsentFields | compile.go:138-146 | A request without fields runs exactly as the one that lists the default fields in declaration order |
| Defaults.AbsentSorts | compile.go:361-365 | A request without sorts runs exactly as the one that carries the schema's default sort |
| Defaults.AbsentPage | compile.go:409-421 | A page without mode runs exactly as no page, and size zero on a cursor or offset page exactly as the default size |
| Verdicts.CodesAreExact | compile.go:81-112 | On every request, accepted or not: another revision, a failing token, a cost over the limit and a refused question are each reported exactly when there is one, and nobody is asked about a name that is not declared |
| ElementVerdicts.FieldsJudged | compile.go:148-172 | Everything the field phase reports and asks, field by field: undeclared, repeated, deprecated, refused, in this order of causes |
| ElementVerdicts.ConstraintsJudged | compile.go:114-134 | Everything reported about the constraints: name or type, repetition and length, each on its own |
| ElementVerdicts.IncludesJudged | compile.go:191-236 | Everything the include phase reports, path by path: undeclared, too deep, repeated, or barred at some beginning |
| ElementVerdicts.LeafJudged | compile.go:270-359 | Everything reported about a predicate: undeclared without a question, else asked about once and refused, deprecated, repeated, with an operator not offered, without room, or operand by operand |
| ElementVerdicts.SortsJudged | compile.go:372-406 | Everything the sort phase reports and asks, term by term: undeclared, repeated, without direction, refused, null order unknown or not the declared one |
| ElementVerdicts.PageJudged | compile.go:413-454 | Everything the page checks report: mode, offset, size, tokens and what the mode has no use for |
| ElementVerdicts.TieJudged | compile.go:455-477 | The missing tie-breaker is reported for lack of room or permission, asked about only with room, and otherwise appended ascending with its declared null order |
| Calls.CallsAreExact | compile.go:81-112 | The calls of an admissible request are exactly: each field, each edge parents first, each predicate left to right, each sort, the missing tie-breaker, and the decoder for the final order |
| NormalForm.FinalSortsSettle | compile.go:361-478 | The completed order needs no completion and no tie-breaker |
| NormalForm.RecompilesToItself | compile.go:81-112 | The request rebuilt from any plan compiles to the same plan without its cursor, cost included; to the very same plan exactly when the request carried no token |
| ErrorLimit.LimitNeverDecides | compile.go:87-112 | For any error limit the run, its full list of violations, its calls and its plan are the same |
| ErrorLimit.LimitsAgree | errors.go:71-83 | Two limits give the same verdict and the shorter report is a prefix of the longer |
| Like.EscapeLikeIsOnePass | adapters/postgres/postgres.go:205-209 | Three sequential replacements equal one pass over the characters |
| Like.EscapedReadsLiterally | adapters/postgres/postgres.go:205-209 | An escaped text in front of any pattern reads as its own characters, with no escape left over |
| Like.StartsWithPattern | adapters/postgres/postgres.go:153-162 | The pattern for starts_with matches exactly the strings with that prefix |
| Like.ContainsPattern | adapters/postgres/postgres.go:153-162 | The pattern for contains matches exactly the strings with that substring |
| Like.EndsWithPattern | adapters/postgres/postgres.go:153-162 | The pattern for ends_with matches exactly the strings with that suffix |
| Postgres.ValidIsQuotable | adapters/postgres/postgres.go:211-235 | A valid identifier holds no quotation mark, so that quoting it is safe |
| Postgres.NewCompiler | adapters/postgres/postgres.go:53-64 | A compiler exists exactly for nonempty names mapped to valid identifiers |
| Postgres.RenderIdentifier | adapters/postgres/postgres.go:229-235 | Quoting part by part prints the column's tokens; Postgres.ColumnIsNamed says which column that is |
| Postgres.ColumnIsNamed | adapters/postgres/postgres.go:229-235 | The printed column has the dot-free parts that, joined with dots, are the identifier |
| Postgres.IdentifierExactly | adapters/postgres/postgres.go:211-227 | A valid identifier has at most three such parts, each a letter or underscore followed by letters, digits and underscores |
| PostgresReadable.IdentifierReadsBack | adapters/postgres/postgres.go:229-235 | Lexing a quoted identifier gives the quoted parts of the column it names, separated by dots |
| PostgresCompiler.ArgumentList.Add | adapters/postgres/postgres.go:200-203 | A new argument is appended and its one-based position returned |
| PostgresCompiler.CompileTest | adapters/postgres/postgres.go:139-178 | The text after a column is that of the specified pieces, and exactly the predicate's operands are appended |
| PostgresCompiler.CompileFilter | adapters/postgres/postgres.go:128-190 | The recursive printer prints exactly the specified pieces, numbered after the arguments already there, and appends exactly the filter's operands |
| PostgresCompiler.CompilePlan | adapters/postgres/postgres.go:74-126 | All fragments or none: projection, filter text, order and arguments are the specified ones; the theorems on their meaning read columns off the mapped identifiers (Postgres.ColumnNamed) |
| SqlLexer.LexReadsBack | adapters/postgres/postgres.go:89-110 | Any list of tokens that are properly separated is read back from its text |
| SqlGrammar.ParseIsDerivation | adapters/postgres/postgres.go:175-190 | The parser finds the one derivation of a token list under SQL precedence, if there is one; the grammar is unambiguous |
| PostgresProofs.FilterDerives | adapters/postgres/postgres.go:128-190 | The tokens of a printed filter derive the filter's own tree: parenthesised children under AND, OR or NOT, BETWEEN's AND inside its leaf |
| PostgresProofs.LeafMeans | adapters/postgres/postgres.go:128-178 | With its operands bound, each printed predicate has the predicate's three-valued truth on every row, pattern operands as plain text |
| PostgresProofs.FilterMeans | adapters/postgres/postgres.go:128-190 | With its arguments bound, the tree of a filter evaluates to the recursively defined meaning of the filter on every row |
| PostgresReadable.WhereReadsBack | adapters/postgres/postgres.go:89-110 | Lexing the WHERE text gives exactly its tokens |
| PostgresTheorem.AcceptedIsCompilable | compile.go:266-322 | Every accepted filter has the operands and children the printer takes for granted |
| PostgresTheorem.CompiledPlanPrints | adapters/postgres/postgres.go:74-190 | On every compiled plan the printer never misses an operand or prints an empty group |
| PostgresTheorem.PrintsExactlyWhenMapped | adapters/postgres/postgres.go:79-126 | Printing a compiled plan fails exactly when some field, constraint, filter or sort name lacks a mapping |
| PostgresTheorem.WhereMeans | adapters/postgres/postgres.go:89-110 | The tree of the fragment evaluates to all constraints AND the filter, in three-valued logic, on every row |
| PostgresTheorem.WhereParams | adapters/postgres/postgres.go:91-108 | Left to right the placeholders are exactly 1 to n, n being the number of arguments |
| PostgresTheorem.ArgumentsFollowLeaves | adapters/postgres/postgres.go:128-178 | A filter's arguments are the operands of its predicates from left to right, pattern operands escaped and wrapped |
| PostgresTheorem.PlanIsFaithful | adapters/postgres/postgres.go:74-126 | The WHERE text of a mapped plan lexes, has exactly one derivation, means the plan on every row, and numbers its arguments in order |
| PostgresTheorem.CompiledFragment | adapters/postgres/postgres.go:74-190 | For every compiled plan and every mapping of quotable identifiers: printing succeeds exactly when all names are mapped, and the text is then faithful |
| PostgresOrder.ListIsDerivation | adapters/postgres/postgres.go:112-124 | The parser of ordered column lists finds the one derivation of a token list, and nothing else |
| PostgresOrder.OrderText | adapters/postgres/postgres.go:112-124 | The ORDER BY text is that of the plan's terms |
| PostgresOrder.OrderMeans | adapters/postgres/postgres.go:112-124 | With nulls larger than any value unless placed explicitly, the ORDER BY terms compare any two rows as the plan's order does |
| PostgresOrder.CompiledOrdering | adapters/postgres/postgres.go:112-124 | For every compiled plan with mapped sorts the ORDER BY text lexes, has the plan's terms as its one derivation, and orders rows as the plan does |
| PostgresOrder.ProjectionReadsBack | adapters/postgres/postgres.go:79-87 | The projection lexes and has the list of the execution fields' columns as its one derivation |
| Keyring.KeyIdsHaveNoDot | cursor/cursor.go:437-448 | A valid key id or version contains no dot |
| Keyring.KeyStore.Rotate | cursor/cursor.go:97-116 | The ring is replaced as a whole exactly for valid, distinct ids with 32-byte secrets; any other rotation leaves it unchanged |
| Keyring.HeldIsUnique | cursor/cursor.go:97-116 | The accepted keys determine the ring completely |
| Keyring.HeldIsUsable | cursor/cursor.go:97-116 | An accepted ring has its active key and usable secrets only |
| CursorCodec.ValidPayload | cursor/cursor.go:383-400 | The checks hold exactly for a well-formed payload that is current at the instant |
| CursorCodec.EqualSorts | cursor/cursor.go:425-435 | True exactly for the same terms in the same order |
| CursorCodec.IssuedEnvelope | cursor/cursor.go:253-255 | The envelope of an issued token splits back into exactly version, key id and sealed part |
| CursorCodec.IssuedDecodes | cursor/cursor.go:293-344 | The exact outcome of decoding an issued token under any later ring, instant, revision and order, canonical positions or not |
| CursorCodec.LifetimeShrinks | cursor/cursor.go:383-400 | As the clock advances an issued payload stays within the lifetime limit, and is current exactly until it expires |
| CursorCodec.TokenFixesWire | cursor/cursor.go:314-331 | Whatever keys are used, a token's sealed part opens to one payload only |
| CursorCodec.OpenedWasSealed | cursor/cursor.go:301-344 | Whatever opens was sealed under the ring's own key for its key id and this version, has canonical positions, is current, and has the expected revision and order |
| CursorReference.KeyNames | cursor/cursor.go:437-448 | A valid key id or version is one to sixty-four ASCII letters, digits, underscores or hyphens |
| CursorReference.PayableExactly | cursor/cursor.go:383-400 | The payload checks, bound by bound: lengths in bytes, known directions and null orders, as many positions as sorts, unexpired and not past the lifetime limit |
| CursorReference.IssuedExactly | cursor/cursor.go:224-258 | A token is issued exactly for such a payload under a usable active key, and is version, key id and sealed part joined with dots, within the size bound |
| CursorReference.OpenedExactly | cursor/cursor.go:279-345 | What every text opens to: by what it carries under the ring's key, expired, invalid, another schema, another order or the payload; a three-part text of another version is told so, and only such a text; everything else is invalid |
| CursorCodec.RunsAreGenuine | cursor/cursor.go:97-136 | In every run each issued token keeps a genuine record: sealed with a usable ring no later than now |
| CursorCodec.RunsRoundTrip | cursor/cursor.go:224-344 | After any run of encodes, rotations and forward clock steps a token decodes to its payload exactly when the ring still maps its key id to its secret, its positions are canonical, it is unexpired, and revision and order match; it never decodes to another, and without canonical positions never at all |
| CursorService.NewCodec | cursor/cursor.go:187-205 | A codec exists exactly for a valid version, positive limits and a ring with an active key; it keeps them all, a missing string bound becomes 256, and without a clock it goes by the system's |
| CursorService.Codec.Encode | cursor/cursor.go:224-260 | The token is the one the current ring and clock issue |
| CursorService.Codec.Open | cursor/cursor.go:290-344 | Every failure of decoding, in the order the source checks them |
| CursorService.Codec.DecodeContext | cursor/cursor.go:279-359 | Cancellation on entry comes first, then whatever keeps the token from opening. With a store a call that opens succeeds exactly when it is not cancelled before the store, not declined, and its fingerprint was never consumed; success, and nothing else, consumes the fingerprint; the error of the others is exact |
| CursorService.Codec.Decode | cursor/cursor.go:265-270 | Behind a replay store nothing is decoded and nothing consumed |
| CursorService.Codec.DecodeCursor | cursor/cursor.go:363-371 | Direction, positions and policy are those of a payload DecodeContext could return, and errors pass through; behind a store success means a fingerprint consumed now and never before |
| CursorService.Codec.Serve | cursor/cursor.go:279-359 | Over any sequence of decodes, rotations and clock moves on one codec at most one decode per fingerprint succeeds, and none whose fingerprint was consumed before |
| CursorPaging.NextPageCompiles | cursor/cursor.go:363-371 | A token issued for a cursor page's own revision and order, unexpired and with its key retained, lets the request after or before it compile exactly when its positions are canonical, then to the same plan with exactly that cursor |
| CursorLibrary.LawsAreConsistent | cursor/cursor.go:224-260 | The laws assumed of sealing, encoding and marshalling are met by libraries that carry any finite list of payloads, one whose decoding is strict and one whose decoding is not |
| ReplayMachine.OpensToOne | cursor/cursor.go:301-331 | All calls for one token text see the same payload and expiry, whatever ring each copied its key from |
| ReplayMachine.LocalStepSound | cursor/cursor.go:279-359 | A call's own steps neither make nor unmake a success |
| ReplayMachine.AcceptedIsNew | cursor/cursor.go:346-357 | The store never accepts a token it has accepted before, even after pruning |
| ReplayMachine.StepSafe | cursor/cursor.go:279-359 | Every step of any call, a cancellation, a store that declines a cancelled call, a rotation, the clock and pruning keeps the machine safe |
| ReplayMachine.RunSafe | cursor/cursor.go:279-359 | Every interleaving keeps the machine safe |
| ReplayMachine.OneSuccessPerFingerprint | cursor/cursor.go:346-357 | In every interleaving at most one call per fingerprint returns the same payload |
| ReplayMachine.OneSuccessPerToken | cursor/cursor.go:346-357 | In every interleaving at most one call per token returns a payload |
| ReplayMachine.PayloadExactlyWhenAccepted | cursor/cursor.go:346-358 | A call that has returned returned a payload exactly when the store accepted its own step, whenever it was cancelled and whether or not the store honoured that |
| CursorRun.DecodeAsRun | cursor/cursor.go:279-359 | Every DecodeContext call on a codec with a store is a run of the interleaving machine that ends with the same result and the same consumed set |
| ReplayMachine.ReplayedOnlyIfUsed | cursor/cursor.go:349-357 | In every interleaving a call is told its token was replayed only if a call with that fingerprint was accepted, or the token has expired at a store that refuses such tokens |
| ReplayMachine.DeclinedThenAccepted | cursor/cursor.go:162-165 | From any state a call cancelled at the store can be declined: it returns the cancellation, consumes nothing, and a later call with the same token can succeed |
| ReplayMachine.SealedFixesKey | cursor/cursor.go:301-325 | Tokens that open and carry one sealed part have one key id and one payload, and differ in the spelling of that part only |
| ReplayMachine.SealedFixesToken | cursor/cursor.go:301-325 | Spelled as Encode spells it, a sealed part that opens is carried by one text only, key id included |
| ReplayMachine.OneSuccessPerSealedPart | docs/api.md:118-119 | In every interleaving, of all calls for one sealed part that spell it as Encode does at most one returns a payload |
| ReplayMachine.TextsCountSeparately | cursor/cursor.go:349-350 | Two texts with different fingerprints that both open can both succeed |
| ReplayMachine.RespelledOpens | cursor/cursor.go:307-344 | Respelled, a token decodes to the same result, and carries the same sealed part |
| ReplayMachine.RespelledEnvelope | cursor/cursor.go:307-310 | Any dot-free text that decodes to the same bytes respells a token, unless the whole gets too long |
| ReplayMachine.PartTwiceExactly | docs/api.md:118-119 | The sealed part of a token that opens can be accepted twice, in some interleaving, exactly when two of its spellings have different fingerprints |
| CursorWitness.LineFeedSucceedsToo | docs/cursor.md:29-32 | With a lawful decoder that skips line feeds, an issued token and the same token with a line feed at its end carry one sealed part, and both succeed |
| CursorWitness.FarTimeNeverDecodes | types.go:74-78 | A position with a time in the year 10000 is sealed into a token that no later ring, instant, revision and order decodes |
| ReplayMachine.PruningNeedsRefusal | cursor/cursor.go:162-165 | A store that prunes but accepts expired tokens admits an interleaving with two successes for one token |
| RowOrder.CellsPreorder | compile.go:454-475 | One term compares cells as a total preorder, nulls included, whatever its direction and null placement |
| RowOrder.RowsTransitive | compile.go:361-478 | The lexicographic order over any terms is transitive |
| RowOrder.EqualRowsAgree | compile.go:361-478 | Rows no term tells apart agree on every sort column |
| RowOrder.UniqueColumnTotals | compile.go:454-475 | With a column on which no two rows agree among the terms, the order is strict and total |
| RowOrder.CursorPlanOrders | compile.go:454-475 | Every compiled cursor plan orders rows with unique tie-breaker values strictly and totally |
| RowOrder.CursorPlanSessions | cursor/pagination_property_test.go:41-66 | Seek sessions over a compiled plan's order repeat no row and miss no row that stays |
| RowOrder.CursorPlanSessionsBackward | cursor/pagination_property_test.go:82-121 | Backward sessions over a compiled plan's order repeat no row either and miss no row that stays |
| Seek.TraverseForward | cursor/pagination_property_test.go:68-80 | Forward traversal of an unchanging table returns the sorted listing for every page size of at least one |
| Seek.TraverseBackward | cursor/pagination_property_test.go:82-99 | Backward traversal, reassembled, returns the same listing |
| Seek.PageIsBeyond | cursor/pagination_property_test.go:101-110 | A page lists rows strictly beyond the boundary in order |
| Seek.PageCovers | cursor/pagination_property_test.go:101-110 | A row beyond the boundary is on the page unless the page ends before it |
| Seek.PageIsCut | cursor/pagination_property_test.go:101-110 | A forward page is exactly the first size rows past the boundary, or all of them |
| Seek.BackwardPageIsCut | cursor/pagination_property_test.go:112-121 | A backward page is exactly the last size rows short of the boundary, or all of them |
| Seek.ServedIncreases | cursor/pagination_property_test.go:41-66 | Under any inserts and deletes between pages the served rows are strictly increasing |
| Seek.ServedWasThere | cursor/pagination_property_test.go:41-66 | Every served row was in the table its page was read from |
| Seek.SessionIsComplete | cursor/pagination_property_test.go:41-66 | A session that reads an empty page has served every row that was present throughout, exactly once |
| Seek.BackwardMirrorsForward | cursor/pagination_property_test.go:112-121 | A backward page is the mirror image of a forward page of the reversed order |
| Seek.BackwardSessionMirrors | cursor/pagination_property_test.go:82-121 | A backward session over changing tables is the mirror image of a forward one |
| Seek.BackwardSessionIsComplete | cursor/pagination_property_test.go:82-121 | A backward session serves an increasing list and misses no row that stays |
| Records.ComparesAsIntended | cursor/pagination_property_test.go:129-140 | The wrapped comparison has the intended sign exactly when the deciding difference fits an int |
| Records.AgreesWhenNarrow | cursor/pagination_property_test.go:129-140 | The comparison agrees with its intent on a set of records exactly when no deciding difference overflows |
| Records.NarrowTotal | cursor/pagination_property_test.go:123-140 | Records with distinct ids and a narrow spread are strictly and totally ordered by the comparison |
| Records.WideScoresCycle | cursor/pagination_property_test.go:129-140 | Three records with wide scores compare in a circle |
| Records.TraverseBoth | cursor/pagination_property_test.go:15-39 | For every sorted table of distinct, narrow records and every page size of at least one both traversals return the table |
| StrictJson.Decoder.Token | internal/strictjson/strictjson.go:49-52 | The token loop is the token machine: separators are skipped only where the mode expects them |
| StrictJson.MemberIsText | internal/strictjson/strictjson.go:60-64 | The token before a member's value is always a name, so the conversion cannot fail |
| StrictJson.ValidateValue | internal/strictjson/strictjson.go:45-85 | The recursive method is the recursive specification on every decoder state |
| StrictJson.AcceptedValue | internal/strictjson/strictjson.go:45-85 | Whatever is accepted is the text of one value without repeated names and within the depth, and exactly that text is consumed |
| StrictJson.ValueAccepted | internal/strictjson/strictjson.go:45-85 | Every such value is accepted in every place a value may stand, consuming exactly its text |
| StrictJson.RequireEnd | internal/strictjson/strictjson.go:87-95 | Succeeds exactly at the end of the text |
| StrictJson.FirstPass | internal/strictjson/strictjson.go:22-36 | The first pass accepts exactly the nonempty texts within the size bound that are one value in which no object repeats a name (section 4 of RFC 8259) and which nests at most 64 deep |
| JsonNesting.FirstPassExactly | internal/strictjson/strictjson.go:22-36 | The same said of every value: none lies inside sixty-four others, no object repeats a name, every scalar is one token |
| JsonNesting.DepthIsNesting | internal/strictjson/strictjson.go:45-50 | A document is at most so deep exactly when no value in it lies inside that many others |
| ViolationPath.AppendPath | adapters/validation/validation.go:41-67 | The recursive parser ends on every string and appends exactly the specified segments |
| ViolationPath.PathParses | adapters/validation/validation.go:37-67 | Parsing the printed path of a filter node gives exactly the field, children and index segments that lead to it |
| ViolationPath.PathsAreDistinct | compile.go:315-316 | Different nodes have different paths |
| PathText.PrintedParses | adapters/validation/validation.go:40-67 | The parser reads back every printed path of names, indexes and keys |
| PathText.AtoiExactly | adapters/validation/validation.go:58-62 | A bracketed item is an index exactly when it is a sign or none, zeros or none, and a decimal number that fits an int |
| ViolationPath.StepsComeBack | adapters/validation/validation.go:37-67 | The steps to any node are read back off its parsed path; an index that does not fit an int comes back as text |
| ViolationPath.WalkReports | compile.go:260-322 | Every violation of the filter walk carries the printed path of a node of the request's tree |
| ViolationPath.FilterViolationsParse | adapters/validation/validation.go:20-35 | Each violation of a filter parses back to the steps of the one node it is about |
| ViolationPath.Report | adapters/validation/validation.go:20-35 | One entry per violation, in order, under its parsed path; any other error becomes one entry at the root |
| PlanHeap.CloneFilter | plan.go:122-137 | The clone is an equal tree made of new objects that refer to nothing else |
| Compilation.Plan.ResponseFields | plan.go:36-38 | An accessor returns a fresh equal copy |
| Compilation.Plan.Filter | plan.go:49-49 | The filter accessor returns an equal tree of new objects |
| Compilation.Plan.MandatoryConstraints | plan.go:53-55 | A fresh equal copy of the constraints |
| Compilation.Plan.Sorts | plan.go:58-58 | A fresh equal copy of the sorts |
| Compilation.Plan.Cursor | plan.go:65-71 | An equal copy of the cursor state made of new objects, or none |
| PlanIsolation.Caller.Scribble | plan.go:9-12 | Any write through any reference, element or field, reaches objects of the caller's region only, which stays closed under following references |
| PlanIsolation.Act | plan.go:9-12 | One action of a caller that holds none of the plan leaves the plan and its report as they were, and the caller still without any of it |
| PlanIsolation.Session | plan.go:9-12 | In any interleaving of accessor calls, followed references and writes every accessor call shows what the plan was |
| PlanIsolation.CompileThenSession | compile.go:81-112 | From compilation on: the request, constraints, nodes and states the caller or its decoder held, and every copy handed out, may be followed and overwritten in any order; each accessor call shows the plan of the run |

## Left out

- CursorService.ReplayStore: the sequential store never forgets; pruning and refusal are in ReplayMachine.
- StrictJson.FirstPass: the scanning of bytes into lexemes is not modelled, so the size is a parameter of its own; the second, typed pass is a library call.
- ViolationPath.Report: the limits of the validation library's report are not modelled.
- SchemaBuilder.NewSchema: the other declarations are values, so that only the relationship tree is shown to be copied.
- Seek.TraverseForward: page sizes and positions are unbounded, so that `start+size` cannot wrap around.
- Postgres.SortText: an unknown direction or null order is upper-cased as ASCII only; no compiled plan contains one.
- CursorCodec.Lawful: AES-GCM, nonce generation, base64url and JSON marshalling are ideal functions that meet these laws; which float and time texts are canonical is left to the library.
- SHA-256: the replay fingerprint is an arbitrary fixed function of the token text.
- Unicode tables and validation of UTF-8: identifier letters and digits are arbitrary predicates, and strings are valid.
- SQL collations and casts: comparison of values is an arbitrary function, and the text of a value stands for the value.
- Messages of violations and errors, and the error wrapping around them.
- JSON scanning: strings, numbers and literals arrive as lexemes.
- `Plan.Canonical`, `BuildPage` and single-field accessors: formatting or one branch each.
- The JSON:API, JSON-RPC and HTTP adapters, the test kit, benchmarks and live databases: field copying and harness.
- Real locks, goroutines, panics of callbacks and allocation limits.
