# Encrypted query compiler: model and proofs

A Dafny model of a SQL client and server that filter, project and join encrypted
tables. SQL text is parsed, checked and planned; the client linearises the WHERE
predicate into a flat node array with a table of encrypted literals; the server
validates the package, rebuilds an expression and evaluates it over ciphertexts as
arithmetic modulo a prime; the client decrypts the mask and the projected columns,
reconstructs rows, sorts and limits them. The specification throughout is plaintext
execution: filter, project, stable sort, limit.

The main results:

- compiler correctness through all three representations of a predicate, for every
  odd prime, with the exact modular meaning when values are out of range;
- whole-query refinement for one table, for any split into chunks, and for joins, modulo
  p for all integers and in plaintext on the range;
- the parser, exactly: the texts it accepts are the written forms of statements, defined
  without it, each with the statement it stands for; and against its printer: when a tree
  or a statement survives printing and parsing;
- the four static stages: which statements the analyzer accepts, and which accepted ones,
  over one table and over joins, can be executed, exactly; and which packages of any shape
  the validator accepts and the server can rebuild, exactly;
- plaintext execution itself, read off the statement: which rows, under which names, with
  which values, in which order;
- the framed session over a stream that fragments reads and writes and may fail.

`Client.ExecuteQuery` ties them together: one method from SQL text to rows, over the
framed connection, whose contract equates the rows with plaintext execution unless the
connection fails.

## Layout

| files | part |
|---|---|
| Common, Catalog, Ast | results, schemas, syntax trees |
| PrimeField, Masks, Circuit | Fermat's little theorem, the comparison arithmetic, expressions over slots |
| Package, Encryptor, Linearised, QueryEncryption | the package and the client's linearisation |
| Rebuild, Plain, Compiler | the server's rebuilding, plaintext and modular meaning, compiler correctness, depth |
| Termination, PackageGraph | how much stack rebuilding and validating take, and what they require of any package |
| Semantic, Acceptance, Planner, Validator, WellTyped | the static stages |
| Execution, Decoder, DecodeExact, RowDecode, SortLimit, TableQuery, Pipeline | one table: scan, decode, sort, limit |
| JoinExecution, JoinColumns, JoinQuery, JoinResult, JoinPlain, JoinMeaning, JoinPipeline, JoinWellTyped | joins |
| Meaning, ResultRows | what conditions mean and what results show, form by form |
| Lexer, Grammar, Parser, ExprForms, ExprFormsRead, ExprFormsFound, StatementForms, StatementFormsRead, StatementFormsFound | parsing, and the written forms it accepts |
| Printer, RoundTrip, ParserOutput, ShapeNeeded, StatementRoundTrip, SqlRoundTrip, AscWritten, AcceptedTexts, Terminal | printing and reading back |
| Transport, Client, Executability, JoinExecutability | the session, the pipeline end to end, and which statements run |
| Inhabited, Counterexamples | queries that meet the conditions of the whole-query theorems, and inputs at which expected properties fail |

Code that the program writes with mutable state keeps that form: `PredicateBuilder`
holds the node array, the literal table and the id counter that the recursive walk
receives by reference; `SQLParser` is a cursor over its text; `ColumnList`,
`ResultSet` and `Channel` are the vector, the rows and the byte stream that are
updated in place. Each such method is proved against a function, and the theorems are
about that function.

## Modelling choices

- A ciphertext is an ideal box of slots. Encrypting v stores v mod p, and decrypting
  gives the stored residue in [0, p). The stored columns of a string, whose names come
  from a library that is not part of this model, are a datatype of their own.
- The modulus is any odd prime; 257 is proved to be one.
- The scan, filter and project operators and the expression evaluator come from a library
  that is not part of this model. They are taken to do what docs/architecture.md:53-63
  says: a scan hands on the listed columns and fails when one is missing, a filter adds a
  mask, and every operator works slot by slot.
- Node indices, literal ids, string widths and batch ids are 32-bit and wrap where the
  program's do. Theorems that need them not to wrap say so.
- `buildExpression` and `validatePredTree` recurse along indices that a received package
  may arrange in a cycle. Both take the number of nested calls that fit the stack, so
  that they are total; for packages whose children come first its size does not matter
  (`Termination.BackwardTerminates`), and on a cycle every stack fails
  (`Termination.CycleFails`).
- Accumulating digits beyond 64 bits, which the language leaves undefined, is an error
  of its own (`IntegerOverflow`).
- Exceptions are error results; their texts are not modelled.
- docs/security-model.md:110 gives the multiplicative depth as 9, while the client
  configures 12 (client/client_main.cpp:53); the model follows the code.

## What turned out false, and exactly when it holds

Each of these is an exact condition, and names an input at which the expected property
fails.

- Comparisons of reduced values are decided for = and !=, but for the orders only up to a
  distance of (p-1)/2 (`Masks.GtMaskDecidesOrder`, `Plain.ZpCompareExact`); p - 1 is not
  found greater than 0 (`Masks.GtMaskWraps`).
- Printing does not double the quotes in a string literal, and puts no parentheses around a
  comparison or a negation that is an operand of a comparison. So the round trip holds iff
  there is neither (`ShapeNeeded.ExpressionRoundTrip`, `SqlRoundTrip.ReparseParsed`); the
  parser accepts texts of both kinds (`AcceptedTexts.EmbeddedQuote`,
  `AcceptedTexts.ComparedComparison`). INT64_MIN cannot be read back (`Lexer.IntRead`).
- An accepted predicate is encrypted iff no bare string literal stands for a truth value
  and no string comparison is on a column that only the joined table has
  (`WellTyped.EncryptionThrows`; `Counterexamples.BareStringThrows`,
  `Counterexamples.JoinedStringThrows`).
- An accepted statement over one table runs iff every name in it is unqualified, no bare
  string literal stands for a truth value, and columns outside comparisons with a string
  literal are integers (`Executability.RunsExactly`; `Counterexamples.QualifiedNamesFail`,
  `Counterexamples.BareStringThrows`, `Counterexamples.StringColumnsFail`).
- An accepted join of two tables is prepared iff unqualified names it projects or orders by
  are columns of the main table and its predicate is encrypted
  (`JoinWellTyped.JoinPreparedExactly`; `Counterexamples.JoinedNameThrows`). It runs iff,
  besides, ON names the main table first, on an integer column, and WHERE uses only integer
  literals and qualified integer columns whose bare names the main table has
  (`JoinExecutability.JoinRunsExactly`; `Counterexamples.SwappedKeysFail`,
  `Counterexamples.UnqualifiedWhereFails`).
- The planner lists WHERE columns of both joined tables for the scan of the main one, so
  the validator rejects a WHERE on a column that only the joined table has
  (`JoinPipeline.ScanCheckExact`, `JoinPipeline.JoinedOnlyWhereRejected`;
  `Counterexamples.JoinedColumnRejected`).
- The guard against reading a clause keyword as an alias is case-sensitive although
  keywords are not (`SqlRoundTrip.ImplicitAlias`; `SqlRoundTrip.LowerCaseWhere`).
- ORDER BY entries on string columns are accepted (`Pipeline.OrderByAnyColumn`) and passed
  over: rows are sorted by the others (`SortLimit.OrderByStringsIgnored`), so rows can come
  back in an order that contradicts the clause (`Counterexamples.StringOrderIgnored`).
- A comparison with a string column of 16 characters, the width of the sample tables, fits
  the configured depth on its own, but not under AND or OR (`Compiler.StringWidthBudget`,
  `Compiler.ConnectedStringBudget`; `Counterexamples.ConnectedStringOver`).

## Model

| member | source | states |
|---|---|---|
| PrimeField.Fermat | docs/architecture.md:58 | a^(p-1) leaves remainder 1 for every odd prime p when p does not divide a and 0 when it does, which EQ relies on; proved from Euclid's lemma and the binomial theorem |
| PrimeField.Prime257 | client/client_main.cpp:52 | 257, the configured plaintext modulus, is an odd prime |
| Masks.EqMaskExact | docs/architecture.md:58 | EQ is 1 iff the operands are congruent modulo p and 0 otherwise, for all integers and every odd prime |
| Masks.GtMaskExact | docs/architecture.md:59 | GT is 1 iff (a-b) mod p lies in [1,(p-1)/2] and 0 otherwise, for all integers |
| Masks.GtMaskDecidesOrder | docs/architecture.md:153-155 | on reduced operands GT tells a > b iff the operands are at most (p-1)/2 apart: the exact condition, of which the documented range is a special case |
| Masks.MasksOnHalfRange | docs/architecture.md:153-155 | on [0,(p-1)/2] EQ, GT and LT are the masks of =, > and < |
| Masks.ConnectivesOnBits | docs/architecture.md:61-63 | AND, OR and NOT of 0/1 masks are the 0/1 masks of the connectives |
| Circuit.CombineIsConjunction | execution/query_executor.cpp:276-287 | the balanced tree over any number of comparisons is the mask of the AND of all of them |
| Circuit.CombineDepth | execution/query_executor.cpp:276-287 | over leaves of equal depth the balanced tree adds exactly ceil(log2(count)) multiplications |
| Circuit.CeilLog2Exact | execution/query_executor.cpp:283 | CeilLog2(n) <= h iff n <= 2^h, so the depth function is the logarithm |
| Package.FindLiteral | execution/query_executor.cpp:241-243 | the linear search returns the first entry with the id, or none when no entry has it |
| Package.NumberedLookup | execution/query_executor.cpp:241-243 | with at most 2^32 consecutively numbered entries, looking up id k finds entry k itself |
| Encryptor.PredicateBuilder.AddEncryptedString | query/query_encryptor.cpp:11-31 | appends exactly one zero-padded entry a position, returns the first id, and keeps the counter equal to the number of literals modulo 2^32 |
| Encryptor.PredicateBuilder.BuildPredNode | query/query_encryptor.cpp:103-225 | succeeds iff the tree is compilable; then the two tables are the walk over the tree and the result is the index of the last node |
| Encryptor.WalkExtends | query/query_encryptor.cpp:103-225 | a walk only extends the node array and literal table, by exactly the node and literal counts read off the tree, and keeps ids consecutive |
| Encryptor.WalkBackward | query/query_encryptor.cpp:185-186 | every child index is smaller than its parent's |
| Linearised.LiteralsExactly | query/query_encryptor.cpp:11-31 | the literal table holds the literals of the tree from left to right, consecutively numbered: INT64 for an integer, one STRING_CHAR a position, zero padded, for a string, on whichever side of the operator it stands |
| Linearised.NodesTidy | query/query_encryptor.cpp:103-225 | every node sets the fields of its kind only, the others stay as in a new node |
| Termination.LargerStack | execution/query_executor.cpp:227-353 | for any package: a rebuild that does not run out of stack has the same outcome with every larger stack |
| Termination.BackwardTerminates | execution/query_executor.cpp:227-353 | on packages whose children come before their parents, as the encryptor's do, rebuilding from an index never needs more stack than the index plus two, and its size does not matter |
| Termination.BackwardSound | query/query_validator.cpp:58-144 | on such packages: if the validator accepts with some stack, rebuilding succeeds with every stack that is enough, and reads known columns only |
| Termination.CycleFails | execution/query_executor.cpp:227-353 | on nodes each of which leads to another one of them, by either child link, rebuilding fails and validation rejects, with every stack |
| QueryEncryption.EncryptWithSchema | query/query_encryptor.cpp:33-69 | throws iff a projected name is missing or the predicate is not compilable; otherwise the package carries the plan, the result schema and the walk over WHERE |
| QueryEncryption.EncryptWithCatalog | query/query_encryptor.cpp:71-101 | throws iff a projected name is missing from its table or the predicate is not compilable; otherwise the package carries the plan, names every result column as written with its type and width, and is the package the later theorems speak about |
| Rebuild.BuildStringCircuit | execution/query_executor.cpp:253-291 | the loop over positions builds the comparisons of the first-match literals, fails on the first missing or empty one, and on width zero |
| Rebuild.BuildExpression | execution/query_executor.cpp:227-353 | computes the circuit of a node for any package, cyclic ones included, with room for a given number of nested calls |
| Rebuild.RebuildRepresented | execution/query_executor.cpp:227-353 | a node that stands for a tree rebuilds to the circuit of that tree, and fails exactly when some compared string column has width zero |
| Rebuild.WalkRepresents | query/query_encryptor.cpp:103-225 | the last node of a walk stands for the tree, as long as 32-bit indices can address the tables |
| Plain.PaddingExact | query/query_encryptor.cpp:17-21 | zero padding to a width forgets exactly the trailing NULs: padded codes agree at every position iff the strings agree once trailing NULs are dropped |
| Plain.ZpCompareExact | docs/architecture.md:153-155 | the modular comparison is the integer one whenever the operands, reduced or not, are less than p apart for = and != and at most (p-1)/2 apart for the orders; on reduced operands exactly then |
| Plain.ZpEvalInRange | client/client_main.cpp:194-221 | with compared integers close enough for their operator and strings that fit their columns and do not differ in trailing NULs only, the modular reading of a predicate is its plaintext meaning |
| Compiler.CircuitComputesZp | execution/query_executor.cpp:293-348 | for every row, whatever its values, the circuit of a typed predicate is the 0/1 mask of its modular reading |
| Compiler.CompilerCorrect | execution/query_executor.cpp:227-353 | linearise, ship, rebuild, evaluate: for every typed predicate and every row in range the mask slot is exactly 1 when the plaintext predicate is true and 0 when it is false |
| Compiler.CompiledDepth | execution/query_executor.cpp:276-332 | the multiplicative depth of a compiled predicate in closed form over the syntax tree |
| Compiler.PredicateBudget | client/client_main.cpp:52-53 | at p = 257 and depth 12 a predicate fits iff at most four levels lie above its comparisons |
| Compiler.StringWidthBudget | client/client_main.cpp:52-53 | so a string comparison of its own fits iff its width is at most 16 |
| Compiler.ConnectedStringBudget | client/client_main.cpp:52-53 | as either operand of an AND or an OR a string comparison fits iff its width is at most 8 and the other operand has at most three levels |
| JoinQuery.JoinBudget | execution/query_executor.cpp:95-99 | multiplying the key mask in costs one level: the mask of a pair fits iff at most three levels of WHERE lie above the comparisons |
| Validator.ValidatePredTree | query/query_validator.cpp:58-144 | accepts exactly the nodes that meet the checks, recursively, for any package |
| Validator.Validate | query/query_validator.cpp:11-56 | accepts exactly the packages that meet all the checks |
| Validator.ValidatorSound | query/query_validator.cpp:58-144 | wherever validation accepts, in any package at all, rebuilding there succeeds with the same stack and reads only known columns and existing character positions |
| PackageGraph.ValidatesExactly | query/query_validator.cpp:11-144 | told by walks from the root along the child links: a package of any shape is accepted iff its version, table, scanned and projected names, parameter set and literals pass and every node that some walk reaches passes the checks of its kind, with no walk longer than the stack |
| PackageGraph.RebuildExactly | execution/query_executor.cpp:227-353 | rebuilding succeeds iff every node that some walk reaches exists and has the ciphertexts its kind needs, with no walk longer than the stack |
| Semantic.Resolve | semantic/semantic.cpp:26-43 | succeeds iff a qualified name resolves through its alias, or a bare one belongs to exactly one scope; the result is that column, whatever order the scopes are visited in |
| Semantic.Analyze | semantic/semantic.cpp:10-79 | succeeds iff the statement passes every check, which Acceptance.AcceptedExactly spells out, and returns the main table's schema |
| Acceptance.AcceptedExactly | semantic/semantic.cpp:10-208 | the analyzer accepts exactly the statements over known tables whose projected and ordering names denote one column, whose ON clauses equate qualified columns of one type, whose limit is at least -1, and whose WHERE has between its ANDs, ORs and NOTs only literals, qualified or existing names and comparisons that fit: INT64 columns with integers on either side under all six operators, STRING columns under = and != with literals no longer than their width, columns with each other, INT64 ones when ordered; any number of joins and any aliases, repeated ones included |
| Acceptance.ComparisonExactly | semantic/semantic.cpp:123-208 | a comparison is accepted iff it fits the types of its columns, operator by operator |
| Acceptance.ScopeExactly | semantic/semantic.cpp:19-25 | in lists and ON an alias stands for the last table under it |
| Planner.LogicalPlan | planner/planner.cpp:12-61 | fails iff the first join is not an equality; otherwise the loops produce project over optional filter over scan; which columns that projects, Planner.PlanCoverage spells out |
| Planner.ColumnList.CollectColumns | planner/planner.cpp:66-77 | pushes the bare names of the tree's columns that are not yet listed, left to right |
| Planner.PhysicalPlanOf | planner/planner.cpp:79-122 | succeeds iff the tree is project over optional filter over scan; the scan list holds predicate columns, then projected ones of the main table |
| Planner.PlanCoverage | planner/planner.cpp:44-58 | the projection starts with the names the statement lists, or for SELECT * with the name of every column of the table in order, goes on with exactly the ORDER BY columns missing there, once each, and has nothing else; the scan list is duplicate-free, covers the predicate and holds every projected column of the main table; table, alias, join and filter are those of the statement |
| Execution.RestrictionHarmless | planner/planner.cpp:110-119 | evaluating a filter on the scan-restricted columns equals evaluating it on all columns |
| Execution.ExecuteTable | execution/query_executor.cpp:137-225 | succeeds iff all names are known, the filter rebuilds and every chunk has the columns; then every chunk holds every stored column of the scanned names, filter and projection read scanned columns only, and there is one batch a chunk, numbered in order, with the chunk's row count, a mask iff there is a predicate, and the stored columns of the projected names, one name after the other, character positions in order |
| Decoder.DecodeStringAt | result/result_decoder.cpp:56-64 | characters up to the first zero or missing position; fails on the first non-ASCII one |
| Decoder.Decode | result/result_decoder.cpp:24-70 | groups columns by name and position and reconstructs exactly the rows whose mask is 1, in order |
| DecodeExact.StringExactly | result/result_decoder.cpp:56-64 | a string is decoded iff the row spells it: its codes in order, all between 1 and 127, and then a zero or the end |
| DecodeExact.CharsExactly | result/result_decoder.cpp:33-46 | for each name and position the decoder keeps the last column that has them, and empty vectors where none has |
| DecodeExact.BatchExactly | result/result_decoder.cpp:24-70 | a batch decodes iff the strings of every row whose mask slot is 1, or of every row when there is no mask, do; then to exactly those rows in their order |
| DecodeExact.CollectExactly | client/client_main.cpp:323-327 | the batches decode to their rows one batch after the other, or to the failure of the first batch that fails |
| RowDecode.DecodePadded | result/result_decoder.cpp:55-65 | decoding the zero-padded columns of a clean string gives the string back, from every position on |
| RowDecode.ProjectionGroups | result/result_decoder.cpp:33-46 | regrouping the serialized columns recovers exactly the projected names, repeated names included |
| RowDecode.ChunkDecodes | result/result_decoder.cpp:24-70 | a chunk's batch decodes to the filter and projection modulo p of the rows the chunk stores, whatever their values, as long as the strings of the rows that are kept are ASCII without NUL |
| TableQuery.ZpRowsInRange | docs/architecture.md:153-155 | on rows that meet the conditions of plaintext execution, filter and projection modulo p are the plaintext ones |
| SortLimit.LessAsymmetric | result/result_decoder.cpp:78-99 | the comparator never orders two rows both ways |
| SortLimit.NotLessTransitive | result/result_decoder.cpp:78-99 | on rows that agree on which ORDER BY columns they have, "not before" is transitive, so the comparator is a strict weak order there |
| SortLimit.LessLexicographic | result/result_decoder.cpp:80-97 | for ORDER BY lists of any length: one row comes before another iff at some column that both have the values differ in the direction of its entry, and every earlier column is missing in a row or equal in both |
| SortLimit.SortedColumns | result/result_decoder.cpp:76-100 | rows are sorted iff of any two of them that agree on the first columns the earlier one is not behind on the next one they both have |
| SortLimit.OneColumnOrders | result/result_decoder.cpp:83-85 | for one ORDER BY column, exactly: "not before" is transitive on some rows iff none lacks the column or all that have it hold one value |
| SortLimit.OrderByStringsIgnored | result/result_decoder.cpp:80-85 | sorting by any list equals sorting by its entries on columns the rows have, in their order; string columns are not among them |
| Pipeline.OrderByAnyColumn | semantic/semantic.cpp:68-72 | a query that passes every stage still does when it is also ordered by any column of its table, strings included |
| SortLimit.StableSortCorrect | result/result_decoder.cpp:76-100 | on rows that agree on the ORDER BY columns the sort result is ordered, a permutation, and keeps the order of tied rows |
| SortLimit.StableSortUnique | result/result_decoder.cpp:76-100 | those properties determine the result, so any stable sort gives it |
| SortLimit.TopRows | result/result_decoder.cpp:102-105 | the result is the first min(limit, n) rows of a stable sort, ordered column by column, and no dropped row sorts strictly before a kept one |
| SortLimit.ResultSet.ApplySortAndLimit | result/result_decoder.cpp:72-106 | replaces the rows by the first min(limit, n) of a stable sort of them, no dropped one of which sorts strictly before a kept one; two result rows that agree on the first ORDER BY columns are ordered on the next one they have |
| SortLimit.CollectRows | client/client_main.cpp:323-327 | the client's loop concatenates the decoded batches, or fails with the first failure |
| WellTyped.AcceptedTyped | semantic/semantic.cpp:81-208 | what the analyzer accepts on one table is used at its types, once it is boolean-shaped, unqualified, and compares only integer columns with each other |
| WellTyped.EncryptionThrows | query/query_encryptor.cpp:137-139 | encrypting an accepted predicate, joins included, throws iff a bare string literal stands where a truth value is expected or a string comparison is on a column that only the joined table has |
| WellTyped.OneTableStrings | query/query_encryptor.cpp:96-100 | over one table the second reason never applies |
| WellTyped.QualifiedProjectionFails | execution/query_executor.cpp:160-170 | over plainly named columns, the single-table path knows every projected name iff every one is unqualified |
| Executability.RunsExactly | execution/query_executor.cpp:137-225 | an accepted statement over one stored table, of any shape, is prepared, accepted and executed iff every name in it - projected, ordered by or in WHERE - is unqualified, no bare string literal stands for a truth value, and every column outside a comparison with a string literal is an integer |
| WellTyped.RepresentedAccepted | query/query_validator.cpp:58-144 | the validator accepts whatever the encryptor linearised from a filter the single-table path can evaluate, of any shape, with no more stack than the tree is high |
| Pipeline.WellTypedQueriesPass | client/client_main.cpp:272-285 | an accepted query under the shape conditions is planned, encrypted without a throw, validated and rebuilt |
| Pipeline.ScanCorrect | execution/query_executor.cpp:179-222 | for any split of the table into chunks, and whatever its integers, the concatenated decoded batches are the filter and projection modulo p of the unsplit table |
| Pipeline.ZpQueryCorrect | client/client_main.cpp:223-245 | whole-query refinement with no range condition: the server accepts and executes the package, and its decoded batches, sorted and limited, are execution modulo p - filter by the modular reading, integers reduced, stable sort by the integer columns of ORDER BY, limit; all decoded rows have one key set |
| Pipeline.QueryCorrect | client/client_main.cpp:223-245 | on rows that meet the conditions of plaintext execution, the same result is plaintext execution of the statement |
| Meaning.EvalMeans | client/client_main.cpp:194-221 | what plaintext evaluation makes of a predicate, form by form: integer columns and integers with each other, a string column with a literal on either side, AND, OR and NOT |
| ResultRows.ResultExactly | client/client_main.cpp:223-245 | plaintext execution over one table read off the statement: exactly the stored rows that satisfy WHERE, each once, under exactly the names asked for - those listed, or every column for SELECT *, and the ORDER BY names - with the stored values; ordered column by column, ties as stored, and cut at LIMIT |
| JoinExecution.WhereUsesJoinedTable | execution/query_executor.cpp:62-69 | true iff some column node starts with the joined alias and a dot |
| JoinExecution.ExecuteJoin | execution/query_executor.cpp:27-135 | succeeds iff the keys are qualified left table first, the filter rebuilds and every chunk has one row and its columns; so success means that every chunk of the main table, and unless that is empty of the joined one, has exactly one row and holds its table's columns; then there is one batch of one row a pair, left-major and numbered consecutively |
| JoinExecution.PairsAt | execution/query_executor.cpp:70-81 | there are L times R pairs and position a * /R/ + b holds left row a with right row b |
| JoinColumns.HoistingSound | execution/query_executor.cpp:74-99 | for every filter: multiplying in the mask computed once on the left columns equals the mask of key test AND filter evaluated on the whole pair |
| JoinResult.JoinedUseSeen | execution/query_executor.cpp:62-69 | for filters over qualified integer columns, of any shape, the test on column nodes finds every use of the joined table |
| JoinResult.JoinExecutable | execution/query_executor.cpp:70-133 | a planned join over tables stored one row a chunk never lacks a column |
| JoinResult.JoinCorrect | execution/query_executor.cpp:70-133 | join refinement, whatever the integers: the L times R batches have consecutive ids and decode to the left-major sequence of all pairs, filtered by key equality and WHERE and projected, modulo p |
| JoinMeaning.PairsArePlainJoin | execution/query_executor.cpp:70-133 | that sequence is what nested loops over the statement's tables collect, with names resolved by the statement's aliases |
| JoinPipeline.ScanCheckExact | planner/planner.cpp:81-119 | the validator's scan check passes iff every WHERE column, of either table, is by its bare name a column of the main table, and so are the projected names the plan attributes to it |
| JoinPipeline.JoinedOnlyWhereRejected | query/query_validator.cpp:21-26 | so a WHERE on a column that only the joined table has is rejected on every server |
| JoinPipeline.JoinAcceptedByServer | query/query_validator.cpp:11-56 | the validator accepts every planned join that passes the scan check, whatever the shape of its filter |
| JoinWellTyped.AcceptedJoins | semantic/semantic.cpp:10-79 | an accepted join of the right shape whose WHERE passes the scan check is planned and encrypted as the join theorems ask |
| JoinWellTyped.JoinPreparedExactly | query/query_encryptor.cpp:71-101 | an accepted join of two plainly named tables under different aliases is planned and encrypted iff every projected or ordering name is qualified or a column of the main table, no bare string literal stands for a truth value, and string comparisons are on columns whose bare names the main table has |
| JoinExecutability.JoinRunsExactly | execution/query_executor.cpp:27-135 | over stored tables with rows, such a join is prepared, accepted and executed iff those names are found, ON names the main table first and on an integer column, and WHERE holds no string literal and only qualified integer columns whose bare names the main table has |
| JoinExecutability.LargerChunksFail | execution/query_executor.cpp:70-92 | a join over a table with a chunk of any other size than one row does not run, whatever the statement |
| JoinPipeline.ZpJoinCorrect | client/client_main.cpp:249-346 | whole-query refinement for joins with no range condition: accepted, executed, and the decoded batches, sorted and limited, are the join modulo p |
| JoinPipeline.JoinQueryCorrect | client/client_main.cpp:249-346 | on pairs that meet the conditions of plaintext execution, that is the join read off the statement: nested loops over the rows of its tables, ON and WHERE, projection, sort and limit |
| ResultRows.JoinExactly | client/client_main.cpp:249-346 | the plaintext join read off the statement: for each left row in turn exactly the right rows in turn with which ON and WHERE hold, each pair once, under exactly the names asked for, with the values of the row each name belongs to; ordered and cut as for one table |
| Client.HandleQuery | server/server_main.cpp:95-121 | validates, then executes: answers iff the package is accepted and executable, and refuses every package that is not accepted |
| Client.Finish | client/client_main.cpp:321-331 | decodes all batches, then sorts and limits |
| Client.Prepare | client/client_main.cpp:264-286 | yields a package iff the statement is accepted and encryptable, never for one that the analyzer rejects; planning an accepted statement never fails |
| Client.SendQuery | client/client_main.cpp:303-313 | a package sent over a fresh connection: batches that the client receives are the server's, and an error is, even when the connection fails part-way; when it does not fail they arrive, however the stream fragments |
| Client.ExecuteQuery | client/client_main.cpp:249-346 | SQL text in, rows out, over the connection: for every text the two refinements cover, the rows are exactly plaintext execution, for every chunking and for joins; a connection that fails can only replace them by its error |
| Parser.SQLParser.SkipWS | parser/parser.cpp:39-42 | moves past exactly the leading white space |
| Parser.SQLParser.TryKeyword | parser/parser.cpp:112-121 | matches the next word in any case; a failed attempt leaves the cursor just past white space |
| Parser.SQLParser.ConsumeIdent | parser/parser.cpp:56-64 | reads the maximal identifier, or fails where none starts |
| Parser.SQLParser.ConsumeQualifiedIdent | parser/parser.cpp:66-74 | reads one identifier or two joined by a dot, white space allowed around it |
| Parser.SQLParser.ConsumeInt | parser/parser.cpp:76-86 | reads the signed decimal value of the maximal digit run, and overflows iff its magnitude exceeds 2^63 - 1 |
| Parser.SQLParser.ConsumeString | parser/parser.cpp:88-110 | reads up to the closing quote, undoing quote doubling, and rejects non-ASCII characters |
| Parser.SQLParser.ParseTableRef | parser/parser.cpp:171-193 | reads the table and its alias, putting the cursor back when the next word is reserved |
| Parser.SQLParser.ParseProjectionList | parser/parser.cpp:195-210 | reads * or a comma-separated list of names |
| Parser.SQLParser.ParseOrderByList | parser/parser.cpp:212-242 | reads ORDER BY items with their directions, ASC included (AscWritten.AscRead) |
| Parser.SQLParser.ParseSelect | parser/parser.cpp:135-169 | reads a statement clause by clause |
| Parser.SQLParser.ParseOr | parser/parser.cpp:246-253 | reads OR operands, folded to the left; terminates on every input and never leaves the text |
| Parser.SQLParser.ParseAnd | parser/parser.cpp:255-262 | reads AND operands, folded to the left |
| Parser.SQLParser.ParseNot | parser/parser.cpp:264-268 | reads any number of NOTs |
| Parser.SQLParser.ParseComparison | parser/parser.cpp:270-294 | reads one operand, or two with the operator between them |
| Parser.SQLParser.ParsePrimary | parser/parser.cpp:296-318 | reads a parenthesised expression, an integer, a string or a name, and consumes at least one character |
| Parser.SQLParser.Parse | parser/parser.cpp:25-37 | accepts exactly the texts that StatementFormsFound.ParsesExactly describes, with their statements |
| ExprFormsRead.WholeReads | parser/parser.cpp:244-318 | every written form of an expression, in front of text that does not continue it, is read as the tree it stands for |
| ExprFormsFound.OrFound | parser/parser.cpp:244-318 | whatever is read as an expression is a written form of the tree returned, up to where the text stops continuing it |
| StatementFormsRead.FormReads | parser/parser.cpp:25-242 | every written form of a statement - keywords in any letter case, any blanks, INNER, AS, ASC and the semicolon written or left out, leading zeros, redundant parentheses - is read as the statement it stands for |
| StatementFormsFound.ParsesExactly | parser/parser.cpp:25-318 | a text is parsed as a statement iff it is a written form that stands for it; so no other text is accepted, and none as anything else |
| AscWritten.AscRead | parser/parser.cpp:221-222 | every ORDER BY item with ASC after it, in any letter case and before whatever cannot extend the word, is read as ascending and ASC is consumed |
| AscWritten.AscChangesNothing | parser/parser.cpp:212-242 | whenever a printed statement is read back, it is also with ASC, in any letter case, after any of its ascending columns |
| Lexer.IntRead | parser/parser.cpp:76-86 | a printed integer reads back as itself iff its magnitude is at most 2^63 - 1, so INT64_MIN is printed but not readable |
| Lexer.QuotedRead | parser/parser.cpp:88-110 | reading undoes quote doubling for every ASCII string not followed by a quote |
| Lexer.NameRead | parser/parser.cpp:66-74 | a name reads back as itself when what follows neither continues it nor starts with a dot |
| Printer.Print | ast/ast.cpp:43-76 | the loops print the clauses in order, with the alias and the direction omitted where they are defaults |
| RoundTrip.OrReads | ast/ast.cpp:22-41 | every readable tree, followed by any text that cannot extend it, reads back as itself and the cursor stops at its end, past white space |
| ParserOutput.OrOutput | parser/parser.cpp:244-318 | whatever the text: a tree the parser returns is lexical, and it consumed two quotes a string literal and two an embedded quote |
| ShapeNeeded.WholeOf | ast/ast.cpp:22-41 | the printed text of a tree with a comparison or a negation as an operand of a comparison is never read as that tree: the parser fails, gets stuck in front of the second operator, or reads another tree |
| ShapeNeeded.ExpressionRoundTrip | ast/ast.cpp:22-41 | the expression round trip holds iff names, integers and characters are lexical, no string literal embeds a quote, and no comparison has a comparison or a negation as an operand |
| SqlRoundTrip.StatementOutput | parser/parser.cpp:25-37 | whatever the text: a statement the parser returns is lexical and accounts for every quote of the text |
| SqlRoundTrip.StatementRoundTrips | ast/ast.cpp:43-76 | parsing the printed statement gives it back, joins, aliases, ORDER BY and LIMIT included, iff it is lexical, no string literal embeds a quote, and no comparison has a comparison or a negation as an operand |
| SqlRoundTrip.ReparseParsed | ast/ast.cpp:43-76 | for every text the parser accepts, printing and parsing again is the identity iff no string literal embedded a quote and no comparison had a parenthesised comparison or a negation as an operand |
| AcceptedTexts.UnshapedAccepted | parser/parser.cpp:270-318 | the parser accepts every readable expression, in parentheses, as the left operand of a comparison; printed, the statement is read back iff that expression is not a comparison or a negation |
| AcceptedTexts.QuotedLiteral | ast/ast.cpp:26-27 | the parser accepts every ASCII text as a literal, quotes doubled; printed, the statement is read back iff the text has no quote |
| SqlRoundTrip.ImplicitAlias | parser/parser.cpp:180-190 | the word after a table name becomes its alias iff it is not one of the reserved words as written |
| SqlRoundTrip.LowerCaseWhere | parser/parser.cpp:182-184 | a lower-case where is a keyword elsewhere but becomes the alias here |
| WellTyped.AcceptedShaped | semantic/semantic.cpp:135-139 | every predicate the analyzer accepts has the shape the round trip asks for |
| Terminal.HasStatementTerminator | client/client_main.cpp:348-359 | true iff the number of quotes is even and there is a semicolon |
| Terminal.AcceptedTextIsComplete | client/client_main.cpp:348-359 | a text the parser accepts is never held back as ending inside a string |
| Transport.WriteBytes | transport/transport.cpp:48-55 | however writes are split, success means that exactly the data was appended, and failure that a prefix of it was |
| Transport.ReadBytes | transport/transport.cpp:57-64 | however reads are split, success means that exactly the next bytes were taken |
| Transport.U32RoundTrip | transport/transport.cpp:25-46 | big-endian encoding and decoding undo each other, in both directions |
| Transport.FrameLayout | transport/transport.cpp:25-72 | on the wire a frame is its type and the low 32 bits of its payload length, both most significant byte first, and then the payload |
| Transport.SendFrame | transport/transport.cpp:66-72 | writes type, length and payload, or a prefix of them when the stream fails |
| Transport.ReceiveFrame | transport/transport.cpp:74-81 | takes exactly one frame off the stream |
| Transport.FrameRoundTrip | transport/transport.cpp:66-81 | a frame reads back, with what follows untouched, iff its payload is shorter than 2^32 bytes |
| Transport.BatchesReceived | transport/transport.cpp:162-168 | the client takes all batches off the stream with nothing left over iff their number is below 2^32 |
| Transport.BatchesExactly | transport/transport.cpp:162-168 | the client reads n batches iff n frames follow and all of them are batch frames, and takes their payloads in order |
| Transport.HandleClient | transport/transport.cpp:232-285 | answers a frame of another kind with an error frame, a failing handler with an error frame, and otherwise writes the header followed by every batch in order; on a stream that fails, a prefix of that |
| Transport.ReceiveAnswer | transport/transport.cpp:138-171 | reads an error, a refusal, or the header and as many batches as it announces; whatever it returns was on the stream in full, also when the stream fails |
| Transport.Session | transport/transport.cpp:127-285 | over any connection, batches or an error that the client receives are the handler's; over one that does not fail they arrive, for any fragmentation, in order and with nothing left over |

## Left out

- The encryption scheme itself: noise, key material, ring parameters and the centred
  representation of residues above (p-1)/2; the slot semantics is ideal.
- One stored chunk has one ciphertext a physical column, as the executor reads
  `ciphertexts[0]` only; wider chunks are not modelled.
- Storage layout, partitions and ingestion: a table is a list of chunks. In the join the
  program reads the key of a chunk under its own partition but all other columns under
  partition 0; the model has one partition.
- Serialisation of packages, headers and batches: any pair of functions where decoding
  undoes encoding.
- The protocol fields that no modelled code reads: query, shard and partition ids, the
  schema version, the logical sizes of ciphertexts.
- Sockets, name resolution, the accept loop, timing, printing of result tables, and the
  command line.
- Client and server run one after the other over unbounded buffers in `Session` and
  `SendQuery`; blocking and back-pressure are not modelled.
- ExecuteQuery: promises rows only when the package and the batches fit the 32-bit length
  and count fields; a longer payload is cut (`Transport.FrameRoundTrip`). When a connection
  fails is not modelled: a reliable one never does, any other one at any moment.
- Result columns added for ORDER BY are decoded and kept in the rows; hiding them when
  printing is not modelled.
- JoinQueryCorrect: for exactly one join with distinct, dot-free aliases, boolean-shaped
  predicates, one row a chunk, and the conditions under which joins run
  (`JoinExecutability.JoinRunsExactly`). Further joins are dropped by the planner.
- RunsExactly: for a table with plain column names and at least one stored chunk, and a
  predicate that, if encrypted, fits 32-bit indices and the server's stack.
- JoinRunsExactly: for one join of two tables with rows, under aliases that differ, are not
  empty and have no dot, with distinct plain column names, and such a predicate; a table
  joined with itself under one alias is not covered.
- QueryCorrect: for predicates that are boolean-shaped and unqualified, with columns of
  non-empty undotted names and string widths above zero, on rows whose compared integers
  are close enough for their operator (`Plain.CloseEnough`), with the projected integers of
  kept rows in [0,p) and their strings ASCII without NUL; for other integers
  `Pipeline.ZpQueryCorrect` says what the result is instead.
- CompiledDepth: counts multiplications of repeated squaring for the power, one each for
  AND and OR, none for sums and NOT; the library's own circuit for the power is not
  part of this model.
- Confidentiality and key separation, which are not functional properties.
