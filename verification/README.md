# Verified model of the MotherDuck Terraform provider

This project models the logic that lies between Terraform and MotherDuck in the
provider: the scanners and parsers of SQL text, the paging push-down and row
ordering of data sources, the SQL session protocol, the convergence of updates,
and the paged searches of the REST and SQL clients. `dafny verify
dfyconfig.toml` checks all of it.

## Reading the project

| file | what it models |
|---|---|
| `wrappers.dfy`, `machine_int.dfy`, `text.dfy`, `tf.dfy` | optional values and errors, 64-bit integers, Go string functions and case mapping, Terraform values and nullable columns |
| `sqlbuild.dfy` | the SQL quoting printers |
| `statements.dfy`, `mutation_target.dfy` | the statement splitter, tokenizer and target finder of `mdexec` |
| `lexing.dfy`, `statement_walk.dfy` | a rune-by-rune walk over SQL text that does not use the splitter, and what the splitter does in its terms |
| `column_types.dfy`, `column_type_printing.dfy` | the parser of DuckDB type names, and the round trip with a printer |
| `type_syntax.dfy`, `view_definition.dfy` | the syntax check of column types and its splice; the query of a view definition |
| `ordering.dfy`, `row_order.dfy`, `row_order_limits.dfy`, `row_order_meaning.dfy` | sorted arrangements; the value comparison and the sort of data source rows; when the server's order shows; the order written out without the comparison |
| `paging.dfy` | LIMIT and OFFSET between a server and SQL |
| `interval.dfy` | the printer of DuckDB intervals and the reader of day counts |
| `boot.dfy`, `sql_session.dfy` | the resumed boot sequence, the admission slot, the row handle, the `USE` scope |
| `dive_urls.dfy`, `dive.dfy`, `dive_convergence.dfy`, `dive_runs.dfy` | the three-write update of a Dive, its read-back, and runs with failures |
| `iceberg.dfy`, `iceberg_runs.dfy`, `iceberg_meaning.dfy` | Iceberg options: rendering, what a database has after any run, and the same field by field |
| `flight.dfy`, `flight_convergence.dfy` | the update arguments of a Flight and their read-back |
| `pages.dfy`, `flight_runs.dfy` | cursor pagination, deduplication in place, and the bounded search for a run |

Each operation that the source writes as a loop or as a method on an object is a
Dafny method, proved equal to a function of its inputs or of the old state. The
properties are lemmas about those functions, stated in terms that do not use them: a walk
over the runes, a grammar, the fields of a block, the neighbours in a result. Text is a sequence of Unicode scalar
values; every delimiter of the scanners is ASCII, so positions between runes and
between bytes correspond. Machine integers are unbounded with their ranges and
wrap-around written out where the code adds, negates or converts. The outside world
is a parameter: a server oracle, a fetch function, or a record of which steps
succeed.

## Where a plausible property is false

- *The value comparison of rows is a total preorder.* Not when a JSON number has an
  exponent that `math/big` cannot read: such a number compares as text and three
  numbers can form a circle (`RowOrder.CircleOfNumbers`). `RowOrder.TotalPreorderIffConsistent`
  says exactly when it is one, and it always is when every number can be read.
- *Sorted rows are shown in the same order whatever order the server returned.* True
  exactly if the comparison of rows is a total preorder on them
  (`RowOrderLimits.OrderOfServerDoesNotMatterIff`). Rows with 9, 10 and
  1e99999999999999999999 in the sort column are left as they are in two different orders
  (`RowOrderLimits.CircleDependsOnServerOrder`).
- *Numbers sort before strings*, as the comment at
  `internal/datasources/rows_datasource.go:290-291` says. The code compares JSON text
  across kinds and a quote is a smaller byte than a digit, so strings come first
  (`RowOrder.KindsComeInOrder`). The model follows the code.
- *Mount URLs compare by an equivalence relation.* Reflexive and symmetric, but not
  transitive: folding takes U+017F for an `s` and U+03C2 for a sigma, lower case does
  not (`DiveUrls.NotTransitive`), and lower case takes U+0130 for an `i`, which folding
  does not (`DiveUrls.DottedIParts`). Through arbitrary URLs it is transitive from
  exactly those that are not share URLs up to folding (`DiveUrls.TransitiveIffNoShare`).
  Through spellings whose runes have the same lower case and folding it is transitive
  from exactly the settled URLs (`DiveUrls.StableIffSettled`), and those that consist of
  such runes themselves are always among them (`DiveUrls.PlainIsSettled`).
- *After a failed Dive write the next update repeats exactly the failed write and the
  later ones.* A failed content write is repeated if and only if the server's version
  really differs from the configuration (`DiveConvergence.FailedContentWrite`), however
  often the state is refreshed in between. A
  change of the case of an alias, of `null` against an empty list, or of `null`
  against an empty version description is not one, and is lost without a diagnostic
  on the next plan (`DiveConvergence.AliasCaseChangeIsLost`).
- *A content version is never appended twice.* With working read-backs this holds in all
  runs of a configuration exactly if its mount URLs are settled (`DiveRuns.AtMostOneVersion`).
  With any other URL a server that respells it gets the version twice
  (`DiveRuns.UnsettledUrlAppendsTwice`). When a read-back fails after the write, the
  version is written again exactly if the configuration differs from the recorded state
  in spelling alone somewhere (`DiveRuns.RepeatsAfterLostReadBackIff`): a recorded mount is
  read in the place of a configured one and does not compare equal to it. Between plain
  URLs that is an alias in another case (`DiveRuns.PlainMountsAreMisreadIffRecased`,
  `DiveRuns.LostReadBackRepeatsTheVersion`); in general it can be a URL
  (`DiveRuns.UrlIsMisread`).
- *After a successful Dive update the next plan writes nothing.* It writes the content
  exactly if the update did not and the server's version differs from the configuration
  (`DiveConvergence.SuccessfulUpdateConverges`). That happens when the recorded URL is
  equivalent to both the configured and the live one and those are not to each other, as
  with `md:_share/ſ` configured, `md:_share/s` recorded and `md:_share/a/s` live
  (`DiveConvergence.SuccessThatLeavesContentPending`). With settled URLs in
  the configuration and plain ones in the state and on the server nothing is left to write
  (`DiveConvergence.SuccessWithSettledUrlsConverges`).
- *Iceberg options are always those of the latest configuration.* True while the block
  stays managed, with failing ALTERs and failing reads
  (`IcebergRuns.LatestConfigurationIsInEffect`), as long as the database is listed after
  an ALTER. If it is not, the plan is not recorded. After any number of such applies the
  next one in place reaches its configuration exactly if none of them wanted something
  else of an option on which it agrees with the record (`IcebergRuns.LostReadBackIff`,
  `IcebergRuns.LostRegionStays`); a replacement always does
  (`IcebergRuns.ReplacementReachesThePlan`). Adopting a database puts the configuration into
  effect exactly under the condition of `IcebergRuns.AdoptionIff`
  (`IcebergRuns.AdoptedRegionStays`).
- *A view definition always yields its query.* Without a final semicolon this needs a
  query that is not blank and does not end in a semicolon (`ViewDefinition.ViewRoundTrip`,
  `ViewDefinition.QueryThatDoesNotComeBack`).
- *`intervalDays` reads every interval of days only, and nothing else.* The days come back
  if and only if there are no months, and there are days or the clock is at least zero and
  below one second (`Interval.IntervalDaysInverts`). So half a second reads as zero days and
  `3 days 01:00:00` as three (`Interval.DaysThatDoNotComeBack`).
- *The search for a Flight run finds every run among the newest 1,000.* Not when the
  newest run has an empty ID, which equals the initial value of the repeated-page
  guard (`FlightRuns.FoundIffAmongNewest`, `FlightRuns.EmptyIdHidesTheListing`).
- *`WithDatabaseUse` leaves the pooled connection in its database or drops it.* True for
  every callback and every failure exactly if the database named is not blank
  (`SqlSession.EntryIsKeptIffNotBlank`): a blank one opens no scope
  (`SqlSession.BlankScopeCanLeak`).
- *The pushed limit stays between one and the server's window.* Without an offset the
  limit is not compared with the window, and with one the sum may wrap around to a
  negative limit that passes the comparison (`Paging.UncappedLimitsLeaveTheRange`);
  `Paging.PushedLimitInRangeIff` is the exact condition. Every caller caps both attributes
  (`internal/datasources/rows_datasource.go:471-475`), so such values reach the function
  only past the validators, and `Paging.WindowedPagingBounds` holds for all others.

## Model

| member | source | states |
|---|---|---|
| SqlBuild.UndoubleDouble | internal/sqlbuild/sqlbuild.go:10-24 | doubling the quotes of any text can be undone |
| SqlBuild.QuotedTailOfDouble | internal/sqlbuild/sqlbuild.go:10-24 | the quoted run of a printed value ends exactly at its last quote, whatever the value holds |
| SqlBuild.ReadQuotedOfDouble | internal/sqlbuild/sqlbuild.go:10-24 | reading a quoted value gives the value and the text behind it |
| SqlBuild.DoubleOfReadQuoted | internal/sqlbuild/sqlbuild.go:10-24 | what was read prints back as the same text |
| Statements.StartsDollarQuote | internal/dev/mdexec/main.go:383-389 | a dollar quote opens exactly where an identifier tag and a second dollar follow |
| Statements.SkipQuoted | internal/dev/mdexec/main.go:397-410 | the index past the closing quote, doubled quotes staying inside |
| Statements.SkipLineComment | internal/dev/mdexec/main.go:341-345 | the comment ends at its line feed or at the end |
| Statements.SkipBlockComment | internal/dev/mdexec/main.go:346-363 | the end of a block comment, or the error for a nested or an open one |
| Statements.Classify | internal/dev/mdexec/main.go:325-370 | the branch that the loop takes at a rune |
| Statements.SplitStatements | internal/dev/mdexec/main.go:321-379 | the loop computes the statements that the scan of the whole text defines |
| StatementWalk.SplitFollowsTheWalk | internal/dev/mdexec/main.go:316-379 | for every text: it fails with an error if and only if that is the first fault of the walk, and otherwise returns what the walk shows between the semicolons outside quotes and comments |
| StatementWalk.StatementsArePlain | internal/dev/mdexec/main.go:316-379 | no returned statement holds a semicolon, comment, dollar quote or escape string where the walk is outside quotes |
| StatementWalk.SplitFixpoint | internal/dev/mdexec/main.go:321-379 | a text splits into itself alone if and only if it is non-empty, trimmed and plain along the walk |
| StatementWalk.SplitIdempotent | internal/dev/mdexec/main.go:321-379 | every returned statement splits again, without error, into exactly itself |
| StatementWalk.SplitOfJoin | internal/dev/mdexec/main.go:321-379 | plain statements that close their quotes, joined by semicolons, split back into the same list |
| StatementWalk.QuotedIsOpaque | internal/dev/mdexec/main.go:337-340 | a printed value between plain texts leaves them plain, whatever runes it holds |
| StatementWalk.ValueStaysInStatement | internal/dev/mdexec/main.go:337-340 | a statement around a printed identifier or literal splits into itself, whatever the value holds |
| StatementWalk.LiteralIsOneStatement | internal/dev/mdexec/main.go:337-340 | a SELECT of any string literal is one statement |
| StatementWalk.CommentReadsAsBlank | internal/dev/mdexec/main.go:341-363 | outside quotes a comment reads as one blank and never starts anything new |
| MutationTarget.NextLexeme | internal/dev/mdexec/main.go:414-446 | one step of the tokenizer |
| MutationTarget.Tokenize | internal/dev/mdexec/main.go:414-446 | the loop collects the tokens that the steps define |
| MutationTarget.TokensOfIdentifier | internal/dev/mdexec/main.go:414-446 | a quoted identifier is one quoted token with the name as its text |
| MutationTarget.TokensOfLiteral | internal/dev/mdexec/main.go:414-446 | a string literal is one literal token with the value as its text |
| MutationTarget.TokensOfPrint | internal/dev/mdexec/main.go:414-446 | any list of words, quoted texts and punctuation that is printed comes back token by token |
| MutationTarget.TokensOfQualified | internal/dev/mdexec/main.go:414-446 | a printed qualified name comes back part by part |
| MutationTarget.FindMutationTarget | internal/dev/mdexec/main.go:234-293 | the cursor computes the target of every token list |
| MutationTarget.TargetBehindHeader | internal/dev/mdexec/main.go:234-293 | behind the longest of seven headers stands the name: a quoted identifier as it is, a bare one in lower case; a missing name, a literal and anything else is refused as such |
| MutationTarget.TargetWithoutHeader | internal/dev/mdexec/main.go:234-293 | exactly when the verb is refused, when the shape is, and when the target has to be given |
| MutationTarget.TargetIsAnIdentifier | internal/dev/mdexec/main.go:234-314 | the target is the text of an identifier token, never of a string literal |
| MutationTarget.PrintedDdlIsOneStatement | internal/dev/mdexec/main.go:321-379 | printed DROP, CREATE and ALTER are one statement whatever the names hold |
| MutationTarget.TargetOfPrintedDdl | internal/dev/mdexec/main.go:234-293 | the target of every printed DDL statement is the first part of its name |
| ColumnTypes.ColumnTypeNesting.Advance | internal/client/sql/column_type.go:101-114 | how one byte changes depth and quoting |
| ColumnTypes.WalkCounts | internal/client/sql/column_type.go:101-114 | the nesting after a text is its opening less its closing brackets outside quotes, and an odd number of quotes is inside |
| ColumnTypes.LastTopLevelIndex | internal/client/sql/column_type.go:118-133 | the loop computes the last top-level index |
| ColumnTypes.LastTopIsLast | internal/client/sql/column_type.go:116-133 | that index is the last bracket outside quotes and brackets, or there is none |
| ColumnTypes.SplitTopLevel | internal/client/sql/column_type.go:137-150 | the loop collects the trimmed pieces |
| ColumnTypes.SplitIsExact | internal/client/sql/column_type.go:135-150 | the pieces join to the text again and the cuts are exactly the top-level commas |
| ColumnTypes.ReadQuotedName | internal/client/sql/column_type.go:154-177 | the quoted field name with its doubled quotes undone, or none if it is not closed |
| ColumnTypes.SplitFieldName | internal/client/sql/column_type.go:154-177 | name and type text of a STRUCT or UNION part |
| ColumnTypes.ParseColumnType | internal/client/sql/column_type.go:59-99 | the parser ends on every text and computes the parse function |
| ColumnTypePrinting.PrintIsSolid | internal/client/sql/column_type.go:101-114 | a printed type closes its quotes and brackets and shows no top-level comma |
| ColumnTypePrinting.FieldPartsOfPrint | internal/client/sql/column_type.go:154-177 | a printed member gives back its name and type text, whatever characters the name holds |
| ColumnTypePrinting.MemberMapLookup | internal/client/sql/column_type.go:75-83 | with distinct names every member keeps its own type |
| ColumnTypePrinting.ParseOfPrint | internal/client/sql/column_type.go:59-99 | parsing undoes printing for every nested type |
| TypeSyntax.ColumnTypeSyntaxError | internal/resources/table_resource.go:417-469 | the loop computes the verdict, error by error |
| TypeSyntax.AcceptsExactlyTheGrammar | internal/resources/table_resource.go:417-469 | accepted texts are exactly the non-blank ones that the inductive grammar derives |
| TypeSyntax.VerdictIsFirstFault | internal/resources/table_resource.go:417-469 | for every text the verdict is its first fault: which error is reported, in terms of the quote and the brackets that are open at each position |
| TypeSyntax.AcceptedTypeIsFramed | internal/resources/table_resource.go:417-469 | under any open brackets an accepted type leaves them as they were |
| TypeSyntax.OuterBracketsUntouched | internal/resources/table_resource.go:417-469 | the scan never pops below the brackets that it opened itself |
| TypeSyntax.SpliceKeepsItsParentheses | internal/resources/table_resource.go:367-373 | the spliced CAST keeps its own parentheses |
| ViewDefinition.ViewDefinitionQueryStart | internal/resources/view_resource.go:285-321 | the loop finds the offset behind the first top-level AS |
| ViewDefinition.QueryStartIsFirstAs | internal/resources/view_resource.go:285-321 | in any text the offset is behind the first AS between spaces outside quotes and parentheses, or there is none |
| ViewDefinition.BareQueryComesBack | internal/resources/view_resource.go:272-281 | a text that does not create a view is the query, with or without a final semicolon |
| ViewDefinition.ViewQueryFromDefinition | internal/resources/view_resource.go:272-281 | the query of a definition, or the text when there is none |
| ViewDefinition.QueryStartOfText | internal/resources/view_resource.go:285-321 | the keyword is found right behind the header, whatever the names hold |
| ViewDefinition.ViewQueryOfText | internal/resources/view_resource.go:190-281 | what is read from a CREATE VIEW text with any body |
| ViewDefinition.ViewRoundTrip | internal/resources/view_resource.go:190-281 | the trimmed query comes back if and only if a semicolon ends the definition or the query needs none |
| ViewDefinition.QueryThatDoesNotComeBack | internal/resources/view_resource.go:190-281 | for every view, the queries that do not come back |
| ViewDefinition.SuchQueries | internal/resources/view_resource.go:272-281 | one query that ends in a semicolon of its own, and a blank one |
| Ordering.SortedArrangementsAgree | internal/datasources/rows_datasource.go:254-288 | two sorted arrangements of the same elements agree place by place up to ties |
| RowOrder.KindsComeInOrder | internal/datasources/rows_datasource.go:292-316 | null before strings before numbers before the other kinds |
| RowOrder.ComparisonIsAntisymmetric | internal/datasources/rows_datasource.go:292-330 | swapping the sides swaps the result |
| RowOrder.TotalPreorderIffConsistent | internal/datasources/rows_datasource.go:292-330 | exactly when the comparison is a total preorder on a set of values |
| RowOrder.TotalPreorderWhenAllRead | internal/datasources/rows_datasource.go:292-330 | it is one whenever every number has a reading |
| RowOrder.CircleOfNumbers | internal/datasources/rows_datasource.go:292-330 | three JSON numbers that the comparison puts in a circle |
| RowOrderMeaning.SortFollowsTheKeys | internal/datasources/rows_datasource.go:254-330 | the result has the same rows, and between neighbours the first key that tells them apart has the smaller value first, or the larger if it is descending; values go by null, number, text and JSON |
| RowOrderMeaning.InOrderIff | internal/datasources/rows_datasource.go:265-330 | two rows compare as not greater if and only if they are in that order |
| RowOrder.LessRows | internal/datasources/rows_datasource.go:265-281 | the first deciding key, ascending or descending, and then the JSON text |
| RowOrder.RowsAreTotallyPreordered | internal/datasources/rows_datasource.go:254-288 | rows are totally preordered under any keys, missing columns included |
| RowOrder.SortIsASortedPermutation | internal/datasources/rows_datasource.go:254-288 | the result is a sorted permutation |
| RowOrder.OrderOfServerDoesNotMatter | internal/datasources/rows_datasource.go:254-288 | for columns that sort, the shown JSON is the same for every server order and every sorting algorithm |
| RowOrderLimits.OrderOfServerDoesNotMatterIff | internal/datasources/rows_datasource.go:254-330 | the shown JSON is independent of the server's order if and only if the row comparison is a total preorder on the rows |
| RowOrderLimits.CircleDependsOnServerOrder | internal/datasources/rows_datasource.go:254-330 | three rows that two server orders show differently |
| RowOrder.StableSort | internal/datasources/rows_datasource.go:261-281 | the indexes are sorted in place |
| RowOrder.SortRowsByKeys | internal/datasources/rows_datasource.go:254-288 | indexes, sort and copy compute the sorted rows |
| Paging.WindowedPaging | internal/datasources/catalog_specs.go:707-730 | argument map and suffix follow the plan; a rejected window writes no argument |
| Paging.WindowedPagingRefinesPage | internal/datasources/catalog_specs.go:689-730 | native limit plus SQL suffix give the page of the whole listing, whatever order the server uses |
| Paging.WindowedPagingBounds | internal/datasources/catalog_specs.go:689-743 | no overflow, pushed limits in range, an error exactly for the windows that are refused, and the window passed on exactly when the server can read it |
| Paging.PushedLimitInRangeIff | internal/datasources/catalog_specs.go:689-730 | for all non-negative int64 values the pushed limit is between one and the window exactly under a stated condition, wrap-around included |
| Paging.UncappedLimitsLeaveTheRange | internal/datasources/catalog_specs.go:689-730 | a limit beyond the window and a sum that wraps around are both pushed |
| Paging.NativeListLimitBounds | internal/datasources/catalog_specs.go:646-658 | the native limit is limit plus offset plus one, pushed exactly when it fits |
| Paging.NativeListingIsExact | internal/datasources/catalog_specs.go:629-658 | the page over the limited listing is the page over the full one, for all int64 limits and offsets |
| Interval.ClockPart | internal/client/sql/client.go:601-622 | the clock text of any int64 count of microseconds |
| Interval.FormatInterval | internal/client/sql/client.go:580-627 | the parts that are joined |
| Interval.YearsAndMonths | internal/client/sql/client.go:588-597 | years and months share the sign, months stay below twelve, and both make up the total |
| Interval.ClockFields | internal/client/sql/client.go:610-622 | hours, minutes, seconds and fraction sum exactly to the magnitude |
| Interval.MagnitudeIsExact | internal/client/sql/client.go:602-609 | the uint64 magnitude is right for every int64, the smallest included |
| Interval.FormatIsLossless | internal/client/sql/client.go:580-627 | months, days and microseconds of every interval can be read back |
| Interval.UnitsPrintAs | internal/client/sql/client.go:582-601 | years, months and days print with their number, in the singular for one and minus one alone |
| Interval.PartsInOrder | internal/client/sql/client.go:588-626 | years, months, days and clock stand in this order, with a blank between the parts that are there |
| Interval.ClockEnds | internal/client/sql/client.go:610-622 | whole seconds end in two digits each for minutes and seconds, others in at most six digits of a fraction without a final zero |
| Interval.IntervalDaysOfFormat | internal/resources/database_resource.go:433-445 | what is read from every formatted interval |
| Interval.IntervalDaysInverts | internal/resources/database_resource.go:433-445 | the days come back if and only if there are no months and there are days, or a clock of at least zero and below one second |
| Interval.DaysThatDoNotComeBack | internal/resources/database_resource.go:433-445 | days behind months are lost, half a second reads as zero days, an hour behind three days is dropped |
| Boot.OneTimeInitializer.Run | internal/client/sql/client.go:91-138 | one connect changes state and log as the function says |
| Boot.OneTimeInitializer.RunBootQueries | internal/client/sql/client.go:105-128 | the loop sends the remaining queries and stops at the first failure |
| Boot.BootResumesExactly | internal/client/sql/client.go:82-138 | in every run of connects the completed queries are exactly the first `next`, in order, each once |
| Boot.RunsOnlyAdvance | internal/client/sql/client.go:91-138 | later connects never take back progress or the recorded database |
| Boot.CompletedQueriesAreNotResent | internal/client/sql/client.go:129-137 | a failed read of the default database repeats only that read |
| Boot.LaterConnectionsSelectTheDefault | internal/client/sql/client.go:96-104 | every later connection sends exactly one statement, which selects the recorded database |
| Boot.RunRetriesExactly | internal/client/sql/client.go:115-123 | in every run exactly the ATTACH queries that were reported as attached are retried, at once, with IF NOT EXISTS in their text, and no query that holds a NUL byte is sent |
| Boot.RetryCompletesTheQuery | internal/client/sql/client.go:115-123 | a retry that is done completes the query, and the boot goes on with the next |
| Boot.ConnectReportsInitialization | internal/client/sql/client.go:91-138 | a connect succeeds exactly if it leaves the database initialized, or could select its default |
| Boot.AnsweringServerInitializes | internal/client/sql/client.go:91-138 | a server that answers is initialized by one connect |
| SqlSession.AtMostOneAdmitted | internal/client/sql/client.go:277-292 | in every run at most one operation is admitted |
| SqlSession.AdmissionsAreReleasedOnce | internal/client/sql/client.go:204-292 | an admission is released exactly once, however often a row is scanned |
| SqlSession.ReleaseNeverBlocks | internal/client/sql/client.go:290-292 | the receive of a release always finds an element |
| SqlSession.AdmittedIffSlotIsFree | internal/client/sql/client.go:277-288 | a waiting operation can be admitted exactly when nobody holds the slot |
| SqlSession.Client.Acquire | internal/client/sql/client.go:277-288 | admitted exactly when the context is alive and the send is chosen |
| SqlSession.RowHandle.Scan | internal/client/sql/client.go:204-212 | the slot is returned on the first scan only |
| SqlSession.ScanTwice | internal/client/sql/client.go:202-212 | a second scan leaves another operation its slot |
| SqlSession.Client.TakeConn | internal/client/sql/client.go:336-342 | the idle connection, or a new one after the boot sequence |
| SqlSession.Client.WithDatabaseUse | internal/client/sql/client.go:323-377 | pool, boot state, slot and outcome after any failures or a panic, from an idle or an empty pool; the callback starts in its database |
| SqlSession.CallEndsExactly | internal/client/sql/client.go:323-377 | the call succeeds if and only if the connection opens, is readable and takes the USE, the callback succeeds and the database of entry is selected again; it panics if and only if the callback was reached and panics; all else is an error |
| SqlSession.ScopeRestoresOrDiscards | internal/client/sql/client.go:336-377 | the pooled connection has the database of entry or is gone, and exactly when it is kept |
| SqlSession.UseNamesTheDatabase | internal/client/sql/client.go:96-104 | the statement that selects a database is USE with its name quoted, and reads back as that name |
| SqlSession.UseIsSentIffNameHasNoNul | internal/client/sql/client.go:56-61 | a USE is sent exactly if the name holds no NUL byte |
| SqlSession.ScopesNeverLeak | internal/client/sql/client.go:323-377 | in every run of scopes the pooled connection is in the default database or gone |
| SqlSession.ReplacementSelectsTheDefault | internal/client/sql/client.go:96-104 | a replacement connection first selects the default database, or is not used |
| SqlSession.EntryIsKeptIffNotBlank | internal/client/sql/client.go:323-377 | the pooled connection keeps its database or is gone, whatever happens, exactly if the database named is not blank |
| SqlSession.BlankScopeCanLeak | internal/client/sql/client.go:327-331 | with a blank database a callback leaves another database selected |
| DiveUrls.EquivalentIsReflexive | internal/resources/dive_resource.go:879-890 | a URL is equivalent to itself |
| DiveUrls.EquivalentIsSymmetric | internal/resources/dive_resource.go:879-890 | equivalence does not depend on the order |
| DiveUrls.PlainUrlsCompareByTarget | internal/resources/dive_resource.go:875-890 | between URLs of runes with one lower case and folding, equivalent means the same target |
| DiveUrls.SharesCompareByToken | internal/resources/dive_resource.go:875-890 | two share URLs are the same exactly if their last segments are, whatever stands before them |
| DiveUrls.PlainUrlsAreTransitive | internal/resources/dive_resource.go:879-890 | and is then transitive |
| DiveUrls.NotTransitiveAt | internal/resources/dive_resource.go:879-890 | any two runes that fold alike and differ in lower case break transitivity |
| DiveUrls.NotTransitive | internal/resources/dive_resource.go:879-890 | three URLs with U+017F, and three with U+03C2, for which it is not transitive |
| DiveUrls.DottedIParts | internal/resources/dive_resource.go:879-890 | two URLs with the same target that are not equivalent |
| DiveUrls.TransitiveIffNoShare | internal/resources/dive_resource.go:879-890 | transitive from exactly the URLs that folding does not take for shares |
| DiveUrls.StableIffSettled | internal/resources/dive_resource.go:879-890 | the URLs that stay equivalent through every pair of plain spellings, exactly |
| DiveUrls.PlainIsSettled | internal/resources/dive_resource.go:879-890 | every plain URL is among them |
| Dive.DiveRequiredResourcesEqual | internal/resources/dive_resource.go:789-806 | mounts compare by alias and equivalent URL, place by place |
| Dive.DiveRequiredResourcesFromLive | internal/resources/dive_resource.go:834-873 | mounts read back keep the prior spelling where alias and target match |
| Dive.MountsOfImport | internal/resources/dive_resource.go:834-873 | mounts read without a prior value: the alias, or the name where there is none, and the stored URL |
| Dive.DiveMetadataArgs | internal/resources/dive_resource.go:570-595 | the metadata fields that are sent, and the failure to clear a description |
| Dive.DiveContentArgs | internal/resources/dive_resource.go:749-784 | when a version is written and what it carries |
| Dive.DiveResource.ReadDive | internal/resources/dive_resource.go:472-546 | the model after a read-back |
| Dive.DiveResource.KeepAppliedDiveUpdate | internal/resources/dive_resource.go:424-431 | the state takes the Dive as read back, or stays |
| Dive.DiveResource.Apply | internal/resources/dive_resource.go:353-416 | server, state and success for every combination of failures |
| Dive.ReadBackEqualIffMounted | internal/resources/dive_resource.go:789-873 | mounts read back over the configuration compare equal to it exactly if the server mounts them |
| DiveConvergence.NextIsPending | internal/resources/dive_resource.go:353-431 | after a read-back the next plan asks exactly for what the server lacks |
| DiveConvergence.PlannedOverFreshState | internal/resources/dive_resource.go:548-595 | metadata and status are planned exactly when the server lacks them |
| DiveConvergence.UpdateSucceedsIff | internal/resources/dive_resource.go:353-416 | an update succeeds exactly if all that it needs is offered and works and the Dive can be read; nothing is written before a function that is not offered |
| DiveConvergence.MetadataWriteSettles | internal/resources/dive_resource.go:570-595 | a metadata write leaves nothing of the metadata pending and touches nothing else |
| DiveConvergence.ContentWriteSettles | internal/resources/dive_resource.go:749-784 | a content write leaves nothing of the content pending |
| DiveConvergence.EqualMountsAreMounted | internal/resources/dive_resource.go:789-873 | mounts equal to the state are the server's, for settled URLs |
| DiveConvergence.ReadBackTwice | internal/resources/dive_resource.go:472-546 | a refresh leaves a state alone that was read back |
| DiveConvergence.FailedContentWrite | internal/resources/dive_resource.go:391-400 | after any number of refreshes the next update repeats a failed content write if and only if the server's version differs, and no earlier write |
| DiveConvergence.FailedStatusWrite | internal/resources/dive_resource.go:401-406 | after any number of refreshes the next update repeats a failed status write, never a content write that succeeded |
| DiveConvergence.FailedStatusWriteIsRetriedAlone | internal/resources/dive_resource.go:401-406 | with settled URLs nothing else is repeated |
| DiveConvergence.AliasCaseChangeIsLost | internal/resources/dive_resource.go:391-400 | a failed content write that only recases an alias is not repeated |
| DiveConvergence.AliasesThatDifferInCase | internal/resources/dive_resource.go:391-400 | such aliases, within ASCII and beyond |
| DiveConvergence.SuccessfulUpdateConverges | internal/resources/dive_resource.go:384-416 | after a success and any number of refreshes the next update writes the content if that was not written and the server's version differs, and nothing else |
| DiveConvergence.SuccessWithSettledUrlsConverges | internal/resources/dive_resource.go:384-416 | with settled URLs, over a plain state and a plain server, nothing is left to write |
| DiveConvergence.SuccessThatLeavesContentPending | internal/resources/dive_resource.go:384-416 | an update of the title that succeeds and leaves a content write to the next plan, for every such triple of URLs |
| DiveRuns.MountsSurviveRespellingIffSettled | internal/resources/dive_resource.go:834-890 | mounts survive every respelling of URLs exactly when their URLs are settled |
| DiveRuns.AtMostOneVersion | internal/resources/dive_resource.go:353-431 | the mount URLs of a configuration are settled if and only if every run of it with working read-backs appends at most one content version |
| DiveRuns.AtMostOneVersionOfSettledUrls | internal/resources/dive_resource.go:353-431 | with settled URLs at most one content version is appended, whatever writes fail and however the server respells them |
| DiveRuns.UnsettledUrlAppendsTwice | internal/resources/dive_resource.go:353-431 | for every other configuration, a run with working read-backs that appends two |
| DiveRuns.RepeatsAfterLostReadBackIff | internal/resources/dive_resource.go:418-431 | after a failed read-back a written version is written again exactly if configuration and state differ in spelling alone, for URLs of any kind |
| DiveRuns.PlainMountsAreMisreadIffRecased | internal/resources/dive_resource.go:789-890 | between plain URLs, spelling alone means the case of an alias |
| DiveRuns.UrlIsMisread | internal/resources/dive_resource.go:834-890 | a mount that differs in the spelling of its URL alone, beyond plain URLs |
| DiveRuns.LostReadBackRepeatsTheVersion | internal/resources/dive_resource.go:418-431 | such a version, for every recased alias |
| Iceberg.DatabaseIcebergCreateOptions | internal/resources/database_iceberg.go:269-297 | the loops render every configured option in table order |
| Iceberg.DatabaseIcebergAlterAssignments | internal/resources/database_iceberg.go:304-355 | the loops render the assignments in table order |
| IcebergRuns.CreateIsEffective | internal/resources/database_iceberg.go:269-297 | creation sets exactly the options in effect under the configuration |
| IcebergMeaning.CreateSetsTheBlock | internal/resources/database_iceberg.go:68-88 | after creation each of the sixteen options is that of its own field of the block |
| IcebergMeaning.AlterSetsTheBlock | internal/resources/database_iceberg.go:304-355 | after an ALTER each option is that of its field of the planned block, and the four that identify the catalog are those of the recorded one |
| IcebergMeaning.LatestBlockIsInEffect | internal/resources/database_iceberg.go:178-355 | after any run with failing ALTERs and reads each option is that of its field of the last block |
| IcebergMeaning.ReplacesIffIdentityChanges | internal/resources/database_iceberg.go:172-205 | a changed block replaces the database exactly if an option that identifies the catalog changes |
| IcebergRuns.AlterReachesThePlan | internal/resources/database_iceberg.go:304-355 | the assignments turn the prior options into the planned ones |
| IcebergRuns.AlterIsEmptyIffMutableOptionsAgree | internal/resources/database_iceberg.go:304-355 | nothing is sent exactly when the mutable options agree |
| IcebergRuns.AlterIsWellFormed | internal/resources/database_iceberg.go:304-355 | each option at most once, no identity option, no NULL for a required one, presence options only on |
| IcebergRuns.DatabaseResource.Update | internal/resources/database_resource.go:313-348 | options and recorded block after a failing ALTER, a read that fails and a database that is not listed |
| IcebergRuns.RunKeepsOptions | internal/resources/database_iceberg.go:178-355 | over every managed run, failing ALTERs and reads included, the database has the options of the recorded configuration, unless one was not listed after an ALTER |
| IcebergRuns.LatestConfigurationIsInEffect | internal/resources/database_iceberg.go:178-355 | after the last apply, however its read-back ends, they are those of its configuration, unset READ_ONLY counting as false |
| IcebergRuns.LostReadBackIff | internal/resources/database_resource.go:313-348 | when an apply in place reaches its configuration after any number of applies that were not recorded, exactly |
| IcebergRuns.ReplacementReachesThePlan | internal/resources/database_iceberg.go:172-297 | a replacement reaches its configuration from any state |
| IcebergRuns.LostRegionStays | internal/resources/database_resource.go:341-347 | a region that stays after it was applied, not listed and taken back |
| IcebergRuns.AdoptionIff | internal/resources/database_iceberg.go:299-311 | when adopting a database puts the configuration into effect, exactly |
| IcebergRuns.AdoptedRegionStays | internal/resources/database_iceberg.go:299-311 | a region that adoption leaves in place |
| Flight.AddOptionalStringUpdate | internal/resources/app_helpers.go:33-44 | an optional text is sent when it differs, with its clearing value for null |
| Flight.FlightUpdateArgs | internal/resources/flight_resource.go:495-543 | the fields that are sent, and the failure to clear the token |
| Flight.FlightResource.ReadFlight | internal/resources/flight_resource.go:260-300 | the model after a read-back |
| Flight.FlightResource.Update | internal/resources/flight_resource.go:193-234 | server, state and success; nothing is called when nothing is sent |
| FlightConvergence.ScheduleConverges | internal/resources/flight_resource.go:302-317 | null and "" cron in both directions, a cleared schedule does not run, and no clear is sent for a schedule that never existed |
| FlightConvergence.DisabledIff | internal/resources/flight_resource.go:315-317 | a status means no schedule exactly if it ends in DISABLED, in any case and with nothing but space behind it |
| FlightConvergence.UpdateConverges | internal/resources/flight_resource.go:193-348 | the server holds every configured attribute, the state equals the plan in them and the second update is empty |
| FlightConvergence.ReadBackMatchesIffHeld | internal/resources/flight_resource.go:260-348 | a read-back shows the configuration exactly if the server holds it, so no change made outside Terraform is missed |
| FlightConvergence.UpdateFailsIffTokenIsRemoved | internal/resources/flight_resource.go:193-234 | with a working server an apply reaches its configuration exactly if it does not drop a token that is recorded and still set, and otherwise changes nothing |
| FlightConvergence.NullAndEmptyCronAreOne | internal/resources/flight_resource.go:503-508 | a change between null and "" is not sent |
| FlightConvergence.ForeignScheduleIsCleared | internal/resources/flight_resource.go:302-313 | a schedule set outside Terraform is read and then cleared |
| FlightConvergence.RunConverges | internal/resources/flight_resource.go:193-348 | after any run an apply that goes through reaches its configuration |
| Pages.CollectPages | internal/client/rest/client.go:252-271 | ends, requests no cursor twice, and succeeds with all items exactly when the chain ends without failure or repetition |
| Pages.LoopDetectionIsExact | internal/client/rest/client.go:262-269 | on a listing that does not change, loop detection refuses nothing that could be read to its end |
| Pages.KeepFirsts | internal/client/rest/client.go:238-247 | the array is compacted in place to the first user of each ID |
| Pages.UniqueIsAtKept | internal/client/rest/client.go:238-247 | what is kept stands at ascending places of the listing |
| Pages.KeptIffFirst | internal/client/rest/client.go:238-247 | a place is kept exactly if no earlier user has the ID |
| Pages.UniqueHasEachIdOnce | internal/client/rest/client.go:238-247 | no ID twice and none lost |
| Pages.ListUsers | internal/client/rest/client.go:219-248 | all pages, deduplicated, exactly when the walk succeeds |
| FlightRuns.FlightRunResource.SearchPage | internal/resources/flight_run_resource.go:586-600 | one page: found, malformed, or whether an older run was seen |
| FlightRuns.FlightRunResource.FindFlightRunInListing | internal/resources/flight_run_resource.go:552-606 | the loop computes the search and sets the model only when it finds the run |
| FlightRuns.SearchStopsAt | internal/resources/flight_run_resource.go:552-606 | for any replies: the first page that is not full of newer runs ends the search, and a listing that fails or a run without a number before the target is an error, never an absent run |
| FlightRuns.FoundRunIsListed | internal/resources/flight_run_resource.go:552-606 | whatever the server replies, a run that is found was listed under that number |
| FlightRuns.NothingIsLeft | internal/resources/flight_run_resource.go:582-603 | past an older run or a short page the target is not listed |
| FlightRuns.FoundIffAmongNewest | internal/resources/flight_run_resource.go:552-606 | found if and only if among the newest 1,000 and the newest run has an ID |
| FlightRuns.FoundRowIsTheRun | internal/resources/flight_run_resource.go:523-606 | the row that is found is the one of that run |
| FlightRuns.EmptyIdHidesTheListing | internal/resources/flight_run_resource.go:556-585 | a listing whose newest run has an empty ID |

## Left out

- Text.EqualFold: the case table of Unicode is not listed. Every result holds for each table with the few properties of `Text.Lawful`; ASCII, the four runes that map into ASCII and four letters are fixed, and which rune stands for a folding class is free.
- RowOrder.StableSort: the library sort is modelled by insertion. Rows that tie have the same JSON text, so for sortable columns every sort shows the same result; with numbers that the comparison cannot order the result depends on the algorithm, and only its being a permutation carries over. `sort.SliceStable` is this insertion for up to 20 rows; beyond that the half of `RowOrderLimits.OrderOfServerDoesNotMatterIff` that names a failing order is about insertion alone.
- RowOrder.TotalPreorderIffConsistent: the reading of a number by `math/big` is part of the value, and `json.Marshal` is a text that starts as RFC 8259 says; neither is computed.
- Interval.IntervalDaysOfFormat: the scan of an integer reads decimal digits; the base prefixes and underscores that `fmt.Sscan` also accepts do not occur in formatted intervals.
- ColumnTypePrinting.ParseOfPrint: ENUM types, whose members are single-quoted, are outside the printed trees; the parser is still modelled on every text. Lookup of a field by another case is not modelled.
- SqlSession.Client.WithDatabaseUse: a client without a token refuses every operation and is not modelled; without a scope each statement takes and returns the slot on its own, which the pool does not show.
- SqlSession.ReleaseNeverBlocks: operations interleave at the steps where they take and return the slot; the methods of `Client` and `RowHandle` are tied to those steps one at a time.
- SqlSession.ScopesNeverLeak: other statements that change the current database are not part of the run; within a scope the callback may run any.
- Dive.DiveResource.Apply: the computed mount type, versions and timestamps are not in the model, URLs and aliases of mounts are never null, and a write that fails has not changed the server.
- DiveConvergence.NextIsPending: whether the framework marks computed values as unknown is a free choice rather than computed from the plan.
- DiveUrls.StableIffSettled: the spellings that the server changes between consist of runes with one lower case and folding; `DiveUrls.TransitiveIffNoShare` says what is left without that.
- Flight.FlightResource.Update: the removal of a run limit by a null plan does not arise, because the plan modifier keeps the prior value.
- IcebergRuns.RunKeepsOptions: a replacement is one step that succeeds; a create that fails leaves no database to speak of.
- Pages.CollectPages: the precondition is that the server has finitely many cursors; building request paths and decoding replies are parameters.
- The names and quoting of Iceberg options in CREATE and ALTER, and of argument lists in Dive and Flight calls: arguments are values here, and the printers that quote them are proved on their own.
- Creating Dives and Flights, and the warnings that keep a new Dive in state.
- Terraform schemas, validators of single values, diagnostics wording and import.
- HTTP, database/sql and the DuckDB driver: their outcomes are parameters. Errors are told apart by kind, not by message text.
- Guides, Ducklings, snapshots, secrets, roles and grants, which repeat the patterns above, and retries and delays.
- Member access of parsed column types and the conversion of row values by `normalizeTyped`.
