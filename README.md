# Wrangler units, workspace helpers and the ClickHouse flat-file ingestion app, in Dafny

This project models the logic of two applications that live in one repository.

**The CDAP Wrangler fork (Java)**
- The `ByteSize` and `TimeDuration` tokens of the directive grammar: unit parsing, conversion to bytes or milliseconds with Java `long` arithmetic, equality and hashing.
- The `aggregate-stats` directive. It takes the sum, average, minimum or maximum of the sizes or durations in one column and appends the result to every row.
- Version 2 workspace metadata: the `Workspace` object, its builder and the null-handling actions of a column.
- The helpers of the workspace handler:
  - the null checker that filters sample rows;
  - workspace naming from a path;
  - stripping of `#pragma load-directives`;
  - the `copyHeader` property added to source plugins.

**The ingestion backend (Spring, Java)**
- The flat-file service that turns CSV records into header lists, row maps and batches of 1000.
- The ingestion pipeline: projection of rows through a table mapping, and the status updates of `processIngestion`.
- The ingestion-status store.
- The table-mapping registry.
- The ClickHouse connection pool and its batch INSERT.
- The wrangler-side flat-file service: header columns, row counts, and writing and reading files line by line.

**The front end (React, JavaScript)**
- CSV export and status colours.
- Duration formatting.
- Input sanitising, HTML escaping, the file validators and the client-side rate limiter.
- The virtual scroller, memoisation, image URLs and the performance monitor.
- The handler logic of three screens, written as functions from state to state:
  - the job list of the ingestion status page;
  - the join editor;
  - the column picker.

**How the model is written**
- Code that changes objects in place is a `class` and its methods.
  - Examples are the status store, the mapping registry, the connection pool, the rate limiter, the scroller, the memoised function, the monitor, the `aggregate-stats` step and the workspace builder.
  - Each method states the object's whole new state.
- Pure code is functions and lemmas.
- Java's 32- and 64-bit wrap-around and `TimeUnit` saturation are written out in `JavaNum`.
- JavaScript truthiness, `String()` of values, `Array.prototype.join` and `slice` are written out in `Js`.
- Strings are `seq<char>`, and case mapping covers ASCII letters only.
- Throwing an exception is an `Err` result, and `null` is `None`.
- Four things the code reaches but that are not in this model become parameters:
  - clocks;
  - JDBC outcomes;
  - `JSON.stringify`;
  - the CSV parser's records.

## Model

| member | source | states |
|---|---|---|
| ByteSizeToken.UnitFactor | wrangler-api/src/main/java/io/cdap/wrangler/api/parser/ByteSize.java:81-96 | the factor of each unit, matched after upper-casing: 1 for B, 1024, 1024², 1024³ and 1024⁴ for KB, MB, GB and TB, and 1 for any other unit |
| ByteSizeToken.ToBytesIsScaled | wrangler-api/src/main/java/io/cdap/wrangler/api/parser/ByteSize.java:81-96 | the chain of 64-bit products in `toBytes` equals the value times the unit's factor, wrapped once to a Java `long` |
| ByteSizeToken.ToBytesExact | wrangler-api/src/main/java/io/cdap/wrangler/api/parser/ByteSize.java:81-96 | without overflow `toBytes` is exactly value times the factor; a unit other than KB, MB, GB, TB leaves the value unchanged |
| ByteSizeToken.ToBytesCaseInsensitive | wrangler-api/src/main/java/io/cdap/wrangler/api/parser/ByteSize.java:82 | the unit is compared after `toUpperCase`, so units that differ only in case convert alike |
| ByteSizeToken.UnknownUnitsUnconverted | wrangler-api/src/main/java/io/cdap/wrangler/api/parser/ByteSize.java:93-94 | an unknown unit such as PB, or an empty one, falls to the default branch and returns the value as bytes |
| ByteSizeToken.ValueIsBytes | wrangler-api/src/main/java/io/cdap/wrangler/api/parser/ByteSize.java:98-106 | `value()` is `toBytes()` and the token's type is BYTE_SIZE |
| ByteSizeToken.EqualityIsSyntactic | wrangler-api/src/main/java/io/cdap/wrangler/api/parser/ByteSize.java:123-138 | 1KB and 1024B hold the same bytes yet are unequal; KB and kb are unequal; the original text plays no part in equality or the hash |
| ByteSizeToken.HashConsistent | wrangler-api/src/main/java/io/cdap/wrangler/api/parser/ByteSize.java:123-138 | equal tokens hash over equal fields |
| ByteSizeToken.ToStringIsOriginal | wrangler-api/src/main/java/io/cdap/wrangler/api/parser/ByteSize.java:118-121 | `toString` prints the original text, so equal tokens can print differently |
| TimeDurationToken.ParseAccepts | wrangler-api/src/main/java/io/cdap/wrangler/api/parser/TimeDuration.java:57-72 | a unit parses exactly when its lower-case form is ms, s, m, h or d; otherwise the error names the unit |
| TimeDurationToken.NanosAndMicrosRejected | wrangler-api/src/main/java/io/cdap/wrangler/api/parser/TimeDuration.java:44-48 | the constructor rejects ns and us with "Unsupported time unit" |
| TimeDurationToken.ScaleSaturates | wrangler-api/src/main/java/io/cdap/wrangler/api/parser/TimeDuration.java:106-108 | the JDK's guarded multiplication inside `TimeUnit.toMillis` saturates at the `long` bounds instead of wrapping |
| TimeDurationToken.ToMillisScaled | wrangler-api/src/main/java/io/cdap/wrangler/api/parser/TimeDuration.java:106-108 | `toMillis` is the value times 1, 1000, 60000, 3600000 or 86400000, saturated, and exact when the product fits |
| TimeDurationToken.ValueIsMillis | wrangler-api/src/main/java/io/cdap/wrangler/api/parser/TimeDuration.java:110-118 | `value()` is `toMillis()` and the token's type is TIME_DURATION |
| TimeDurationToken.EqualityUsesParsedUnit | wrangler-api/src/main/java/io/cdap/wrangler/api/parser/TimeDuration.java:135-145 | 1S equals 1s because the parsed units are compared; 1000ms and 1s have the same length in milliseconds but are unequal |
| TimeDurationToken.HashConsistent | wrangler-api/src/main/java/io/cdap/wrangler/api/parser/TimeDuration.java:135-150 | equal tokens hash over equal fields |
| TimeDurationToken.ToStringIsOriginal | wrangler-api/src/main/java/io/cdap/wrangler/api/parser/TimeDuration.java:130-133 | `toString` prints the original text, which equality ignores |
| AggregateStatsStep.AggregateStats.constructor | wrangler-core/src/main/java/io/cdap/wrangler/steps/transformation/AggregateStats.java:48-51 | a new step has no column, operation or output column |
| AggregateStatsStep.AggregateStats.Configure | wrangler-core/src/main/java/io/cdap/wrangler/steps/transformation/AggregateStats.java:276-280 | column, operation and output column are read from the argument map, absent keys as null |
| AggregateStatsStep.AggregateStats.Execute | wrangler-core/src/main/java/io/cdap/wrangler/steps/transformation/AggregateStats.java:67-135 | null or empty input is returned at once; a missing column or operation is an error; the default output column `column_operation` is written back; a column without byte sizes or durations, and an unknown operation, are errors with the source's messages; otherwise every row gains the output column holding the one aggregate |
| AggregateStatsStep.FindValueType | wrangler-core/src/main/java/io/cdap/wrangler/steps/transformation/AggregateStats.java:90-102 | the loop stops at the first value that is a byte size or a time duration, and returns its kind |
| AggregateStatsStep.CalculateAggregate | wrangler-core/src/main/java/io/cdap/wrangler/steps/transformation/AggregateStats.java:110-126 | the lower-cased operation selects sum, avg, min or max |
| AggregateStatsStep.AddToEach | wrangler-core/src/main/java/io/cdap/wrangler/steps/transformation/AggregateStats.java:128-135 | the result has one row per input row, each the input row with the new field added |
| AggregateStatsStep.CalculateSum | wrangler-core/src/main/java/io/cdap/wrangler/steps/transformation/AggregateStats.java:138-158 | the loop's result is the `long`-wrapped total of the bytes or milliseconds of the values of the found kind, written in B or ms |
| AggregateStatsStep.CalculateAverage | wrangler-core/src/main/java/io/cdap/wrangler/steps/transformation/AggregateStats.java:161-194 | the wrapped total divided, truncating, by the number of values of the kind; 0B or 0ms when there are none |
| AggregateStatsStep.CalculateMin | wrangler-core/src/main/java/io/cdap/wrangler/steps/transformation/AggregateStats.java:196-229 | the result of the scan from `Long.MAX_VALUE`: the value object with the smallest magnitude, or 0B/0ms |
| AggregateStatsStep.CalculateMax | wrangler-core/src/main/java/io/cdap/wrangler/steps/transformation/AggregateStats.java:231-264 | the result of the scan from `Long.MIN_VALUE`: the value object with the largest magnitude, or 0B/0ms |
| AggregateStatsProperties.ValueKindIsFirst | wrangler-core/src/main/java/io/cdap/wrangler/steps/transformation/AggregateStats.java:90-102 | there is no kind exactly when no row's value is a byte size or a duration; otherwise the kind is that of the first such value |
| AggregateStatsProperties.CountPositive | wrangler-core/src/main/java/io/cdap/wrangler/steps/transformation/AggregateStats.java:165-171 | a value of the kind is counted, so the count is positive |
| AggregateStatsProperties.KindFoundIsCounted | wrangler-core/src/main/java/io/cdap/wrangler/steps/transformation/AggregateStats.java:161-173 | once a kind is found, the average divides by at least one, so the 0B/0ms fallback of the average never applies in `execute` |
| AggregateStatsProperties.TotalAppend | wrangler-core/src/main/java/io/cdap/wrangler/steps/transformation/AggregateStats.java:138-158 | totals and counts add up over a concatenation of row lists |
| AggregateStatsProperties.MinScanMeaning | wrangler-core/src/main/java/io/cdap/wrangler/steps/transformation/AggregateStats.java:196-229 | the running minimum is below every magnitude; the kept value is the first of the minimal magnitude; none is kept only while the minimum is still `Long.MAX_VALUE` |
| AggregateStatsProperties.MaxScanMeaning | wrangler-core/src/main/java/io/cdap/wrangler/steps/transformation/AggregateStats.java:231-264 | the same for the running maximum from `Long.MIN_VALUE` |
| AggregateStatsProperties.MinIsFirstSmallest | wrangler-core/src/main/java/io/cdap/wrangler/steps/transformation/AggregateStats.java:196-229 | with some magnitude below `Long.MAX_VALUE`, min returns the original value object of least magnitude, the first one on ties |
| AggregateStatsProperties.MaxIsFirstLargest | wrangler-core/src/main/java/io/cdap/wrangler/steps/transformation/AggregateStats.java:231-264 | with some magnitude above `Long.MIN_VALUE`, max returns the original value object of greatest magnitude, the first one on ties |
| AggregateStatsProperties.SentinelGivesZero | wrangler-core/src/main/java/io/cdap/wrangler/steps/transformation/AggregateStats.java:199-246 | when every magnitude equals the start sentinel, no value beats it and the result is 0B or 0ms |
| AggregateStatsProperties.MinOfLargestSizeIsZero | wrangler-core/src/main/java/io/cdap/wrangler/steps/transformation/AggregateStats.java:199-211 | a single size of `Long.MAX_VALUE` bytes has minimum 0B |
| AggregateStatsProperties.SumExample | wrangler-core/src/main/java/io/cdap/wrangler/steps/transformation/AggregateStats.java:138-147 | 1024B and 1KB sum to 2048B |
| AggregateStatsProperties.AverageExample | wrangler-core/src/main/java/io/cdap/wrangler/steps/transformation/AggregateStats.java:178-191 | the average of 1000ms and 1s is 1000ms |
| AggregateStatsProperties.MaxExample | wrangler-core/src/main/java/io/cdap/wrangler/steps/transformation/AggregateStats.java:231-246 | the maximum of 1024B, 1MB and 512KB is the 1MB object itself |
| DataTypeMapper.LookupFlat | clickhouse-flatfile-ingestion/frontend/src/utils/dataTypeMapper.js:4-60 | the fallback lookup never fails: its type is one of the table's logical types or `string`; it is `array` only for the name Array and `nullable` only for the name Nullable |
| DataTypeMapper.SliceOfWrapped | clickhouse-flatfile-ingestion/frontend/src/utils/dataTypeMapper.js:41-50 | `slice(k, -1)` of a wrapped name yields the text between the prefix and the closing parenthesis |
| DataTypeMapper.PlainName | clickhouse-flatfile-ingestion/frontend/src/utils/dataTypeMapper.js:38-60 | a name starting with neither Nullable( nor Array( carries no wrapper: its table entry, not nullable |
| DataTypeMapper.NullableUnwrapsOneLevel | clickhouse-flatfile-ingestion/frontend/src/utils/dataTypeMapper.js:40-47 | `Nullable(X)` reads as the mapping of X, marked nullable |
| DataTypeMapper.ArrayUnwrapsOneLevel | clickhouse-flatfile-ingestion/frontend/src/utils/dataTypeMapper.js:49-55 | `Array(X)` reads as an array whose element type is the mapping of X |
| DataTypeMapper.NestedWrapperFallsBack | clickhouse-flatfile-ingestion/frontend/src/utils/dataTypeMapper.js:40-47 | only one wrapper level is unwrapped: `Nullable(Array(String))` reads as a nullable `string` |
| DataTypeMapper.FlatRoundTrip | clickhouse-flatfile-ingestion/frontend/src/utils/dataTypeMapper.js:38-72 | integer, float, string, date and datetime survive a write to a ClickHouse type and a read back, nullable flag included |
| DataTypeMapper.FlatRoundTripOthers | clickhouse-flatfile-ingestion/frontend/src/utils/dataTypeMapper.js:38-72 | every other logical type comes back changed: boolean as integer, array as an array of strings (a nullable string when nullable), unknown names as string |
| DataTypeMapper.ConvertTypeRange | clickhouse-flatfile-ingestion/frontend/src/utils/dataTypeMapper.js:38-62 | every reading's type lies in the table's range or is the fallback; the conversion never fails |
| DataTypeMapper.NativeRoundTripCompatible | clickhouse-flatfile-ingestion/frontend/src/utils/dataTypeMapper.js:38-96 | read, write back and check compatibility succeeds exactly when the reading is neither the table's `nullable` entry nor a nullable array |
| DataTypeMapper.BareNullableFailsRoundTrip | clickhouse-flatfile-ingestion/frontend/src/utils/dataTypeMapper.js:38-96 | the bare name Nullable reads as type `nullable`, and its write-back is not compatible with it |
| DataTypeMapper.CompatibilityShape | clickhouse-flatfile-ingestion/frontend/src/utils/dataTypeMapper.js:75-96 | compatibility is reflexive, any target accepts a string source, numeric types accept each other, and there is a pair compatible one way only |
| DataTypeMapper.CompatibilityNotSymmetric | clickhouse-flatfile-ingestion/frontend/src/utils/dataTypeMapper.js:75-96 | String to Int32 is compatible, Int32 to String is not |
| DataTypeMapper.DefaultValueMatchesType | clickhouse-flatfile-ingestion/frontend/src/utils/dataTypeMapper.js:99-116 | a type has a non-null default exactly when the reverse table knows it: 0 for integer and float, "" for string, the `nowIso` parameter for date and datetime, false for boolean, [] for array |
| Workspaces.StringList.constructor | wrangler-proto/src/main/java/io/cdap/wrangler/proto/workspace/v2/Workspace.java:170 | a list object holding the given directives |
| Workspaces.NormaliseMappings | wrangler-proto/src/main/java/io/cdap/wrangler/proto/workspace/v2/Workspace.java:59-60 | the constructor's rule: null or empty column mappings become an empty map, other mappings are kept |
| Workspaces.Workspace.constructor | wrangler-proto/src/main/java/io/cdap/wrangler/proto/workspace/v2/Workspace.java:49-61 | every field is the argument, the directive list object itself (not a copy), and the mappings normalised |
| Workspaces.Workspace.SetColumnMappings | wrangler-proto/src/main/java/io/cdap/wrangler/proto/workspace/v2/Workspace.java:105-108 | the setter stores its argument unchanged, null included |
| Workspaces.Builder.constructor | wrangler-proto/src/main/java/io/cdap/wrangler/proto/workspace/v2/Workspace.java:167-172 | a builder with the name and id, a new empty directive list, zero timestamps, an empty insights object, no sample spec and no mappings |
| Workspaces.Builder.SetDirectives | wrangler-proto/src/main/java/io/cdap/wrangler/proto/workspace/v2/Workspace.java:174-178 | the builder's list is cleared and refilled with the source's contents; passing the builder's own list leaves it empty |
| Workspaces.Builder.SetCreatedTimeMillis | wrangler-proto/src/main/java/io/cdap/wrangler/proto/workspace/v2/Workspace.java:180-183 | sets the creation time and nothing else |
| Workspaces.Builder.SetUpdatedTimeMillis | wrangler-proto/src/main/java/io/cdap/wrangler/proto/workspace/v2/Workspace.java:185-188 | sets the update time and nothing else |
| Workspaces.Builder.SetSampleSpec | wrangler-proto/src/main/java/io/cdap/wrangler/proto/workspace/v2/Workspace.java:190-193 | sets the sample spec and nothing else |
| Workspaces.Builder.SetInsights | wrangler-proto/src/main/java/io/cdap/wrangler/proto/workspace/v2/Workspace.java:195-198 | sets the insights and nothing else |
| Workspaces.Builder.SetColumnMappings | wrangler-proto/src/main/java/io/cdap/wrangler/proto/workspace/v2/Workspace.java:200-203 | sets the column mappings and nothing else |
| Workspaces.Builder.Build | wrangler-proto/src/main/java/io/cdap/wrangler/proto/workspace/v2/Workspace.java:205-208 | a new workspace with the builder's fields, sharing the builder's directive list, mappings normalised |
| Workspaces.BuilderFrom | wrangler-proto/src/main/java/io/cdap/wrangler/proto/workspace/v2/Workspace.java:144-155 | `builder(existing)` copies every field and the directive contents into a fresh list |
| Workspaces.Rebuild | wrangler-proto/src/main/java/io/cdap/wrangler/proto/workspace/v2/Workspace.java:119-155 | `builder(existing).build()` equals `existing`, hashes alike and keeps timestamps, insights and non-empty mappings |
| Workspaces.BuildFresh | wrangler-proto/src/main/java/io/cdap/wrangler/proto/workspace/v2/Workspace.java:167-208 | a builder used without setters gives no directives, zero timestamps, no sample spec and an empty mapping |
| Workspaces.SetDirectivesAfterBuild | wrangler-proto/src/main/java/io/cdap/wrangler/proto/workspace/v2/Workspace.java:174-208 | a `setDirectives` on the builder after `build` changes the built workspace's directives too |
| Workspaces.EqualityIgnoresMetadata | wrangler-proto/src/main/java/io/cdap/wrangler/proto/workspace/v2/Workspace.java:119-138 | workspaces that agree on name, id, directives and sample spec are equal both ways and hash alike, whatever their timestamps, insights or mappings |
| WorkspaceHandler.CheckRow | wrangler-service/src/main/java/io/cdap/wrangler/service/directive/WorkspaceHandler.java:447-486 | one row of the outer loop: an error exactly when a mapped ERROR_PIPELINE column is null, with the message of the first such column in entry order; otherwise the row is kept exactly when no SKIP_ROW or SEND_TO_ERROR_COLLECTOR column is null |
| WorkspaceHandler.NullChecker | wrangler-service/src/main/java/io/cdap/wrangler/service/directive/WorkspaceHandler.java:444-488 | an error exactly when some row has a null in an ERROR_PIPELINE column, and the message names the first such column of the first such row; otherwise the rows kept, in sample order |
| WorkspaceHandler.KeptMeaning | wrangler-service/src/main/java/io/cdap/wrangler/service/directive/WorkspaceHandler.java:475-485 | a row is kept exactly when it is in the sample and keeps; a row without nulls in mapped columns is always kept; the result is no longer than the sample |
| WorkspaceHandler.KeptAppend | wrangler-service/src/main/java/io/cdap/wrangler/service/directive/WorkspaceHandler.java:444-488 | the checker keeps sample order: the result for a concatenation is the concatenation of the results |
| WorkspaceHandler.OrderIndependent | wrangler-service/src/main/java/io/cdap/wrangler/service/directive/WorkspaceHandler.java:452-472 | the kept rows and the error condition do not depend on the order in which the `HashMap` enumerates the mappings |
| WorkspaceHandler.SameEntries | wrangler-service/src/main/java/io/cdap/wrangler/service/directive/WorkspaceHandler.java:452-472 | with fewer mapping entries, a row keeps at least as often and fails no more often |
| WorkspaceHandler.FinalTerminator | wrangler-service/src/main/java/io/cdap/wrangler/service/directive/WorkspaceHandler.java:800 | the non-multiline `$` of `replaceAll("/+$", "")` may sit before a final line terminator (one or two characters) |
| WorkspaceHandler.LastIndexOf | wrangler-service/src/main/java/io/cdap/wrangler/service/directive/WorkspaceHandler.java:802 | `lastIndexOf('/')`: -1 or the index of the last '/' |
| WorkspaceHandler.StrippedNotSlash | wrangler-service/src/main/java/io/cdap/wrangler/service/directive/WorkspaceHandler.java:800 | after stripping, the path never ends in '/' |
| WorkspaceHandler.NameShape | wrangler-service/src/main/java/io/cdap/wrangler/service/directive/WorkspaceHandler.java:794-813 | the name is the id, or a non-empty '/'-free tail of the path; it is empty only when the id is; a null or empty path gives the id |
| WorkspaceHandler.NameOfFilePath | wrangler-service/src/main/java/io/cdap/wrangler/service/directive/WorkspaceHandler.java:802-806 | `d/f` is named `f` |
| WorkspaceHandler.NameOfDirectoryPath | wrangler-service/src/main/java/io/cdap/wrangler/service/directive/WorkspaceHandler.java:799-806 | the trailing slashes of `d//` are stripped first, so it is named `d` |
| WorkspaceHandler.NameFallsBackToId | wrangler-service/src/main/java/io/cdap/wrangler/service/directive/WorkspaceHandler.java:795-808 | a path of slashes only, an empty path and a missing path give the id |
| WorkspaceHandler.NameKeepsFinalNewline | wrangler-service/src/main/java/io/cdap/wrangler/service/directive/WorkspaceHandler.java:800-806 | in `b/\n` the slash before the final newline is stripped, and the newline stays in the name |
| WorkspaceHandler.NameKeepsFinalCrLf | wrangler-service/src/main/java/io/cdap/wrangler/service/directive/WorkspaceHandler.java:800-806 | the same for a final `\r\n` |
| WorkspaceHandler.StripPragmas | wrangler-service/src/main/java/io/cdap/wrangler/service/directive/WorkspaceHandler.java:831 | `removeIf` with the pragma pattern leaves, in place, exactly the directives that do not match, in order |
| WorkspaceHandler.StripPragmasMeaning | wrangler-service/src/main/java/io/cdap/wrangler/service/directive/WorkspaceHandler.java:118 | a directive survives exactly when it is not a pragma; stripping twice is stripping once |
| WorkspaceHandler.PragmaForm | wrangler-service/src/main/java/io/cdap/wrangler/service/directive/WorkspaceHandler.java:118 | every directive of the form spaces, `#pragma`, spaces, `load-directives`, space, anything matches the pattern |
| WorkspaceHandler.KeywordForm | wrangler-service/src/main/java/io/cdap/wrangler/service/directive/WorkspaceHandler.java:118 | the part after `#pragma` matches when it is spaces, `load-directives`, a space |
| WorkspaceHandler.PragmaNeedsTrailingSpace | wrangler-service/src/main/java/io/cdap/wrangler/service/directive/WorkspaceHandler.java:118 | without white space after `load-directives` the directive is kept |
| WorkspaceHandler.PragmaNeedsSeparator | wrangler-service/src/main/java/io/cdap/wrangler/service/directive/WorkspaceHandler.java:118 | `#pragma` directly followed by a non-space is kept |
| WorkspaceHandler.WithCopyHeaderKeeps | wrangler-service/src/main/java/io/cdap/wrangler/service/directive/WorkspaceHandler.java:780-785 | the copied spec has the same schema, plugin name, type and artifact, and the properties gain `copyHeader=true` with every other entry kept |
| WorkspaceHandler.SourceSpecsMeaning | wrangler-service/src/main/java/io/cdap/wrangler/service/directive/WorkspaceHandler.java:757-789 | with a trimmed directive starting with `parse-as-csv` and ending with `true`, exactly the related plugins with `copyHeader=true` come back; otherwise the related plugins as they are, none without a sample spec |
| WorkspaceHandler.CopyHeaderExamples | wrangler-service/src/main/java/io/cdap/wrangler/service/directive/WorkspaceHandler.java:763-766 | the directive is trimmed before the test; one not ending in `true` and an empty list do not copy the header |
| IngestionStatusService.InitialStatus | clickhouse-flatfile-ingestion/backend/src/main/java/com/ingestion/service/IngestionStatusService.java:21-28 | the record built before saving: the table and file names, IN_PROGRESS, progress 0, retry count 0, no totals and no error |
| IngestionStatusService.WithStatus | clickhouse-flatfile-ingestion/backend/src/main/java/com/ingestion/service/IngestionStatusService.java:38-42 | the status is set; SUCCESS and FAILED also set progress to 100; nothing else changes |
| IngestionStatusService.WithProgress | clickhouse-flatfile-ingestion/backend/src/main/java/com/ingestion/service/IngestionStatusService.java:52 | the new progress replaces the old one; nothing else changes |
| IngestionStatusService.WithTotalRows | clickhouse-flatfile-ingestion/backend/src/main/java/com/ingestion/service/IngestionStatusService.java:62 | the total is set (null included); nothing else changes |
| IngestionStatusService.WithProcessedRows | clickhouse-flatfile-ingestion/backend/src/main/java/com/ingestion/service/IngestionStatusService.java:72-77 | the processed count is set; progress is recomputed as `(int)(processed*100/total)` only when the total is present and positive |
| IngestionStatusService.WithErrorMessage | clickhouse-flatfile-ingestion/backend/src/main/java/com/ingestion/service/IngestionStatusService.java:87-88 | the message is stored and the status forced to FAILED; progress is left as it was |
| IngestionStatusService.WithRetry | clickhouse-flatfile-ingestion/backend/src/main/java/com/ingestion/service/IngestionStatusService.java:98 | the retry count goes up by one in `int` arithmetic; nothing else changes |
| IngestionStatusService.IngestionStatusStore.constructor | clickhouse-flatfile-ingestion/backend/src/main/java/com/ingestion/service/IngestionStatusService.java:16-18 | an empty repository whose first generated id is 1 |
| IngestionStatusService.IngestionStatusStore.GetStatusById | clickhouse-flatfile-ingestion/backend/src/main/java/com/ingestion/service/IngestionStatusService.java:115-117 | present exactly when the id is stored, and then the stored record |
| IngestionStatusService.IngestionStatusStore.CreateIngestionStatus | clickhouse-flatfile-ingestion/backend/src/main/java/com/ingestion/service/IngestionStatusService.java:20-31 | saves the initial record under a fresh id, which it returns; every other record is kept |
| IngestionStatusService.IngestionStatusStore.UpdateStatus | clickhouse-flatfile-ingestion/backend/src/main/java/com/ingestion/service/IngestionStatusService.java:33-45 | an unknown id fails with "not found" and changes nothing; a known one rewrites only that record, as WithStatus says, and returns it |
| IngestionStatusService.IngestionStatusStore.UpdateProgress | clickhouse-flatfile-ingestion/backend/src/main/java/com/ingestion/service/IngestionStatusService.java:47-55 | the same shape, with WithProgress |
| IngestionStatusService.IngestionStatusStore.UpdateTotalRows | clickhouse-flatfile-ingestion/backend/src/main/java/com/ingestion/service/IngestionStatusService.java:57-65 | the same shape, with WithTotalRows |
| IngestionStatusService.IngestionStatusStore.UpdateProcessedRows | clickhouse-flatfile-ingestion/backend/src/main/java/com/ingestion/service/IngestionStatusService.java:67-80 | the same shape, with WithProcessedRows |
| IngestionStatusService.IngestionStatusStore.UpdateErrorMessage | clickhouse-flatfile-ingestion/backend/src/main/java/com/ingestion/service/IngestionStatusService.java:82-91 | the same shape, with WithErrorMessage |
| IngestionStatusService.IngestionStatusStore.IncrementRetryCount | clickhouse-flatfile-ingestion/backend/src/main/java/com/ingestion/service/IngestionStatusService.java:93-101 | the same shape, with WithRetry |
| IngestionStatusService.IngestionStatusStore.GetStatusByTableName | clickhouse-flatfile-ingestion/backend/src/main/java/com/ingestion/service/IngestionStatusService.java:103-105 | exactly the stored records with that table name |
| IngestionStatusService.IngestionStatusStore.GetStatusByFileName | clickhouse-flatfile-ingestion/backend/src/main/java/com/ingestion/service/IngestionStatusService.java:107-109 | exactly the stored records with that file name |
| IngestionStatusService.ProgressIsPercentage | clickhouse-flatfile-ingestion/backend/src/main/java/com/ingestion/service/IngestionStatusService.java:74-76 | for a count whose percentage fits, progress is the truncated percentage; it lies in 0..100 when processed is at most total, and is not clamped above 100 |
| IngestionStatusService.ProgressNotClamped | clickhouse-flatfile-ingestion/backend/src/main/java/com/ingestion/service/IngestionStatusService.java:75 | 300 processed of 100 gives progress 300 |
| IngestionStatusService.RetryIncrements | clickhouse-flatfile-ingestion/backend/src/main/java/com/ingestion/service/IngestionStatusService.java:98 | the count goes up by exactly one below `Integer.MAX_VALUE` and wraps to `Integer.MIN_VALUE` there |
| IngestionStatusService.ProgressOverwrites | clickhouse-flatfile-ingestion/backend/src/main/java/com/ingestion/service/IngestionStatusService.java:38-52 | a later progress overwrites an earlier one; a terminal status then forces 100; IN_PROGRESS keeps the progress |
| IngestionStatusService.ErrorThenStatus | clickhouse-flatfile-ingestion/backend/src/main/java/com/ingestion/service/IngestionStatusService.java:38-88 | recording an error keeps the progress, so a record failed through updateStatus keeps 100 and stays FAILED |
| TableMappingService.IndexOfName | clickhouse-flatfile-ingestion/backend/src/main/java/com/ingestion/service/TableMappingService.java:39-60 | `findByTableName`: the position of the row with that name, or -1 exactly when no row has it |
| TableMappingService.TableMappingRegistry.constructor | clickhouse-flatfile-ingestion/backend/src/main/java/com/ingestion/service/TableMappingService.java:19-21 | an empty repository whose first generated id is 1 |
| TableMappingService.TableMappingRegistry.Get | clickhouse-flatfile-ingestion/backend/src/main/java/com/ingestion/service/TableMappingService.java:38-41 | fails with "not found" exactly when no stored mapping has the name; otherwise a stored mapping with that name |
| TableMappingService.TableMappingRegistry.GetAll | clickhouse-flatfile-ingestion/backend/src/main/java/com/ingestion/service/TableMappingService.java:44-46 | every stored mapping, each the one `getTableMapping` finds by its name |
| TableMappingService.TableMappingRegistry.CreateTableMapping | clickhouse-flatfile-ingestion/backend/src/main/java/com/ingestion/service/TableMappingService.java:24-35 | an existing name is refused with "already exists" and nothing changes; otherwise a new mapping with a fresh id and the request's fields is appended and is then found by its name |
| TableMappingService.TableMappingRegistry.UpdateTableMapping | clickhouse-flatfile-ingestion/backend/src/main/java/com/ingestion/service/TableMappingService.java:49-56 | an unknown name fails and nothing changes; otherwise only that mapping's schema and column mappings are replaced, keeping id and name |
| TableMappingService.TableMappingRegistry.DeleteTableMapping | clickhouse-flatfile-ingestion/backend/src/main/java/com/ingestion/service/TableMappingService.java:59-62 | an unknown name fails; otherwise exactly that mapping is removed and every other is kept |
| TableMappingService.FoundIsUnique | clickhouse-flatfile-ingestion/backend/src/main/java/com/ingestion/service/TableMappingService.java:25-39 | with unique names, the row found by a row's name is that row |
| TableMappingService.Without | clickhouse-flatfile-ingestion/backend/src/main/java/com/ingestion/service/TableMappingService.java:61 | the rows without one, in order, as a multiset the original minus that row |
| TableMappingService.RemoveFound | clickhouse-flatfile-ingestion/backend/src/main/java/com/ingestion/service/TableMappingService.java:59-62 | deleting keeps the names and ids unique, leaves no row of that name and keeps every other row |
| TableMappingService.AppendFresh | clickhouse-flatfile-ingestion/backend/src/main/java/com/ingestion/service/TableMappingService.java:24-35 | appending a mapping with a new name keeps the names unique and makes it the one found |
| TableMappingService.CreateTwice | clickhouse-flatfile-ingestion/backend/src/main/java/com/ingestion/service/TableMappingService.java:24-35 | creating the same table twice stores the first request and refuses the second with "already exists" |
| ClickHouseConnectionService.ConnectionPool.constructor | clickhouse-flatfile-ingestion/backend/src/main/java/com/ingestion/service/ClickHouseConnectionService.java:24 | the pool starts empty |
| ClickHouseConnectionService.ConnectionPool.CreateConnection | clickhouse-flatfile-ingestion/backend/src/main/java/com/ingestion/service/ClickHouseConnectionService.java:32-63 | an id already pooled is returned and the pool is unchanged; otherwise a failing connect is an error "Failed to create connection to ClickHouse" with nothing pooled, and a successful one pools the data source for the JDBC URL under the id |
| ClickHouseConnectionService.ConnectionPool.TestConnection | clickhouse-flatfile-ingestion/backend/src/main/java/com/ingestion/service/ClickHouseConnectionService.java:71-92 | true exactly when the connect succeeds; the pool is not touched |
| ClickHouseConnectionService.ConnectionPool.GetConnection | clickhouse-flatfile-ingestion/backend/src/main/java/com/ingestion/service/ClickHouseConnectionService.java:100-112 | "Connection not found" for an id not pooled, "Failed to get connection" when connecting fails, otherwise the pooled data source |
| ClickHouseConnectionService.ConnectionPool.ExecuteBatchInsert | clickhouse-flatfile-ingestion/backend/src/main/java/com/ingestion/service/ClickHouseConnectionService.java:213-248 | no rows gives 0 without asking for a connection; a `getConnection` error reaches the caller unwrapped; otherwise the INSERT statement is prepared and the result is the `int` sum of the batch counts, or the wrapped batch error |
| ClickHouseConnectionService.ConnectionPool.CloseConnection | clickhouse-flatfile-ingestion/backend/src/main/java/com/ingestion/service/ClickHouseConnectionService.java:255-260 | the id is no longer pooled, whether it was or not; every other entry is kept |
| ClickHouseConnectionService.Repeat | clickhouse-flatfile-ingestion/backend/src/main/java/com/ingestion/service/ClickHouseConnectionService.java:223 | `nCopies(n, s)`: n copies of s |
| ClickHouseConnectionService.PlaceholderCount | clickhouse-flatfile-ingestion/backend/src/main/java/com/ingestion/service/ClickHouseConnectionService.java:223 | the placeholder list holds exactly one '?' per column |
| ClickHouseConnectionService.InsertStatementPlaceholders | clickhouse-flatfile-ingestion/backend/src/main/java/com/ingestion/service/ClickHouseConnectionService.java:222-224 | with names free of '?', the statement has exactly one '?' per column |
| ClickHouseConnectionService.StatementHead | clickhouse-flatfile-ingestion/backend/src/main/java/com/ingestion/service/ClickHouseConnectionService.java:224 | the statement up to its placeholder list holds no '?' |
| ClickHouseConnectionService.InsertStatementExample | clickhouse-flatfile-ingestion/backend/src/main/java/com/ingestion/service/ClickHouseConnectionService.java:222-224 | table t with columns a and b gives `INSERT INTO t (a, b) VALUES (?, ?)` |
| ClickHouseConnectionService.SumResults | clickhouse-flatfile-ingestion/backend/src/main/java/com/ingestion/service/ClickHouseConnectionService.java:238-243 | the `totalRows += result` loop gives the exact sum of the counts, wrapped to an `int` |
| ClickHouseConnectionService.SumExample | clickhouse-flatfile-ingestion/backend/src/main/java/com/ingestion/service/ClickHouseConnectionService.java:238-243 | two single-row statements count 2 rows |
| ClickHouseConnectionService.SumFits | clickhouse-flatfile-ingestion/backend/src/main/java/com/ingestion/service/ClickHouseConnectionService.java:238-243 | while the sum fits an `int`, the count is the plain sum |
| ClickHouseConnectionService.FirstFieldDetermined | clickhouse-flatfile-ingestion/backend/src/main/java/com/ingestion/service/ClickHouseConnectionService.java:268-273 | splitting at the first '_' recovers the first field when it has no '_' |
| ClickHouseConnectionService.ConnectionIdInjective | clickhouse-flatfile-ingestion/backend/src/main/java/com/ingestion/service/ClickHouseConnectionService.java:268-273 | with host and port free of '_', the id determines host, port and database |
| ClickHouseConnectionService.ConnectionIdCollision | clickhouse-flatfile-ingestion/backend/src/main/java/com/ingestion/service/ClickHouseConnectionService.java:268-273 | without that restriction two different servers share one id, so `createConnection` returns the other server's pooled connection |
| ClickHouseConnectionService.CreateTwice | clickhouse-flatfile-ingestion/backend/src/main/java/com/ingestion/service/ClickHouseConnectionService.java:32-38 | a repeated `createConnection` for the same server returns the same id and pools nothing new |
| DataIngestionService.CreateFlatFileConfig | clickhouse-flatfile-ingestion/backend/src/main/java/com/ingestion/service/DataIngestionService.java:127-135 | the configuration is a field-by-field copy of the request's delimiter, quote, escape, line separator and header flag |
| DataIngestionService.ColumnsMatchValues | clickhouse-flatfile-ingestion/backend/src/main/java/com/ingestion/service/DataIngestionService.java:95-155 | with the distinct keys of the mapping, the column named at position i of the insert receives the row's value for the source column mapped to it, and no column is named twice |
| DataIngestionService.TransformRow | clickhouse-flatfile-ingestion/backend/src/main/java/com/ingestion/service/DataIngestionService.java:149-156 | the inner loop fills a new array of the mapping's size with the projected values |
| DataIngestionService.ProjectAll | clickhouse-flatfile-ingestion/backend/src/main/java/com/ingestion/service/DataIngestionService.java:144-160 | one projected row per input row, in order |
| DataIngestionService.TransformData | clickhouse-flatfile-ingestion/backend/src/main/java/com/ingestion/service/DataIngestionService.java:144-160 | the outer loop's result is the projection of every row |
| DataIngestionService.ProjectedValue | clickhouse-flatfile-ingestion/backend/src/main/java/com/ingestion/service/DataIngestionService.java:151-154 | end to end for a CSV record with distinct headers: an entry whose source column is the j-th header receives the record's j-th field |
| DataIngestionService.ProjectedMissing | clickhouse-flatfile-ingestion/backend/src/main/java/com/ingestion/service/DataIngestionService.java:153-154 | an entry whose source column is not a header receives "" |
| DataIngestionService.FailIngestion | clickhouse-flatfile-ingestion/backend/src/main/java/com/ingestion/service/DataIngestionService.java:113-118 | the outer `catch` marks the record FAILED with progress 100, stores the message and rethrows it as "Ingestion failed: ..."; an unknown id fails at the first update |
| DataIngestionService.RunBatches | clickhouse-flatfile-ingestion/backend/src/main/java/com/ingestion/service/DataIngestionService.java:89-108 | the processor transforms, inserts and reports each batch in turn; only the record's progress changes; each batch asks for its own connection; it stops at the first failing batch with "Failed to process batch: ..."; when none fails every batch was sent, projected |
| DataIngestionService.IngestRecords | clickhouse-flatfile-ingestion/backend/src/main/java/com/ingestion/service/DataIngestionService.java:89-112 | after streaming, the total rows are recorded and the status set to SUCCESS; a failing batch, whether its connection or its insert fails, ends in FAILED with its message |
| DataIngestionService.ProcessIngestion | clickhouse-flatfile-ingestion/backend/src/main/java/com/ingestion/service/DataIngestionService.java:76-119 | success exactly when the upload works, the mapping is found and no batch fails to connect or to insert; it then records the row count and SUCCESS and has sent every batch, projected; every failure ends FAILED with progress 100 and is rethrown with its message; only that record changes |
| IngestionFlatFile.DataRows | clickhouse-flatfile-ingestion/backend/src/main/java/com/ingestion/service/FlatFileService.java:95-108 | one row map per record after the header record |
| IngestionFlatFile.BuildRow | clickhouse-flatfile-ingestion/backend/src/main/java/com/ingestion/service/FlatFileService.java:97-105 | the inner `for j` loop puts, header by header, the trimmed field or "" for a short record |
| IngestionFlatFile.RowOfStep | clickhouse-flatfile-ingestion/backend/src/main/java/com/ingestion/service/FlatFileService.java:99-105 | each step of the loop adds the j-th header with its field to the map of the earlier ones |
| IngestionFlatFile.ReadHeaders | clickhouse-flatfile-ingestion/backend/src/main/java/com/ingestion/service/FlatFileService.java:89-92 | the headers are the first record's fields, trimmed |
| IngestionFlatFile.ParseCsvFile | clickhouse-flatfile-ingestion/backend/src/main/java/com/ingestion/service/FlatFileService.java:69-117 | no records give no headers and no data; otherwise the trimmed header record and one row map per later record |
| IngestionFlatFile.StreamCsvFile | clickhouse-flatfile-ingestion/backend/src/main/java/com/ingestion/service/FlatFileService.java:127-183 | no records give 0 and no batch; otherwise the count of data records, and the rows handed to the processor in batches of 1000 with a shorter last one |
| IngestionFlatFile.FlattenSnoc | clickhouse-flatfile-ingestion/backend/src/main/java/com/ingestion/service/FlatFileService.java:163-176 | concatenating the batches one more at a time |
| IngestionFlatFile.ChunksUnique | clickhouse-flatfile-ingestion/backend/src/main/java/com/ingestion/service/FlatFileService.java:163-176 | full batches followed by at most one shorter non-empty one are the only split of the rows of that shape |
| IngestionFlatFile.ChunksMeaning | clickhouse-flatfile-ingestion/backend/src/main/java/com/ingestion/service/FlatFileService.java:163-176 | the batches together are the rows, in order; each holds 1 to 1000 rows and all but the last are full |
| IngestionFlatFile.ChunksCount | clickhouse-flatfile-ingestion/backend/src/main/java/com/ingestion/service/FlatFileService.java:163-176 | there are ceil(rows / batch size) batches, and none exactly when there are no rows |
| IngestionFlatFile.BatchCount | clickhouse-flatfile-ingestion/backend/src/main/java/com/ingestion/service/FlatFileService.java:163-176 | with the service's batch size, `(n + 999) / 1000` batches |
| IngestionFlatFile.RowOfKeys | clickhouse-flatfile-ingestion/backend/src/main/java/com/ingestion/service/FlatFileService.java:99-105 | a row's keys are exactly the headers |
| IngestionFlatFile.RowOfValue | clickhouse-flatfile-ingestion/backend/src/main/java/com/ingestion/service/FlatFileService.java:99-105 | a header holds the field of its last position |
| IngestionFlatFile.DistinctHeadersRow | clickhouse-flatfile-ingestion/backend/src/main/java/com/ingestion/service/FlatFileService.java:99-105 | with distinct headers, each header holds its own trimmed field, or "" past the record's end |
| IngestionFlatFile.DuplicateHeaderLaterWins | clickhouse-flatfile-ingestion/backend/src/main/java/com/ingestion/service/FlatFileService.java:101 | a duplicated header holds the later field |
| WranglerFlatFile.BreakIndex | clickhouse-flatfile-ingestion/backend/src/main/java/com/wrangler/ingestion/service/FlatFileService.java:20-37 | the position of the first line break: no `\n` or `\r` before it, and one at it unless it is the end of the text |
| WranglerFlatFile.NextLine | clickhouse-flatfile-ingestion/backend/src/main/java/com/wrangler/ingestion/service/FlatFileService.java:20-57 | one `readLine`: nothing exactly at the end of input; otherwise a line, and strictly less text left |
| WranglerFlatFile.LineReader.constructor | clickhouse-flatfile-ingestion/backend/src/main/java/com/wrangler/ingestion/service/FlatFileService.java:19-55 | a reader over the whole text |
| WranglerFlatFile.LineReader.ReadLine | clickhouse-flatfile-ingestion/backend/src/main/java/com/wrangler/ingestion/service/FlatFileService.java:20-57 | returns the next line and consumes it with its terminator, or null at the end, consuming nothing |
| WranglerFlatFile.GetColumns | clickhouse-flatfile-ingestion/backend/src/main/java/com/wrangler/ingestion/service/FlatFileService.java:17-29 | no header line gives no columns; otherwise the first line split at the delimiter string with each part trimmed |
| Text.SplitOnJoin | clickhouse-flatfile-ingestion/backend/src/main/java/com/wrangler/ingestion/service/FlatFileService.java:22 | the pieces between the delimiter's occurrences, joined back with the delimiter, give the line back |
| Text.SplitOnChar | clickhouse-flatfile-ingestion/backend/src/main/java/com/wrangler/ingestion/service/FlatFileService.java:22 | at a one-character delimiter the string split is the character split |
| Text.JavaSplitMeaning | clickhouse-flatfile-ingestion/backend/src/main/java/com/wrangler/ingestion/service/FlatFileService.java:22 | `split`: the empty delimiter gives the characters; no occurrence gives the whole line; otherwise the pieces with only trailing empty pieces dropped, which join back to the line |
| Text.JavaSplitExamples | clickhouse-flatfile-ingestion/backend/src/main/java/com/wrangler/ingestion/service/FlatFileService.java:22 | "a, b" at ", " gives a and b, a trailing delimiter leaves no empty piece, "ab" at the empty delimiter gives a and b, and empty text gives one empty piece |
| WranglerFlatFile.GetRowCount | clickhouse-flatfile-ingestion/backend/src/main/java/com/wrangler/ingestion/service/FlatFileService.java:31-42 | the number of lines after the first, 0 for empty text |
| WranglerFlatFile.FileSystem.constructor | clickhouse-flatfile-ingestion/backend/src/main/java/com/wrangler/ingestion/service/FlatFileService.java:44-62 | an empty file system with the platform's line separator, "\n" or "\r\n" |
| WranglerFlatFile.FileSystem.WriteToFile | clickhouse-flatfile-ingestion/backend/src/main/java/com/wrangler/ingestion/service/FlatFileService.java:44-51 | the file is replaced by every element followed by the line separator; the delimiter is not used; other files are kept |
| WranglerFlatFile.FileSystem.ReadFromFile | clickhouse-flatfile-ingestion/backend/src/main/java/com/wrangler/ingestion/service/FlatFileService.java:53-62 | a missing file fails; otherwise every line of the file, in order |
| WranglerFlatFile.NextLineShape | clickhouse-flatfile-ingestion/backend/src/main/java/com/wrangler/ingestion/service/FlatFileService.java:20-57 | a line holds no line break, and the text is the line, its terminator (\n, \r or \r\n) and the rest |
| WranglerFlatFile.BreakAfter | clickhouse-flatfile-ingestion/backend/src/main/java/com/wrangler/ingestion/service/FlatFileService.java:20-57 | a line followed by a break ends right there |
| WranglerFlatFile.NextLineOfWritten | clickhouse-flatfile-ingestion/backend/src/main/java/com/wrangler/ingestion/service/FlatFileService.java:47-57 | a written line followed by the separator reads back as itself |
| WranglerFlatFile.ReadBackWritten | clickhouse-flatfile-ingestion/backend/src/main/java/com/wrangler/ingestion/service/FlatFileService.java:44-62 | reading back what `writeToFile` wrote gives the data exactly, when no element holds a line break |
| WranglerFlatFile.LineBreakSplitsElement | clickhouse-flatfile-ingestion/backend/src/main/java/com/wrangler/ingestion/service/FlatFileService.java:44-62 | an element holding a line break reads back as two lines |
| WranglerFlatFile.ColumnsOfHeader | clickhouse-flatfile-ingestion/backend/src/main/java/com/wrangler/ingestion/service/FlatFileService.java:17-29 | a header of trimmed, non-empty names free of the delimiter and of breaks gives those names back |
| WranglerFlatFile.TrimmedStay | clickhouse-flatfile-ingestion/backend/src/main/java/com/wrangler/ingestion/service/FlatFileService.java:24 | trimming names already trimmed changes nothing |
| WranglerFlatFile.SplitHeader | clickhouse-flatfile-ingestion/backend/src/main/java/com/wrangler/ingestion/service/FlatFileService.java:22 | splitting a joined header at its delimiter gives the names back, as long as none is empty or holds the delimiter |
| WranglerFlatFile.JoinNoBreak | clickhouse-flatfile-ingestion/backend/src/main/java/com/wrangler/ingestion/service/FlatFileService.java:20-22 | joining names without breaks by a non-break delimiter gives one line |
| WranglerFlatFile.RowCountExample | clickhouse-flatfile-ingestion/backend/src/main/java/com/wrangler/ingestion/service/FlatFileService.java:31-42 | "h\n1\n2\n" has the header and two data lines |
| WranglerFlatFile.EmptyFile | clickhouse-flatfile-ingestion/backend/src/main/java/com/wrangler/ingestion/service/FlatFileService.java:17-42 | empty text has no header line, so no columns and no rows |
| Helpers.GetStatusColor | clickhouse-flatfile-ingestion/frontend/src/utils/helpers.js:46-62 | one of five colours: success exactly for success/completed, error for failed/error, info for running/in_progress, warning for pending, compared in lower case; default otherwise and for a missing status |
| Helpers.StatusColorIgnoresCase | clickhouse-flatfile-ingestion/frontend/src/utils/helpers.js:47 | a status written in capitals or in lower case gets the same colour |
| Helpers.StatusColorExamples | clickhouse-flatfile-ingestion/frontend/src/utils/helpers.js:46-62 | COMPLETED is success, In_Progress is info, cancelled and a missing status are default |
| Helpers.Quote | clickhouse-flatfile-ingestion/frontend/src/utils/helpers.js:80 | the quoted form starts and ends with a double quote |
| Helpers.EscapeCellReadsBack | clickhouse-flatfile-ingestion/frontend/src/utils/helpers.js:77-81 | a string cell holding a comma or a double quote is quoted and unquotes to the original text; any other string is written as it is |
| Helpers.GenerateCSV | clickhouse-flatfile-ingestion/frontend/src/utils/helpers.js:70-87 | "" without headers, without rows or with no rows; otherwise the text starts with the header line joined by commas |
| Helpers.JoinStartsWithFirst | clickhouse-flatfile-ingestion/frontend/src/utils/helpers.js:86 | the CSV text starts with the header line |
| Helpers.CollapseDoubled | clickhouse-flatfile-ingestion/frontend/src/utils/helpers.js:80 | reading doubled quotes back as single ones undoes the doubling |
| Helpers.QuoteRoundTrip | clickhouse-flatfile-ingestion/frontend/src/utils/helpers.js:80 | the value of a quoted cell is the original string: quoting loses nothing |
| Helpers.QuotingExamples | clickhouse-flatfile-ingestion/frontend/src/utils/helpers.js:79-81 | "a,b" is quoted, "plain" and the number 5 are not |
| Helpers.ArrayCellNotQuoted | clickhouse-flatfile-ingestion/frontend/src/utils/helpers.js:79-82 | only strings are quoted: an array cell [1,2] prints as `1,2`, adding a column |
| Helpers.JoinValuesAsJoin | clickhouse-flatfile-ingestion/frontend/src/utils/helpers.js:82-86 | `Array.prototype.join` of values is the join of their printed texts |
| Helpers.RowLineFreeOfLineFeed | clickhouse-flatfile-ingestion/frontend/src/utils/helpers.js:75-83 | a row whose values print without a line feed gives a line without one |
| Helpers.CsvLines | clickhouse-flatfile-ingestion/frontend/src/utils/helpers.js:70-87 | with no line feed in the data, the CSV text splits back into the header line and one line per row |
| Helpers.RowFields | clickhouse-flatfile-ingestion/frontend/src/utils/helpers.js:75-83 | with no comma or quote in any value, a row line splits back into one field per header, each the printed cell value |
| Formatters.FormatDuration | clickhouse-flatfile-ingestion/frontend/src/utils/formatters.js:26-27 | "N/A" for a missing or zero duration |
| Formatters.FormatDurationUnits | clickhouse-flatfile-ingestion/frontend/src/utils/formatters.js:26-37 | the units shown are those of the floored duration: days and hours, or hours and minutes, or minutes and seconds, or seconds; the two units together make up the whole and the second stays below its base |
| Formatters.FormatDurationExamples | clickhouse-flatfile-ingestion/frontend/src/utils/formatters.js:26-37 | 999 gives 0s, 61000 gives 1m 1s, 90061000 gives 1d 1h, a missing value gives N/A |
| SecurityUtils.SanitizeInput | clickhouse-flatfile-ingestion/frontend/src/utils/securityUtils.js:21-26 | a non-string is returned as it is; a string comes back without any `<` or `>` and with no white space at either end |
| SecurityUtils.SanitizeIdempotent | clickhouse-flatfile-ingestion/frontend/src/utils/securityUtils.js:21-26 | sanitising a sanitised value changes nothing |
| SecurityUtils.SanitizeExample | clickhouse-flatfile-ingestion/frontend/src/utils/securityUtils.js:21-26 | " <a>" becomes "a", and the number 3 is kept |
| SecurityUtils.EscapeChar | clickhouse-flatfile-ingestion/frontend/src/utils/securityUtils.js:70-74 | a character is written as an entity (starting with `&`) exactly when it is one of & < > " ' |
| SecurityUtils.EscapeHtmlAppend | clickhouse-flatfile-ingestion/frontend/src/utils/securityUtils.js:68-75 | escaping works character by character: the escape of a concatenation is the concatenation of the escapes |
| SecurityUtils.EscapeHtmlChar | clickhouse-flatfile-ingestion/frontend/src/utils/securityUtils.js:68-75 | because `&` is replaced first, each character is replaced exactly once, never the ampersand a later step writes |
| SecurityUtils.EscapeHtmlPerChar | clickhouse-flatfile-ingestion/frontend/src/utils/securityUtils.js:68-75 | the five-step chain writes each character as its own entity |
| SecurityUtils.EscapeHtmlSafe | clickhouse-flatfile-ingestion/frontend/src/utils/securityUtils.js:68-75 | the escaped text holds none of < > " ' |
| SecurityUtils.UnescapeEntity | clickhouse-flatfile-ingestion/frontend/src/utils/securityUtils.js:70-74 | an entity followed by anything reads back as its character |
| SecurityUtils.UnescapeEscape | clickhouse-flatfile-ingestion/frontend/src/utils/securityUtils.js:68-75 | reading the entities back gives the original text: escaping loses nothing |
| SecurityUtils.EscapeHtmlInjective | clickhouse-flatfile-ingestion/frontend/src/utils/securityUtils.js:68-75 | no two texts escape alike |
| SecurityUtils.ValidatorBoundaries | clickhouse-flatfile-ingestion/frontend/src/utils/securityUtils.js:39-46 | a file exactly at the size limit is accepted and one byte more is refused; a type is valid exactly when listed |
| SecurityUtils.Recent | clickhouse-flatfile-ingestion/frontend/src/utils/securityUtils.js:58 | the stored timestamps still inside the window, never more than stored |
| SecurityUtils.RateLimiter.constructor | clickhouse-flatfile-ingestion/frontend/src/utils/securityUtils.js:50-54 | the limit and window are set and no request is stored |
| SecurityUtils.RateLimiter.CanMakeRequest | clickhouse-flatfile-ingestion/frontend/src/utils/securityUtils.js:56-64 | drops the timestamps outside the window; admits exactly when fewer than the limit remain and then stores the time; the stored list never exceeds the limit; with a positive window and a clock that does not go back, the stored list is exactly the admissions of the last window, of which there are at most the limit |
| SecurityUtils.FilterNarrowing | clickhouse-flatfile-ingestion/frontend/src/utils/securityUtils.js:58 | filtering by a weaker test and then a stronger one is filtering by the stronger one, so older entries drop out for good |
| SecurityUtils.CanMakeRequestTracks | clickhouse-flatfile-ingestion/frontend/src/utils/securityUtils.js:56-64 | one call keeps the stored list equal to the admissions inside the window, bounded by the limit |
| PerformanceUtils.CeilDiv | clickhouse-flatfile-ingestion/frontend/src/utils/performanceUtils.js:51 | `Math.ceil(a / b)` for a positive divisor: the least r with a <= r * b |
| PerformanceUtils.VirtualScroller.constructor | clickhouse-flatfile-ingestion/frontend/src/utils/performanceUtils.js:47-54 | the window starts at index 0 and spans ceil(clientHeight / itemHeight) items |
| PerformanceUtils.VirtualScroller.GetVisibleItems | clickhouse-flatfile-ingestion/frontend/src/utils/performanceUtils.js:56-58 | the shown items are a contiguous run of the list, at most the window's width, and exactly items[start..end] when the window lies inside the list |
| PerformanceUtils.VirtualScroller.UpdateScroll | clickhouse-flatfile-ingestion/frontend/src/utils/performanceUtils.js:60-63 | the window starts at floor(scrollTop / itemHeight) and keeps its width |
| PerformanceUtils.InitialWindow | clickhouse-flatfile-ingestion/frontend/src/utils/performanceUtils.js:51-57 | before any scrolling the shown items are the prefix of the list that fits the container |
| PerformanceUtils.ScrolledWindow | clickhouse-flatfile-ingestion/frontend/src/utils/performanceUtils.js:57-62 | after scrolling, the start row is the one the offset falls in, and every index inside the window shows its item |
| PerformanceUtils.Memoized.constructor | clickhouse-flatfile-ingestion/frontend/src/utils/performanceUtils.js:27-28 | the cache starts empty |
| PerformanceUtils.Memoized.Call | clickhouse-flatfile-ingestion/frontend/src/utils/performanceUtils.js:29-37 | a cached key answers from the cache and changes nothing; a new key applies fn once and caches its result; every answer is fn applied to arguments with the same key |
| PerformanceUtils.CallTwice | clickhouse-flatfile-ingestion/frontend/src/utils/performanceUtils.js:30-36 | two calls whose arguments serialise alike return the same value and apply fn at most once |
| PerformanceUtils.OptimizeImageQuery | clickhouse-flatfile-ingestion/frontend/src/utils/performanceUtils.js:67-74 | the URL is the original followed by `?` and the three parameters w, h, q in that order, separated by `&` |
| PerformanceUtils.OptimizeImageInjective | clickhouse-flatfile-ingestion/frontend/src/utils/performanceUtils.js:67-74 | different width, height or quality give different URLs |
| PerformanceUtils.OptimizeImageDefault | clickhouse-flatfile-ingestion/frontend/src/utils/performanceUtils.js:67 | a missing quality means 80 |
| PerformanceUtils.PerformanceMonitor.constructor | clickhouse-flatfile-ingestion/frontend/src/utils/performanceUtils.js:96-98 | no measurement is running |
| PerformanceUtils.PerformanceMonitor.StartMeasure | clickhouse-flatfile-ingestion/frontend/src/utils/performanceUtils.js:100-102 | the measurement's start becomes now; the others are unchanged |
| PerformanceUtils.PerformanceMonitor.EndMeasure | clickhouse-flatfile-ingestion/frontend/src/utils/performanceUtils.js:104-112 | with a truthy start time, the elapsed time and the measurement removed; otherwise null and no change |
| PerformanceUtils.Measure | clickhouse-flatfile-ingestion/frontend/src/utils/performanceUtils.js:100-112 | start then end reports end - start and forgets the name, except a start at time 0, which is falsy and reports null; other names are untouched |
| IngestionStatusPage.FilterJobs | clickhouse-flatfile-ingestion/frontend/src/pages/IngestionStatus.js:52-62 | an empty term shows every job; a search never adds jobs |
| IngestionStatusPage.FilterJobsMembers | clickhouse-flatfile-ingestion/frontend/src/pages/IngestionStatus.js:53-59 | a non-empty term keeps exactly the jobs whose id, mapping name or status contains it, ignoring case |
| IngestionStatusPage.FilterJobsOrder | clickhouse-flatfile-ingestion/frontend/src/pages/IngestionStatus.js:54 | the kept jobs stay in their original order |
| IngestionStatusPage.FilterJobsIgnoresCase | clickhouse-flatfile-ingestion/frontend/src/pages/IngestionStatus.js:55-57 | the term in capitals finds the same jobs |
| IngestionStatusPage.InitialState | clickhouse-flatfile-ingestion/frontend/src/pages/IngestionStatus.js:38-42 | no jobs, empty term, page 0, ten rows per page, consistent |
| IngestionStatusPage.Refilter | clickhouse-flatfile-ingestion/frontend/src/pages/IngestionStatus.js:52-64 | after the effect the shown list is the filter of the jobs by the term and the page is 0 |
| IngestionStatusPage.SearchChange | clickhouse-flatfile-ingestion/frontend/src/pages/IngestionStatus.js:128-130 | a new term refilters and resets the page; the same term changes nothing |
| IngestionStatusPage.JobsLoaded | clickhouse-flatfile-ingestion/frontend/src/pages/IngestionStatus.js:52-64 | new jobs refilter by the current term and reset the page |
| IngestionStatusPage.ChangePage | clickhouse-flatfile-ingestion/frontend/src/pages/IngestionStatus.js:132-134 | only the page changes |
| IngestionStatusPage.ChangeRowsPerPage | clickhouse-flatfile-ingestion/frontend/src/pages/IngestionStatus.js:136-139 | only the page size changes, and the page goes back to 0 |
| IngestionStatusPage.HandlersKeepConsistent | clickhouse-flatfile-ingestion/frontend/src/pages/IngestionStatus.js:52-64 | every handler keeps the shown list equal to the filter of the jobs by the term |
| IngestionStatusPage.DisplayedRows | clickhouse-flatfile-ingestion/frontend/src/pages/IngestionStatus.js:281-282 | a page shows at most rowsPerPage jobs |
| IngestionStatusPage.PageCount | clickhouse-flatfile-ingestion/frontend/src/pages/IngestionStatus.js:321-326 | the number of pages is the least that holds count rows |
| IngestionStatusPage.PagesUpToPrefix | clickhouse-flatfile-ingestion/frontend/src/pages/IngestionStatus.js:281-282 | the rows shown on pages 0 to n - 1, one page after another, are the first n * rowsPerPage shown jobs |
| IngestionStatusPage.PageSlice | clickhouse-flatfile-ingestion/frontend/src/pages/IngestionStatus.js:281-282 | page p shows the jobs at positions p * rowsPerPage up to p * rowsPerPage + rowsPerPage of the shown list |
| IngestionStatusPage.PagesCoverList | clickhouse-flatfile-ingestion/frontend/src/pages/IngestionStatus.js:281-282 | paging through all pages shows every shown job exactly once, in order, and no page is empty |
| IngestionStatusPage.PageNonEmpty | clickhouse-flatfile-ingestion/frontend/src/pages/IngestionStatus.js:281-282 | a page below the page count holds at least one job |
| IngestionStatusPage.CalculateDuration | clickhouse-flatfile-ingestion/frontend/src/pages/IngestionStatus.js:194-195 | the duration is empty exactly when there is no start time |
| IngestionStatusPage.CalculateDurationFields | clickhouse-flatfile-ingestion/frontend/src/pages/IngestionStatus.js:196-209 | the printed fields are the whole hours, minutes and seconds elapsed to the end or to now, leading zero units left out, lower units below 60 |
| IngestionStatusPage.CalculateDurationExamples | clickhouse-flatfile-ingestion/frontend/src/pages/IngestionStatus.js:194-209 | no start gives ""; 61 s gives "1m 1s"; 3661 s of a running job gives "1h 1m 1s" |
| TableJoin.AddTable | clickhouse-flatfile-ingestion/frontend/src/components/TableJoin.js:53-57 | an empty slot is appended while there are fewer slots than tables; otherwise nothing changes |
| TableJoin.AddTableKeepsBound | clickhouse-flatfile-ingestion/frontend/src/components/TableJoin.js:53-57 | slots never outnumber the tables, and adding at the bound is a no-op |
| TableJoin.AddJoinCondition | clickhouse-flatfile-ingestion/frontend/src/components/TableJoin.js:71-75 | an empty INNER condition is appended once two tables are selected; otherwise nothing changes |
| TableJoin.DropIndexShape | clickhouse-flatfile-ingestion/frontend/src/components/TableJoin.js:60-62 | filtering out position i removes exactly that element, keeps the others in order, and removes nothing for an index outside the list |
| TableJoin.RemoveTable | clickhouse-flatfile-ingestion/frontend/src/components/TableJoin.js:59-63 | the tables to choose from and the loading flag are unchanged |
| TableJoin.RemoveTableEffect | clickhouse-flatfile-ingestion/frontend/src/components/TableJoin.js:59-63 | the slot at the index is removed, and the condition at the same position if there is one |
| TableJoin.RemoveTableLeavesCondition | clickhouse-flatfile-ingestion/frontend/src/components/TableJoin.js:59-63 | removing one of two tables leaves the condition that joined them, with Preview and Complete both off |
| TableJoin.TableChange | clickhouse-flatfile-ingestion/frontend/src/components/TableJoin.js:65-69 | only the slot at the index changes, its table replaced and its columns kept |
| TableJoin.SetFieldReads | clickhouse-flatfile-ingestion/frontend/src/components/TableJoin.js:79 | writing one field of a condition sets it and leaves the other four |
| TableJoin.JoinConditionChange | clickhouse-flatfile-ingestion/frontend/src/components/TableJoin.js:77-81 | only the condition at the index changes, in the one field written |
| TableJoin.GuardsOrdered | clickhouse-flatfile-ingestion/frontend/src/components/TableJoin.js:272-279 | Complete is on only when Preview is; adding a condition when Preview is on turns Complete on |
| ColumnSelection.Toggle | clickhouse-flatfile-ingestion/frontend/src/components/ColumnSelection.js:54-63 | a selected column is removed everywhere; another is appended at the end |
| ColumnSelection.ToggleOthers | clickhouse-flatfile-ingestion/frontend/src/components/ColumnSelection.js:54-63 | toggling leaves every other column's membership unchanged |
| ColumnSelection.ToggleTwiceAbsent | clickhouse-flatfile-ingestion/frontend/src/components/ColumnSelection.js:54-63 | toggling an unselected column twice restores the selection exactly |
| ColumnSelection.ToggleTwicePresent | clickhouse-flatfile-ingestion/frontend/src/components/ColumnSelection.js:54-63 | toggling a selected column twice restores the set of selected columns |
| ColumnSelection.ToggleKeepsDistinct | clickhouse-flatfile-ingestion/frontend/src/components/ColumnSelection.js:54-63 | a selection without duplicates keeps none |
| ColumnSelection.SelectAll | clickhouse-flatfile-ingestion/frontend/src/components/ColumnSelection.js:65-71 | ticked selects every column, cleared selects none |
| ColumnSelection.SelectAllGuards | clickhouse-flatfile-ingestion/frontend/src/components/ColumnSelection.js:65-71 | after select-all the header box is ticked and Confirm is on unless there are no columns; after clearing the box is clear and Confirm is off |
| ColumnSelection.DistinctCard | clickhouse-flatfile-ingestion/frontend/src/components/ColumnSelection.js:98 | a list without duplicates has as many distinct elements as entries |
| ColumnSelection.HeaderCheckedMeansAll | clickhouse-flatfile-ingestion/frontend/src/components/ColumnSelection.js:98-99 | for a duplicate-free selection of current columns the header box is ticked exactly when every column is selected |
| ColumnSelection.HeaderCheckedByCount | clickhouse-flatfile-ingestion/frontend/src/components/ColumnSelection.js:98 | the box compares counts only: a stale column can tick it while a current one is unselected |

## Left out

**HTTP, framework, I/O and concurrency**
- The HTTP endpoints, controllers, exception handlers and Spring configuration classes. They are request plumbing.
- WorkspaceHandler endpoints other than the helpers modelled, including `execute`, `specification` and `executeRemotely`. They are request plumbing and a remote task worker.
- DTOs, entities, enums, repositories and `IngestionStatusMapper`. They are plain data. The services' view of the records is modelled instead.
- The `Row` class of the wrangler API is not part of this model. `Rows` takes it to be an ordered list of named fields in which the first exact match wins.
- Apache Commons CSV is not part of this model. The ingestion flat-file service takes the parser's records as input.
- `uploadFile` and `createCSVFormat` of the ingestion flat-file service. They work on the file system and configure a CSV library that is not shown.
- The JDBC calls of the ClickHouse connection service: connecting, `getTables`, `getTableSchema` and both `executeQuery` overloads. Their outcomes are parameters, or they read database metadata and result sets.
- `DataIngestionService.startIngestion`. It runs on a thread pool through a `CompletableFuture`.
- Concurrency in general: every service is modelled as sequential.
- `IngestionStatusService.getIncompleteIngestions`. It is a repository query on `completedAt`, which the service never sets.

**Front-end code left out**
- `formatDate` and `formatNumber` in `helpers.js` and `formatters.js`. They depend on Intl and locale formatting.
- `formatFileSize` in both files. It uses `Math.log` on floating point.
- `formatPercentage`. It works on floating point.
- `downloadFile`. It uses the DOM.
- `isValidEmail` and `isValidUrl`. They rely on the regular-expression engine and the URL parser.
- `debounce` and `throttle`. They rely on timers.
- `TokenManager`, `CSRFManager` and `jwtDecode`. They rely on storage, cookies and a foreign decoder.
- `lazyLoad` and `preloadResources`. They rely on React and the DOM.
- The rendering of every component and page. The other pages and the axios services are remote calls.
- `getDefaultValue` for date and datetime types reads the current time. The model takes `new Date().toISOString()` as the parameter `nowIso`; the clock itself is not modelled.
- JavaScript `Date` parsing. Times are integer milliseconds.

**Simplifications of the model**
- Numbers in the front end are integers, so `NaN` and `Infinity` are not modelled, including `parseInt` of a non-number in `ChangeRowsPerPage`.
- `toLowerCase` and `toUpperCase` are modelled for ASCII letters only. The keys the code compares are ASCII.
- `IngestionStatusPage.Matches`: a job whose status is not a string is not modelled. In the source, calling `toLowerCase` on it would throw.
- `IngestionStatusPage.CalculateDuration` takes the start and end as optional millisecond values, not date strings.

**Weaker contracts and narrower inputs**
- `DataTypeMapper.LookupFlat`: the source indexes plain JavaScript object literals, so a name inherited from `Object.prototype`, such as `constructor` or `toString`, finds a function there instead of missing. The model's finite tables miss on such names and fall back to `string` (or `String` in `ConvertFlatToClickHouse`).
- `DataTypeMapper.ConvertTypeRange` holds for the model's tables only. For an inherited `Object.prototype` name the source's reading has a function as its type, which is outside the stated range; the same applies to `ValidateDataTypeCompatibility` on such names.
- `PerformanceUtils.VirtualScroller.constructor` requires a positive `itemHeight`. A zero height gives `Infinity` items in the source.
- `TableJoin.TableChange` and `TableJoin.JoinConditionChange` require an index of an existing entry. The form only offers those. An index outside the list grows a JavaScript array, which is not modelled.
- `Helpers.GenerateCSV`: array-valued cells are joined with `,` and not quoted, as in the source. The CSV in that case is not RFC 4180 compliant, and no round trip is claimed for it.
- `DataIngestionService.IngestRecords` and `DataIngestionService.ProcessIngestion` require at most `Integer.MAX_VALUE` records. That is the bound of a Java list, and it keeps the row count within an `int`.
- `DataIngestionService.IngestRecords`: each batch is a snapshot of the rows given to the processor. A processor that mutates it is not modelled.
- `WranglerFlatFile.GetColumns` reads the delimiter as a literal string, of any length and possibly empty. `String.split` reads it as a regular expression. That is the same thing only when the delimiter has no regular-expression metacharacter (`\ ^ $ . | ? * + ( ) [ ] { }`). For a delimiter such as `|` or `.` the model splits at the literal text, and the source does not.
- `Helpers.CellValue`: the source reads `row[header]` from a plain JavaScript object. A header inherited from `Object.prototype`, such as `constructor`, finds a function there, and the cell becomes that function's source text. The model's row is a finite map, so such a header is missing and gives the empty string.

**Places where the code does not type-check or contradicts its own documentation**
The model follows what the code evidently means in each case.
- `IngestionStatusService`: the Java code passes a `String` status id to `Long` parameters and `String` statuses to enum parameters. The model uses an integer id and the status enum.
- `DataIngestionService.ProcessIngestion`:
  - `updateProgress` receives the batch size, as in the code;
  - a `RuntimeException` from `getConnection` propagates unwrapped;
  - the mapping's `keySet` is passed where a `List` is expected, and is modelled as the list of keys in iteration order.
- `TableMappingService`: the `TableMapping` entity lacks the `tableName` and `schemaDefinition` fields that the service reads and writes. The model uses the service's view.
- `DataIngestionService.CreateFlatFileConfig`: the DTO and model `FlatFileConfig` classes name their fields differently. The model copies the five fields the code copies.
- `DataIngestionService.ProcessIngestion`: the lambda given to `streamCSVFile` takes two parameters, `(headers, batch)`, but `BatchProcessor.processBatch` takes one. The model's processor receives only the batch.
- `DataIngestionService.ProcessIngestion`: `uploadFile` is called with the request's `FlatFileConfig`, but it expects a `FileUploadRequest`. The model takes only the upload's outcome, as the parameter `uploadError`.
- `IngestionStatusService`: the service imports `com.ingestion.entity.IngestionStatusEnum`, which exists only in `com.ingestion.model`. The `IngestionStatus` entity also has no `progress`, `retryCount`, `totalRows` or `processedRows` fields; it has `recordsProcessed`, `recordsFailed` and an `IngestionStatusType` status. `InitialStatus`, `WithProgress`, `WithRetry`, `WithTotalRows` and `WithProcessedRows` model the fields the service reads and writes. The model uses the service's view.
