# A verified model of uniqcol

uniqcol accepts rows through an insert that a Bloom filter guards, keeps them column by column,
writes them run-length encoded into a binary segment, parses segments back, decodes columns
lazily through a cache, and answers a small SQL dialect over them. This project models that whole
path in Dafny, each stage in the form the source gives it (objects with fields, loops over byte
offsets, in-place bit and selection vectors), proves every routine equal to a function of its
inputs and old state, and proves what the functions are for.

The stages, bottom up:

| file | models | main results |
|---|---|---|
| Words, Uvarint | fixed-width words, unsigned LEB128 limited to 64 bits and 10 bytes | exact description of what is accepted, minimality |
| Encoding, Rle | raw and run-length column codecs | optimality, exact size bound, exact set of accepted payloads |
| Bloom | the filter, its bit array, its serialization | exact membership, order independence, saturation |
| SegmentFormat, SegmentStore, HeaderReader, FormatExact | the binary segment, writer, parser with cache, header-only reader | round trip, truncation detection, prefix-freedom, reader agreement; the exact set of files each reader accepts, both versions |
| Types, Buffer, Table, Lineage, KeyColumns | schema, write buffer, insert/flush/load | exact insert, accounting, no key accepted twice over any run of sessions, no key value twice in the files of a lineage |
| QueryAst, Lexer, Precedence, Parser, Grammar, Printer | tokenizer, recursive-descent parser | tokens are exactly the tilings, queries are exactly the sentences, AND before OR, parse inverts print |
| Compare, Aggregate, GroupScan, Eval, Exec, Reference | the executor | selection vectors, checked sums, hash grouping, each against a specification; every result and error described without an evaluator |
| Refinement, WhereClause, GroupTotals, EndToEnd, Crashes | the stages composed | any query on a flushed file is answered as row by row over the accepted rows; totals, first error and crash condition on every segment |

Conventions. Go strings and byte slices are both `seq<byte>`. Integers are mathematical with every
wrap written out. Floats are their 64-bit patterns. Four things are parameters, and every result
holds for every choice of them: the 128-bit hash (`Hash`), float addition (`FloatAdd`), the
conversion of a float literal (`ParseFloat`), and the filter size `New` computes. The routines the
source repeats for int64, float64 and string are modelled once, with the column type as a
parameter. `Holdable` and the bound `TWO_63` on a file's length say that a file fits in a Go byte
slice and its rows in an `int`; nothing else is assumed of sizes. Where the executor would
dereference nil or index out of range the model returns the error `Crash`. Elsewhere a panic is
excluded by a precondition: `Add`, `Contains` and `Insert` require a valid filter, which a loaded
filter of more than 2^64-8 bits is not.

Facts about the code that the theorems settle:

- A grouped query over a NaN key does not form one group for each such row, as the comment at
  query/exec.go:444-446 says: its accumulator is looked up again when rows are emitted, is not
  found, and is dereferenced. `Crashes.ParsedQueryCrashesExactly` gives the exact condition on
  every segment, and `Crashes.NaNTableCrashes` a table, a row and a text that meet it.
- `UnmarshalBinary` computes `(m+7)/8` in wrapping arithmetic and so accepts an empty bit array for
  m above 2^64-8; `Bloom.UnmarshalSafe` shows that the accepted filters that can be indexed are
  exactly the others, and `Bloom.UnmarshalAcceptsWrappedSize` gives an input.
- A key column named by the empty string passes `Validate` but is not persisted, so `LoadTable`
  refuses the file the table itself flushed: `Table.LoadOfFlush` is an equation with that case,
  and `Table.EmptyKeyNameDoesNotLoad` a schema that has it.
- The grammar comment at query/parser.go:3-11 is older than the code; `Grammar.Sentence` is the
  grammar the code accepts.
- Decoding is not injective: zero-count runs, split runs and padded varints are accepted.
  `Rle.AcceptedPayloads` says exactly what is.

## Model

| member | source | states |
|---|---|---|
| Uvarint.GetUvarintExact | storage/rle.go:52-56 | reading a varint succeeds with x in n bytes iff the first n bytes are one of the (possibly padded) encodings of x within 64 bits and 10 bytes |
| Words.WordsSpelledOut | storage/segment.go:250-324 | the two- and eight-byte numbers of the format, digit by digit with their weights, lowest byte first |
| Words.TwosComplement | storage/encoding.go:49-66 | the int64/uint64 conversions are those of two's complement and invert each other |
| Uvarint.PutUvarintShortest | storage/rle.go:37-40 | no encoding of a number, padded or not, is shorter than the one the writer appends |
| Encoding.DecodeEncodeValue | storage/encoding.go:49-120 | a value's bytes in front of anything decode to the value and leave the rest |
| Encoding.DecodeEncodeRaw | storage/encoding.go:49-120 | raw decoding inverts raw encoding for every type, NaN bits included |
| Encoding.DecodeRawFixedLength | storage/encoding.go:57-85 | a fixed-width payload is accepted iff its length is a multiple of eight, and holds an eighth as many values |
| Encoding.EncodeRawFixed | storage/encoding.go:49-55 | filling the buffer in place at i*8 gives the concatenation of the values' words |
| Encoding.EncodeRawString | storage/encoding.go:87-96 | appending frames gives the concatenation of the framed strings |
| Encoding.DecodeRawFixed | storage/encoding.go:57-85 | the word loop accepts exactly the payloads that hold the expected number of values, and returns them |
| Encoding.DecodeRawString | storage/encoding.go:98-120 | the offset loop accepts exactly the payloads that split completely into the expected number of strings |
| Rle.RunIsMaximal | storage/rle.go:31-36 | the run the inner loop finds is all one value and cannot be extended |
| Rle.RoundTrip | storage/rle.go:26-179 | decoding an encoded column gives the column back, bit for bit |
| Rle.RowCountDecides | storage/rle.go:47-73 | an encoded column of n rows is accepted for n rows and for no other count |
| Rle.ConcatenatedEncodings | storage/rle.go:47-73 | two encodings end to end decode to the two columns end to end |
| Rle.DecodeConcat | storage/rle.go:47-73 | decoding takes concatenation of any payloads, canonical or not, to concatenation of values, and fails on the whole iff it fails on the second part |
| Rle.AcceptedPayloads | storage/rle.go:47-179 | a payload is accepted for a row count iff it splits completely into runs, in any spelling, whose counts add up to it; the values are the runs expanded |
| Rle.EncodeIsShortest | storage/rle.go:26-179 | every payload accepted as v, with split, empty or padded runs, is at least as long as the encoding of v |
| Rle.SizeBound | storage/rle.go:26-145 | the encoding costs at most one byte a row over raw, and exactly that iff no two neighbours are equal |
| Rle.EncodeRLE | storage/rle.go:26-45 | the nested loops compute the run-by-run encoding |
| Rle.DecodeRLE | storage/rle.go:47-73 | the decoder loop accepts iff the payload decodes completely to the expected number of rows, with its early exits |
| Bloom.PositionIsWalk | bloom/bloom.go:98 | the i-th position is word i, modulo m, of the walk that starts at the first hash and adds the second in wrapping 64-bit arithmetic |
| Bloom.AddExactly | bloom/bloom.go:95-105 | one add on any valid filter sets the bits the first k words of the key's walk fall on, and no other |
| Bloom.TestExactly | bloom/bloom.go:107-116 | a test on any valid filter succeeds iff the first k words of the key's walk fall on set bits |
| Bloom.BitIsBit | bloom/bloom.go:99 | bit j is bit j % 8 of byte j / 8, lowest first |
| Bloom.CountFromFresh | bloom/bloom.go:95-105 | a created filter keeps m and k, has ceil(m/8) bytes and counts every add |
| Bloom.BitsExact | bloom/bloom.go:95-105 | after any adds on a fresh filter a bit is set iff some added key has it among the first k words of its walk, modulo m |
| Bloom.ContainsExact | bloom/bloom.go:95-116 | a key is reported present iff each of the first k words of its walk falls on a bit of some added key; so no added key is ever missed |
| Bloom.OrderIrrelevant | bloom/bloom.go:95-105 | the bits depend on the set of added keys only |
| Bloom.AddKeepsFound | bloom/bloom.go:95-116 | on any valid filter, adding a key makes it found and loses no key found before |
| Bloom.SaturationBound | bloom/bloom.go:95-105 | the number of set bits is at most m and at most k for each add |
| Bloom.MarshalRoundTrip | bloom/bloom.go:150-199 | unmarshalling a marshalled filter gives m, k, nAdded and every bit back |
| Bloom.UnmarshalExactly | bloom/bloom.go:167-199 | exactly the bodies accepted: three fixed fields, any spelling of the number of bytes that follow, these bytes, and the limits on m, k and that number |
| Bloom.UnmarshalSafe | bloom/bloom.go:167-199 | an accepted filter has its ceil(m/8) bytes iff m is at most 2^64-8; above that it has none |
| Bloom.UnmarshalAcceptsWrappedSize | bloom/bloom.go:181-192 | the concrete body of the wrapping case is accepted |
| Bloom.UnmarshalLengthIsFixed | bloom/bloom.go:175-183 | an accepted body with anything appended is refused |
| Bloom.Filter.Add | bloom/bloom.go:95-105 | sets the key's k positions in place, counts the add modulo 2^64, and keeps the filter valid and its array the same object |
| Bloom.Filter.Contains | bloom/bloom.go:107-116 | answers true iff all k positions of the key are set |
| Bloom.Filter.MarshalBinary | bloom/bloom.go:150-163 | writes the fields in the documented layout |
| Bloom.Filter.UnmarshalBinary | bloom/bloom.go:167-199 | accepts iff the body is well formed; on refusal no field changes |
| Types.TypesExactly | storage/buffer.go:49-90 | every int64, every float pattern and every byte string is a value of its type and of no other |
| Types.Validate | storage/types.go:83-99 | accepts iff there is a column, no name occurs twice and the key names a column |
| Types.ColumnIndexUnique | storage/types.go:103-110 | without duplicates every column is found at its own index |
| Buffer.WriteBuffer.constructor | storage/buffer.go:23-43 | starts with an empty slice for each typed column |
| Buffer.WriteBuffer.Append | storage/buffer.go:49-90 | appends the row to every column slice iff every value has its column's type, and otherwise changes nothing |
| Buffer.WriteBuffer.Reset | storage/buffer.go:97-108 | empties every slice and keeps the column set |
| SegmentFormat.SegmentRoundTrip | storage/segment.go:127-460 | parsing what is written gives back version, row count, flags, key name, every column block and the filter, for any combination of the optional blocks |
| SegmentFormat.WrittenColumnReadsBack | storage/segment.go:484-528 | each written column decodes to the buffered column |
| SegmentFormat.ColumnDecodesExactly | storage/segment.go:484-528 | a column reads as the payload of the last block of its name, by that block's encoding tag, as the type of the first column of the name, and only with the right number of values |
| SegmentFormat.RawColumnReadsBack | storage/segment.go:484-528 | a raw block reads back as its column |
| SegmentFormat.TruncationDetected | storage/segment.go:340-460 | every strict prefix of a written segment is refused, whichever optional blocks it has |
| SegmentFormat.PrefixFree | storage/segment.go:127-460 | no written segment is a prefix of a different one |
| SegmentStore.WriteSegment | storage/segment.go:127-244 | writing piece by piece appends exactly the serialized image of the buffer; it fails on too many columns or an unsupported type |
| SegmentStore.ParseSegment | storage/segment.go:340-460 | the offset loop accepts the same bytes with the same contents, and fails with the same error, as the format; the cache starts empty |
| SegmentStore.Segment.ParseColumn | storage/segment.go:394-436 | one round of the column loop records one block, the last one for a repeated name, and moves to its end |
| SegmentStore.Segment.ReadColumn | storage/segment.go:484-528 | the answer is a fresh decode of the block whether or not it was cached; cached columns never change |
| FormatExact.ParseExactly | storage/segment.go:340-460 | parseSegment accepts a byte sequence as an image iff it is the format written out field by field: magic, little-endian numbers, flags and name in version 2 only, columns with lengths in any spelling, and the trailer iff flagged |
| FormatExact.Version1RoundTrip | storage/segment.go:250-460 | a version 1 header, any columns and any bytes behind them are read by both readers as those columns, without flags, key name or filter |
| FormatExact.HeaderErrors | storage/segment.go:250-358 | both readers refuse a short, unmarked or wrongly versioned file with the error for that |
| FormatExact.SkimExactly | storage/segment.go:250-324 | the header reader accepts exactly the files that spell its schema and row count, any encoding tag and any payload length it takes for a negative one included |
| FormatExact.HeaderTruncationDetected | storage/segment.go:250-324 | the header reader refuses a written file cut before the end of its last payload |
| FormatExact.Version1TruncationDetected | storage/segment.go:250-460 | both readers refuse a version 1 file cut anywhere |
| HeaderReader.ReadersAgree | storage/segment.go:250-460 | whenever the full parser accepts bytes, the header reader accepts them with the same schema and row count |
| HeaderReader.ReadSegmentHeader | storage/segment.go:250-324 | the streaming reader computes the skimmed header, and its errors |
| Table.PkBytesInjective | storage/table.go:210-238 | two values of the key column with the same key bytes are the same value, bit for bit |
| Table.InsertExact | storage/table.go:140-176 | a row is accepted iff it fits the schema and its key is not found; then it is appended and its key added; a rejected row changes the rejection count only |
| Table.ReasonExact | storage/table.go:140-176 | each reason of rejection has its exact condition, in the order of the checks |
| Table.PkBytesExactly | storage/table.go:210-238 | a number's key is eight bytes, lowest first, of its two's complement or pattern; a string is its own key |
| Table.FlushFailsExactly | storage/segment.go:127-244 | a flush fails iff there are more than 65535 columns or one of no supported type |
| Table.Accounting | storage/table.go:140-176 | after any inserts the buffer grew by the accepted rows in order, every call was counted once, and the filter got the accepted keys and nothing else, with nAdded growing by exactly their number |
| Table.DuplicateExactly | storage/table.go:140-176 | in a table created with a filter, a fitting row is refused as a duplicate iff each of the first k words of its key's walk falls on a bit of an accepted key; an accepted key always is |
| Table.LoadOfFlush | storage/table.go:108-185 | loading a flush gives the schema and the filter bit for bit with an empty buffer, and is refused exactly without a filter or with an empty key name |
| Table.EmptyKeyNameDoesNotLoad | storage/table.go:108-135 | the flush of an empty table whose key column is named by the empty string is refused |
| Table.Table.Insert | storage/table.go:140-176 | the method takes exactly the step InsertRow describes on the object's whole state |
| Table.Table.Flush | storage/table.go:180-185 | appends the segment of the buffered rows and filter to the writer and changes nothing in the table |
| Table.CreateTable | storage/table.go:80-100 | succeeds iff the schema is valid and the filter can be sized, with an empty buffer and a zeroed filter |
| Table.LoadTable | storage/table.go:108-135 | succeeds on the same bytes and with the same state as LoadState, and is valid iff the file's filter is |
| Lineage.StepKeepsInv | storage/table.go:80-185 | inserting, flushing and loading any earlier file keep: the filter finds every key of the lineage, the keys are distinct, and every file loads so guarded |
| Lineage.NoKeyTwice | storage/table.go:108-176 | after any run of inserts, flushes and loads the keys accepted in the lineage are pairwise distinct, and inserting any of them is refused |
| Lineage.FlushedKeysStayRefused | storage/table.go:108-185 | a key accepted before a flush is refused in every later session that descends from that flush or a later one |
| KeyColumns.FilesHoldNoKeyTwice | storage/table.go:108-185 | after any run, every file's key column reads back, and across the file and the files its sessions were loaded from no key value occurs twice, bit for bit |
| KeyColumns.SeenValuesAreRefused | storage/table.go:108-176 | after any run, a row whose key value is in the session's rows or in any file it descends from is refused as a duplicate |
| KeyColumns.RowsFitTheFile | storage/segment.go:127-244 | a table without repeated keys whose file fits in a byte slice has fewer than 2^63 rows |
| Lexer.LexExact | query/parser.go:198-288 | tokenizing succeeds with a list iff the list tiles the input: increasing spans, only white space between, maximal words and numbers, one EOF at the end |
| Lexer.LexErrorExactly | query/parser.go:198-288 | tokenizing fails at a position iff tokens and white space reach it and no token starts there |
| Lexer.Vocabulary | query/parser.go:185-196 | the keywords and signs as they are written |
| Lexer.Alphabet | query/parser.go:290-294 | white space, digits and the letters of names, listed |
| Lexer.UpperExactly | query/parser.go:274-281 | any casing of a keyword is that keyword: exactly lower-case letters change |
| Lexer.Lex | query/parser.go:198-288 | the index loop terminates and computes the tokenization, or the position of the offending byte |
| Lexer.LexToken | query/parser.go:200-285 | the cases of the loop scan one token |
| Precedence.PrecedenceCorrect | query/parser.go:439-509 | the tree is true iff some maximal stretch of comparisons joined by AND is, under every truth assignment |
| Precedence.ShapeCorrect | query/parser.go:103-118 | one branch a node, at least two children in a group, depth at most two |
| Precedence.LeavesInOrder | query/parser.go:476-509 | the leaves from left to right are the comparisons in source order |
| Precedence.GroupComparisons | query/parser.go:476-490 | the second pass groups comparisons between ORs |
| Precedence.LowerGroups | query/parser.go:492-509 | the third pass builds the tree of the groups |
| Parser.ParseGivesShaped | query/parser.go:315-427 | every parsed query has one of the four forms: grouped iff GROUP BY is present iff its one column is the group column with one aggregate |
| Parser.TokenParser.Advance | query/parser.go:305-311 | the cursor moves by one and never leaves the token list |
| Parser.TokenParser.ParseWhere | query/parser.go:439-509 | the loop of the first pass and the other two compute the WHERE production and move the cursor behind it |
| Parser.TokenParser.ParseProjection | query/parser.go:511-586 | computes the projection production and moves the cursor behind it |
| Parser.TokenParser.ParseGroupedAggregate | query/parser.go:358-383 | computes the grouped-aggregate production and moves the cursor behind it |
| Parser.TokenParser.ParseGroupBy | query/parser.go:387-404 | computes the GROUP BY production and moves the cursor behind it |
| Parser.TokenParser.ParseComparison | query/parser.go:591-617 | computes the comparison production and moves the cursor behind it |
| Parser.TokenParser.ParseQuery | query/parser.go:315-352 | computes the query production with its clause order and rejections |
| Parser.Parse | query/parser.go:144-159 | lexing, parsing and the final EOF check give the parsed query or the first error |
| Parser.ParseIntExactly | query/parser.go:646-666 | an integer token, leading zeros or not, reads as the number its digits write if that is an int64, and is refused otherwise |
| Parser.LeadingZero | query/parser.go:646-666 | a zero in front changes nothing |
| Parser.LiteralExactly | query/parser.go:646-666 | a literal token has a value iff it writes that value |
| Grammar.TreeRecovered | query/parser.go:439-509 | every two-level tree is the tree the passes build from its own flat condition |
| Grammar.ConditionsRecovered | query/parser.go:439-509 | the tree of a flat condition determines the comparisons and the connectives |
| Grammar.ParseExact | query/parser.go:315-667 | on any token list the parser returns q iff q has one of the four forms and the tokens are its sentence, positions included |
| Grammar.ParseTextExact | query/parser.go:144-667 | Parse returns q on a text iff some tiling of the text is the sentence of q |
| Printer.DecimalRoundTrip | query/parser.go:646-666 | the decimal form of any int64, the smallest included, is read back |
| Printer.ParsePrint | query/parser.go:144-667 | printing any expressible query and parsing the text gives the query, positions apart |
| Printer.ParsedIsExpressible | query/parser.go:144-667 | every query Parse returns is expressible, so the previous row covers all of them |
| Compare.MatchesExactly | query/exec.go:234-286 | each of the six operators holds of two values of a type iff the order of the integers, of the encoded numbers or of the dictionary says so |
| Compare.OperatorLaws | query/exec.go:234-286 | trichotomy for values that are no NaN, and only != for the others, NaN given by its exponent and fraction |
| Compare.NaNExactly | query/exec.go:252-268 | the patterns that compare as NaN are those with all exponent bits set and a fraction that is not zero |
| Compare.NaNIsBeyondInfinity | query/exec.go:252-268 | equally, the patterns beyond the infinities |
| Compare.FloatOrderIsNumeric | query/exec.go:252-268 | comparing any two patterns is comparing the numbers they encode, and a NaN is neither less than, equal to nor greater than anything |
| Compare.FloatLandmarks | query/exec.go:252-268 | the patterns of 0, -0, 1, 2, 3 and -3 encode these numbers |
| Compare.KeyEqualExactly | query/exec.go:490-521 | two group keys are one iff they are the same integer, number or string |
| Compare.BytesLessExactly | query/exec.go:270-286 | string comparison is dictionary order on bytes |
| Compare.BytesTransitive | query/exec.go:270-286 | the string order is transitive |
| Aggregate.AddInt64Checked | query/exec.go:419-425 | the sign test on the wrapped sum reports failure iff the mathematical sum is not an int64, and otherwise gives it |
| Aggregate.ExactSumIsSum | query/exec.go:320-335 | the exact sum of int64 cells is the sum of their numbers |
| Aggregate.OverflowsExactly | query/exec.go:320-335 | the sum overflows iff the sum of some first cells is no int64 |
| Aggregate.FloatSumIsFold | query/exec.go:340-354 | the float sum is addition of the patterns from the left, from positive zero |
| Aggregate.SumOfOne | query/exec.go:320-354 | the sum of one cell is the cell, or one addition to zero |
| Aggregate.ExactSumConcat | query/exec.go:320-335 | sums of parts add up |
| Aggregate.FloatSumAppend | query/exec.go:340-354 | one more cell is one more addition |
| Aggregate.OccurrencesExact | query/exec.go:490-521 | the listed keys are keys of rows, pairwise different, and cover every key equal to itself |
| Aggregate.GroupsPartition | query/exec.go:447-552 | member counts of the groups add up to the number of rows, member sums to the exact sum |
| GroupScan.ScanStep | query/exec.go:490-521 | one row creates or updates its own group and no other; keys stay in order of discovery |
| Exec.Evaluate | query/exec.go:111-148 | the recursive evaluation, folding into the first child's vector in place, gives the selection vector or the first error |
| Exec.EvaluateGroup | query/exec.go:115-144 | overwriting acc[i] child by child gives the conjunction or disjunction of the children |
| Exec.CombineInto | query/exec.go:125-142 | the in-place loop leaves the elementwise and/or and does not touch the other vector |
| Exec.ExecCount | query/exec.go:288-304 | counts the selected rows modulo 2^64 |
| Exec.SumInt64 | query/exec.go:318-339 | fails iff some prefix of the selected values, in row order, sums outside int64, and otherwise returns the exact sum |
| Exec.SumFloat64 | query/exec.go:340-354 | folds addition over the selected values in row order, from zero |
| Exec.ExecProjectOn | query/exec.go:359-400 | materializes the selected rows of the columns in order |
| Exec.ScanGroups | query/exec.go:490-521 | the grouping loop keeps the group invariant, and stops on overflow iff a group's sum overflows |
| Exec.EmitGroups | query/exec.go:523-552 | emits each discovered key once with its aggregate, or crashes on a NaN key |
| Exec.ExecGroupedOn | query/exec.go:447-552 | the routine as a whole gives the grouped answer on the picked keys and values |
| Exec.Execute | query/exec.go:49-102 | the answer depends on the contents of the file only and leaves them unchanged, so queries can be repeated in any order |
| Refinement.SelectIsRows | query/exec.go:111-164 | the selection vector marks exactly the rows that satisfy the filter, or both report the same error |
| Refinement.ExecuteIsRowByRow | query/exec.go:49-148 | columnar execution gives the columns, rows, row order and errors of evaluating the query row by row |
| Reference.ResultExactly | query/exec.go:49-552 | every result is over exactly the rows the WHERE text wants, in order, with the described headers and cells: whole rows, named cells, their number, their sum, or one row a key with its group's count or sum |
| Reference.EarlyErrors | query/exec.go:49-189 | a missing projected column, then the first comparison whose column is missing or of another type, with its error |
| Reference.LateErrors | query/exec.go:306-357 | behind these, projections and counts have a result, and SUM fails iff its column has no summable type or some first wanted int64 cells add up to no int64 |
| Reference.GroupErrors | query/exec.go:447-552 | a grouped query's missing column, type mismatch and overflow in a group, each with its exact condition; what is left crashes only over a NaN key and succeeds only without one |
| Reference.StarReturnsRows | query/exec.go:57-61 | SELECT * returns the wanted rows, all of them without WHERE, under the schema's names |
| Reference.ColumnsReturnCells | query/exec.go:359-400 | SELECT a, b returns under these names the cells of the columns so named |
| Reference.SumOfOneRow | query/exec.go:306-357 | SUM over one wanted row is that row's cell |
| WhereClause.KeptExactly | query/exec.go:111-148 | a row is kept iff it satisfies some stretch of comparisons joined by AND in the WHERE text |
| WhereClause.FilterFailsFirst | query/exec.go:111-189 | on every segment a filter fails with the failure of its first failing comparison in source order, a failed check or a column that does not decode, and selects iff none fails |
| WhereClause.FirstErrorExactly | query/exec.go:111-148 | the first error of a list is that of the one comparison that fails behind only passing ones |
| WhereClause.FilterFirstError | query/exec.go:111-189 | where all columns decode, a filter fails with the first failed check in source order |
| WhereClause.ComparisonChecked | query/exec.go:150-189 | a comparison passes its checks iff the first column of its name exists and has the literal's type, and each of the three errors has its exact condition, repeated names included |
| GroupTotals.GroupCountsAddUp | query/exec.go:288-552 | on every segment the counts of a grouped query add up to COUNT(*) under the same WHERE |
| GroupTotals.GroupSumsAddUp | query/exec.go:306-552 | on every segment the int64 sums of a grouped query add up to SUM under the same WHERE when both succeed |
| GroupTotals.GroupCountsAddUpOnRows | query/exec.go:288-552 | the same for row-by-row evaluation |
| GroupTotals.GroupSumsAddUpOnRows | query/exec.go:306-552 | the same for row-by-row evaluation |
| EndToEnd.FlushedHoldsRows | storage/segment.go:127-528 | a parsed flush of any valid table has the table's columns, and each reads back as that column of the rows |
| EndToEnd.QueryOfFlush | query/exec.go:49-148 | any query on the parsed flush of a table is answered as row by row over the table's rows |
| EndToEnd.QueryOfInserts | storage/table.go:140-185 | any query on the flush after any inserts is answered as row by row over the accepted rows in insertion order |
| Crashes.ParsedQueryCrashesExactly | query/exec.go:49-148 | on every segment a parsed query never reaches the malformed branch, and crashes iff it is grouped, its filter selects, its columns read, no int64 group sum overflows and some selected row has a NaN key |
| Crashes.ParsedQueryCrashesOnRows | query/exec.go:447-552 | the same condition for row-by-row evaluation |
| Crashes.NaNTableCrashes | query/exec.go:498-541 | an input: a created table with one NaN row, flushed, parsed and asked the printed grouped query, crashes |
| EndToEnd.ResultOfFlush | query/exec.go:49-552 | so every result on the parsed flush of a table is the described one over the table's rows |
| EndToEnd.StarOfFlush | query/exec.go:57-61 | SELECT * on the parsed flush returns the wanted rows of the table, all without WHERE |
| EndToEnd.SumOfOneRowOfFlush | query/exec.go:306-357 | SUM over one wanted row of the parsed flush is that row's cell |
| EndToEnd.Pipeline | query/exec.go:49-102 | the objects end to end: create, insert, flush, parse, query gives the row-by-row answer, and none for a text that does not parse |

## Left out

- `cmd/uniqcol` and `bench`: flags, CSV, terminal output, random data, timing.
- File access and I/O errors: a writer is an appended byte sequence that never fails, `OpenSegment` is parsing of bytes, the header stream is a cursor over bytes, `Close` does nothing.
- The sizing formulas of `New` and `EstimatedFPR`: logarithms and powers; a created filter has any 1 <= m <= 2^63 and 1 <= k <= 30.
- FNV-1a: the hash is any function from bytes to two 64-bit words.
- Float rounding: float addition is any function on patterns, so float sums are stated as a fold in row order; a NaN counts as unordered whatever its bits.
- `ParseFloat` and float printing: float literals convert by any partial function of their text, and the printer uses some text that converts to the bits.
- Error wording and wrapping: errors are kinds, with the byte position for lexer and parser errors.
- Capacities, allocation sizes and out-of-memory panics, among them `make` with a count read from a file.
- Concurrency: the source has none.
- Parser.Parse: the positions in parser errors are computed as in the source, but only those of lexer errors have a theorem of their own.
- Getters (`Stats`, `Schema`, `Bloom`, `ColumnInfo`, `Version` and the like): they would only add easy members.
- Values of `ProjectionKind`, `FilterOp` or `AggregateKind` outside the declared constants: not representable, so the executor's unknown-kind branches are not part of the model.
- The type switches on a decoded column: a column is a sequence of tagged values of one type, and the three typed maps of the buffer are one map, so their mismatch branches are not part of the model.
- Crashes.ParsedQueryCrashesExactly: does not count panics of `make` with a row count a file claims but cannot hold; the model answers that the column does not decode.
- Bloom.Filter.UnmarshalBinary: promises a new bit array. The source overwrites the receiver's own array when that has room; its only caller passes a zero Filter, which has none.
- SegmentStore.WriteSegment: takes the schema of the buffer instead of a second schema argument, which in the source is always the same one; its raw branch is not modelled because `chooseEncoding` always picks run-length.
- Exec.EvaluateGroup: the And and Or branches of the source are one method with a flag.
- Row counts of 2^63 and more, whose conversion to `int` goes negative: EndToEnd assumes `Holdable`.
