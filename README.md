# go-doc-parser, modelled in Dafny

go-doc-parser reads border-guard duty reports kept as `.docx` tables and
turns them into a summary. Each report holds one table. Each row of the
table describes one flight (`політ`): the hour it ended, the unit that
flew it, a free-text comment and a hint column.

This project models that reporting core:

- `NameParsing` — `internal/parser/name_parser.go`. A rune cursor
  (`NameParser`) reads unit names such as `віпс «Шершенці»`. It produces
  the qualifier, picked longest-first and case-insensitively from a fixed
  list, and the name without its quotation marks.
- `TableParsing` — `internal/parser/table_parser.go`. It turns the body
  rows of the first table into records: end hour, qualified name plus hint,
  and the comment lines that are kept.
- `Processing` and `ProcessingReport` — `internal/processor/processor.go`.
  A `Processor` counts records against a dictionary of known names.
  Anything it does not know is counted per identity, and comments are
  collected per identity. Over all files, the processor builds the
  per-page groups and the overall totals, the unknown totals, the
  footnotes and the numbered summary text.
- `Generator` — `internal/generator/plural.go`. The Ukrainian one/few/many
  plural chooser used in the summary.
- `Entity` — the record types of `internal/entity/entity.go`.
- `Text` — the parts of Go's `unicode`, `strings` and `strconv` that the
  core calls: `ToUpper`, `IsSpace`, the `Quotation_Mark` table, `Fields`,
  `Join`, `Split` and `%d`.

The service also sizes uploaded images with the vendored
`github.com/fumiama/imgsz` decoders. Each one reads only an image's header
and returns its width and height:

- `ByteStream` — `io.Reader`, `io.ReadFull`, the errors and `Size`.
- `Gif` — `gif.go`.
- `Png` — `png.go`, with the chunk CRC-32 written out.
- `Jpeg` — `jpg.go`, including its 4096-byte read buffer.
- `Webp` and `WebpProperties` — `webp.go`. This covers the RIFF chunk
  reader with its stale-reader rule, the VP8, VP8L and VP8X headers, and
  the VP8L little-endian bit reader.

The code that updates state in place is modelled as classes with the
same fields and methods as the Go code: the name parser's cursor, the
processor's maps, the decoders' buffers and the RIFF reader. Each method
is proved against a function that describes what it computes. Further
lemmas on those functions state what the source promises: round trips,
bounds, error cases, and the identity each count and comment ends up
under.

## Model

| member | source | states |
|---|---|---|
| NameParsing.NameParser.MatchChar | internal/parser/name_parser.go:14-71 | The result is a longest option that matches at the cursor, comparing runes after ToUpper. It is "" when none matches or the cursor is at the end. The cursor moves by exactly the result's length. Go's map order is left open. |
| NameParsing.NameParser.ScanColumn | internal/parser/name_parser.go:32-62 | One column of the scan keeps the invariant: the marks say which options agree so far, and `longest` is a longest full match found so far. |
| NameParsing.LongestMatchIsLongest | internal/parser/name_parser.go:14-71 | The reference longest match satisfies the longest-match predicate that MatchChar's result meets. |
| NameParsing.LongestMatchUnique | internal/parser/name_parser.go:59-61 | When no two options are equal up to case, there is only one longest match, so map order cannot change the result. |
| NameParsing.CandidatesCaseDistinct | internal/parser/name_parser.go:117 | The eleven qualifiers ParseName offers are pairwise different up to case. |
| NameParsing.CaseFoldPrefixAt | internal/parser/name_parser.go:41-49 | An option is a case-folded prefix exactly when it fits and every rune agrees after ToUpper. |
| NameParsing.MatchesAtFolded | internal/parser/name_parser.go:41-61 | A column-by-column match (non-empty, fits, every rune agrees after ToUpper) is exactly the recursive case-folded prefix test on the rest of the input. |
| NameParsing.AgreesStep | internal/parser/name_parser.go:41-61 | One column of the scan keeps an option marked exactly when its rune there agrees. Reaching the option's last rune means a full match. |
| NameParsing.MismatchAt | internal/parser/name_parser.go:46-48 | A rune that differs after ToUpper rules the option out. |
| NameParsing.LongestMatchIs | internal/parser/name_parser.go:14-71 | With case-distinct options, any longest match is the reference one. |
| NameParsing.SkipSpaceFrom | internal/parser/name_parser.go:73-82 | The cursor ends past exactly the run of Unicode spaces at the position, and stops on a non-space or at the end. |
| NameParsing.NameParser.SkipSpace | internal/parser/name_parser.go:73-82 | The recursive skip leaves the cursor where SkipSpaceFrom says. |
| NameParsing.TrimQuotesAsWrittenFaults | internal/parser/name_parser.go:84-109 | The source's trimQuotes faults exactly when the remainder is one quotation mark: `out` is empty at line 99. |
| NameParsing.TrimQuotesFaultWitness | internal/parser/name_parser.go:93-99 | On "«" the as-written trimQuotes faults, and the corrected one returns "". |
| NameParsing.TrimQuotesAgrees | internal/parser/name_parser.go:84-109 | Wherever the source's trimQuotes returns, the corrected one returns the same runes. |
| NameParsing.TrimQuotesFrom | internal/parser/name_parser.go:84-109 | An exhausted cursor gives "". Otherwise the result is never longer than the rest of the input. |
| NameParsing.NameParser.TrimQuotes | internal/parser/name_parser.go:84-109 | Returns the corrected trimQuotes of the rest of the input and moves the cursor to the end. |
| NameParsing.TrimQuotesWrapped | internal/parser/name_parser.go:93-104 | A name between two quotation marks comes back without them. |
| NameParsing.TrimQuotesUnquoted | internal/parser/name_parser.go:93-104 | A remainder that neither starts nor ends with a quotation mark is kept whole. |
| NameParsing.TrimQuotesShape | internal/parser/name_parser.go:93-104 | The result is one slice of the rest. At most one leading mark is dropped, exactly when there is one, and at most one trailing mark. |
| NameParsing.QualifierTokens | internal/parser/name_parser.go:116-132 | Every token the loop collects is a non-empty option; the loop stops at or after its start, never beyond the input, and past all whitespace even when nothing matched. |
| NameParsing.QualifierTokensUnfold | internal/parser/name_parser.go:116-132 | One round: a longest match, then the spaces after it. An empty match ends the loop; otherwise the match is a token and the loop goes on. |
| NameParsing.QualifierTokensStep | internal/parser/name_parser.go:116-132 | With case-distinct options, one round of the loop consumes the match and the spaces after it, and strictly advances when the match is non-empty. |
| NameParsing.NameParser.NextQualifier | internal/parser/name_parser.go:117-127 | One round of ParseName's loop, tied to QualifierTokens. |
| NameParsing.NameParser.ReadQualifiers | internal/parser/name_parser.go:116-132 | The loop's tokens and the final cursor position are QualifierTokens. |
| NameParsing.NameParser.ParseName | internal/parser/name_parser.go:111-147 | The qualifier is the tokens joined by single spaces, and the name is the quote-trimmed rest. The cursor ends at the end of the input. |
| NameParsing.TestOptionsCaseDistinct | internal/parser/name_parser_test.go:25 | The four options of the matcher test are case-distinct. |
| NameParsing.LongerOptionMatches | internal/parser/name_parser_test.go:17-25 | On "ГОРВ ВАЗ 123" the longest match is "ГОРВ ВАЗ". |
| NameParsing.LongerOptionFullMatch | internal/parser/name_parser_test.go:17-25 | "ГОРВ ВАЗ" matches "ГОРВ ВАЗ 123" in full. |
| NameParsing.ShorterOptionMatches | internal/parser/name_parser_test.go:16-25 | On "ГОРВ 123" the longest match is "ГОРВ". |
| NameParsing.MatchCharPrefersLonger | internal/parser/name_parser_test.go:16-25 | The reference match picks "ГОРВ ВАЗ" over "ГОРВ" when both fit, and "ГОРВ" when only it fits. |
| NameParsing.UpperCaseQualifierMatches | internal/parser/name_parser_test.go:58 | "ВПС" in capitals matches the candidate "впс". |
| NameParsing.ExtendedCQualifierMatches | internal/parser/name_parser.go:46 | The Cyrillic Extended-C letter U+1C83 upper-cases to С, so "вп\u1C83" matches the candidate "впс" as in Go. |
| NameParsing.NothingMatchesAtGuillemet | internal/parser/name_parser_test.go:58 | No candidate matches at "«Степанівка»". |
| NameParsing.SpaceBeforeName | internal/parser/name_parser_test.go:58 | Skipping spaces after "ВПС" stops at the guillemet. |
| NameParsing.NameInGuillemets | internal/parser/name_parser_test.go:58 | The name "Степанівка" is read out of its guillemets. |
| NameParsing.ParseNameKeepsCandidateSpelling | internal/parser/name_parser_test.go:57-58 | "ВПС «Степанівка»" parses to qualifier "впс" and name "Степанівка". The qualifier is spelt as the candidate, not as the input. |
| NameParsing.CandidateToken | internal/parser/name_parser.go:116-132 | With case-distinct options, when an option matches at the cursor and no longer option does, the token list there is that option followed by the tokens after the spaces that follow it. |
| NameParsing.HeadMismatch | internal/parser/name_parser.go:46-48 | A candidate whose first rune differs from the input's under upper-casing does not match there. |
| NameParsing.MixedTokenAt0 | internal/parser/name_parser_test.go:67 | On the mixed input the qualifier tokens are "ГОРВ", "ВАК", "2", "ПРИКЗ", "2", "ПРИКЗ". The glued "2ПРИКЗ" is split in two, and scanning stops at the opening quote. |
| NameParsing.MixedTokensEnd | internal/parser/name_parser_test.go:67 | No candidate matches at the opening straight quote of the mixed input, so the loop ends there with no more tokens. |
| NameParsing.MixedName | internal/parser/name_parser_test.go:67 | From the opening straight quote, the trimmed name is "Тест". |
| NameParsing.ParseNameMixedQualifiers | internal/parser/name_parser_test.go:67 | `ГОРВ ВАК 2ПРИКЗ 2 ПРИКЗ "Тест"` parses to those six qualifiers joined by single spaces and the name "Тест" with its straight quotes removed. |
| TableParsing.CollectComments | internal/parser/table_parser.go:38-51 | The loop over cell 8 keeps the same lines as CommentLines. |
| TableParsing.CommentLinesAppend | internal/parser/table_parser.go:38-51 | The kept lines of two runs of paragraphs are the kept lines of each, in order. |
| TableParsing.CommentLinesKept | internal/parser/table_parser.go:40-50 | Every kept line is a paragraph with its whitespace collapsed. It is non-empty, not "ОПДК не виявлено", and has no newline. |
| TableParsing.KeptParagraphAppears | internal/parser/table_parser.go:40-50 | A paragraph whose collapsed form is kept does appear among the lines. |
| TableParsing.CommentSplitsIntoLines | internal/parser/table_parser.go:38-59 | Splitting the joined comment at "\n" gives back exactly the kept lines. |
| TableParsing.RowRecordFields | internal/parser/table_parser.go:12-62 | A row yields a record exactly when cell 5 starts with two digits. The record then holds ParseName of cell 6, the hint from its second paragraph or "", the two-digit hour, and the joined comment lines. |
| TableParsing.ParseRowsAppend | internal/parser/table_parser.go:12-63 | Rows yield records independently and in order. |
| TableParsing.ParseRowsBounds | internal/parser/table_parser.go:12-63 | At most one record per row, and every end hour is below 100. |
| TableParsing.ParseRowsFromRows | internal/parser/table_parser.go:12-63 | Every record comes from some row. |
| TableParsing.TableRecords | internal/parser/table_parser.go:11-66 | A table yields at most one record per body row, each with an end hour below 100. |
| TableParsing.HeaderIgnored | internal/parser/table_parser.go:12 | The header row never changes the records. |
| TableParsing.ParseTable | internal/parser/table_parser.go:11-66 | The loop returns TableRecords of the table. |
| TableParsing.FindFirstTable | internal/parser/table_parser.go:68-77 | Returns None exactly when the body holds no table. Otherwise it returns the first table item. |
| Processing.Processor.Seed | internal/processor/processor.go:46-50 | Every dictionary name gets a zero counter. Nothing else changes. |
| Processing.Processor.Process | internal/processor/processor.go:152-174 | The new counters and comments are ProcessAll of the old ones over the records, in order. |
| Processing.ProcessKeepsKnownKeys | internal/processor/processor.go:159-172 | Processing never adds or removes a known name. |
| Processing.ProcessCountsKnown | internal/processor/processor.go:159-172 | A known name's counter grows by the number of records carrying that name, whatever their hint. |
| Processing.ProcessCountsUnknown | internal/processor/processor.go:159-164 | An identity outside the known names grows by its number of records. Any other identity's unknown count is unchanged. |
| Processing.ProcessKeepsApart | internal/processor/processor.go:159-164 | Unknown identities never carry a known name. |
| Processing.ProcessFilesComments | internal/processor/processor.go:159-170 | A known record's non-empty comment goes under (name, ""). An unknown record's comment, empty or not, goes under its full identity. A known name with a hint gets no comments. |
| Processing.FreshUnknownCommentCount | internal/processor/processor.go:159-164 | For an unknown identity, the comment count, the counter and the record count agree. |
| Processing.ProcessCountsEveryRecord | internal/processor/processor.go:152-174 | Every record increments exactly one counter. |
| Processing.IDComments | internal/processor/processor.go:163 | An identity has one comment per record carrying it. |
| Processing.MapSumRemove | internal/processor/processor.go:152-174 | A map's total does not depend on which key is taken out first. |
| Processing.MapSumUpdate | internal/processor/processor.go:162 | Setting one key moves the total by the difference. |
| Processing.FoldComments | internal/processor/processor.go:54-60 | The overall comments gain each page identity's non-empty comments, whatever the map order. |
| Processing.AppendNonEmpty | internal/processor/processor.go:55-59 | Only the identity's own comments change: its non-empty comments are appended in order. |
| Processing.BuildGroups | internal/processor/processor.go:66-95 | The page's groups are KnownGroups, and each group total is added under the group's identity. |
| Processing.ListUnknown | internal/processor/processor.go:97-100 | The page's unknown entries list the unknown map, and their counts are added to the running totals. |
| Processing.SummarizeGroups | internal/processor/processor.go:105-125 | The summary text, the totals and the remaining map are Summarize's. |
| Processing.ListEntries | internal/processor/processor.go:127-134 | The entries list every key of the map exactly once, with its value, in some order. |
| Processing.ListFootnotes | internal/processor/processor.go:136-138 | The footnotes list every comment identity exactly once, with its comments, in some order. |
| Processing.Assemble | internal/processor/processor.go:18-143 | One page per file, in order, each built from that file's records. The summary and the totals follow Summarize. The unknown totals list what is left. The footnotes list every comment identity. |
| ProcessingReport.SeededKeys | internal/processor/processor.go:46-50 | The seeded names are exactly the dictionary's names. |
| ProcessingReport.ProcessUnknownKeys | internal/processor/processor.go:159-164 | An identity is among the unknown exactly when it already was, or its name is unknown and it occurs. |
| ProcessingReport.PageTallyKnown | internal/processor/processor.go:40-52 | On a page the known counters are the dictionary's names, each with its number of records. |
| ProcessingReport.PageTallyUnknown | internal/processor/processor.go:40-52 | On a page an identity is unknown exactly when its name is outside the dictionary and it occurs. Its unknown count is then its number of records. |
| ProcessingReport.PageTallyComments | internal/processor/processor.go:40-52 | Where a page files its comments: (name, "") for dictionary names, the full identity otherwise, and nothing for a dictionary name with a hint. |
| ProcessingReport.CountInAdd | internal/processor/processor.go:71-84 | Adding a name not yet counted adds its records. |
| ProcessingReport.GroupTotalCounts | internal/processor/processor.go:66-84 | A group of distinct names totals the records that carry one of them. |
| ProcessingReport.PageGroups | internal/processor/processor.go:66-95 | Group i lists each of its names with that name's record count. With distinct names its total counts the group's records. |
| ProcessingReport.AddGroupTotalsOther | internal/processor/processor.go:86 | Group totals touch only the group identities. |
| ProcessingReport.AddGroupTotalsKeys | internal/processor/processor.go:86 | After a page, the running totals hold the old keys plus every group identity. |
| ProcessingReport.AddGroupTotalsHead | internal/processor/processor.go:86 | With distinct first names, each group identity gains the group's total. |
| ProcessingReport.AddCountsAt | internal/processor/processor.go:97-100 | Adding the unknown counts adds per identity. |
| ProcessingReport.AccumulateGroupTotal | internal/processor/processor.go:23-103 | Over all files, a group identity's total is the sum of that group's page totals. |
| ProcessingReport.AccumulateUnknown | internal/processor/processor.go:23-103 | Over all files, an identity with a name outside the dictionary totals its records on every page, and has an entry exactly when it occurs. |
| ProcessingReport.AccumulateKeys | internal/processor/processor.go:23-103 | Every overall key is a group identity or carries a name outside the dictionary. |
| ProcessingReport.NonEmptyKeeps | internal/processor/processor.go:56 | The comment filter keeps exactly the non-empty strings. |
| ProcessingReport.MergeCommentsAt | internal/processor/processor.go:54-60 | Merging appends one identity's non-empty comments to its running list. |
| ProcessingReport.AccumulateComments | internal/processor/processor.go:23-103 | Over all files: a dictionary name collects the non-empty comments of its records, a name outside the dictionary collects per identity, and a dictionary name with a hint collects nothing. |
| ProcessingReport.AccumulateCommentsNonEmpty | internal/processor/processor.go:54-60 | Every footnote holds at least one comment, and no comment is empty. |
| ProcessingReport.SummarizeRest | internal/processor/processor.go:107-112 | Summarizing removes exactly the group identities from the totals. |
| ProcessingReport.SummarizeLength | internal/processor/processor.go:107-125 | There is one total per group. |
| ProcessingReport.SummarizeTotals | internal/processor/processor.go:107-125 | Total i is group i's identity with its count as left by the earlier groups' deletes. |
| ProcessingReport.RepeatedHeadReportsZero | internal/processor/processor.go:108-112 | A group whose first name repeats an earlier group's reports 0, because the earlier group deleted the entry. |
| ProcessingReport.ReportTotals | internal/processor/processor.go:105-125 | With distinct first names, total i is the group's flights over all files. |
| ProcessingReport.ReportUnknown | internal/processor/processor.go:127-134 | The unknown totals hold exactly the occurring identities whose names are outside the dictionary, each with its count over all files. |
| ProcessingReport.SummarizeStep | internal/processor/processor.go:107-122 | Each group appends one numbered summary line. |
| ProcessingReport.SummaryLineFacts | internal/processor/processor.go:110-119 | Line k+1 reports the group's flights over all files and the number of its comments. |
| ProcessingReport.ReportSummary | internal/processor/processor.go:105-122 | The summary is the numbered lines "N. name - польотів: total, comment;", one per group, in order. |
| Generator.TruncMod | internal/generator/plural.go:7-8 | Go's remainder: magnitude below the divisor, Euclidean for n >= 0, never positive for n < 0. |
| Generator.TruncModOdd | internal/generator/plural.go:7-8 | Negating the dividend negates the remainder. |
| Generator.FormMatchesDigits | internal/generator/plural.go:5-21 | For n >= 0 the remainder rule is the rule on the last two decimal digits: one for ..1 but not ..11; few for ..2-4 but not ..12-14; many otherwise. |
| Generator.NegativeIsMany | internal/generator/plural.go:7-17 | Every negative n takes the "many" form. |
| Generator.FormPeriodic | internal/generator/plural.go:7-17 | For n >= 0 the form depends only on n mod 100. |
| Generator.FormExamples | internal/generator/plural.go:12-17 | 1, 21 and 101 are one; 11 and 111 are many; 2, 4 and 22 are few; 12, 14, 0, 5 and -1 are many. |
| Generator.PluralShape | internal/generator/plural.go:19 | The text is the digits of n, one space and one of the three forms. Reading the digits back gives n. |
| Generator.CasesExamples | internal/processor/processor.go:16 | The report's "випадку/випадках" forms for 1, 3 and 11. |
| Text.Upper | internal/parser/name_parser.go:46 | Rune-wise ToUpper, keeping the length. |
| Text.WordLength | internal/parser/table_parser.go:42 | The leading run of non-space runes ends at a space or at the end. |
| Text.Fields | internal/parser/table_parser.go:42 | strings.Fields yields only non-empty words without spaces. |
| Text.FieldsJoin | internal/parser/table_parser.go:42 | strings.Fields undoes a single-space join of words. |
| Text.NormalizeSpaceShape | internal/parser/table_parser.go:42 | Collapsed text holds only ' ' as whitespace, and neither starts nor ends with a space. |
| Text.NormalizeSpaceIdempotent | internal/parser/table_parser.go:42 | Collapsing whitespace twice changes nothing. |
| Text.SplitJoin | internal/parser/table_parser.go:59 | Splitting a join of separator-free parts gives the parts back. |
| Text.NatToString | internal/generator/plural.go:19 | "%d" of n >= 0 is non-empty decimal digits, ending in n's last digit. |
| Text.NatToStringRoundTrip | internal/generator/plural.go:19 | Reading "%d" of n back gives n, with no leading zero. |
| Text.TwoDigitPrefix | internal/parser/table_parser.go:13-22 | The end hour exists exactly when the cell starts with two digits. It is then their value, below 100. |
| ByteStream.ReadFullFrom | vendor/github.com/fumiama/imgsz/gif.go:16-17 | io.ReadFull succeeds exactly when n bytes are left and then delivers them. It reports EOF on an empty stream and ErrUnexpectedEOF on a short one. |
| ByteStream.Reader.ReadFull | vendor/github.com/fumiama/imgsz/gif.go:17 | The read loop delivers what ReadFullFrom says and leaves the stream there. |
| ByteStream.LittleEndianBound | vendor/github.com/fumiama/imgsz/webp.go:40-42 | A little-endian value of k bytes is below 256^k. |
| ByteStream.BigEndianBound | vendor/github.com/fumiama/imgsz/png.go:105-106 | A big-endian value of k bytes is below 256^k. |
| Gif.NoEOF | vendor/github.com/fumiama/imgsz/gif.go:16-22 | readFull never reports EOF. It fails exactly when io.ReadFull does, and passes every other error through. |
| Gif.GifDecoder.ReadHeaderAndScreenDescriptor | vendor/github.com/fumiama/imgsz/gif.go:35-48 | The error and the size are ScreenDescriptor's. The version is recorded once 13 bytes are read. |
| Gif.ScreenDescriptorOutcomes | vendor/github.com/fumiama/imgsz/gif.go:36-43 | Fewer than 13 bytes is "gif: reading header" with ErrUnexpectedEOF. An unknown version is reported with its six bytes. It succeeds exactly for GIF87a or GIF89a. |
| Gif.ScreenDescriptorFields | vendor/github.com/fumiama/imgsz/gif.go:44-45 | Width and height are the little-endian 16-bit fields at offsets 6 and 8. |
| Gif.ScreenDescriptorIgnoresTail | vendor/github.com/fumiama/imgsz/gif.go:46 | Once 13 bytes are there, only the first ten decide the result. |
| Gif.EncodeDecode | vendor/github.com/fumiama/imgsz/gif.go:35-48 | Encoding a known version, a width and a height, then decoding, gives the width and height back. |
| Gif.DecodeEncode | vendor/github.com/fumiama/imgsz/gif.go:35-48 | Decoding, then encoding what was found, gives the first ten bytes back. |
| Png.Crc32 | vendor/github.com/fumiama/imgsz/png.go:190 | The checksum is an unsigned 32-bit number. |
| Png.Crc32KnownAnswer | vendor/github.com/fumiama/imgsz/png.go:190 | The bitwise definition gives the IEEE CRC-32 of the one-byte input "a", 0xE8B7BE43, as hash/crc32 does. |
| Png.CrcUpdateAppend | vendor/github.com/fumiama/imgsz/png.go:158-183 | Feeding the CRC two runs of bytes is feeding it their concatenation. |
| Png.Int32 | vendor/github.com/fumiama/imgsz/png.go:105-106 | int32(Uint32) is non-negative exactly when the top bit is clear. |
| Png.Unexpected | vendor/github.com/fumiama/imgsz/png.go:214-227 | decodepng never reports EOF. |
| Png.SkipAt | vendor/github.com/fumiama/imgsz/png.go:174-182 | Skipping succeeds exactly when the data is there and ends after it. Otherwise the error is EOF or ErrUnexpectedEOF. |
| Png.VerifyChecksumAt | vendor/github.com/fumiama/imgsz/png.go:186-194 | On success four bytes are consumed. |
| Png.ParseSizeAt | vendor/github.com/fumiama/imgsz/png.go:152-184 | A chunk that is skipped without error consumes at least its 12 framing bytes. |
| Png.SkippedAt | vendor/github.com/fumiama/imgsz/png.go:173-183 | A skipped chunk ends after its data and its CRC, and never reports a size. |
| Png.PngDecoder.ResetCrc | vendor/github.com/fumiama/imgsz/png.go:158 | The CRC input is emptied and nothing else changes. |
| Png.PngDecoder.WriteCrc | vendor/github.com/fumiama/imgsz/png.go:159 | The bytes are appended to the CRC input and nothing else changes. |
| Png.PngDecoder.VerifyChecksum | vendor/github.com/fumiama/imgsz/png.go:186-194 | Reads four bytes and compares them with the CRC of the bytes written, as VerifyChecksumAt says. |
| Png.PngDecoder.CheckHeader | vendor/github.com/fumiama/imgsz/png.go:196-205 | Reads and checks the 8-byte signature, as CheckHeaderAt says. |
| Png.PngDecoder.ParseIHDR | vendor/github.com/fumiama/imgsz/png.go:86-113 | Error, position and size are IhdrAt's. |
| Png.PngDecoder.CheckIHDR | vendor/github.com/fumiama/imgsz/png.go:94-112 | The field checks and the checksum of IHDR, as IhdrFieldsAt says. The interlace value is 0 or 1. |
| Png.PngDecoder.ParseSize | vendor/github.com/fumiama/imgsz/png.go:152-184 | Result, error, position and size are ParseSizeAt's. Only IHDR moves the stage. |
| Png.PngDecoder.SkipChunk | vendor/github.com/fumiama/imgsz/png.go:173-183 | The end of parseSize for a skipped chunk, as SkippedAt says. |
| Png.PngDecoder.SkipData | vendor/github.com/fumiama/imgsz/png.go:174-182 | The loop of 4096-byte reads is SkipAt. Every byte read goes to the CRC. |
| Png.DecodePngFrom | vendor/github.com/fumiama/imgsz/png.go:209-240 | The size and error are those of DecodePng. |
| Png.BE4RoundTrip | vendor/github.com/fumiama/imgsz/png.go:157 | binary.BigEndian.Uint32 reads back what BE4 writes. |
| Png.ChunkLayout | vendor/github.com/fumiama/imgsz/png.go:154-162 | A chunk's length, type, data and CRC sit where parseSize reads them. |
| Png.SkipsChunk | vendor/github.com/fumiama/imgsz/png.go:170-183 | A well-formed non-IHDR chunk with a correct CRC is skipped whole. |
| Png.RejectsBadChecksum | vendor/github.com/fumiama/imgsz/png.go:183-192 | A skipped chunk with a wrong CRC gives "invalid checksum". |
| Png.IhdrChunkDecodes | vendor/github.com/fumiama/imgsz/png.go:86-113 | A well-formed IHDR chunk yields its width and height. |
| Png.EncodeDecode | vendor/github.com/fumiama/imgsz/png.go:209-240 | The signature followed by a valid IHDR decodes to its width and height. |
| Png.RejectsNonPng | vendor/github.com/fumiama/imgsz/png.go:196-218 | Fewer than 8 bytes give ErrUnexpectedEOF, and a wrong signature gives "not a PNG file". |
| Png.RejectsLongChunk | vendor/github.com/fumiama/imgsz/png.go:170-172 | A non-IHDR length above 0x7fffffff gives "Bad chunk length: N". |
| Png.IhdrOutOfOrder | vendor/github.com/fumiama/imgsz/png.go:163-166 | An IHDR chunk after the start stage is out of order. |
| Png.RejectsHighBitDimension | vendor/github.com/fumiama/imgsz/png.go:105-108 | A dimension with its top bit set is negative as int32 and gives "non-positive dimension". |
| Png.DecodeChunksFacts | vendor/github.com/fumiama/imgsz/png.go:220-239 | A decoded size lies in 1..2^31-1. The chunk loop never lets EOF out, and never reports an ordering error. |
| Png.DecodePngFacts | vendor/github.com/fumiama/imgsz/png.go:209-240 | Success implies the signature and a size in 1..2^31-1, and EOF is never reported. |
| Jpeg.ScanWindow | vendor/github.com/fumiama/imgsz/jpg.go:237-263 | The two-byte window slides forward and fails only with EOF at the end. |
| Jpeg.SkipFill | vendor/github.com/fumiama/imgsz/jpg.go:269-276 | Fill bytes are skipped. The marker found is not 0xff, and the only failure is EOF at the end. |
| Jpeg.NextMarkerAt | vendor/github.com/fumiama/imgsz/jpg.go:233-276 | A marker found is not 0xff, and at least two bytes are consumed. |
| Jpeg.MarkerStep | vendor/github.com/fumiama/imgsz/jpg.go:277-324 | Going on after a marker never moves backwards or past the end. |
| Jpeg.SegmentStep | vendor/github.com/fumiama/imgsz/jpg.go:232-325 | Each round of decode's loop advances strictly. |
| Jpeg.JpegDecoder.Fill | vendor/github.com/fumiama/imgsz/jpg.go:81-99 | The buffer is refilled with at least one byte, or EOF when the stream is done. The logical position is kept. |
| Jpeg.JpegDecoder.ReadByte | vendor/github.com/fumiama/imgsz/jpg.go:118-128 | Returns the next byte of the stream, or EOF at the end. |
| Jpeg.JpegDecoder.Take | vendor/github.com/fumiama/imgsz/jpg.go:142-144 | Copies min(want, buffered) bytes out of the buffer. |
| Jpeg.JpegDecoder.ReadFull | vendor/github.com/fumiama/imgsz/jpg.go:132-156 | Fills tmp with the next n bytes, or reports ErrUnexpectedEOF at the end. |
| Jpeg.JpegDecoder.Ignore | vendor/github.com/fumiama/imgsz/jpg.go:159-186 | Skips n bytes, or reports ErrUnexpectedEOF at the end. |
| Jpeg.JpegDecoder.ReadFrameHeader | vendor/github.com/fumiama/imgsz/jpg.go:203-205 | Reads the n-byte frame header and hands back its first six bytes as they stand in the stream, or ErrUnexpectedEOF when fewer than n bytes are left; the decoder's other fields do not change. |
| Jpeg.JpegDecoder.ProcessSOF | vendor/github.com/fumiama/imgsz/jpg.go:189-217 | The error, size and component count are ProcessSOFAt's. |
| Jpeg.JpegDecoder.SlideToFF | vendor/github.com/fumiama/imgsz/jpg.go:237-263 | The extraneous-data loop is ScanWindow. |
| Jpeg.JpegDecoder.SkipFillBytes | vendor/github.com/fumiama/imgsz/jpg.go:269-276 | The fill-byte loop is SkipFill. |
| Jpeg.JpegDecoder.NextMarker | vendor/github.com/fumiama/imgsz/jpg.go:233-276 | Reading up to the next marker is NextMarkerAt. |
| Jpeg.JpegDecoder.Segment | vendor/github.com/fumiama/imgsz/jpg.go:277-324 | The handling of one marker is MarkerStep. |
| Jpeg.JpegDecoder.Decode | vendor/github.com/fumiama/imgsz/jpg.go:220-327 | The size and error are JpegDecode's. |
| Jpeg.JpegDecodeSoi | vendor/github.com/fumiama/imgsz/jpg.go:224-229 | Fewer than 2 bytes give ErrUnexpectedEOF, and anything but FF D8 gives "missing SOI marker". Otherwise the segments follow. |
| Jpeg.WindowReachesFF | vendor/github.com/fumiama/imgsz/jpg.go:237-263 | The window slides one byte at a time up to the first 0xff. |
| Jpeg.WindowRunsOut | vendor/github.com/fumiama/imgsz/jpg.go:259-262 | Without a 0xff the scan ends in EOF. |
| Jpeg.FillReaches | vendor/github.com/fumiama/imgsz/jpg.go:269-276 | A run of fill bytes is read past, and the marker is the byte after it. |
| Jpeg.ScansToMarker | vendor/github.com/fumiama/imgsz/jpg.go:232-276 | Extraneous bytes and then fill bytes lead to the marker after them. |
| Jpeg.ScansPastStuffedZero | vendor/github.com/fumiama/imgsz/jpg.go:264-268 | "\xff\x00" is treated as extraneous data. |
| Jpeg.NoMarkerIsEOF | vendor/github.com/fumiama/imgsz/jpg.go:259-262 | A stream with no 0xff left ends in EOF. |
| Jpeg.EoiAndRestart | vendor/github.com/fumiama/imgsz/jpg.go:277-288 | EOI ends with size 0x0, and RST0-RST7 are skipped. |
| Jpeg.ShortSegment | vendor/github.com/fumiama/imgsz/jpg.go:292-298 | A length below 2 gives "short segment length". |
| Jpeg.SkipsSegment | vendor/github.com/fumiama/imgsz/jpg.go:311-315 | DHT, DQT, DRI, APPn and COM segments are skipped whole. |
| Jpeg.UnknownMarker | vendor/github.com/fumiama/imgsz/jpg.go:316-320 | An unknown marker below 0xc0 gives a format error; any other unknown marker is unsupported. |
| Jpeg.ScanBeforeFrame | vendor/github.com/fumiama/imgsz/jpg.go:309-310 | SOS before any SOF gives size 0x0 and no error. |
| Jpeg.SofDecodes | vendor/github.com/fumiama/imgsz/jpg.go:189-217 | SOI then a well-formed SOF0/1/2 decodes to its width and height. |
| Jpeg.SofIgnoresErrors | vendor/github.com/fumiama/imgsz/jpg.go:301-308 | A SOF never reports an error. When processSOF failed before the fields were read, the size is 0x0. |
| Jpeg.ProcessSOFOutcomes | vendor/github.com/fumiama/imgsz/jpg.go:189-217 | Gives "multiple SOF markers", unsupported component counts, and the component count (n-6)/3. It succeeds exactly for 8-bit precision with a matching count. Height and width are read before the count check. |
| Jpeg.BigEndian2 | vendor/github.com/fumiama/imgsz/jpg.go:295 | The two length bytes are a big-endian value. |
| Jpeg.SegmentsBounds | vendor/github.com/fumiama/imgsz/jpg.go:210-211 | Every size the segment loop returns lies in 0..65535. |
| Jpeg.JpegDecodeBounds | vendor/github.com/fumiama/imgsz/jpg.go:220-327 | decode never yields a negative size or one above 65535. |
| Webp.U32 | vendor/github.com/fumiama/imgsz/webp.go:40-42 | u32 is an unsigned 32-bit value. |
| Webp.StaleError | vendor/github.com/fumiama/imgsz/webp.go:162-170 | A chunk reader whose parent has failed never reports EOF. |
| Webp.ReadChunkAt | vendor/github.com/fumiama/imgsz/webp.go:162-192 | A read hands out up to k bytes of the current chunk and advances past them. It returns EOF exactly when the chunk is used up. A recorded error is reported instead. |
| Webp.ReadFullChunkAt | vendor/github.com/fumiama/imgsz/webp.go:162-192 | io.ReadFull over a chunk delivers n bytes on success. |
| Webp.DrainAt | vendor/github.com/fumiama/imgsz/webp.go:101-112 | Draining leaves no chunk data on success. |
| Webp.PadAt | vendor/github.com/fumiama/imgsz/webp.go:114-127 | Reading the padding byte keeps the invariant. |
| Webp.HeaderAt | vendor/github.com/fumiama/imgsz/webp.go:129-152 | A header read records its error on failure. On success it takes 8 bytes off the list, and the chunk's length becomes the current one. |
| Webp.NextAt | vendor/github.com/fumiama/imgsz/webp.go:96-156 | next records its error, and on success reads a 4-byte ID and the chunk's length. |
| Webp.NewListReaderAt | vendor/github.com/fumiama/imgsz/webp.go:59-72 | A new list reader starts with no error and no chunk open. |
| Webp.NewReaderAt | vendor/github.com/fumiama/imgsz/webp.go:76-88 | A new RIFF reader starts with no error and no chunk open. |
| Webp.ChunkStep | vendor/github.com/fumiama/imgsz/webp.go:209-276 | Going on to the next chunk strictly shrinks what is left of the list. |
| Webp.RiffReader.Drain | vendor/github.com/fumiama/imgsz/webp.go:101-112 | The io.Copy drain and its length check, as DrainAt says. |
| Webp.RiffReader.Pad | vendor/github.com/fumiama/imgsz/webp.go:114-127 | The padding byte, as PadAt says. |
| Webp.RiffReader.ReadHeader | vendor/github.com/fumiama/imgsz/webp.go:129-155 | The header read, as HeaderAt says. On success a fresh chunk reader becomes the current one. |
| Webp.RiffReader.Next | vendor/github.com/fumiama/imgsz/webp.go:96-156 | next, as NextAt says. Each chunk gets a fresh reader, which makes every earlier one stale. |
| Webp.ChunkReader.Read | vendor/github.com/fumiama/imgsz/webp.go:162-192 | A reader that is not the current one gets "riff: stale reader" and changes nothing. The current one reads as ReadChunkAt says. |
| Webp.ReadFullChunk | vendor/github.com/fumiama/imgsz/webp.go:254-256 | io.ReadFull on a chunk reader, as ReadFullChunkAt says. |
| Webp.NewListReader | vendor/github.com/fumiama/imgsz/webp.go:59-72 | newListReader, as NewListReaderAt says. |
| Webp.NewReader | vendor/github.com/fumiama/imgsz/webp.go:76-88 | newReader, as NewReaderAt says. |
| Webp.DecodeVP8FrameHeader | vendor/github.com/fumiama/imgsz/webp.go:281-302 | The size or error is Vp8FrameHeaderAt's. |
| Webp.Vp8lDecoder.Fill | vendor/github.com/fumiama/imgsz/webp.go:313-323 | One byte enters the accumulator above the bits held, or ErrUnexpectedEOF once the chunk is used up. |
| Webp.Vp8lDecoder.Take | vendor/github.com/fumiama/imgsz/webp.go:324-327 | The low n bits of the accumulator are the next n bits of the consumed bytes, least significant first. |
| Webp.Vp8lDecoder.Read | vendor/github.com/fumiama/imgsz/webp.go:312-328 | read(n) succeeds exactly when n more bits are in the chunk, and returns those bits. The only error is ErrUnexpectedEOF. |
| Webp.ReadDimensions | vendor/github.com/fumiama/imgsz/webp.go:343-351 | The two 14-bit fields after the signature byte are read, or ErrUnexpectedEOF when fewer than 5 bytes are there. |
| Webp.ReadVersion | vendor/github.com/fumiama/imgsz/webp.go:353-360 | The 3-bit version after the alpha bit is read and cannot fail. |
| Webp.DecodeVP8LHeader | vendor/github.com/fumiama/imgsz/webp.go:330-365 | The size or error is Vp8lHeaderOf of the chunk's bytes. |
| Webp.DecodeWebp | vendor/github.com/fumiama/imgsz/webp.go:194-279 | The size or error is DecodeWebpAt's. |
| Webp.BitsAtPrefix | vendor/github.com/fumiama/imgsz/webp.go:312-328 | Bits inside the bytes already read do not depend on what follows. |
| WebpProperties.U32Le32 | vendor/github.com/fumiama/imgsz/webp.go:40-42 | u32 reads back the little-endian bytes of a 32-bit value. |
| WebpProperties.Le32U32 | vendor/github.com/fumiama/imgsz/webp.go:40-42 | Writing u32's value gives its four bytes back. |
| WebpProperties.U32IsLittleEndian | vendor/github.com/fumiama/imgsz/webp.go:40-42 | The OR of shifted bytes in u32 is the little-endian value. |
| WebpProperties.U24Le24 | vendor/github.com/fumiama/imgsz/webp.go:265-266 | The 24-bit VP8X fields read back what was written. |
| WebpProperties.NewReaderReadsHeader | vendor/github.com/fumiama/imgsz/webp.go:76-88 | "RIFF", a size and a form type give the form and a reader at byte 12 with size-4 bytes of list. |
| WebpProperties.NewReaderErrors | vendor/github.com/fumiama/imgsz/webp.go:59-88 | A missing or wrong header gives "missing RIFF chunk header", and a size below 4 or a short form gives "short chunk data". Success implies the magic. |
| WebpProperties.NextSkipsChunk | vendor/github.com/fumiama/imgsz/webp.go:96-156 | next skips the rest of the current chunk and its padding byte. |
| WebpProperties.HeaderReadsChunk | vendor/github.com/fumiama/imgsz/webp.go:129-152 | A chunk header in the list yields its ID and length. |
| WebpProperties.HeaderErrors | vendor/github.com/fumiama/imgsz/webp.go:129-148 | An empty list gives EOF, a short header gives "short chunk header", and a chunk longer than the list gives "list subchunk too long". Each error is recorded. |
| WebpProperties.NextIsSticky | vendor/github.com/fumiama/imgsz/webp.go:97-99 | Once an error is recorded, next returns it again and changes nothing. |
| WebpProperties.Vp8xRoundTrip | vendor/github.com/fumiama/imgsz/webp.go:254-276 | A VP8X payload decodes to the width and height it stores, minus one. |
| WebpProperties.Vp8xSizeBounds | vendor/github.com/fumiama/imgsz/webp.go:265-276 | VP8X sizes lie in 1..2^24. |
| WebpProperties.Vp8lWidthBits | vendor/github.com/fumiama/imgsz/webp.go:343-346 | The width field of an encoded VP8L header reads back. |
| WebpProperties.Vp8lHeightBits | vendor/github.com/fumiama/imgsz/webp.go:347-351 | The height field of an encoded VP8L header reads back. |
| WebpProperties.Vp8lVersionBits | vendor/github.com/fumiama/imgsz/webp.go:353-360 | The version field of an encoded VP8L header reads back. |
| WebpProperties.Vp8lRoundTrip | vendor/github.com/fumiama/imgsz/webp.go:330-365 | An encoded VP8L header decodes to size (w, h) when its version is 0, and to "vp8l: invalid version" otherwise. |
| WebpProperties.Vp8KeyFrameRoundTrip | vendor/github.com/fumiama/imgsz/webp.go:281-302 | An encoded key frame decodes to its 14-bit width and height. |
| WebpProperties.Vp8FrameOutcomes | vendor/github.com/fumiama/imgsz/webp.go:281-302 | No bytes give EOF, and 1-2 bytes give ErrUnexpectedEOF. An inter frame gives 0x0. Exactly 3 bytes of a key frame give EOF, and a bad start code gives "vp8: invalid format". |
| WebpProperties.DecodeNeedsWebpForm | vendor/github.com/fumiama/imgsz/webp.go:199-201 | A form type other than "WEBP" gives "invalid format". |
| WebpProperties.ChunkStepOutcomes | vendor/github.com/fumiama/imgsz/webp.go:210-276 | The end of the list gives "invalid format", and so does ALPH without VP8X. A VP8X chunk whose length is not 10 is invalid. An unknown chunk is skipped. Going on never wants alpha. |
| WebpProperties.DecodeVp8xFile | vendor/github.com/fumiama/imgsz/webp.go:194-276 | A RIFF/WEBP file whose first chunk is VP8X decodes to that chunk's size. |
| WebpProperties.DecodeVp8lFile | vendor/github.com/fumiama/imgsz/webp.go:194-248 | A RIFF/WEBP file whose first chunk is VP8L with version 0 decodes to that header's size. |

## Left out

- The HTTP handler, `main.go`, the page script `erg0.js` and the decoder
  registry in `imgsz/init.go` are not part of this model.
- Opening the zip entries and parsing the `.docx` (`go-docx`) are left as
  inputs. A file is its name and its records, and a table is its rows of
  cells of paragraph texts.
- `entity.ShortID`, which `ParseName` returns, is not defined in
  `entity.go`. The model takes it to be `QualifiedName`, which is what
  `table_parser.go` embeds in `entity.ID`.
- Text.ToUpper follows `unicode.ToUpper` on U+0000-U+00FF, on the Cyrillic
  block U+0400-U+04FF and on the Cyrillic Extended-C letters U+1C80-U+1C88.
  Every other rune maps to itself, including the Cyrillic Supplement
  (U+0500-U+052F), Cyrillic Extended-B (U+A640-U+A69F), Greek and the other
  Latin blocks. No rune outside the modelled ranges has an upper case that
  is a letter of a qualifier at `name_parser.go:117`, so qualifier matching
  agrees with Go on every input. Only `Text.Upper` of such a rune differs
  from Go.
- Go map iteration order is not modelled. Where it matters
  (`MatchChar`'s scan, and the order of the unknown entries, the unknown
  totals and the footnotes), the model takes any order, and the lists are
  stated as listing each key exactly once.
- The label "інше" computed at `processor.go:128-131` is never used, and
  the model leaves it out.
- `panic` on a `.docx` that does not parse is left out with `go-docx`.
- TableParsing.ParseTable requires a header row and, on every later row, a
  paragraph in cell 5; where that paragraph starts with two digits, it also
  requires cell 8 and a paragraph in cell 6. The source indexes these without
  checks (`table_parser.go:12,13,24,39`) and panics otherwise; a table with
  no rows at all panics at `table.TableRows[1:]`. The model does not model
  those panics.
- Processing.Assemble requires every dictionary group to be non-empty
  (`group[0]` at `processor.go:86,108`).
- Reader errors other than EOF are not modelled. Every stream is a finite
  run of bytes.
- Png: the IDAT reader `decoder.Read` (`png.go:122-150`) is never called by
  `decodepng`, and is left out.
- Png.Crc32 is written out bit by bit (reflected IEEE polynomial). It is
  tied to hash/crc32 only by one known answer (the byte "a") and by the
  fact that feeding it in pieces equals feeding it all at once; the
  table-driven implementation of hash/crc32 is not modelled. The decoders'
  CRC state is modelled as the bytes written so far.
- Jpeg: the Huffman `bits` state and `unreadByteStuffedByte` are never used
  by `decode`, and are left out. `jfif` is never set, so the model takes the
  SOF path where it is false.
- Webp: the VP8L reader's `bufio` read-ahead is not modelled. Bits are read
  straight from the chunk, which gives the same results because the header
  lies inside the chunk.
- Webp.Vp8lDecoder.Read is proved for n <= 24, the widths the source uses.
  This keeps the 32-bit accumulator from overflowing and avoids modelling
  its wrap-around.
- Webp.DecodeVP8LHeader is stated only for the current chunk reader of a
  RIFF reader with no recorded error. That is the only way `decodewebp`
  calls it.
- Webp: the filter-byte read after ALPH (`webp.go:226-231`) cannot be
  reached. `wantAlpha` is set only by a VP8X chunk, and that path returns
  first.
- Webp: `int(uint32)` conversions are unbounded integers, and `int32(chunkLen)
  < 0` is written out as a length of at least 2^31.
- Webp: OR-ing non-overlapping shifted bits is written as addition.

## Findings

| source | as written | input that shows it | evidently intended | confidence | as-written member | corrected member |
|---|---|---|---|---|---|---|
| internal/parser/name_parser.go:93-99 | `trimQuotes` drops a leading quotation mark, then reads `out[len(out)-1]` without checking that `out` is non-empty | a name cell whose text after the qualifiers is a single quotation mark, e.g. `"«"`: the index is out of range and the request panics | return the empty name | not executed | NameParsing.TrimQuotesAsWrittenFaults | NameParsing.TrimQuotesFrom |
