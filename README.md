# seroost, modelled in Dafny

seroost is a small local search engine. Its index step walks a directory and picks an extractor for each file by its lower-cased extension: PDF, plain text, XML, HTML or, in one variant, source code. It tokenizes the extracted text with a hand-written lexer and stores one `term -> count` table per file, keyed by path. Its search step tokenizes the query and counts, for each query term, the documents that contain it. It scores each document by TF-IDF, keeps the positive scores, sorts them best first and shows the top ten.

This project models that core and proves properties of it:

- **Tokenizer** (`lexer.dfy`, module `Lexer`). The class `Lexer.Lexer` is the cursor of `src/lexer.rs`. Its field `content` is reassigned by `TrimLeft`, `Chop`, `ChopWhile`, `NextToken` and `Next`. Each method is proved against pure functions of the remaining input:
  - `Tokens`, the terms the iterator yields;
  - `Scan`, the whitespace skipped and the raw span cut at each step;
  - `Trailing`, the whitespace after the last term.

  The lemmas show what the tokenizer promises:
  - the skipped whitespace and the raw spans rebuild the input;
  - every term is non-empty and free of whitespace;
  - the three kinds of term are maximal letter-led runs, maximal digit-led runs and single other characters;
  - no term comes out exactly when the input is blank;
  - whitespace between two texts keeps their terms apart.
- **Character classes** (`unicode.dfy`). `char::is_whitespace` is written out exactly. The Unicode Alphabetic and Numeric tables are a parameter, `Unicode.Tables`. Every result that needs them assumes only `Valid()`: the tables agree with Rust on ASCII and are disjoint from whitespace.
- **Term-frequency tables and the index** (`term_frequency.dfy`). The counting loop that appears three times in the source is one method, `CountTerms`, proved to compute the occurrence count of the lexer's terms. Index building is a fold, `Ingest`, over `(path, content)` messages.
- **Admission** (`admission.dfy`). All three indexers take the same per-file decision, `Dispose`:
  - skip a file whose known size is above the byte ceiling;
  - choose an extractor by the lower-cased extension, with the source-code extensions behind a flag;
  - run the extractor.

  `Forwarded` is the stream of messages a walk hands on.
- **The three indexers**:
  - `interactives.dfy`: the thread-pool worker and the aggregator of `src/interactives.rs`, run sequentially.
  - `interact.dfy`: `process_files`, which accepts code files and skips a failing file, and the storage paths.
  - `seroost.dfy`: the byte ceiling, the start-up configuration, and `process` from `src/main.rs`, which aborts the walk on the first extraction error.
- **Query engine** (`query_engine.dfy`). Each loop of `search_documents` is a method proved against a function:
  - the document-frequency loop;
  - the total-terms sum;
  - the per-document score;
  - the scores map;
  - the ranking.

  An `f64` is `Score`, a real or not-a-number. The natural logarithm is a parameter `ln` that is known only through its signs (`LnSigns`).
- **Extractor post-processing** (`parsers.dfy`):
  - the character map of the TXT and PDF readers;
  - the 450-page cap;
  - the chunk-plus-space concatenation of the XML and HTML readers.

  The library calls are replaced by their results: file contents, page texts, XML events and HTML text nodes.

`src/main.rs` declares only the modules `lexer` and `parsers`. The binary it builds runs `process` and its own copy of `search_documents`. `src/interact.rs` and `src/interactives.rs` hold the alternative indexers; all three are modelled. The two copies of `search_documents` compute the same ranking from the index they load. They differ in their printing and in where that index is: src/main.rs reads the fixed `./indeces/index.json`, and src/interact.rs reads the path `get_indeces_path()` gives (`Interact.IndexPath`). One model, `QueryEngine.SearchDocuments`, stands for both and takes the loaded file as an `IndexFile`. It counts document frequencies as the loop is written: once per query term, so a repeated term is counted again. `QueryEngine.IntendedRanking` is the corrected ranking described under "Findings". It counts each distinct term once.

## Model

| member | source | states |
|---|---|---|
| Lexer.Lexer.constructor | src/lexer.rs:7-9 | the cursor starts on the whole input |
| Lexer.Lexer.TrimLeft | src/lexer.rs:11-15 | only the leading whitespace is removed; afterwards the input is empty or starts with a non-whitespace character |
| Lexer.Lexer.Chop | src/lexer.rs:25-31 | for `n <= |content|` it returns the first `n` characters, and the token followed by the new content is the old content |
| Lexer.Lexer.ChopWhile | src/lexer.rs:17-24 | returns the longest prefix whose characters all satisfy the predicate, and leaves the rest |
| Lexer.Lexer.NextToken | src/lexer.rs:32-49 | `None` with nothing left exactly when only whitespace remains; otherwise the next term, with the cursor just past its raw span |
| Lexer.Lexer.Next | src/lexer.rs:53-58 | `None` exactly when no terms remain; a `Some` yields the first remaining term and strictly shortens the input, so iteration terminates |
| Lexer.Lexer.Collect | src/interact.rs:361-363 | `collect()` returns exactly the terms of the input, in order, and drains it |
| Lexer.LeadingWhitespace | src/lexer.rs:11-15 | counts the characters `trim_left` drops: all of them whitespace, followed by the end of the input or a non-whitespace character |
| Lexer.RunLength | src/lexer.rs:17-24 | the width `chop_while` cuts: every character in it satisfies the predicate, and the next one, if any, does not |
| Lexer.TokenWidth | src/lexer.rs:39-47 | the raw span is between 1 character and the rest of the input |
| Lexer.ScanCoversInput | src/lexer.rs:11-46 | the skipped whitespace and the raw spans, concatenated in order and followed by the trailing whitespace, rebuild the input exactly |
| Lexer.ScanSkipsOnlyWhitespace | src/lexer.rs:11-15 | everything skipped between terms and after the last one is whitespace |
| Lexer.ScanMatchesTokens | src/lexer.rs:39-46 | the i-th term is the i-th raw span, lowercased when it starts with a letter |
| Lexer.NoTokensIffBlank | src/lexer.rs:32-38 | the iterator yields no term exactly when the input is all whitespace |
| Lexer.TokensAreWords | src/lexer.rs:39-46 | every term is non-empty and contains no whitespace |
| Lexer.LetterLedTerm | src/lexer.rs:39-40 | a letter-led term is the maximal alphanumeric run, with ASCII capitals lowercased and every other character, non-ASCII letters included, kept |
| Lexer.DigitLedTerm | src/lexer.rs:41-42 | a digit-led term is the maximal numeric run, unchanged, and never takes in a letter |
| Lexer.SymbolTerm | src/lexer.rs:44-45 | any other character is a term on its own |
| Lexer.BlankPrefix | src/lexer.rs:11-15 | leading whitespace changes neither the terms nor what remains after trimming |
| Lexer.LeadingTerm | src/lexer.rs:32-47 | a maximal run at the front of the input is the first term, followed by the terms of the rest |
| Lexer.TokensSeparated | src/lexer.rs:11-46 | the terms of `a`, then whitespace, then `b` are the terms of `a` followed by the terms of `b` |
| Lexer.ShoutExample | src/lexer.rs:39-45 | "GREAT!" yields "great" and "!" |
| Lexer.DigitRunExample | src/lexer.rs:39-42 | "2fast" yields "2" and "fast" |
| Unicode.ToAsciiLowercase | src/lexer.rs:40 | only 'A' to 'Z' change, each to its lower-case letter |
| Unicode.AsciiLowercase | src/parsers.rs:92 | keeps the length and maps each character on its own |
| Unicode.AsciiLowercaseIdempotent | src/parsers.rs:92 | lowercasing twice is lowercasing once |
| TermFrequency.Occurrences | src/interactives.rs:263-277 | the table's keys are exactly the distinct terms, and each count is the term's number of occurrences, at least 1 |
| TermFrequency.OccurrencesSnoc | src/interactives.rs:271-276 | one more term bumps its count, or starts it at 1 |
| TermFrequency.CountTerms | src/interactives.rs:263-277 | the counting loop (also at src/interact.rs:262-275 and src/main.rs:186-199) returns the occurrence table of the lexer's terms |
| TermFrequency.SumOfOccurrences | src/interactives.rs:268-277 | the counts of an occurrence table add up to the number of terms |
| TermFrequency.TableTotal | src/interactives.rs:268-277 | the counts of a document's table add up to the number of terms the lexer yields for it |
| TermFrequency.IngestFirst | src/interactives.rs:279 | one message inserts its table under its path before the rest are folded in |
| TermFrequency.IngestKeys | src/interactives.rs:255-282 | the index's keys are the keys it started with plus exactly the received paths, whether or not the content has terms |
| TermFrequency.IngestElsewhere | src/interactives.rs:279 | an entry no message names is left as it was |
| TermFrequency.IngestLastWins | src/interactives.rs:279 | the last message with a given path decides that path's table; an earlier one is overwritten |
| TermFrequency.IngestDistinct | src/interactives.rs:255-282 | with distinct paths, every message's table is in the index under its own path |
| TermFrequency.IngestOrderIndependent | src/interactives.rs:255-282 | two arrival orders of the same messages with distinct paths build the same index |
| TermFrequency.IngestWellFormed | src/interactives.rs:255-282 | every count in the index stays at least 1 |
| Admission.LastIndexOf | src/interactives.rs:83 | the position of the last occurrence of a character, and none exactly when it does not occur |
| Admission.FileName | src/interactives.rs:83 | the final component of a path contains no separator |
| Admission.Extension | src/interactives.rs:83 | an extension contains no dot and no separator |
| Admission.ExtensionRoundTrip | src/interactives.rs:83-84 | the extension of `dir/stem.ext` is `ext` |
| Admission.NoDotNoExtension | src/interactives.rs:189-196 | a file name without a dot has no extension |
| Admission.HiddenFileNoExtension | src/interactives.rs:189-196 | a file name whose only dot leads it has no extension |
| Admission.FoldChar | src/interactives.rs:84 | ASCII capitals and the KELVIN SIGN lower to ASCII; every other character is kept |
| Admission.Lowercase | src/interactives.rs:84 | the extension is lowered character by character, keeping its length |
| Admission.LowercaseIdempotent | src/interactives.rs:84 | lowering twice is lowering once |
| Admission.ReaderFor | src/interact.rs:184-251 | an extractor is chosen exactly for the six document extensions, and for the 13 code extensions when code is accepted; the code reader is chosen exactly for a code extension |
| Admission.ReaderForIgnoresCase | src/interact.rs:185 | an extension and its lower case choose the same extractor |
| Admission.Dispose | src/interactives.rs:67-197 | too large exactly when the size is known and strictly above the ceiling; unsupported exactly when the extension is missing or unknown; otherwise the extractor's text or its error |
| Admission.CodeOnlyDifference | src/interact.rs:234-246 | the two kinds of indexer decide differently only on code files, which the other skips as unsupported |
| Admission.Handed | src/interactives.rs:85-108 | a file hands on a message exactly when its extraction succeeded, with its path and text |
| Admission.ForwardedMessages | src/interactives.rs:83-197 | a message is handed on exactly for a walked file whose extraction succeeded, with that text |
| Admission.ForwardedPaths | src/interactives.rs:83-197 | the paths handed on are the walked paths whose extraction succeeded |
| Admission.ForwardedDistinct | src/interactives.rs:83-197 | a walk that meets each file once hands on messages with distinct paths |
| Admission.ForwardedSkip | src/interactives.rs:78 | a skipped file leaves the rest of the walk to decide |
| Admission.ForwardedTake | src/interactives.rs:85-98 | an extracted file's message comes ahead of the rest of the walk |
| Admission.IndexedPaths | src/interact.rs:169-260 | the index has a key for exactly the walked files whose extraction succeeded |
| Admission.LargeFilesSkipped | src/interact.rs:169-180 | a file above the ceiling never becomes a key; one of exactly the ceiling is not skipped for its size |
| Admission.IndexedTable | src/interact.rs:262-283 | each indexed file's table counts the terms of its own extracted text |
| Interactives.Worker | src/interactives.rs:66-199 | the worker sends exactly the forwarded messages, in walk order, skipping large and unsupported files and files whose extractor returns an error, and going on |
| Interactives.CalculateTermFrequency | src/interactives.rs:249-283 | the aggregator's index is the fold of the received messages into an empty index |
| Interactives.ProcessFile | src/interactives.rs:37-247 | the index is the fold of what the worker forwards |
| Interactives.AnyArrivalOrder | src/interactives.rs:255-282 | when the walk meets each file once, every interleaving of the workers' messages builds the same index as the sequential run |
| Interact.ProcessFiles | src/interact.rs:147-292 | always `Ok`; the index handed in is extended with one table per admitted file, code files included, and files whose extractor returns an error are skipped |
| Interact.Join | src/interact.rs:539 | the joined path ends with the component |
| Interact.StorageDir | src/interact.rs:537-551 | the storage directory is non-empty and has no trailing separator |
| Interact.ConfigPath | src/interact.rs:537-542 | the helper's configuration file is `config.json` in the storage directory: `<config dir>/seroost/config.json`, or `./indeces/config.json` without a configuration directory |
| Interact.IndexPath | src/interact.rs:546-551 | the helper's index file is `index.json` in the same storage directory: `<config dir>/seroost/index.json`, or `./indeces/index.json` without a configuration directory |
| Interact.StorageFiles | src/interact.rs:537-551 | both helper paths sit under their own names, so an index stored at one never overwrites a configuration stored at the other |
| Seroost.CeilingBytesAsWritten | src/main.rs:56 | the release-build ceiling is megabytes times 1048576, reduced modulo 2^64; the exact product when it fits |
| Seroost.CeilingWrapsAround | src/main.rs:56 | 2^44 megabytes give a 0-byte ceiling, while 1 megabyte gives 1048576 bytes |
| Seroost.WrappedCeilingSkipsEverything | src/main.rs:136-147 | with that wrapped ceiling every non-empty file is skipped as too large |
| Seroost.CeilingBytes | src/main.rs:56 | the corrected, saturating ceiling equals the one as written whenever the product fits in 64 bits |
| Seroost.CeilingBytesMonotone | src/main.rs:56 | a larger limit never gives a smaller corrected ceiling |
| Seroost.DefaultCeiling | src/main.rs:32-33 | the default 25 megabytes are 26214400 bytes, as written and corrected |
| Seroost.Start | src/main.rs:56-93 | start-up uses the ceiling as written, wrapping modulo 2^64, and the command given; a path given on the command line is used, and the configuration written holds exactly the key `index_path` |
| Seroost.ConfigRoundTrip | src/main.rs:56-92 | the configuration a run with `--index-path` writes gives the same path, with the later run's own ceiling as written, to a later run without it |
| Seroost.StartWrapsCeiling | src/main.rs:56 | start-up with a limit of 2^44 megabytes runs with a 0-byte ceiling, where the corrected ceiling is the largest `u64` |
| Seroost.StartWithoutPath | src/main.rs:74-92 | without `--index-path`, start-up succeeds exactly when a parsable configuration has the key; no configuration exits with code 1; a configuration that cannot be opened ends start-up with the open error |
| Seroost.Process | src/main.rs:114-216 | `Ok` exactly when no walked file's extractor returns an error, and then the index of the forwarded messages; otherwise the error of the first failing file |
| QueryEngine.Containing | src/interact.rs:379-383 | the documents whose table contains the term are among the index's keys |
| QueryEngine.DocumentFrequency | src/interact.rs:378-384 | the frequencies as written are positive: each found term maps to its number of occurrences in the query times the number of documents containing it |
| QueryEngine.DistinctDocumentFrequency | src/interact.rs:378-384 | the corrected frequencies (documents containing the term) are positive |
| QueryEngine.DocumentFrequencySnoc | src/interact.rs:378-384 | one more query term adds the number of documents containing it to its frequency |
| QueryEngine.CountDocumentsWith | src/interact.rs:379-383 | the inner loop adds to the term's frequency the number of documents containing it, creating the entry on the first |
| QueryEngine.DocumentFrequencies | src/interact.rs:375-384 | the nested loop as written computes, for the terms it is given, each term's occurrences times its number of containing documents |
| QueryEngine.Plus | src/interact.rs:406 | on `Score` (reals plus not-a-number, no infinities), a sum is a real exactly when both operands are; not-a-number absorbs |
| QueryEngine.TotalTerms | src/interact.rs:391 | the sum of a table's counts, in any iteration order |
| QueryEngine.ScoreDocument | src/interact.rs:395-408 | the score loop computes the sum, over query-term occurrences present in the document, of tf times idf |
| QueryEngine.Scores | src/interact.rs:387-413 | only documents of the index enter the scores, each with a score above 0 |
| QueryEngine.DocumentScores | src/interact.rs:387-413 | the loop keeps exactly the documents whose score is above 0, with those scores |
| QueryEngine.Insert | src/interact.rs:417-421 | inserting a hit into a descending ranking gives a descending ranking one longer, with the same members plus the hit and no repeats |
| QueryEngine.Rank | src/interact.rs:416-421 | the ranking holds exactly the scored documents, once each, in non-increasing score order |
| QueryEngine.ShownAreTop | src/interact.rs:436 | the first ten of the ranking (all of it when shorter) are a top ten: descending, taken from the scores, none left out scoring higher |
| QueryEngine.DeduplicatedFrequency | src/interact.rs:378-384 | counting documents over the distinct terms gives the corrected frequencies |
| QueryEngine.TopTen | src/interact.rs:387-436 | the results shown are a top ten of the documents' positive scores under the frequencies given |
| QueryEngine.SearchDocuments | src/interact.rs:330-436 | a missing index and an unreadable one end early; a query without terms ends before any scoring; otherwise the top ten of the positive scores, with each term's frequency counted as written, once per occurrence in the query |
| QueryEngine.IntendedRanking | src/interact.rs:375-436 | the corrected ranking: the top ten of the positive scores when each distinct query term's frequency is the number of documents containing it |
| QueryEngine.ShownResultsMatch | src/interact.rs:410-436 | under the corrected frequencies, every result shown holds a query term that some other document of the index lacks |
| QueryEngine.UnmatchedScoresZero | src/interact.rs:396-408 | a document with none of the query terms scores exactly 0 |
| QueryEngine.ResultsMatchQuery | src/interact.rs:410-412 | every result contains at least one query term |
| QueryEngine.EmptyIndexNoResults | src/interact.rs:389-413 | an empty index gives no results |
| QueryEngine.RepeatFreeFrequency | src/interact.rs:378-384 | without repeated query terms the frequencies as written are the corrected ones |
| QueryEngine.WeightSign | src/interact.rs:399-406 | a found term's weight is never negative, and is positive exactly when some document lacks the term |
| QueryEngine.IntendedScoreSign | src/interact.rs:395-408 | with the corrected frequencies a score is never negative, and is positive exactly when the document holds a query term that some other document lacks |
| QueryEngine.IntendedResults | src/interact.rs:378-413 | with the corrected frequencies the results are exactly the documents that hold a query term some other document lacks |
| QueryEngine.RepeatFreeResults | src/main.rs:285-320 | as written, the same holds of any query without repeated terms |
| QueryEngine.RepeatedTermDropsMatch | src/main.rs:285-315 | as written, "rust" finds rust.txt among two documents but "rust rust" does not |
| QueryEngine.RepeatedTermKeepsMatch | src/interact.rs:378-384 | with the corrected frequencies "rust rust" still finds rust.txt |
| Parsers.Normalise | src/parsers.rs:64-72 | the TXT/PDF map keeps the length and maps each character on its own |
| Parsers.NormaliseIsAsciiLowercase | src/parsers.rs:66-71 | the map is ASCII lowercasing of the whole string: non-ASCII letters keep their case |
| Parsers.NormaliseIdempotent | src/parsers.rs:66-71 | normalising twice is normalising once |
| Parsers.ReadTxt | src/parsers.rs:58-75 | a read error is returned as it is; otherwise the contents, ASCII-lowercased |
| Parsers.LastPage | src/parsers.rs:18-23 | the last page read is the page count below the cap of 450, and 450 otherwise |
| Parsers.ReadPdf | src/parsers.rs:14-56 | a load error is returned; otherwise pages 1 to the last page read, in order, each normalised, concatenated |
| Parsers.PdfFailsOnFirstBadPage | src/parsers.rs:25-51 | the PDF fails exactly when a page read fails, and then with the first failing page's error |
| Parsers.PdfReadsOnlyRange | src/parsers.rs:25-51 | only the pages in the range are read |
| Parsers.PagesPastCapIgnored | src/parsers.rs:38-52 | two long documents that agree on their first 450 pages read the same |
| Parsers.XmlContentStep | src/parsers.rs:85-95 | one event: a text event contributes its lowercased text and a space, any other event nothing |
| Parsers.ReadXml | src/parsers.rs:77-99 | an open error is returned; a reader error exits the process with code 1; otherwise each text event, ASCII-lowercased and followed by one space |
| Parsers.XmlExitsOnReaderError | src/parsers.rs:85-90 | the reader exits exactly when one of the events is an error |
| Parsers.XmlContentPadded | src/parsers.rs:85-95 | without reader errors the XML text is its lowercased text events, each followed by a space |
| Parsers.PaddingSeparatesTerms | src/parsers.rs:111-114 | the padding space keeps terms of neighbouring chunks apart |
| Parsers.XmlTerms | src/parsers.rs:91-93 | the terms of an XML file are the terms of its text events, one after another |
| Parsers.ReadHtml | src/parsers.rs:101-117 | a read error is returned; otherwise the body's text nodes, each followed by one space, with no case folding |

## Left out

- The threads, channels, `available_parallelism` and the shutdown order of `process_file` are not modelled. The pool is one worker. `Interactives.AnyArrivalOrder` covers the interleavings of several workers' messages.
- The directory walks (`traverse_dirs`, the recursion through `fs::read_dir`) are replaced by the list of file paths they meet. An unreadable directory contributes no paths. So the model does not show that `process_files` (src/interact.rs:162) and `process` (src/main.rs:129) recurse with `path.to_str().unwrap_or(dir_path)`: a subdirectory whose path is not valid UTF-8 re-enters the directory being walked, and recurses until the stack overflows.
- The file system is a parameter, `Admission.Disk`. It gives each file's size (none when `fs::metadata` fails) and each extractor's result.
- serde, JSON files, `File::create`, `create_dir_all` and `dirs::config_dir` are not modelled. So `index_documents` in src/interact.rs and src/main.rs is only the indexer, the index it builds and its error. Failures to write the index or the configuration are not modelled. The configuration directory is a parameter of `Interact.ConfigPath` and `Interact.IndexPath`.
- Interact.ConfigPath: `get_config_path` is modelled as written, but nothing in the program calls it. The binary reads and writes its configuration at the fixed `./indeces/config.json` (src/main.rs:61, 76), which `Seroost.Start` models.
- Interact.IndexPath: `get_indeces_path` serves only the indexers of src/interact.rs and src/interactives.rs and the search of src/interact.rs. The binary's `process` and `search_documents` keep the index at the fixed `./indeces/index.json` (src/main.rs:230, 252). Where the index is stored is not modelled.
- The printing is not modelled. That covers colours, `display_usage`, the Code-mode JSON output with its line matches, and the `Mode` argument of the second `search_documents`. `read_code_file` and `get_code_line_info` are not part of this model: their source is not in `src/parsers.rs`. A code file's text is whatever `Disk` returns for the `Code` reader.
- The command-line parser (clap) is not modelled: `Seroost.Cli` is its result.
- The `stats` vector that `process_files` and `process` sort and then discard is not modelled.
- QueryEngine.SearchDocuments: `f64` is modelled as `Score`, exact reals plus not-a-number, without rounding or infinities. The natural logarithm is a parameter known only by its signs, so the contracts state which documents score and how they are ordered, not the numeric scores.
- Unicode: `is_alphabetic` and `is_numeric` are parameters (`Unicode.Tables`). Properties that depend on them hold for any tables that are exact on ASCII and disjoint from whitespace.
- Admission.FoldChar: `to_lowercase` on an extension is modelled as ASCII lowering plus the KELVIN SIGN. Other characters whose lower case is longer than one character or is not ASCII are kept as they are. This cannot change whether an extension equals one of the ASCII names.
- QueryEngine.Rank: `sort_by` is modelled as a stable insertion sort. The contract promises the order and the members but not which of two equal scores comes first.
- QueryEngine.TotalTerms: the `usize` sum does not model overflow.
- Seroost.Process: the partial index a failed walk leaves behind is not returned, because its caller returns the error before saving anything.
- Lexer.ShoutExample: the sentence "Rust2 is GREAT!" is not proved as one example. Its parts are: `ShoutExample`, `DigitRunExample`, `LetterLedTerm` and `TokensSeparated`.
- Parsers.ReadXml: the exit on a reader error cannot be seen through `Admission.Disk`, which models every extractor as returning a result.
- Interact.ProcessFiles: does not model that a malformed XML file ends the whole run with exit code 1 (src/parsers.rs:86-90), because `Admission.Disk` models every extractor as returning a result. The contract holds for walks whose XML files read without a reader error.
- Interactives.Worker: does not model that a malformed XML file ends the whole process with exit code 1 (src/parsers.rs:86-90), for the same reason. The contract holds for walks whose XML files read without a reader error.
- Interactives.ProcessFile: inherits that gap from the worker: a malformed XML file ends the whole process with exit code 1 (src/parsers.rs:86-90) before any index is built, and the model does not show it.
- Seroost.Process: does not model that a malformed XML file ends the whole run with exit code 1 (src/parsers.rs:86-90) instead of returning an error, for the same reason. The contract holds for walks whose XML files read without a reader error.
- Seroost.Start: the ceiling is the release-build product, wrapped modulo 2^64. A debug build panics on that overflow instead, and the model does not show the panic.
- The lopdf, select and xml-rs libraries are replaced by their outputs: the page count and per-page text, the event stream, and the body's text nodes.

## Findings

| source | as written | input that shows it | evidently intended | confidence | as-written member | corrected member |
|---|---|---|---|---|---|---|
| src/interact.rs:378-384 | the document-frequency loop runs once per query-term occurrence, so a repeated term's frequency is multiplied by its repetitions | index {rust.txt: {rust: 1}, python.txt: {python: 1}}: the query "rust" finds rust.txt, while "rust rust" gets frequency 2 = number of documents, idf ln(1) = 0, and finds nothing | a term's frequency is the number of documents containing it, whatever the query repeats | not executed | QueryEngine.RepeatedTermDropsMatch | QueryEngine.IntendedResults |
| src/main.rs:56 | `cli.max_file_size * 1024u64 * 1024u64` wraps modulo 2^64 in a release build | `--max-file-size 17592186044416` (2^44) gives a ceiling of 0 bytes, so every non-empty file is skipped as too large | the ceiling grows with the limit, saturating at the largest `u64` | not executed | Seroost.CeilingWrapsAround | Seroost.CeilingBytesMonotone |
