# elekter core in Dafny

This project models the core of `elekter`. The program prices household
electricity use by combining two inputs:

- the consumption records that the network operator exports as a CSV file;
- the Nord Pool day-ahead prices, read from the JSON feed. The feed gives
  hourly prices before 2025-10-01 and 15-minute prices after it, and the
  parser fills each hourly step with three 15-minute entries.

The model covers:

- **Price records and price blocks** (`common.h`, `common.cpp`). A `Price` pairs
  a time with a price. A `PriceBlock` is a run of prices. `Price::from_json`
  validates a feed record and turns its timestamp into an hour index with C++
  truncating division and an `int` cast. `PriceBlocks::merge` is unfinished as
  written: it walks the other collection and changes nothing.
- **The feed parser** (`json.cpp`). `Json::parse` checks the shape of the document:
  - it is an object;
  - `success` is the boolean true;
  - `data` is an object;
  - the region member is an array.

  It then walks the region's price records and builds blocks:
  - it inserts three fillers after an hourly step;
  - it closes a block at a hole longer than one interval;
  - it pads the last block up to an end time.

  `Json::from_json` wraps it. The loop is proved against a fold over the
  records (`ParseFeed`). Lemmas about that fold show that:
  - every block is non-empty and well formed;
  - blocks are separated by holes;
  - the blocks hold exactly the records in order, with the fillers and the
    padding.
- **The CSV header** (`header.cpp`). The header line is split on `;`. Each trimmed
  field is offered, in priority order, to the start-time, end-time,
  consumption and day/night columns. The recognition loop is proved equal to a
  declarative definition: each column is the first field naming it that no
  column of higher priority took. The searches are case-insensitive where the
  source says so.
- **Loading consumption** (`consumption.cpp`). The loader:
  - skips lines up to a separator;
  - reads the header after it;
  - keeps the valid records up to the first one that ends after the cutoff time;
  - fails when the header is not usable or no record is kept.

  The loop is proved against a declarative definition (`Loaded`) through a
  state machine of its phases.
- **The older price table** (`prices.cpp`). `loadFromFile` reads the `"ee"` prices
  into a map from epoch seconds to the price per MWh:
  - each rejection of the document leaves the object untouched;
  - an invalid element fails the load but keeps the entries inserted before it;
  - a later entry for the same second replaces an earlier one.

  `getPrice` returns the price per kWh for an exact second.

Qt behaviour that the core relies on is modelled explicitly:

- `QJsonDocument` and `QJsonValue` are a datatype.
- `QJsonObject::value` returns *undefined* for a missing key.
- `QVariant::toLongLong` rounds numbers half away from zero, turns booleans
  into 0 and 1, and reads strings as decimal 64-bit integers.
- `QByteArray::split` is modelled. `QByteArray::trimmed` and `QString::trimmed` are both modelled by one trim over the ASCII white-space set (space, tab, line feed, vertical tab, form feed, carriage return).
- `QString::contains` is modelled with and without `Qt::CaseInsensitive`.

Inputs that the program reads from the outside are parameters:

- the parsed JSON document, or `None` when the file cannot be opened;
- the lines of the CSV file;
- the cutoff time;
- the price interval;
- the record parser.

## Model

| member | source | states |
|---|---|---|
| Text.Count | header.cpp:28-31 | the number of separators is at most the length, and zero exactly when the separator is absent |
| Text.SplitShape | header.cpp:28-31 | splitting gives one field more than there are separators, and no field contains the separator |
| Text.JoinSplit | header.cpp:28 | joining the fields of a split with the separator gives the line back |
| Text.SplitJoin | header.cpp:28 | splitting a join of separator-free fields gives the fields back |
| Text.SplitField | header.cpp:28 | a line without the separator is one field |
| Text.SplitPrefixed | header.cpp:28 | a separator-free field followed by the separator splits off as the first field |
| Text.SplitCons | header.cpp:28 | a leading character other than the separator joins the first field |
| Text.TrimStartShape | consumption.cpp:36 | trimming the start drops exactly a run of white space and stops at a non-space |
| Text.TrimEndShape | consumption.cpp:36 | trimming the end drops exactly a run of white space and stops at a non-space |
| Text.Trim | consumption.cpp:36 | the trimmed text is no longer than the input and has no white space at either end |
| Text.TrimSlice | header.cpp:36 | the trimmed text is a contiguous piece of the input with only white space before and after it |
| Text.TrimTrimmed | header.cpp:36 | trimming a text without white space at its ends leaves it unchanged |
| Text.OccursContains | header.cpp:37-51 | a piece found at a position is contained |
| Text.ContainsOccurs | header.cpp:37-51 | a contained piece is found at some position |
| Text.Fold | header.cpp:37-50 | case folding keeps the length |
| Text.FoldPointwise | header.cpp:37-50 | case folding folds each character in place |
| Text.FoldUnfolded | header.cpp:37-50 | a text whose characters do not change under folding is its own fold |
| JsonTree.Value | json.cpp:42 | the member of an object under a key, or undefined when the key is absent |
| JsonTree.Truncate | prices.cpp:76 | a cast of a double to an integer truncates toward zero |
| JsonTree.Round | common.cpp:19 | rounding half away from zero lands within one half of the value |
| JsonTree.ParseLongLong | common.cpp:19 | a string read as an integer is within the 64-bit range |
| JsonTree.DigitsRoundTrip | common.cpp:19 | reading the decimal digits of a natural number gives the number back |
| JsonTree.DecimalRoundTrip | common.cpp:19 | every 64-bit integer written in decimal reads back unchanged |
| JsonTree.ToLongLong | common.cpp:19-22 | numbers round half away from zero, booleans give 1 and 0, strings are parsed, and anything else fails |
| JsonTree.ToDouble | common.cpp:30-33 | numbers give themselves, booleans give 1 and 0, numeric strings succeed, and anything else fails |
| Common.PriceBlock.LastHour | common.cpp:47-48 | the last hour is covered by a non-empty block and the hour after it is not |
| Common.PriceBlock.Append | json.cpp:96 | appending adds the entry at the end; it sets the end time, and sets the start time only for an empty block |
| Common.PriceBlock.AppendAll | json.cpp:80-83 | appending several entries adds them in order and takes the end time from the last one |
| Common.BlockAt | common.h:90-92 | a block constructed for an hour starts there and covers nothing |
| Common.EmptyBlock | common.h:86-102 | a default block is empty |
| Common.HourlyBlock | common.h:86-101 | a block constructed for hour h and filled with the prices of hours h, h+1, … covers exactly those hours, finds each hour's own price by its offset, and its last hour is its end |
| Common.AppendAllSnoc | json.cpp:96 | appending a sequence and then one entry is appending them all |
| Common.ToInt32 | common.cpp:35 | an int cast yields a 32-bit value and keeps values already in range |
| Common.DivTrunc | common.cpp:35 | integer division truncates toward zero for either sign |
| Common.HourOf | common.cpp:35 | the hour index is a 32-bit value, and an in-range timestamp lies within that hour |
| Common.ReadRecord | common.cpp:11-34 | each of the four errors occurs exactly when its check fails, in source order; otherwise the record holds the converted timestamp and price |
| Common.PriceFromJson | common.cpp:11-36 | it fails exactly when the record is invalid, with the same error; otherwise the time is the hour index of the timestamp |
| Common.PriceFromJsonHour | common.cpp:35 | a record with a non-negative integer timestamp gets the hour that contains it and keeps its price |
| Common.PriceBlocks.constructor | common.h:104 | a new collection is empty |
| Common.PriceBlocks.Merge | common.cpp:40-52 | as written, merging changes neither collection |
| JsonParser.RegionPrices | json.cpp:34-61 | each document-shape error occurs exactly when its check fails, in source order; otherwise the result is the region's array |
| JsonParser.Element | json.cpp:69-73 | a non-object element is invalid; an object is read as a price record |
| JsonParser.Records | json.cpp:68-73 | the array is accepted exactly when every element is valid, and then yields their records in order |
| JsonParser.RecordsFirstError | json.cpp:68-73 | a rejected array fails with the error of its first invalid element |
| JsonParser.RecordsPrefixFailure | json.cpp:68-73 | once a prefix of the array fails, the whole array fails with the same error |
| JsonParser.Fillers | json.cpp:75-84 | three fillers come exactly when a record is one hour after the previous one, and none otherwise |
| JsonParser.HourFill | json.cpp:80-83 | the fillers are three entries that repeat the previous price at successive intervals |
| JsonParser.TailFill | json.cpp:99-105 | the padding is empty exactly when the last record is not before the end time |
| JsonParser.TailFillShape | json.cpp:100-105 | padding steps one interval at a time, stops at the first entry not before the end, and has no such entry earlier |
| JsonParser.ParseFeed | json.cpp:30-111 | shape errors and record errors are reported as such, and success comes exactly when both checks pass |
| JsonParser.StepsChain | json.cpp:80-83 | entries at exact interval steps form a chain |
| JsonParser.AppendChain | json.cpp:80-96 | appending a chain to a well-formed block keeps it well formed and keeps its start |
| JsonParser.StepInvariant | json.cpp:68-97 | one loop iteration keeps the builder invariant |
| JsonParser.WalkInvariant | json.cpp:68-97 | the builder invariant holds after any sequence of records |
| JsonParser.FinishShape | json.cpp:99-110 | the final blocks are well formed and separated, and exist exactly when there was a record |
| JsonParser.FinishFlatten | json.cpp:99-110 | the final entries are the expanded records followed by the padding |
| JsonParser.BlocksWellFormed | json.cpp:63-110 | every block is non-empty and well formed, and each ends more than one interval before the next starts |
| JsonParser.BlocksKeepOrder | json.cpp:63-110 | the blocks hold every record in order, with the hourly fillers and the tail padding and nothing else |
| JsonParser.FeedRecords | json.cpp:68-97 | reading element by element is walking the validated records, or failing with their first error |
| JsonParser.FeedOutcome | json.cpp:63-110 | the element loop succeeds exactly when all records are valid, fails with their first error, and on success finishing it gives the blocks of the records |
| JsonParser.FeedStopped | json.cpp:68-73 | when the loop meets an invalid element, it is the first invalid one and the blocks moved out are those of the valid records before it |
| JsonParser.Json.constructor | json.cpp:28 | a new parser holds no blocks |
| JsonParser.Json.Parse | json.cpp:30-111 | it succeeds exactly when the document parses, and then appends the parsed blocks; a document of the wrong shape changes nothing; at an invalid element it reports that element's error and keeps exactly the blocks moved out for the valid records before it |
| JsonParser.Json.ReadFeed | json.cpp:63-110 | the record loop, the padding and the final append add exactly the blocks of the fold, or stop at the first invalid element with the blocks moved out before it |
| JsonParser.Json.ReadItems | json.cpp:68-97 | the loop over the array ends in the state the record fold reaches, or with the first invalid element's error and the blocks moved out for the records before it |
| JsonParser.Json.AddRecord | json.cpp:72-96 | one loop body moves out the same blocks and leaves the same block as one step of the fold |
| JsonParser.Json.FillHour | json.cpp:80-83 | the filler loop appends the three hourly fillers |
| JsonParser.Json.PadTail | json.cpp:100-105 | the padding loop appends exactly the padding up to the end time |
| JsonParser.Json.FromJson | json.cpp:18-24 | a fresh parser's result is the parse of the document |
| CsvHeader.NamesIgnoreCase | header.cpp:37-53 | each column test is the case-insensitive (or, for "aktiiv" and "öö", exact) search that the source makes |
| CsvHeader.Classified | header.cpp:35-36 | there is one match per field |
| CsvHeader.ClassifiedAt | header.cpp:35-36 | the match of a field is taken from its trimmed text |
| CsvHeader.RecognizeSnoc | header.cpp:35-56 | the recognition of one more field is one more loop iteration |
| CsvHeader.FirstIsFirst | header.cpp:37-53 | the first untaken index naming a role is found, or -1 when there is none |
| CsvHeader.FirstUnique | header.cpp:37-53 | the first index is unique |
| CsvHeader.ReferenceIsFirst | header.cpp:37-53 | each column is the first field naming it that no column of higher priority took |
| CsvHeader.FirstExtend | header.cpp:35-56 | one more field keeps a first index already found, and otherwise becomes the first if it qualifies |
| CsvHeader.ReferenceSnoc | header.cpp:35-56 | the declarative columns of one more field are one more loop iteration |
| CsvHeader.RecognizeReference | header.cpp:33-56 | the if/else-if loop recognises exactly the declarative columns |
| CsvHeader.ReferenceDistinct | header.cpp:33-56 | recognised columns are field indices or -1, and no two columns share a field |
| CsvHeader.Header.Default | header.h:17 | a default header is invalid, with no fields and no columns |
| CsvHeader.Header.constructor | header.cpp:14-21 | the field count is the separator count plus one, the columns are the declarative ones, and the header is valid exactly when it has fields, a start and a consumption column |
| CsvHeader.Header.OfferField | header.cpp:36-53 | one field is taken by the first unclaimed column it names; nothing else changes |
| CsvHeader.Header.Process | header.cpp:23-59 | it counts the fields, runs the recognition loop over the trimmed fields, and reports whether start and consumption were found |
| ConsumptionLoader.Separator | consumption.cpp:39-43 | a separator found lies within the lines that remain |
| ConsumptionLoader.SeparatorFirst | consumption.cpp:39-43 | the separator found is a separator line, and no line before it is one |
| ConsumptionLoader.Parsed | consumption.cpp:56-59 | there are at most as many valid records as lines |
| ConsumptionLoader.Until | consumption.cpp:61-64 | no more records are kept than given |
| ConsumptionLoader.UntilPrefix | consumption.cpp:61-66 | the kept records are a prefix in which none ends after the cutoff, and keeping stops only at one that does |
| ConsumptionLoader.RunNext | consumption.cpp:33-67 | with lines left, the loop takes one more turn |
| ConsumptionLoader.RunHalted | consumption.cpp:50-51 | a loop that failed or stopped stays as it is |
| ConsumptionLoader.RunReading | consumption.cpp:56-66 | reading appends the valid records up to the first one past the cutoff, and stops exactly when there is one |
| ConsumptionLoader.RunSkipping | consumption.cpp:39-43 | skipping ends at the header after the first separator, if there is one |
| ConsumptionLoader.RunLoaded | consumption.cpp:29-67 | the loop fails exactly when the declarative load is None, and otherwise keeps exactly its records |
| ConsumptionLoader.Consumption.constructor | consumption.cpp:13-15 | a new container has no records and null times |
| ConsumptionLoader.Consumption.ReadRecords | consumption.cpp:29-67 | the read loop succeeds exactly when the header is usable, and then appends exactly the declaratively loaded records; otherwise it appends nothing |
| ConsumptionLoader.Consumption.Load | consumption.cpp:19-79 | opening and header failures change nothing; otherwise the records are appended, success means at least one record, and then the times are the first and last start times |
| LegacyPrices.OnlyRegionRead | prices.cpp:51-55 | replacing any region other than "ee" does not change what the loader reads |
| LegacyPrices.ReadEntry | prices.cpp:59-76 | a non-object element, a non-number timestamp and a non-number price are rejected in that order, and anything else is accepted as the truncated timestamp and the given price |
| LegacyPrices.ReadEntryRoundTrip | prices.cpp:59-76 | an entry written as a feed object reads back unchanged |
| LegacyPrices.ReadEntryTruncates | prices.cpp:76 | a fractional timestamp is truncated toward zero |
| LegacyPrices.Accepted | prices.cpp:58-77 | the elements before the count all read, and the element at the count does not |
| LegacyPrices.AcceptedAt | prices.cpp:58-77 | the loop stops at the first unreadable element |
| LegacyPrices.Entries | prices.cpp:58-77 | there is one entry per element |
| LegacyPrices.EntriesAt | prices.cpp:58-77 | each entry is what its element reads as |
| LegacyPrices.EntriesNext | prices.cpp:58-77 | reading one more element appends its entry |
| LegacyPrices.InsertKeys | prices.cpp:76 | the table holds its earlier keys plus the inserted times, and nothing else |
| LegacyPrices.LastWriteWins | prices.cpp:76 | of several entries for the same second, the last one's price is stored |
| LegacyPrices.InsertElsewhere | prices.cpp:76 | a second that no entry carries keeps its earlier price, or stays absent |
| LegacyPrices.Prices.constructor | prices.h:42-45 | a new table is invalid and empty |
| LegacyPrices.Prices.LoadFromFile | prices.cpp:11-82 | an unopened file or a rejected document changes nothing; otherwise the entries before the first invalid element are inserted in order, and it succeeds and becomes valid exactly when every element was inserted |
| LegacyPrices.Prices.GetPrice | prices.cpp:84-91 | no price without an exact entry for the second; otherwise the stored price per MWh divided by 1000 |
| LegacyPrices.LoadedPrice | prices.cpp:58-91 | after a complete load, the price of an element's second is the last price given for it |

## Left out

- File I/O is not modelled: the JSON document, or `None` when the file cannot be opened, and the lines of the CSV file are parameters. The messages printed to standard error and the exceptions' texts are also not modelled: errors are a datatype.
- The record parser (`record.cpp`, `Record{lineno, line, hdr}`) is a parameter of the consumption loader. The `record.cpp` at hand belongs to a different revision, with a different constructor. The loader's contract holds for every parser.
- `Args` (the cutoff time and the price interval) is not part of this model: both are parameters. The interval is required to be positive, since with a zero interval the padding loop of `Json::parse` would never end. `App`, `cache`, `nordpool`, `main` and `args` are not part of this model either.
- Floating point is not modelled. Prices and JSON numbers are exact reals, so double rounding of prices and the division by 1000 in `getPrice` are exact.
- JsonTree.ToDouble: it reads strings as decimal integers only, without fractions or exponents, because `QString::toDouble` number syntax is not modelled.
- QDateTime is modelled as integer epoch seconds (or hours). Null and invalid date-times are modelled only as the absence of a last record; time zones and daylight saving are not modelled.
- JsonTree.ToLongLong: `Round` and `ToLongLong` turn any JSON number into an unbounded integer, whereas `qRound64` of a value outside the 64-bit range is undefined; such numbers are not modelled as failing.
- LegacyPrices.ReadEntry: the cast of the timestamp to `qint64` is not limited to the 64-bit range, because an out-of-range cast is undefined in C++.
- Case-insensitive search folds only ASCII and Latin-1 capitals, which covers the header names the program looks for. Full Unicode case folding is not modelled. UTF-8 decoding of header bytes is not modelled either: text is a sequence of characters.
- Two different revisions appear in the core. `common.h` describes hourly blocks (`start_time_h`). `json.cpp` uses blocks with start and end times, `append` and `empty`. One `PriceBlock` datatype with a start, an end and its entries serves both; times are hours for the former and seconds for the latter. `Price::from_json` as written in `common.cpp` returns hours, while `json.cpp` compares record times with seconds; `JsonParser.Element` therefore reads each record with the validation of `common.cpp` (`Common.ReadRecord`) but keeps the timestamp in seconds. This is an assumption about the revision of `Price::from_json` that `json.cpp` was written against, whose source is not part of this model.
- A block moved out with `std::move` is modelled as left empty.
