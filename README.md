# A verified model of bolt's core

bolt is an image-transcoding cache server written in C. Clients ask for an
image. A cached transcoding is sent at once. For an image that is not cached,
the connection is parked in a waiting table, and a worker thread transcodes
the image and hands the result to every connection waiting for it. A
garbage-collection thread evicts unused images once the cache is full.

This project models, in Dafny, the sequential logic of six parts of the
server and proves what each promises:

- **`hash.dfy` (module `JkHash`): the chained hash table (jk_hash).** It stores
  both the image cache and the waiting table. The bucket array is an `array`
  updated in place. Each chain is a sequence of entries. The abstract value is
  a finite map `Contents`, which `Valid()` ties to the buckets. Find, insert
  (with and without replace), remove and the rehash through the fixed list of
  bucket sizes are each proved against that map.
- **`elf.dfy` (module `ElfHashing`): the table's default hash function.** It is
  the ELF hash, accumulated in a 64-bit `long` as the source does. The
  corrected hash reads the key's bytes as unsigned, and its state is proved
  never to reach the sign bit. The hash as written, with signed bytes, is
  modelled beside it. The value can exceed INT_MAX (seven bytes 0F and a byte
  10 hash to 2^32). The table's entries keep it whole, while the source's
  entries keep an `int`; see "## Findings".
- **`gc.dfy` (module `Gc`): the eviction pass of the GC thread.** The pass is
  specified by a function over the eviction list. The loop is proved against
  it. Lemmas state that the pass walks the list from its head, evicts exactly
  the unused entries up to the point where it stops, never evicts an entry in
  use, and stops right after reaching its byte target.
- **`worker.dfy` (module `Worker`): one step of a worker.** The step takes the
  head task. Then either every waiting connection gets the new cache entry, or
  every one is told to close. Either way the waiting group moves to the
  wakeup queue.
- **`time.dfy` (module `HttpTime`): the HTTP date parser, gmtime and the date
  format.** The dates are those of section 7.1.1.1 of RFC 7231. The parser is
  imperative and is proved equal to a functional specification. gmtime is
  proved to invert Gauss's formula. Printing a time and parsing the text gives
  the time back, for every time from 1970 to the end of year 9999.
- **`config.dfy` (module `Config`): the configuration line reader.** It has
  three parts:
  - the five-state scanner;
  - the lookup of a setting name in the table;
  - the handlers, which clamp numbers to their defaults.
  
  A `Settings` class holds the global settings that the handlers update.
- **`connection.dfy` (module `Connections`): the connection free list and the
  event flags.**
- **`bolt.dfy` and `base.dfy`: shared definitions.** `bolt.dfy` holds the
  shared entities of `bolt.h`: cache entries, connections, tasks and the
  service state. `base.dfy` holds Option, bytes and C's `int` arithmetic:
  truncating division and 32-bit wrap-around.

Outcomes of calls outside the core are parameters:
- malloc and calloc succeeding, including the entry allocation inside the
  cache table's insert, which the worker ignores;
- event_add and event_del;
- task parsing and image compression;
- bolt_atoi;
- bolt_strndup.

Each worker step and each GC pass is one atomic transition. The locks,
condition variables and atomic counters around them are not modelled.

## Model

| member | source | states |
|---|---|---|
| JkHash.Table.constructor | hash.c:54-79 | the bucket count is clamped into [7, 2147483647]; every chain is empty; the count is 0; the map is empty; the default hash stands in when none is given |
| JkHash.New | hash.c:82-98 | a table exists exactly when the allocations succeed; it is valid and empty |
| JkHash.Table.Locate | hash.c:104-118 | the walk of the key's chain finds a position exactly when the key is in the map, and that entry holds the map's value |
| JkHash.Table.Find | hash.c:101-120 | OK and the stored value exactly when the key is present; ERR and no value otherwise |
| JkHash.Table.Insert | hash.c:123-168 | existing key without replace: DUPLICATE_KEY, nothing changes; with replace: the map takes the new value, the old one goes to the free callback, the count stays; new key: the map gains the key and the count grows by one; when the count times 1.5 exceeds the bucket count and a larger size is listed and can be allocated, the buckets become the rehash of the appended chains, otherwise the key is appended at the tail of its chain; a failed entry allocation changes nothing |
| JkHash.Table.SetData | hash.c:135-140 | the entry's value is replaced in place; the map maps its key to the new value; the old value goes to the free callback |
| JkHash.Table.Append | hash.c:147-161 | the new entry is linked at the tail of its chain; the map gains it and the count grows by one |
| JkHash.Table.AddNew | hash.c:147-165 | append, then rehash exactly when the count times 1.5 exceeds the bucket count |
| JkHash.Table.Remove | hash.c:171-208 | a present key leaves the map, its value goes to the free callback, the count drops by one; an absent key gives ERR and changes nothing |
| JkHash.Table.Unlink | hash.c:194-205 | unlinking the entry at a chain position removes its key from the map and frees its value |
| JkHash.Table.Rehash | hash.c:211-258 | map, count and freed values stay; with a larger listed size and a successful allocation the buckets are every entry re-pushed into the next size, otherwise nothing changes |
| JkHash.Table.Grow | hash.c:238-255 | the new array has the given size and holds every old entry pushed at the head of its new chain |
| JkHash.NextBucketsSize | hash.c:219-229 | the next size is a listed size, the smallest above the current one, or the largest listed one when none is larger |
| JkHash.NextSize | hash.c:218-229 | the size search loop returns NextBucketsSize |
| JkHash.NextSizeUnique | hash.c:219-229 | the three properties of the size search determine its result |
| JkHash.SizesIncrease | hash.c:26-32 | the listed bucket sizes strictly increase |
| JkHash.NewBuckets | hash.c:64 | the zero-filled bucket array holds the given number of chains, all empty, and is newly allocated |
| JkHash.MoveAll | hash.c:238-250 | the moving loop leaves every entry, chain by chain and each chain from its head, pushed at the head of its new chain |
| JkHash.MoveChain | hash.c:240-249 | the inner moving loop pushes one chain's entries in order |
| JkHash.RehashKeepsChains | hash.c:238-255 | the re-pushed buckets hold exactly the same map |
| JkHash.PushAllChains | hash.c:244-246 | pushing entries with distinct keys into empty chains gives chains holding the map of those entries |
| JkHash.AppendKeepsChains | hash.c:159 | appending a new key at the tail of its chain keeps the buckets consistent with the extended map |
| JkHash.PrependKeepsChains | hash.c:245-246 | pushing a new key at the head of its chain keeps the buckets consistent with the extended map |
| JkHash.ReplaceKeepsChains | hash.c:139 | replacing an entry's value keeps the buckets consistent with the updated map |
| JkHash.UnlinkKeepsChains | hash.c:194-198 | unlinking an entry keeps the buckets consistent with the map less its key |
| JkHash.DefaultIndexInRange | hash.c:105 | with the default hash reading bytes as unsigned, every bucket index lies inside the array |
| JkHash.KeptHashval | hash.c:152 | the `int` an entry keeps as written is the hash value exactly when that fits an `int` |
| JkHash.ChainFindAsWritten | hash.c:107-118 | the chain walk as written finds a value exactly when some entry's kept hash equals the key's `long` hash and its key is the key |
| JkHash.TruncatedHashvalLosesKey | hash.c:152 | as written, the key of seven bytes 0F and a byte 10 hashes past INT_MAX, and a find on the chain holding just its inserted entry misses it |
| JkHash.SignedByteIndexNegative | hash.c:105 | as written, the key 0x80 gets bucket index -6 in a 7-bucket table |
| ElfHashing.ElfStep | hash.c:44-48 | a step keeps bits 28-31 clear and, above bit 31, only the bits 32, 36, ..., 60 a carry can reach, so the 64-bit state stays a non-negative `long` |
| ElfHashing.ElfAcc | hash.c:38-51 | the 64-bit state after any key is clean in that sense and below 2^63; carries past bit 31 are kept, as in the `long` of the source |
| ElfHashing.ElfHash | hash.c:38-51 | the hash value is the `long` the state stands for, and is never negative |
| ElfHashing.DefaultHash | hash.c:43-50 | the byte loop over the 64-bit state returns ElfHash of the key |
| ElfHashing.DefaultHashAsWritten | hash.c:38-51 | the hash as written: signed `char` bytes, sign-extended into the 64-bit `long` (no contract; its properties are the lemmas below) |
| ElfHashing.CarryKept | hash.c:38-51 | seven bytes 0F and a byte 10 hash to 2^32: a carry past bit 31 stays in the `long` |
| ElfHashing.SevenBitKeysAgree | hash.c:38-51 | on keys whose bytes are all below 128, such as ASCII file names, the hash as written and the corrected hash are equal |
| ElfHashing.SignedByteHashesNegative | hash.c:38-51 | with a signed `char` and a 64-bit `long`, the key 0x80 hashes to -4026531984 instead of 128 |
| Gc.GcTargetBounds | gc.c:54-55 | with a threshold below 100 and a reached positive maximum, the target is positive and at most the bytes held |
| Gc.GcTargetAsWritten | gc.c:54-55 | the byte target as written, with the product and the difference wrapped to 32-bit `int` (no contract; GcTargetOverflow shows it) |
| Gc.GcTargetOverflow | gc.c:54-55 | as written, a 32 MiB cache at threshold 80 is told to free 49660559 bytes instead of 6710887 |
| Gc.Evict | gc.c:61-84 | the pass over the eviction list as a function: kept entries, evicted entries, bytes still to free (no contract; the Evict lemmas below state what it does) |
| Gc.EvictFromHead | gc.c:61-84 | the pass walks from the head: up to where it stops it evicts exactly the unused entries, in list order, and keeps the used ones; the rest of the list is kept; it stops before the end only right after an eviction that reaches the target |
| Gc.EvictSplits | gc.c:61-84 | the pass splits the list into kept and evicted entries, each in list order; only entries not in use are evicted; the bytes left are the target less the evicted sizes |
| Gc.EvictKeepsInUse | gc.c:64-66 | an entry in use is never evicted |
| Gc.EvictStopsAtTarget | gc.c:76-83 | every eviction but the last leaves bytes still to free; with EvictFromHead this fixes where the pass stops |
| Gc.EvictExhausts | gc.c:61-84 | a pass that ends short of its target has evicted every entry not in use |
| Gc.EvictAllInUse | gc.c:61-86 | when every entry is in use, the pass changes nothing |
| Gc.GcProcess | gc.c:48-86 | started once the maximum is reached, the pass leaves the kept entries on the list, drops the evicted keys from the cache table and their sizes from the byte count, and touches nothing else |
| Gc.Walk | gc.c:61-84 | the loop computes exactly the pass function's list, table and byte count |
| Gc.DropOne | gc.c:68-74 | each eviction removes the entry's key and exactly its size |
| Gc.SizeOfAppend | gc.c:74 | the bytes of two runs of entries add up |
| Worker.Process | worker.c:113-198 | the head task leaves the queue; on success a new entry (size the blob length) enters the cache unless the key is there or the table's insert fails (an outcome the worker ignores), every waiter gets it and SEND, and its refcount is the number of waiters; on failure nothing is cached and every waiter gets CLOSE; the waiting group leaves the table and is put once at the head of the wakeup queue, or the queue is untouched when there is no group; the eviction list and byte count do not change |
| Worker.HandOut | worker.c:150-155 | every listed connection gets the entry and SEND; the refcount grows by the list length |
| Worker.CloseAll | worker.c:188-191 | every listed connection gets CLOSE and keeps its entry |
| Bolt.CacheEntry.constructor | worker.c:136-138 | a new entry has the size of its blob and refcount 0 |
| Connections.InstallREvent | connection.c:21-34 | idempotent: an installed event gives 0 and no change; otherwise 0 and the flag set exactly when event_add succeeds |
| Connections.InstallWEvent | connection.c:37-50 | the same for the write event |
| Connections.RemoveREvent | connection.c:53-61 | the flag is cleared only when it was set and event_del succeeds |
| Connections.RemoveWEvent | connection.c:64-72 | the same for the write event |
| Connections.Pool.constructor | connection.c:14-18 | an empty free list and a zero count |
| Connections.Pool.Create | connection.c:75-114 | reuses the head of the free list when there is one, otherwise allocates; the connection is reset with its read event installed; if the install fails it goes back through Free and none is returned; the count matches the list and stays at most 1025 |
| Connections.Pool.Free | connection.c:117-133 | both events removed, every other field of the connection kept; the connection is pushed at the head of the list while the count is at most 1024, otherwise released; the count never exceeds 1025 |
| HttpTime.MonthLength | time.c:10 | months have 28 to 31 days, 29 exactly for February of a leap year |
| HttpTime.YearDaysNearLine | time.c:275-276 | the days before a year stay within a day and a half of 365.2425 per year |
| HttpTime.YearDaysNext | time.c:276 | a year has 366 days exactly when its February has 29 |
| HttpTime.GmtimeSplit | time.c:260-269 | for t at or after the epoch, the weekday is (4 + days) mod 7 and the seconds of the day split into hour, minute and second |
| HttpTime.GmtimeClock | time.c:260-269 | hour, minute and second are in range and add back up to t with the whole days |
| HttpTime.YdayInRange | time.c:275-276 | the guessed year holds the day or is the year before, so the day of the year is 0 to 366 |
| HttpTime.MonthGuess | time.c:278-279 | the month guess puts the day inside March to January, or within 30 days after 31 January |
| HttpTime.FromYdayValid | time.c:278-312 | the date is a real calendar date, in the next year from January on |
| HttpTime.FromYdayInverse | time.c:278-312 | Gauss's formula turns that date back into the day |
| HttpTime.CivilDateIs | time.c:273-276 | gmtime's year guess is the mathematical quotient for days from 1 March of year 0 |
| HttpTime.CivilDateValid | time.c:273-312 | gmtime's date is a real calendar date |
| HttpTime.CivilDateInverse | time.c:273-312 | Gauss's formula turns gmtime's date back into the same day |
| HttpTime.CivilDateFrom1970 | time.c:273-312 | days from the epoch fall in 1970 or later |
| HttpTime.ClockSplit | time.c:265-269 | a time is its whole days plus its hour, minute and second |
| HttpTime.SplitInverse | time.c:242-251 | Gauss's formula on a time's day and clock gives the time back |
| HttpTime.Gmtime | time.c:255-321 | gmtime as a function of the time (no contract; GmtimeSplit, GmtimeClock, GmtimeDate and GmtimeInverse state what it gives) |
| HttpTime.GmtimeDate | time.c:255-321 | gmtime gives a real calendar date from 1970 on |
| HttpTime.GmtimeInverse | time.c:255-321 | gmtime inverts Gauss's formula for every time at or after the epoch |
| HttpTime.GmtimeBefore10000 | time.c:273-312 | times before the year 10000 have a four-digit year at most |
| HttpTime.Num2 | time.c:52 | two digits read as 0 to 99 |
| HttpTime.Num4 | time.c:209-210 | four digits read as 0 to 9999 |
| HttpTime.SepFrom | time.c:27-36 | the weekday ends at the first ',' or ' ', or at the end |
| HttpTime.SkipSpaces | time.c:38-41 | the spaces after the weekday are skipped, and no more |
| HttpTime.MonthAt | time.c:71-107 | a month 0 to 11 is read exactly when the first letter starts a month name |
| HttpTime.ClockAt | time.c:167-193 | a clock read has two digits per field |
| HttpTime.Century | time.c:134-135 | two-digit years map to 1970 to 2069 and keep their last two digits |
| HttpTime.Rfc822At | time.c:52-127 | a date read in the RFC 1123 form has fields in digit range |
| HttpTime.Rfc850At | time.c:52-137 | a date read in the RFC 850 form has fields in digit range and a year from 1970 to 2069 |
| HttpTime.IsocAt | time.c:139-211 | a date read in the asctime form has fields in digit range |
| HttpTime.Fields | time.c:24-211 | the fields of any of the three forms are in digit range |
| HttpTime.TimeOf | time.c:12-252 | the parser's result as a function of the text: Gauss's seconds for a well-formed date that passes the checks, -1 otherwise (no contract; FormatParse, ExampleParses and the lemmas about its parts state what it gives) |
| HttpTime.ParseTime | time.c:12-252 | the parser returns TimeOf of its text: seconds since the epoch for a well-formed date, -1 otherwise |
| HttpTime.SkipWeekday | time.c:27-41 | the cursor stops past the weekday and its spaces, and the form is asctime exactly when the weekday ends at a space |
| HttpTime.ReadFields | time.c:43-211 | the field reading computes Fields of the text |
| HttpTime.ReadClock | time.c:167-193 | the clock digits give ClockAt |
| HttpTime.ReadRfc822 | time.c:52-127 | the RFC 1123 fields give Rfc822At |
| HttpTime.ReadRfc850 | time.c:52-137 | the RFC 850 fields give Rfc850At |
| HttpTime.ReadIsoc | time.c:139-211 | the asctime fields give IsocAt |
| HttpTime.Convert | time.c:213-251 | a date that passes the checks gives Gauss's seconds, any other -1 |
| HttpTime.Gauss | time.c:235-251 | Gauss's formula for the seconds of a date and time (no contract; SplitInverse, GmtimeInverse and GmtimeAccepted relate it to gmtime) |
| HttpTime.ValidStamp | time.c:213-224 | the parser's checks on the clock and the day (no contract; ValidStampIsDate and DayZeroAccepted state what they accept) |
| HttpTime.ValidStampIsDate | time.c:213-224 | for a day from 1, the checks accept exactly an in-range clock on a real calendar date |
| HttpTime.DayZeroAccepted | time.c:213-251 | the checks also accept day 00, which Gauss's formula reads as the day before the 1st of the month |
| HttpTime.GmtimeAccepted | time.c:213-251 | the checks accept gmtime's date and Gauss's formula gives the time back |
| HttpTime.FormatTime | time.c:324-340 | the buffer holds at most 29 characters, no more than the returned length |
| HttpTime.GmtimePrintable | time.c:329-339 | gmtime's fields index the name tables and fit two digits, with a year from 1970 |
| HttpTime.ZeroPad2Reads | time.c:332 | `%02d` of a number below 100 reads back as it |
| HttpTime.SpacePad4Reads | time.c:332 | `%4d` of a four-digit year reads back as it |
| HttpTime.MonthNameReads | time.c:335 | each month name reads back as its month |
| HttpTime.TextFields | time.c:331-339 | the printed text has 29 characters and the parser finds exactly the printed fields |
| HttpTime.FormatParse | time.c:324-340 | from 1970 to the end of year 9999 the format writes all 29 characters and the parser reads back the same time |
| HttpTime.EpochParses | time.c:235-251 | "Thu, 01 Jan 1970 00:00:00 GMT" is read as 0 |
| HttpTime.ExampleParses | time.c:235-251 | "Sun, 06 Nov 1994 08:49:37 GMT" is read as 784111777 |
| HttpTime.TimeOfAsWritten | time.c:242-251 | the 32-bit result agrees with the exact one while that fits an `int` |
| HttpTime.TimeOfOverflows | time.c:242-251 | as written, "Tue, 19 Jan 2038 03:14:08 GMT" is read as -2^31 instead of 2^31 |
| HttpTime.WrapsAt | time.c:242-251 | any text read as 2^31 comes back as -2^31 as written |
| Config.ScanWith | config.c:81-159 | the scanner as a function of the line, with a flag for whether the character that starts the name and the value is dropped (no contract; the scanner lemmas below state what it gives) |
| Config.ScanLine | config.c:95-158 | the corrected scanner, which keeps that character (no contract; AssignmentScans and the line-shape lemmas state what it gives) |
| Config.ScanAsWritten | config.c:104-134 | the scanner as written, which drops it (no contract; AssignmentScansAsWritten states what it gives) |
| Config.ScanConf | config.c:81-159 | the state-machine loop computes ScanLine of the line: comment, malformed, or name and value |
| Config.CommentLine | config.c:97-102 | a line whose first character that is not blank is '#' is a comment |
| Config.BlankLineRejected | config.c:95-158 | a line of blanks alone is rejected |
| Config.NoEqualRejected | config.c:118-125 | after the name and a space, anything but blanks and '=' rejects the line |
| Config.UnterminatedRejected | config.c:138-158 | a value the line ends inside, with no terminator, rejects the line |
| Config.AssignmentScans | config.c:95-154 | the scanner reads "name = value" back as that name and value |
| Config.AssignmentScansAsWritten | config.c:104-134 | as written, the scanner loses the first character of the name and of the value |
| Config.StrnEqPrefix | config.c:72 | comparing over the name's own length means the name is a prefix of the setting's name |
| Config.ItemIndex | config.c:71-75 | the search stops at the first table entry that matches |
| Config.ItemFor | config.c:66-78 | none exactly when no entry matches; otherwise the first matching entry in table order |
| Config.FindItem | config.c:66-78 | the lookup loop returns ItemFor of the name |
| Config.FullNamesSelect | config.c:51-63 | every setting is selected by its full name |
| Config.OnlyOwnName | config.c:51-63 | no setting name is a prefix of another |
| Config.EmptyNameSelectsHost | config.c:72 | an empty name selects the first setting, host |
| Config.ClippedNamesSelectNothing | config.c:51-78 | no setting is selected by its name without its first character |
| Config.PortOf | config.c:213-215 | a port at most 0 becomes 80; any other is kept |
| Config.WorkersOf | config.c:231-233 | a worker count at most 0 becomes 5; any other is kept |
| Config.MaxCacheOf | config.c:278-280 | a cache size below 10 MiB becomes 10 MiB; any other is kept |
| Config.GcThresholdOf | config.c:296-300 | a threshold outside 0 to 99 becomes 80; any other is kept |
| Config.LogLevel | config.c:253-263 | the level is 0 to 3; DEBUG exactly when the value is a prefix of "DEBUG"; for a value that is not empty, NOTICE, ALERT and ERROR each exactly when the value is a prefix of that name; none exactly when it is a prefix of no level name |
| Config.LogLevelAsWritten | config.c:253-263 | the level read as written is 0 to 3 when there is one |
| Config.LogLevelIgnoresValue | config.c:255-259 | as written, "NOTICE" after the option "-w 5" is rejected instead of giving level 1 |
| Config.Handle | config.c:192-351 | every handler returns 0 or -1 |
| Config.HandleInRange | config.c:203-321 | a handler that succeeds leaves its number clamped and the path with its length; no handler takes a setting out of range |
| Config.HandleFailure | config.c:192-321 | a failing handler changes nothing, except the string a failed copy left NULL |
| Config.Dispatch | config.c:145-152 | a comment gives 0, a malformed line -1, a setting line runs the handler its name selects or gives -1 (no contract; DispatchSelected and CommentIgnored state what it does) |
| Config.Conf | config.c:81-159 | one line with the corrected scanner (no contract; AssignmentApplies and CommentIgnored state what it does) |
| Config.ConfAsWritten | config.c:81-159 | one line with the scanner as written (no contract; AssignmentRejectedAsWritten states what it does) |
| Config.DispatchSelected | config.c:145-150 | a setting line whose name selects an entry runs that entry's handler |
| Config.AssignmentApplies | config.c:81-159 | "name = value" for any setting does what that setting's handler does |
| Config.AssignmentRejectedAsWritten | config.c:81-159 | as written, every "name = value" line is rejected with -1 and changes nothing |
| Config.CommentIgnored | config.c:97-102 | a comment line returns 0 and changes no setting |
| Config.Settings.constructor | bolt.c:184 | the settings start zeroed and unset |
| Config.Settings.ParseHost | config.c:192-200 | the host handler's result and new settings are Handle's |
| Config.Settings.ParsePort | config.c:203-218 | the port handler's result and new settings are Handle's |
| Config.Settings.ParseWorkers | config.c:221-236 | the workers handler's result and new settings are Handle's |
| Config.Settings.ParseLogfile | config.c:239-247 | the logfile handler's result and new settings are Handle's |
| Config.Settings.ParseLogmark | config.c:250-265 | the logmark handler, comparing the value each time, gives Handle's result |
| Config.Settings.ParseMaxCache | config.c:268-283 | the max-cache handler's result and new settings are Handle's |
| Config.Settings.ParseGcThreshold | config.c:286-303 | the gc-threshold handler's result and new settings are Handle's |
| Config.Settings.ParsePath | config.c:306-321 | the path handler's result and new settings are Handle's |
| Config.Settings.ParseWatermark | config.c:324-335 | the watermark handler's result and new settings are Handle's |
| Config.Settings.ParseDaemon | config.c:338-351 | the daemon handler's result and new settings are Handle's |
| Config.Settings.Apply | config.c:150 | the handler called through the table gives Handle's result |
| Config.Settings.ParseConf | config.c:81-159 | one line's result and new settings are Conf of the old settings and the line |

## Left out

- Threads are not modelled. This covers the locks, the condition variables
  the worker and the GC thread wait on, the `__sync_*` atomics, and the
  threads that start them. Each worker step and GC pass is one atomic
  transition.
- bolt_worker_compress is not modelled: it calls into ImageMagick and does
  floating-point arithmetic. bolt_worker_parse_task has an empty body. Their
  outcomes, and malloc's, are parameters of `Worker.Process`.
- The byte written to the wakeup pipe is not modelled. Neither are the
  libevent calls: event_set, event_base_set, event_add and event_del are
  parameters. close(), free() and http_parser_init are not modelled either.
- net.c, log.c, utils.c, special_response.c, bolt.c and the receive/send
  handlers of the connections are not part of this model. This includes
  main's command-line clamps, which repeat the configuration handlers.
- bolt_read_confs is not modelled: it opens the file and feeds it to the
  scanner line by line with fgets. The model works on one line.
- bolt_atoi and bolt_strndup are not part of this model. `atoi` and `dupOk`
  stand for them.
  - A failing bolt_atoi is taken to leave its setting unchanged.
  - The length that bolt_atoi reads is the value's length.
- The 256- and 512-byte name and value buffers of the scanner can overflow;
  the model's strings are unbounded.
- A line holding a NUL is read up to it, as C does. The model's lines have no
  NUL.
- A NULL `optarg` would crash the logmark handler as written. The model's
  handler compares the value, as the corrected handler does.
- config.c declares the port handler as `bolt_conf_parse_prot` but defines it
  as `bolt_conf_parse_port`. Its handler typedef does not compile as written.
  The model takes the evident intent.
- bolt.h's settings structure lacks the logmark, path, path_len, watermark
  and watermark_enable fields that config.c writes. The model's `Options` has
  them all.
- bolt.h declares the port as a `short`, while bolt_atoi is handed it as an
  `int`. The model's port is an unbounded integer.
- bolt.h also lacks fields that the worker and GC code use:
  - the cache entry's file name;
  - the connection's wakeup field;
  - the service's byte count and wakeup queue;
  - the task's file name length.
  
  The model declares them.
- The worker inserts into the cache table with three arguments where four
  are declared. The missing `replace` is modelled as 0, so an already cached
  key keeps its old entry, while the waiters get the new one.
- The worker neither appends the new entry to the eviction list nor adds
  its size to the byte count (worker.c:136-170). The model does the same, so
  an entry the worker caches is never evicted.
- The table's hash function is a function from keys to naturals. The
  default hash reads the key's bytes as unsigned, which keeps its `long`
  non-negative; the as-written default hash, whose signed bytes can make it
  negative, is modelled on its own in `ElfHashing`.
- JkHash.Table.Find, Insert, Remove, Rehash: entries keep the whole hash
  value, where the source's entries keep an `int` (hash.h:45, hash.c:152).
  The source therefore loses keys whose hash exceeds INT_MAX, and the table's
  map contracts do not describe that. The as-written loss is stated on its
  own by JkHash.TruncatedHashvalLosesKey.
- ElfHashing.DefaultHash: the shift of the `long` is taken to wrap at 64
  bits. The corrected hash never reaches the sign bit, so no signed overflow
  arises there; the hash as written can shift a negative `long`, which C
  leaves undefined.
- The free callback is modelled as the ghost sequence `Freed` of the values
  handed to it.
- The jk_hash entry's `klen` is the key's length. Keys are byte strings
  without NUL, so strncmp over `klen` bytes is equality.
- The source grows the table when `elm_nums * 1.5 > buckets_size` in floating
  point. The model uses the exact integer form, `2 * buckets_size < 3 *
  elm_nums`.
- HttpTime.Gmtime: `days * 400` overflows an `int` past the year 14000 or so.
  The model's arithmetic is exact, and the round trip is stated only up to
  the end of year 9999, where the source does not overflow.
- The `sizeof(time_t) <= 4` branch of the parser (time.c:226-228) is not
  modelled: `time_t` is taken to be 64 bits.
- bolt_format_time's weekday and month name tables are not defined in time.c.
  They are taken to be the English abbreviations of RFC 7231.
- HttpTime.FormatTime: snprintf's text is stated only for times from the
  epoch on. Before the epoch, gmtime's fields do not index the name tables.
- HttpTime.ValidStampIsDate: stated for days from 1. The parser's checks
  bound the day only from above, so day 00 passes them too;
  HttpTime.DayZeroAccepted states that case on its own.
- The parser is proved on the RFC 1123 round trip and on two printed dates.
  Concrete RFC 850 and asctime example texts are not stated as lemmas. Their
  field readers are proved equal to their specification functions.

## Findings

| source | as written | input that shows it | evidently intended | confidence | as-written member | corrected member |
|---|---|---|---|---|---|---|
| config.c:104 | the character that moves the scanner to read_name, and at line 133 to read_value, is skipped rather than stored | "port = 80\n" scans as name "ort" and value "0"; "ort" matches no setting, so the line returns -1 (every setting line fails this way) | the first character of the name and of the value is part of them | high, not executed; latent in the program shown, since main (bolt.c:179-199) never calls bolt_read_confs | Config.AssignmentRejectedAsWritten | Config.AssignmentApplies |
| gc.c:54-55 | `max_cache * gc_threshold` is computed in 32-bit `int` | max_cache 33554432 (32 MiB), gc_threshold 80, memused 33554432: the target is 49660559 bytes, more than the cache holds | the target is memused less 80% of max_cache, 6710887 bytes | high, not executed | Gc.GcTargetOverflow | Gc.GcTargetBounds |
| time.c:242-251 | Gauss's formula is computed in 32-bit `int` before widening to `time_t` | "Tue, 19 Jan 2038 03:14:08 GMT" gives -2147483648 | 2147483648, the time every later date in the year-10000 round trip needs | high, not executed | HttpTime.TimeOfOverflows | HttpTime.FormatParse |
| hash.c:38-51 | the default hash adds plain, signed `char`s into a 64-bit `long`; a byte from 128 up is sign-extended | the one-byte key 0x80 hashes to -4026531984, and `hashval % buckets_size` gives bucket -6 of a 7-bucket table | the same hash with the bytes read as unsigned, which never goes negative, so its index lies inside the bucket array | medium (depends on `char` being signed), not executed | JkHash.SignedByteIndexNegative | JkHash.DefaultIndexInRange |
| hash.c:152 | the entry keeps the `long` hash value in an `int` (hash.h:45), and find, insert and remove compare that `int` with the `long` (hash.c:109, 132, 181) | the key of seven bytes 0F and a byte 10 hashes to 2^32, kept as 0; jk_hash_find then returns ERR straight after jk_hash_insert succeeded | the entry keeps the whole hash value, so a key inserted is found | medium (depends on `long` being 64 bits), not executed | JkHash.TruncatedHashvalLosesKey | JkHash.Table.Find |
| config.c:255-259 | the logmark handler compares `optarg`, the last command-line option's argument, against NOTICE, ALERT and ERROR | "logmark = NOTICE" after the option "-w 5" returns -1 | the value is compared, giving level 1 | high, not executed; latent in the program shown, since main (bolt.c:179-199) never calls bolt_read_confs | Config.LogLevelIgnoresValue | Config.LogLevel |
