# pfodWebDesigner core, modelled in Dafny

pfodWebDesigner is a browser-based designer for pfod drawings. Its Node.js server keeps
drawings as lists of items (rectangles, labels, touchZones, touchActions, inserted drawings
and so on). It hands out numeric index and command numbers, reorders touch items, imports and
merges drawings, and exports Arduino code together with a zip archive of the sketch. The browser side
(pfodWeb) talks to a pfod device over HTTP, BLE or serial, caches versioned responses and
collects raw and CSV data from the stream. On the device side, `pfodMainMenu.cpp` answers the
pfodApp main-menu commands.

This project models that core in Dafny:

- **Pure helpers become functions with contracts and lemmas.** These are colour tables, key
  and version parsing, name generators, the Arduino statement generator, zip layout and CRC-32.
- **Loops and objects that change state become methods and classes.** They are proved equal
  to those functions: the collectors, the cache, the dispatcher, the server's drawing store
  and the request queue.

Shared modules:

| module | holds |
|---|---|
| `Wrappers` | `Option` |
| `Seqs` | sequence helpers: `Filter`, insertion, distinctness, sub-sequences |
| `Text` | trimming, searching, splitting, decimal numerals |
| `Js` | the JavaScript values a dynamically typed argument can take |
| `DrawingItems` | the drawing item record |
| `Splices` | the `splice` patterns of the touch-action code |

Item string fields use `""` for a field that is absent.


## Model

| member | source | states |
|---|---|---|
| MainMenu.FullMenu | src/pfodMainMenu.cpp:86-94 | the Menu message opens `{,<bg w>~` and ends `\|+A~` + the drawing's load command + `}` |
| MainMenu.Dispatcher.Init | src/pfodMainMenu.cpp:32-43 | the first call stores the closer and sets `initialized`; a later call keeps the stored closer; no close call is made |
| MainMenu.Dispatcher.CloseConnection | src/pfodMainMenu.cpp:80-84 | one call of the registered closer with `io` is recorded when a closer is registered, none otherwise |
| MainMenu.Dispatcher.SendMainMenu | src/pfodMainMenu.cpp:86-94 | appends exactly `FullMenu(refresh-and-version, load command)` to the output |
| MainMenu.Dispatcher.SendMainMenuUpdate | src/pfodMainMenu.cpp:96-103 | appends exactly the update message to the output |
| MainMenu.Dispatcher.Handle | src/pfodMainMenu.cpp:46-78 | the text written and the close calls made are those of `Respond` for the parsed command, whether or not `Init` ran |
| MainMenu.NoCommandNoEffect | src/pfodMainMenu.cpp:52-54 | when `parse()` returns 0 nothing is written and no closer is called |
| MainMenu.MenuCommandsChooseUpdateOnRefresh | src/pfodMainMenu.cpp:55-70 | `.` and `A` are answered with the update message exactly when the parser reports a refresh, else with the full menu; neither closes |
| MainMenu.CloseCommandCallsCloserOnce | src/pfodMainMenu.cpp:71-72 | `!` writes nothing and calls the registered closer, if any, once with the command's stream |
| MainMenu.OtherCommandsAcknowledged | src/pfodMainMenu.cpp:73-76 | every other command is answered with `{}` |
| MainMenu.EveryCommandAnswered | src/pfodMainMenu.cpp:52-77 | every parsed command gets exactly one answer: a close, or one message opening with `{` and closing with `}` |
| MainMenu.MenuUpdateText | src/pfodMainMenu.cpp:96-101 | the update message is exactly `{;~\|+A}` |
| MainMenu.InitTwice | src/pfodMainMenu.cpp:32-35 | after two `Init` calls the closer is the first call's |
| MainMenu.HandleTwice | src/pfodMainMenu.cpp:46-78 | handling a command other than `!` twice writes the same reply twice and makes no close call |
| Caching.ConnectionIdentifier | src/caching.js:17-33 | the target IP for http, else `unknown_ip`; the device name, else the device id, else `unknown_ble` for ble; `Serial` for serial; `unknown_connection` otherwise; never empty |
| Caching.GetResponseType | src/caching.js:37-56 | `menuStart` iff the string starts `{,`, `menuUpdate` iff `{;`, `dwgUpdate` iff it is `{+`, `dwgStart` iff it starts `{+` and is longer; null for non-strings and everything else |
| Caching.CommandKey | src/caching.js:67-96 | the key is the longest non-empty run of key characters after the brace and any `version:` prefix; none for a non-string, or when no key character follows |
| Caching.CommandKeyWithoutVersion | src/caching.js:67-96 | for `{` + key + rest with no `:`, the key is read from just after the brace |
| Caching.CommandKeyWithVersion | src/caching.js:67-96 | for `{` + version + `:` + key + rest, the key is read from just after the first `:` |
| Caching.VersionedKeyBeforeBacktick | src/caching.js:62 | `{v1:c1`data}` gives `c1` |
| Caching.VersionedKeyBeforeTilde | src/caching.js:63 | `{v1:c1~data}` gives `c1` |
| Caching.VersionedMainMenuKey | src/caching.js:61 | `{v1:.}` gives `.` |
| Caching.UnversionedKey | src/caching.js:64 | `{c1`data}` gives `c1` |
| Caching.UnversionedMainMenuKey | src/caching.js:65 | `{.}` gives `.` |
| Caching.VersionIsFirstToken | src/caching.js:101-138 | a version exists exactly when non-blank text follows a second `~`; it is then a non-empty, space-free prefix of that trimmed text that ends at a space or at the end |
| Caching.ExtractVersion | src/caching.js:101-138 | the loop over `~` positions returns exactly `Version(msgType)` |
| Caching.CacheKey | src/caching.js:142-144 | the key starts `pfodWeb_cache_`, ends `_` + command key, and has the length of its parts |
| Caching.CacheKeyInjective | src/caching.js:142-144 | on one connection, distinct command keys give distinct cache keys |
| Caching.Cache.CacheResponse | src/caching.js:150-196 | stores exactly when the data has a non-empty `cmd` with a known response type, a version and a command key; then stores the response with its version set under `CacheKey(connection, key)`; otherwise storage is unchanged |
| RawDataCollector.StepEffect | src/rawDataCollector.js:46-81 | braces and characters inside a message keep the text; any other character is appended, after a line break when a message has just closed; depth stays non-negative |
| RawDataCollector.RunExtends | src/rawDataCollector.js:35-40 | over any input the kept text only grows |
| RawDataCollector.RunPlainText | src/rawDataCollector.js:35-81 | brace-free text arriving outside a message is kept verbatim |
| RawDataCollector.MessageBecomesNewline | src/rawDataCollector.js:46-81 | a whole message followed by an ordinary character is replaced by exactly one line break |
| RawDataCollector.InsideMessage | src/rawDataCollector.js:68-80 | brace-free text inside a message changes nothing |
| RawDataCollector.From | src/rawDataCollector.js:107 | `substring(start)` gives the empty string for a start past the end, else the suffix |
| RawDataCollector.Collector.ProcessChar | src/rawDataCollector.js:46-81 | the new state is `Step(old state, c)` |
| RawDataCollector.Collector.ProcessCharacters | src/rawDataCollector.js:35-40 | the new state is `Run(old state, text)` |
| RawDataCollector.Collector.GetNewData | src/rawDataCollector.js:106-110 | the kept text from the display position on, a suffix of the kept text, empty iff the position is at or past the end |
| RawDataCollector.Collector.MarkDisplayedUpTo | src/rawDataCollector.js:116-119 | the display position becomes the kept length, so no new data is reported |
| RawDataCollector.Collector.ExtractAndClearRawData | src/rawDataCollector.js:125-130 | returns the kept text and empties it; nothing else changes |
| RawDataCollector.Collector.Clear | src/rawDataCollector.js:135-140 | text, depth and display position are reset; `wasInBraces` is kept |
| RawDataCollector.Collector.GetStats | src/rawDataCollector.js:146-151 | the kept length and the number of line feeds in the kept text |
| RawDataCollector.PositionsCount | src/rawDataCollector.js:149 | the number of matches of `\n` equals the number of line feeds |
| CsvCollector.FieldCount | src/csvCollector.js:96 | the field count is the number of commas plus one |
| CsvCollector.StepKeepsGood | src/csvCollector.js:48-89 | one step keeps depth non-negative, the line being built free of braces and terminators, and every stored line good and in the bucket of its field count |
| CsvCollector.RunKeepsGood | src/csvCollector.js:38-42 | any input keeps the collector good from a good state |
| CsvCollector.AddLineKeepsGood | src/csvCollector.js:95-108 | filing a good line keeps every bucket good and keyed by field count |
| CsvCollector.StepInsideBraces | src/csvCollector.js:50-72 | inside a message every character but a brace leaves the state unchanged, so nothing read there is stored |
| CsvCollector.StepAtTerminator | src/csvCollector.js:75-83 | at a line terminator outside braces the line is emptied, CSV mode turns on, and the buckets change exactly when CSV mode was on and the trimmed line is not blank |
| CsvCollector.TerminatorStep | src/csvCollector.js:75-83 | the state after a terminator outside braces, written out |
| CsvCollector.AddLineGrows | src/csvCollector.js:95-108 | filing a line always changes the buckets |
| CsvCollector.StepExtends | src/csvCollector.js:48-89 | one step only appends to buckets |
| CsvCollector.AddLineExtends | src/csvCollector.js:105-106 | filing a line only appends to its bucket |
| CsvCollector.RunExtends | src/csvCollector.js:38-42 | over any input stored lines keep their places; buckets only grow at their ends |
| CsvCollector.RunAppend | src/csvCollector.js:38-42 | feeding two chunks gives the state of feeding their concatenation |
| CsvCollector.LeadingTextDropped | src/csvCollector.js:27 | text before the first `}` or line terminator stores nothing and leaves CSV mode off |
| CsvCollector.Collector.AddCsvLine | src/csvCollector.js:95-108 | the bucket map becomes `AddLine(old map, line)` |
| CsvCollector.Collector.ProcessChar | src/csvCollector.js:48-89 | the new state is `Step(old state, c)` and stays good |
| CsvCollector.Collector.ProcessCharacters | src/csvCollector.js:38-42 | the new state is `Run(old state, text)` |
| CsvCollector.Collector.GetCsvLines | src/csvCollector.js:125-127 | `[]` for an unseen count, else that bucket; every line returned is good with count − 1 commas |
| CsvCollector.Collector.Clear | src/csvCollector.js:204-210 | the state becomes the initial state |
| ConnectionManager.DedupCharsLayout | src/connectionManager.js:127 | the dedup alphabet has 62 characters: the digits, then `A`-`Z`, then `a`-`z` |
| ConnectionManager.DedupCharsIncreasing | src/connectionManager.js:127 | the alphabet is strictly increasing, so its characters are pairwise distinct |
| ConnectionManager.DedupWindowDistinct | src/connectionManager.js:135-139 | any 62 consecutive counter values give pairwise distinct characters |
| ConnectionManager.Dedup.Next | src/connectionManager.js:135-139 | returns the character at the counter and advances the counter modulo 62 |
| ConnectionManager.FindMatchingClosingBrace | src/connectionManager.js:148-165 | −1 unless `text[startIdx]` is `{`; otherwise the first position after the start where the running depth returns to 0, or −1 when the depth never does |
| ConnectionManager.PfodSplitProperties | src/connectionManager.js:734-766 | the elements concatenate back to the input; `}` is always an element of its own; every element after the first starts with `\|` or follows a `}` |
| ConnectionManager.PfodSplitOneItem | src/connectionManager.js:734-766 | a head, one `\|` item and `}` split into exactly those three elements |
| ConnectionManager.PfodSplitExample | src/connectionManager.js:730-732 | `{,~`0~V2\|+A~z}` splits into `{,~`0~V2`, `\|+A~z`, `}` |
| ConnectionManager.PfodToJson | src/connectionManager.js:734-766 | the loop's array equals `PfodSplit(pfodString)` |
| ConnectionManager.FrameKeepsText | src/connectionManager.js:783-849 | the text before the first `{`, the message and the new buffer put back together are the old buffer |
| ConnectionManager.FrameBuffering | src/connectionManager.js:783-849 | a buffer without `{` is emptied; text before the first `{` is captured; with no `}` after it the buffer keeps everything from the `{` |
| ConnectionManager.FrameMessageShape | src/connectionManager.js:798-848 | a framed message starts with `{`, ends with its only `}` |
| ConnectionManager.SerialReceiver.FrameBuffer | src/connectionManager.js:783-849 | the captured text, message and remainder the method computes are those of `Frame(buffer)` |
| ConnectionManager.SerialReceiver.ProcessReadBuffer | src/connectionManager.js:783-849 | the buffer becomes the remainder; captured text and the message go to the collectors; a waiting request is resolved with the split message |
| ConnectionManager.ResponseTimeoutMs | src/connectionManager.js:200-216 | 3000 ms by default; seconds clamped to [0, 30], with 0 meaning 60000 ms and any other value seconds × 1000 |
| ConnectionManager.MaxRetries | src/connectionManager.js:222-228 | 1 for ble, 2 for http and serial, 0 for any other protocol |
| ConnectionManager.DefaultProtocolRetries | src/connectionManager.js:197 | without a configured protocol the connection is http and retries twice |
| ConnectionManager.FirstSuccess | src/connectionManager.js:367-403 | the index of the first successful attempt below the limit, or none when all fail |
| ConnectionManager.HttpSend | src/connectionManager.js:367-403 | one dedup character is taken and prefixed to every attempt; at most `maxRetries + 1` attempts; the result is the first success, or none after all attempts fail |
| MessageViewer.Logged | src/messageViewer.js:44-49 | after one push and at most one shift the log holds the newest entries of old log + new entry, the new entry last, and grows by one unless it was over the limit |
| MessageViewer.LoggedWithinCapacity | src/messageViewer.js:44-49 | within capacity, adding is a push, followed by dropping the oldest entry exactly when the limit is exceeded |
| MessageViewer.LogKeepsNewest | src/messageViewer.js:30-56 | a series of additions leaves exactly the newest `maxMessages` entries of everything logged, in order |
| MessageViewer.Escape | src/messageViewer.js:147-150 | the escaped message has no line feed and is longer by the number of `"` |
| MessageViewer.UnescapeEscape | src/messageViewer.js:147-150 | undoing the doubling of `"` gives the message with every line feed replaced by a space |
| MessageViewer.Rows | src/messageViewer.js:145-152 | one row per message, in log order |
| MessageViewer.RowIsOneLine | src/messageViewer.js:145-152 | a row of single-line fields contains no line feed |
| MessageViewer.CsvLines | src/messageViewer.js:142-154 | the export splits into the header line followed by one row per message; an empty log gives just the header line |
| MessageViewer.DisplayedMatchesDirectionFilter | src/messageViewer.js:485-490 | with filter `all` every entry is shown; otherwise exactly the entries of that direction, in order |
| MessageViewer.MessageCollector.AddMessage | src/messageViewer.js:30-56 | while paused the log is unchanged; otherwise the log becomes `Logged(old log, entry, max)` with `size` the message length |
| MessageViewer.MessageCollector.GetMessages | src/messageViewer.js:90-92 | returns the log |
| MessageViewer.MessageCollector.GetMessagesByProtocol | src/messageViewer.js:97-99 | exactly the entries of the protocol, in log order |
| MessageViewer.MessageCollector.GetMessagesByDirection | src/messageViewer.js:104-106 | exactly the entries of the direction, in log order |
| MessageViewer.MessageCollector.Clear | src/messageViewer.js:111-114 | the log becomes empty |
| MessageViewer.MessageCollector.Pause | src/messageViewer.js:119-122 | sets `isPaused` and nothing else |
| MessageViewer.MessageCollector.Resume | src/messageViewer.js:127-130 | clears `isPaused` and nothing else |
| MessageViewer.MessageCollector.ExportAsCsv | src/messageViewer.js:142-154 | the export is `CsvText(log)`, which starts with the header line |
| ChartDisplay.LabelsAreFieldNames | src/chartDisplay.js:69-72 | every label is non-empty, trimmed, and the text after the `\|` of some `\|`-prefixed element |
| ChartDisplay.LabelsAppend | src/chartDisplay.js:69-72 | the labels of two runs of elements are the labels of each, in order |
| ChartDisplay.LabelsSingle | src/chartDisplay.js:69-72 | one element gives its trimmed text after `\|` when it is `\|`-prefixed and that text is non-empty, else nothing |
| ChartDisplay.ParseChartLabels | src/chartDisplay.js:40-89 | null exactly when the array is missing or empty, the first element has no `=`, it is the only element, or no label remains; otherwise the title is the trimmed text after the first `=`, the labels are `Labels(rest)` and the limit is 500 |
| ChartDisplay.LabelOfPlainName | src/chartDisplay.js:69-72 | `\|` + a trimmed non-empty name gives that name |
| ChartDisplay.ParseOfHeader | src/chartDisplay.js:40-89 | `{=` + a trimmed title followed by label elements parses to that title, those labels and limit 500 |
| ChartDisplay.ParseWithEq | src/chartDisplay.js:40-89 | with an `=` in the first element and some label, the result is the trimmed title after it with `Labels(rest)` |
| ChartDisplay.DocumentedLabels | src/chartDisplay.js:31 | `\|count`, `\|l1`, `\|l2` give the labels `count`, `l1`, `l2` |
| ChartDisplay.DocumentedHeader | src/chartDisplay.js:31-34 | `["{=Test Data", "\|count", "\|l1", "\|l2"]` parses to title `Test Data`, those three labels and limit 500 |
| ChartDisplay.GetLimitedLines | src/chartDisplay.js:114-120 | the last `min(n, limit)` lines, and the lines unchanged when there are at most `limit` |
| ChartDisplay.LimitedLinesOfAppended | src/chartDisplay.js:114-120 | once at least `limit` new lines arrive, older lines no longer matter |
| ColorUtils.TableSize | src/colorUtils.js:13-61 | the table has 16 standard, 216 cube and 24 grey entries, 256 in all |
| ColorUtils.CubeRuleAt | src/colorUtils.js:18-54 | cube entry `36r + 6g + b` is the colour with levels r, g, b of 00, 5f, 87, af, d7, ff |
| ColorUtils.ListedCubeRed0 | src/colorUtils.js:19-24 | the listed colours with red level 00 are exactly the cube rule's first 36 |
| ColorUtils.ListedCubeRed1 | src/colorUtils.js:25-30 | the listed colours with red level 5f are the cube rule's entries 36-71 |
| ColorUtils.ListedCubeRed2 | src/colorUtils.js:31-36 | the listed colours with red level 87 are the cube rule's entries 72-107 |
| ColorUtils.ListedCubeRed3 | src/colorUtils.js:37-42 | the listed colours with red level af are the cube rule's entries 108-143 |
| ColorUtils.ListedCubeRed4 | src/colorUtils.js:43-48 | the listed colours with red level d7 are the cube rule's entries 144-179 |
| ColorUtils.ListedCubeRed5 | src/colorUtils.js:49-54 | the listed colours with red level ff are the cube rule's entries 180-215 |
| ColorUtils.ListedGreys | src/colorUtils.js:56-60 | the listed greys are `#080808` + 10k for k below 24 |
| ColorUtils.CubeEntries | src/colorUtils.js:18-54 | colour number `16 + 36r + 6g + b` is the cube colour r, g, b |
| ColorUtils.GreyEntries | src/colorUtils.js:56-60 | colour number `232 + k` is grey k |
| ColorUtils.GetColorHex | src/colorUtils.js:117-122 | `#000000` for numbers outside 0-255, the table entry otherwise |
| ColorUtils.ColorHexIsHexColor | src/colorUtils.js:117-122 | every number gives `#` followed by six lower-case hexadecimal digits |
| ColorUtils.StandardColorsAreHex | src/colorUtils.js:14-16 | each of the 16 standard colours is a well-formed hex colour |
| ColorUtils.CubeEntryIsHex | src/colorUtils.js:18-54 | each cube entry is a well-formed hex colour |
| ColorUtils.GreyEntryIsHex | src/colorUtils.js:56-60 | each grey entry is a well-formed hex colour |
| ColorUtils.GridAppend | src/colorUtils.js:148-181 | appending the next numbered cell keeps the cells numbered 0, 1, … with their colours |
| ColorUtils.ColorGridCells | src/colorUtils.js:148-181 | the grid has 256 cells, cell n being colour n with `GetColorHex(n)`, in the order standard, cube by r, g, b, grey |
| ArduinoExport.GetDirPrefix | src/arduinoExport.js:26-37 | empty exactly for `dwg-only`; otherwise `<main>_<transport>/` with transport `ble`, `http`, or `serial` for anything else |
| ArduinoExport.DirPrefixesSeparateTransports | src/arduinoExport.js:26-37 | two non-empty prefixes of one drawing are equal only when their transports are |
| ArduinoExport.ConvertOffset | src/arduinoExport.js:692-696 | `COL`/`col` becomes the touched column, `ROW`/`row` the touched row, other truthy values pass through and falsy ones become 0; the result is never a token again |
| ArduinoExport.ConvertOffsetIdempotent | src/arduinoExport.js:692-696 | converting a converted offset changes nothing |
| ArduinoExport.ConvertColor | src/arduinoExport.js:883-920 | -1 gives `BLACK_WHITE`; a non-number or a number outside -1..255 gives `BLACK`; 0-15 give the sixteen named constants; 16-255 give their decimal digits |
| ArduinoExport.StandardColorNamesDistinct | src/arduinoExport.js:900-917 | the sixteen constant names differ from each other and from `BLACK_WHITE` |
| ArduinoExport.ConvertColorInjective | src/arduinoExport.js:883-920 | distinct colour numbers from -1 to 255 give distinct code |
| ArduinoExport.NumberNotNamed | src/arduinoExport.js:883-920 | a number from 16 to 255 never gives the code of -1 or of a standard colour |
| ArduinoExport.VisibilityTarget | src/arduinoExport.js:797-807 | for hide and unhide, the drawing wins over the command, which wins over the index; no target exactly when all three are empty |
| ArduinoExport.IndexTarget | src/arduinoExport.js:852-855 | an index item targets its command, else its index name, and never a drawing |
| ArduinoExport.DrawingTargetIgnoresNames | src/arduinoExport.js:797-807 | with a drawing name, the command and index names do not matter |
| ArduinoExport.CmdTargetIgnoresIdxName | src/arduinoExport.js:797-862 | with a command name, the index name does not matter |
| ArduinoExport.StatementCodeAsWritten | src/arduinoExport.js:797-862 | the statement as written: a call on the chosen target, and the fallback comments as written |
| ArduinoExport.EraseCommentMislabelled | src/arduinoExport.js:862 | an erase item with no target produces the hide comment, not an erase one |
| ArduinoExport.StatementCode | src/arduinoExport.js:797-862 | a call `dwgsPtr-><kind>()` on the chosen target, or a comment naming the kind when there is none |
| ArduinoExport.StatementCodeAsWrittenAgrees | src/arduinoExport.js:797-862 | the code as written and the corrected code differ only for an erase item with no target |
| ArduinoExport.StatementCodeNamesKind | src/arduinoExport.js:797-862 | the corrected statement always begins with its own kind, as a call or as a comment |
| ArduinoExport.TargetCallInjective | src/arduinoExport.js:797-862 | different targets give different calls |
| ArduinoExport.TargetCallShape | src/arduinoExport.js:797-862 | the call is `dwgsPtr-><kind>().<loadCmd(dwg_\|cmd(\|idx(><name>).send();` |
| Crc32.RoundDistributes | src/arduinoExport.js:950-954 | one shift-and-conditional-xor round distributes over xor |
| Crc32.EightRoundsOfHighBits | src/arduinoExport.js:949-955 | on a register whose low byte is zero, eight rounds are a shift by eight bits |
| Crc32.ByteRoundsIsByteStep | src/arduinoExport.js:947-957 | eight rounds are linear over xor and act as a byte shift on the high bytes, so a 256-entry table replaces them |
| Crc32.TableStep | src/arduinoExport.js:961 | for such a step, folding one byte equals the table entry of the low byte xored with the register shifted by eight |
| Crc32.NextRegister | src/arduinoExport.js:961 | the table update after n bytes gives the bit-wise register after n + 1 bytes |
| Crc32.TableEntry | src/arduinoExport.js:948-956 | the eight-round loop yields eight rounds of the index |
| Crc32.CrcTable | src/arduinoExport.js:944-957 | a fresh table of 256 entries, entry k being eight rounds of k |
| Crc32.FoldBytes | src/arduinoExport.js:959-962 | the table loop computes the bit-wise register fold of all the data, starting at 0xFFFFFFFF |
| Crc32.Crc32 | src/arduinoExport.js:943-964 | the reflected CRC-32 with polynomial 0xEDB88320, initial and final xor 0xFFFFFFFF, as an integer in [0, 2^32) |
| Crc32.EmptyChecksum | src/arduinoExport.js:959-963 | the CRC-32 of no bytes is 0 |
| ZipPaths.NormalizePath | src/arduinoExport.js:990-993 | the result is the path with its leading run of slashes removed: a suffix, only slashes dropped, and it does not start with a slash |
| ZipPaths.NormalizePathIdempotent | src/arduinoExport.js:990-993 | normalising twice is normalising once |
| ZipPaths.DirPaths | src/arduinoExport.js:1001-1005 | one directory per `/`-separated part but the last, each being the parts up to it joined by `/` plus a final `/` |
| ZipPaths.DirPathsAreDirPrefixes | src/arduinoExport.js:1001-1005 | those directories are exactly the non-empty prefixes of the path that end in `/` |
| ZipPaths.SetAdd | src/arduinoExport.js:1004 | adding to the insertion-ordered set keeps its members plus the new one, without duplicates |
| ZipPaths.SetAddAllContents | src/arduinoExport.js:999-1006 | adding many keeps the set duplicate-free and holds exactly the old members and the new ones |
| ZipPaths.DirectoriesExact | src/arduinoExport.js:996-1013 | the collected directories have no duplicates and are exactly the `/`-terminated prefixes of some normalised file name |
| ZipPaths.AddPathDirectories | src/arduinoExport.js:1001-1005 | the loop over the parts of one path adds its directories in order |
| ZipPaths.ProcessDirectories | src/arduinoExport.js:996-1013 | one directory entry, with empty content, per collected directory, in insertion order |
| ZipPaths.AllEntries | src/arduinoExport.js:1016-1019 | the directory entries followed by the files with normalised names |
| ZipArchive.Uint32 | src/arduinoExport.js:967-981 | an unsigned 32-bit value, as `>>>` yields |
| ZipArchive.LittleEndianOfLeBytes | src/arduinoExport.js:967-981 | n little-endian bytes decode back to the value modulo 256^n |
| ZipArchive.WritersTruncate | src/arduinoExport.js:967-981 | the writers see only the low 16 or 32 bits of the value |
| ZipArchive.ReadUint16 | src/arduinoExport.js:976-981 | the two bytes written decode back to the value modulo 2^16 |
| ZipArchive.ReadUint32 | src/arduinoExport.js:967-974 | the four bytes written decode back to the value modulo 2^32 |
| ZipArchive.ZipDateTime | src/arduinoExport.js:931-940 | the packed date holds year − 1980, month and day, and the packed time hours, minutes and seconds / 2, each in its own bit field |
| ZipArchive.EncodeEntry | src/arduinoExport.js:1027-1029 | the name and (for files) the content are encoded; a directory has empty content; the CRC is that of the content |
| ZipArchive.EncodeAll | src/arduinoExport.js:1022-1029 | every entry is encoded, in order |
| ZipArchive.ExternalAttributes | src/arduinoExport.js:1099 | 0x10 for a directory and 0 for a file |
| ZipArchive.LocalHeaderFields | src/arduinoExport.js:1032-1058 | the local header is 30 bytes plus the name, with signature PK 03 04, version 20, no flags, stored, time, date, CRC, both sizes, name length and no extra field, as section 4.3.7 of the PKWARE APPNOTE.TXT lays out |
| ZipArchive.CentralHeaderFields | src/arduinoExport.js:1065-1104 | the central header is 46 bytes plus the name, with signature PK 01 02, time, date, CRC, sizes, name length, attributes and the local header's offset, as section 4.3.12 of APPNOTE.TXT lays out |
| ZipArchive.EndRecordFields | src/arduinoExport.js:1116-1134 | the end record is 22 bytes with signature PK 05 06, the entry count twice, the directory size and its offset, as section 4.3.16 of APPNOTE.TXT lays out |
| ZipArchive.ArchiveStep | src/arduinoExport.js:1022-1110 | each entry adds its local header and content to the records, its central header (pointing at the running offset) to the directory, and advances the offset by header plus content |
| ZipArchive.CentralHeaderPointsAtLocalHeader | src/arduinoExport.js:1102-1109 | in the archive, the central header of entry i records the offset of its own local header, and both carry the entry's name |
| ZipArchive.EndRecordDescribesDirectory | src/arduinoExport.js:1112-1156 | the archive ends with the end record, which counts the entries and gives the central directory's true size and offset |
| ZipWriter.SetAt | src/arduinoExport.js:1036-1058 | `set` copies the data at the position and leaves the rest of the buffer alone |
| ZipWriter.PutFileFields | src/arduinoExport.js:1044-1054 | the running position writes time, date, CRC, both sizes and name length in order |
| ZipWriter.WriteLocalHeader | src/arduinoExport.js:1032-1058 | the filled buffer is exactly the local header |
| ZipWriter.WriteCentralHeader | src/arduinoExport.js:1065-1104 | the filled buffer is exactly the central header |
| ZipWriter.WriteEndRecord | src/arduinoExport.js:1116-1134 | the filled buffer is exactly the end record |
| ZipWriter.TotalSize | src/arduinoExport.js:1113-1138 | the summed lengths are the length of the concatenation |
| ZipWriter.CopyAll | src/arduinoExport.js:1144-1153 | copying the parts one after another writes their concatenation |
| ZipWriter.AddEntry | src/arduinoExport.js:1022-1110 | one entry pushes its local header and content, its central header at the current offset, and advances the offset |
| ZipWriter.AddEntryExtends | src/arduinoExport.js:1022-1110 | after each entry the pushed data are the records and directory of the entries so far |
| ZipWriter.Assemble | src/arduinoExport.js:1137-1156 | the buffer is the file data, then the central directory, then the end record |
| ZipWriter.CollectEntries | src/arduinoExport.js:1016-1019 | the directory entries followed by the normalised files |
| ZipWriter.AddEntries | src/arduinoExport.js:1022-1110 | fails exactly when some entry lacks a name or (as a file) content; otherwise the data, directory and offset are those of all entries |
| ZipWriter.CreateZip | src/arduinoExport.js:923-1156 | no archive exactly when some entry is rejected; otherwise the bytes are `Archive` of the encoded entries |
| Server.CompleteFilter | src/server.js:1405-1430 | the kept items are exactly the complete ones; other kinds are never dropped; filtering again changes nothing |
| Server.TempAdd | src/server.js:2590-2630 | the old items stay a prefix of all but the last; a hide, unhide or erase is appended as is; anything else is appended as the single marked preview, which is recorded |
| Server.AddToTemp | src/server.js:2590-2630 | the in-place pops and pushes give `TempAdd` |
| Server.TempAddKeepsInvariant | src/server.js:2590-2630 | at most one preview, at the end, never a visibility command, and recorded, before and after an add |
| Server.FilterKeepsTempShape | src/server.js:1405-1430 | dropping items keeps the preview shape and cannot create a trailing preview |
| Server.UpdateKeepsTempInvariant | src/server.js:2638-2641 | renumbering keeps the preview shape and its record |
| Server.FirstPassKeepsTempShape | src/server.js:1070-1162 | the numbering pass keeps the preview shape |
| Server.SecondPassKeepsTempShape | src/server.js:1062-1282 | the command-resolving pass keeps the preview shape |
| Server.ThirdPassKeepsTempShape | src/server.js:1062-1282 | the index-checking pass keeps the preview shape |
| Server.TempAddRenumbered | src/server.js:2590-2643 | a touchAction item-editing copy is not renumbered and keeps its counters |
| Server.TempUpdateKeepsInvariant | src/server.js:2590-2643 | a whole add-mode temp update keeps at most one recorded preview, at the end |
| Server.DrawingServer.UpdateNumericIndices | src/server.js:1062-1282 | the items are renumbered by `UpdateIndices` from the server's counters, which never decrease; the drawings are untouched |
| Server.DrawingServer.HandlePfodWebCommand | src/server.js:563-734 | `{.}` picks the start-up drawing and context and answers with it or with no-drawing; any other command keeps the context and is answered from the known drawings |
| Server.DrawingServer.DrawingData | src/server.js:1391-1440 | a stored drawing, else a temporary copy, is returned with incomplete visibility commands dropped for good; an unknown name is not found and changes nothing |
| Server.DrawingServer.ReorderTouchActionItems | src/server.js:1288-1389 | the renumbered reordering, after which every touchAction and touchActionInput follows its touch zone |
| Server.DrawingServer.ImportDrawing | src/server.js:3116-3249 | false (the 500 answer) exactly when the merge throws, and then nothing is stored and the counters stay; otherwise duplicate touchActions merged, indices cleaned, renumbered twice, version kept or set to `V<now>`, and stored under the name |
| Server.DrawingServer.TempUpdateAdd | src/server.js:2492-2643 | an unknown copy is not found and nothing changes; otherwise the copy gets `TempAddRenumbered` and version `V<now>` |
| ServerImport.FirstWithKey | src/server.js:3128-3130 | the first touchAction with that command, if any |
| ServerImport.MergeTouchActions | src/server.js:3121-3150 | no result exactly when the loop throws (`MergeThrows`: the log line reads the length of a missing action array); otherwise the loop with its command map gives `MergeDuplicates` |
| ServerImport.MergeItem | src/server.js:3125-3146 | one turn throws exactly as `StepThrows` says, and otherwise appends the item or merges it into the kept touchAction, keeping the command map in step |
| ServerImport.MergeKeepsOthers | src/server.js:3143-3146 | every item that is not a touchAction with a command keeps its place in order |
| ServerImport.MergedKeysDistinct | src/server.js:3121-3150 | after merging, each command has one touchAction |
| ServerImport.MergedNoEntry | src/server.js:3121-3150 | no touchAction appears for a command that had none |
| ServerImport.MergedEntry | src/server.js:3126-3142 | the kept touchAction is the first one, carrying the actions of all touchActions with that command, in order |
| ServerImport.AllBareMeans | src/server.js:3129-3134 | `AllBare` holds exactly when no touchAction of the command has an action array |
| ServerImport.AllBareNoEntry | src/server.js:3129-3134 | a command with no touchAction has none with an action array |
| ServerImport.MergeStepBare | src/server.js:3129-3134 | one turn keeps the kept touchAction's place, and it lacks an action array afterwards exactly when it lacked one and the new touchAction of its command brings none |
| ServerImport.MergedActionMissing | src/server.js:3129-3134 | the kept touchAction still lacks an action array exactly when no touchAction of its command had one |
| ServerImport.LastStepThrows | src/server.js:3128-3135 | the last turn throws exactly when the last touchAction is a bare duplicate of a command none of whose earlier touchActions had an action array |
| ServerImport.ThrowsAtFront | src/server.js:3128-3135 | whether a turn throws depends only on the items up to it |
| ServerImport.MergeThrowsExactly | src/server.js:3125-3142 | the merge throws exactly when some touchAction without an action array repeats a command none of whose earlier touchActions had one |
| ServerImport.ThrowsPersist | src/server.js:3125-3146 | once a turn throws, the whole merge throws |
| ServerImport.TwoBareDuplicatesThrow | src/server.js:3135 | two touchActions of one command, neither with an action array, make the merge throw |
| ServerImport.CleanIdx | src/server.js:3182-3214 | dropped exactly when the index is below 1; an index marks the item indexed with its name or `idx_<n>`; no index clears both (except on a touchActionInput); a command gets a command name |
| ServerImport.CleanIdxIdempotent | src/server.js:3182-3214 | cleaning a cleaned item changes nothing |
| ServerImport.CleanAll | src/server.js:3180-3216 | never longer than the input |
| ServerImport.CleanUpIdx | src/server.js:3180-3216 | the loop gives `CleanAll` |
| ServerImport.CleanAllValid | src/server.js:3180-3216 | every kept item with an index has one of at least 1, is indexed and named, and every command is named |
| ServerImport.CleanAllIdempotent | src/server.js:3180-3216 | cleaning twice is cleaning once |
| ServerCommands.Clamp | src/server.js:115-116 | the value held between 1 and 255, unchanged inside that range |
| ServerCommands.CreateNewDrawing | src/server.js:109-121 | an empty drawing of that name with width and height defaulting to 50 and clamped to 1-255, colour default white, refresh default 0, and the given version or `V<now>` |
| ServerCommands.CreateNewDrawingStable | src/server.js:109-121 | recreating a drawing from its own fields gives it back, whatever the clock says |
| ServerCommands.StripBraces | src/server.js:641-645 | a braced command loses exactly its outer braces; any other is unchanged |
| ServerCommands.ParseCommand | src/server.js:647-657 | a version exactly when the unbraced command holds `:`; then the version is the text before the first `:` and the name the text up to the next one; otherwise the name is the whole unbraced command |
| ServerCommands.ParseVersionedCommand | src/server.js:641-657 | `{version:name}` parses back to that version and name |
| ServerCommands.ParseCommandDropsTail | src/server.js:650-653 | with two colons, everything after the second is dropped |
| ServerCommands.FirstNonEmpty | src/server.js:591-613 | empty exactly when every candidate is, and otherwise one of them |
| ServerCommands.StartupPrecedence | src/server.js:574-613 | the start-up drawing is the first non-empty of: the preview parameter, the referer's preview, the referer's drawing, the iframe context, the session's main drawing |
| ServerCommands.StartupRemembered | src/server.js:596-608 | a preview or referer drawing becomes the iframe context; otherwise the context stays |
| ServerCommands.CommandReply | src/server.js:664-734 | the drawing is served exactly when its name is known and has no `~`; every other command gets the empty reply |
| ServerCommands.KnownDrawingServed | src/server.js:641-719 | a known drawing is served whether asked for braced with a version or bare |
| ServerIndices.CmdValueInjective | src/server.js:1080 | distinct counters give distinct `cmd_c<n>` values |
| ServerIndices.CmdNumber | src/server.js:1079-1088 | the command name is in the map afterwards and is given its mapped number |
| ServerIndices.IdxNumber | src/server.js:1126-1134 | the index name is in the map afterwards and is given its mapped number |
| ServerIndices.FirstPass | src/server.js:1074-1162 | one numbered item per input item |
| ServerIndices.AssignFirstAppearance | src/server.js:1074-1162 | the loop over the items gives `FirstPass` with the intended roles |
| ServerIndices.AssignItem | src/server.js:1075-1160 | one item is numbered according to its role: insertDwg, touchZone, visibility command, indexed item, named command |
| ServerIndices.NewNumberFresh | src/server.js:1080-1129 | a new name takes the next counter value and the numbers stay distinct and in range |
| ServerIndices.AssignKeepsFresh | src/server.js:1075-1160 | numbering an item keeps all numbers distinct and in range, never renumbers a name, and changes only `cmd` or `idx` |
| ServerIndices.FirstPassNumbers | src/server.js:1074-1162 | after the pass every item carries its name's number, numbers are distinct and at least the starting counters, and nothing but `cmd`/`idx` changes |
| ServerIndices.FirstPassNames | src/server.js:1074-1162 | a command name is numbered exactly when some item with a command role carries it |
| ServerIndices.SameCmdNameSameCmd | src/server.js:1074-1162 | two command-role items get the same `cmd` exactly when they share a command name |
| ServerIndices.SameIdxNameSameIdx | src/server.js:1074-1162 | two index-role items get the same `idx` exactly when they share an index name |
| ServerIndices.LinkAll | src/server.js:1166-1196 | each touchAction and touchActionInput with a known command name gets its command; nothing else changes |
| ServerIndices.LinkTouchCommands | src/server.js:1165-1202 | the marking loop followed by removal from the back gives `SecondPass`: linked, with dangling touch children removed |
| ServerIndices.LinkItem | src/server.js:1167-1184 | one item is linked, and marked exactly when it is dangling |
| ServerIndices.ResolveAll | src/server.js:1220-1240 | each action is given the number of its index name, else of its command name, when known |
| ServerIndices.RecheckAll | src/server.js:1206-1252 | each touchActionInput gets its text index or loses its index name; each touchAction keeps its resolvable actions only |
| ServerIndices.ResolveAction | src/server.js:1221-1239 | one action is resolved and reported invalid exactly when its name is unknown |
| ServerIndices.ResolveActions | src/server.js:1219-1245 | the marking loop and removal give the resolved actions without the unresolvable ones |
| ServerIndices.ResolveTouchReferences | src/server.js:1205-1259 | the third loop gives `ThirdPass`: rechecked items with emptied touchActions removed |
| ServerIndices.RecheckItem | src/server.js:1207-1251 | one item rechecked, and marked exactly when it is a touchAction left without actions |
| ServerIndices.UpdateIndicesFinish | src/server.js:1062-1259 | renumbering is the first pass followed by the linking and rechecking passes |
| ServerIndices.ChildrenLinked | src/server.js:1166-1196 | every kept named touch child carries its command's number |
| ServerIndices.ChildrenFollowNamedItems | src/server.js:1074-1196 | every kept named touch child shares its command name with some non-child item that was numbered, and carries that number |
| ServerIndices.ActionsResolved | src/server.js:1217-1252 | every kept touchAction has at least one action and each of its actions carries the number of its name |
| ServerIndices.InputsIndexed | src/server.js:1207-1216 | every kept touchActionInput with an index name carries that name's number as its text index |
| ServerIndices.OthersKept | src/server.js:1165-1259 | items that are not touch children are never removed or reordered |
| ServerIndices.NeverDanglingAsWritten | src/server.js:1150-1184 | as written, a non-indexed touch child always finds its command, so the removal at lines 1165-1202 never fires for it |
| ServerIndices.DanglingTouchAction | src/server.js:1150-1202 | a touchAction naming a command no touch zone has is kept as written and removed under the intended roles |
| ServerReorder.FirstZone | src/server.js:1333-1338 | the position of the first touch zone with that command name, if any |
| ServerReorder.SkipInputs | src/server.js:1361-1365 | the first position at or after j that is not a touchActionInput of that name |
| ServerReorder.InsertAtIndex | src/server.js:1341-1371 | `splice(i, 0, x)` puts x at i and shifts the rest up by one |
| ServerReorder.InputPlace | src/server.js:1325-1345 | a named input goes just after its first touch zone; without a name or a zone it has no place |
| ServerReorder.ActionPlace | src/server.js:1349-1375 | a named action goes after its first touch zone and any inputs of the same name; without a name or a zone it has no place |
| ServerReorder.FindInputPlace | src/server.js:1332-1338 | the search loop finds `InputPlace` |
| ServerReorder.FindActionPlace | src/server.js:1356-1368 | the search loop finds `ActionPlace` |
| ServerReorder.Extract | src/server.js:1306-1322 | the other items, the touchActions and the touchActionInputs, each in their original order |
| ServerReorder.PlaceInputs | src/server.js:1325-1346 | each input is spliced in at its place, in turn |
| ServerReorder.PlaceActions | src/server.js:1349-1376 | each action is spliced in at its place, in turn |
| ServerReorder.ReorderItems | src/server.js:1306-1376 | the three steps give `Reordered` |
| ServerReorder.ReorderedKeepsOthers | src/server.js:1317-1321 | items other than touchActions and touchActionInputs keep their relative order |
| ServerReorder.ReorderedAttached | src/server.js:1324-1376 | every touch child follows a touch zone or touch child of its own command name |
| ServerReorder.ReorderedAfterFirstZone | src/server.js:1324-1376 | every touch child comes after the first touch zone of its command name |
| ServerReorder.ReorderedContents | src/server.js:1305-1376 | as a multiset, the result is the other items plus exactly the inputs and actions that have a name with a zone; the rest are dropped |
| ServerReorder.UpdateKeepsAttached | src/server.js:1378 | renumbering keeps touch children attached |
| TouchActionHandler.ValidateTouchActionMode | src/touchActionHandler.js:701-709 | invalid exactly when a touchActionInput is added in touchAction mode |
| TouchActionHandler.LastZone | src/touchActionHandler.js:443-455 | the last touch zone of that command name, if any |
| TouchActionHandler.LastRelated | src/touchActionHandler.js:443-455 | the last touchAction or touchActionInput of that command name, if any |
| TouchActionHandler.CmdInsertIndex | src/touchActionHandler.js:436-472 | without a zone, the end; otherwise just after a zone or child of that name, with none of them after it |
| TouchActionHandler.InsertTouchActionItemByCmd | src/touchActionHandler.js:436-472 | a named touchAction is inserted at `CmdInsertIndex`; anything else is refused and the items are unchanged |
| TouchActionHandler.ScanGroup | src/touchActionHandler.js:443-455 | the scan finds the last zone and the last related child |
| TouchActionHandler.InsertByCmdPlacesItem | src/touchActionHandler.js:436-472 | the item sits at the index and removing it gives the old items back |
| TouchActionHandler.CleanupEmptyTouchActions | src/touchActionHandler.js:140-157 | keeps exactly the items that are not touchActions without actions |
| TouchActionHandler.CleanupKeepsOrder | src/touchActionHandler.js:140-157 | the kept items are in their original order, and cleaning twice is cleaning once |
| TouchActionHandler.FirstActionNamed | src/touchActionHandler.js:878-880 | the first touchAction with that command name, if any |
| TouchActionHandler.FindActionNamed | src/touchActionHandler.js:878-880 | the search finds `FirstActionNamed` |
| TouchActionHandler.AddTempItem | src/touchActionHandler.js:874-944 | only the first touchAction of that name can change |
| TouchActionHandler.AddTempItemOutcomes | src/touchActionHandler.js:874-944 | no such touchAction: nothing changes; an edit index inside its actions replaces that action only; one past them changes nothing; no index appends the item and records its position |
| TouchActionHandler.AddTempItemToTouchAction | src/touchActionHandler.js:874-944 | the copy gets `AddTempItem`, its edit index, and the item as preview when placed |
| TouchActionHandler.FirstAction | src/touchActionHandler.js:724 | the first touchAction, if any |
| TouchActionHandler.AfterZoneRun | src/touchActionHandler.js:250-264 | without a zone, the end; otherwise the end of the run of items of that name following the first zone |
| TouchActionHandler.FindAfterZoneRun | src/touchActionHandler.js:247-264 | the nested search finds `AfterZoneRun` |
| TouchActionHandler.SyncedPreview | src/touchActionHandler.js:713-778 | the preview gains at most one item |
| TouchActionHandler.SyncedPreviewHoldsAction | src/touchActionHandler.js:713-778 | after syncing, the first touchAction of that name in the preview is the edited one, and syncing again changes nothing |
| TouchActionHandler.SyncTouchActionToPreview | src/touchActionHandler.js:713-778 | fails without the copy, its preview or a touchAction, changing nothing; otherwise the preview gets `SyncedPreview` and a new version |
| TouchActionHandler.AcceptEmptyRules | src/touchActionHandler.js:206-230 | an empty new touchAction is dropped; an empty existing one is removed from its place; an index past the end changes nothing |
| TouchActionHandler.AcceptStoresEdited | src/touchActionHandler.js:225-269 | a non-empty touchAction replaces the one at its index, fails when that index no longer holds a touchAction, or is inserted, unmarked, after its zone's run |
| TouchActionHandler.Accept | src/touchActionHandler.js:161-286 | a failure changes nothing; a success removes the copy, keeps the set of drawings and touches only the original |
| TouchActionHandler.AcceptTouchActionChanges | src/touchActionHandler.js:161-286 | the server's maps change as `Accept` says |
| TouchActionHandler.AcceptItems | src/touchActionHandler.js:206-269 | the splices give `AcceptedItems` |
| TouchActionHandler.NoHideOrUnhideLeft | src/touchActionHandler.js:1233-1278 | after the restore filter no hide or unhide remains |
| TouchActionHandler.Unhidden | src/touchActionHandler.js:1233-1278 | exactly the items that are neither hide nor unhide |
| TouchActionHandler.WithHidden | src/touchActionHandler.js:1162-1230 | one hide of that index is the only hide or unhide, and the other items are untouched |
| TouchActionHandler.RestoreUndoesHide | src/touchActionHandler.js:1162-1278 | restoring after hiding gives the items without hide commands, and restoring is idempotent |
| TouchActionHandler.HideItemInSelectionPreview | src/touchActionHandler.js:1162-1230 | 404 without the drawing or its selection preview, 400 without an index, each changing nothing; otherwise the preview holds one hide of that index and a new version |
| TouchActionHandler.RestoreSelectionPreview | src/touchActionHandler.js:1233-1278 | 404 without the selection preview; otherwise it loses its hide commands and gets a new version |
| TouchActionInputHandler.ValidateTouchActionInputMode | src/touchActionInputHandler.js:171-179 | invalid exactly when a touchAction is added in touchActionInput mode |
| TouchActionInputHandler.ModeChecksPartition | src/touchActionHandler.js:701-709 | the two mode checks never both reject, and accept everything in other modes and every non-child item |
| TouchActionInputHandler.FirstZoneWithCmd | src/touchActionInputHandler.js:186-192 | the first touch zone with that command value, if any |
| TouchActionInputHandler.InputInsertIndex | src/touchActionInputHandler.js:182-213 | just after the first zone with that command, or the end when there is none |
| TouchActionInputHandler.InsertTouchActionInputByCmd | src/touchActionInputHandler.js:182-213 | an input with a command is inserted at `InputInsertIndex`; anything else is refused and the items are unchanged |
| TouchActionInputHandler.InsertByInputPlacesItem | src/touchActionInputHandler.js:182-213 | the input sits right after its zone (or at the end) and removing it gives the old items back |
| TouchActionInputHandler.AddItemToList | src/server.js:2173-2179 | one item is added somewhere without disturbing the others; an item neither handler takes is appended |
| TouchActionInputHandler.CreateInputCopy | src/touchActionInputHandler.js:16-72 | 404 for an unknown drawing; otherwise the copy exists, is a copy of the drawing when new, and no other entry changes |
| TouchActionInputHandler.CreateInputCopyIdempotent | src/touchActionInputHandler.js:16-72 | creating the copy again leaves it as it was |
| TouchActionInputHandler.CreateTouchActionInputTempCopy | src/touchActionInputHandler.js:16-72 | the server's copies change as `CreateInputCopy` says |
| TouchActionInputHandler.AcceptedDrawing | src/touchActionInputHandler.js:75-136 | the copy's items unmarked, with the main drawing's refresh and a new version |
| TouchActionInputHandler.AcceptedUnmarkedCopy | src/touchActionInputHandler.js:75-136 | a copy without preview marks keeps its items |
| TouchActionInputHandler.AcceptInput | src/touchActionInputHandler.js:75-136 | 404 unless the copy and its original exist, changing nothing; otherwise the copy is removed and only the original is replaced |
| TouchActionInputHandler.CreateThenAccept | src/touchActionInputHandler.js:16-136 | accepting a fresh copy straight away removes it and rewrites the original with a new version only |
| TouchActionInputHandler.AcceptTouchActionInputChanges | src/touchActionInputHandler.js:75-136 | the server's maps change as `AcceptInput` says |
| TouchActionInputHandler.CleanupTouchActionInputTemp | src/touchActionInputHandler.js:139-168 | the copy is removed; 404 when there was none |
| AddItemHide.BackupIsNotPreview | src/add-item-hide.js:36-46 | the backup copy never overwrites the preview it backs up |
| AddItemHide.ActionType | src/add-item-hide.js:17 | unhide exactly when the item is reported invisible, hide otherwise, including when visibility is not given |
| AddItemHide.FirstWhere | src/add-item-hide.js:65-90 | the first item satisfying the test, if any |
| AddItemHide.HideCommandFor | src/add-item-hide.js:58-112 | by index name: found exactly when the first item with that name has an index, giving an indexed command with that first item's index; by command name: found exactly when some item has it, giving an unindexed command with the command of the first item that has it and the given drawing name |
| AddItemHide.HideInPreview | src/add-item-hide.js:13-144 | 404 without the drawing, 400 without a name, 404 without the preview, each changing nothing; 400 for an unknown item, after the backup was taken; success appends the command to the preview, marks it update-only with a new version and keeps the old preview as the backup; no other entry changes |
| AddItemHide.RestoreFromBackup | src/add-item-hide.js:147-191 | 404 without preview or backup, changing nothing; otherwise the backup replaces the preview and is deleted, nothing else changing |
| AddItemHide.RestoreUndoesHide | src/add-item-hide.js:13-191 | hiding then restoring gives the original copies back, whatever the hide's outcome, less any earlier backup |
| AddItemHide.HideItemInPreview | src/add-item-hide.js:13-144 | the server's copies change as `HideInPreview` says |
| AddItemHide.RestorePreview | src/add-item-hide.js:147-191 | the server's copies change as `RestoreFromBackup` says |
| PfodWebDebug.Enqueued | src/pfodWebDebug.js:1143-1193 | the new request is last and every queued request it does not displace stays |
| PfodWebDebug.SentAfterAdd | src/pfodWebDebug.js:1153-1156 | a request that is not a refresh or insertDwg marks a sent refresh for discard, changing nothing else about it |
| PfodWebDebug.EnqueuedRules | src/pfodWebDebug.js:1143-1193 | the old requests keep their order; after a non-refresh request no refresh remains queued; after a drag no older drag of the same zone remains |
| PfodWebDebug.GiveWay | src/pfodWebDebug.js:1143-1183 | the two filters keep exactly the requests that survive the new one |
| PfodWebDebug.Navigated | src/pfodWebDebug.js:1976-1994 | refresh and back leave the stack alone; any other request becomes current, pushing the old current unless it is already on top; the stack never holds the same command twice in a row |
| PfodWebDebug.BackTarget | src/pfodWebDebug.js:569-576 | an empty stack sends `{.}`; otherwise its top is popped and sent |
| PfodWebDebug.BackReturnsToPrevious | src/pfodWebDebug.js:569-580 | navigating away and pressing back returns to the command shown before |
| PfodWebDebug.DrawingViewer.AddToRequestQueue | src/pfodWebDebug.js:1135-1193 | unknown requests are ignored; otherwise the queue becomes `Enqueued` and the sent request `SentAfterAdd` |
| PfodWebDebug.DrawingViewer.ClearPendingQueue | src/pfodWebDebug.js:1997-2003 | the queue is emptied and the sent request kept |
| PfodWebDebug.DrawingViewer.UpdateNavigationStack | src/pfodWebDebug.js:1976-1994 | the stack and current command change as `Navigated` says |
| PfodWebDebug.DrawingViewer.Back | src/pfodWebDebug.js:569-580 | the popped command becomes current and is the only queued request |
| PfodWebDebug.DrawingViewer.Reload | src/pfodWebDebug.js:593-597 | the queue holds only a refresh of the current command, or of `{.}` when there is none |
| PfodWebDebug.ShouldAbandon | src/pfodWebDebug.js:2694-2723 | unknown kinds are abandoned and main-menu requests never; a refresh is abandoned when the mouse is down; otherwise abandoned exactly when a higher-priority request is queued |
| PfodWebDebug.IsEmptyCmd | src/pfodWebDebug.js:1293-1307 | true exactly when there are at least two parts and they trim to `{` and `}` |
| PfodWebDebug.EmptyReplyIsEmpty | src/pfodWebDebug.js:1293-1307 | the empty reply is empty whatever follows, and a single part is not |
| PfodWebDebug.ExtractBaudRate | src/pfodWebDebug.js:322-366 | always a supported rate; a supported `serial` value wins |
| PfodWebDebug.BaudRateReadBack | src/pfodWebDebug.js:322-366 | a supported rate is read back from either parameter, and 115200 is the default |
| PfodWebDebug.ValidIPAddressGroups | src/pfodWebDebug.js:3396-3405 | valid exactly when there are four dot-separated groups of one to three digits, each at most 255 |
| EditDrawing.Sort | src/edit-drawing.js:552 | the indices sorted in the requested direction, a permutation of the input |
| EditDrawing.ItemEditor.RemoveItem | src/edit-drawing.js:783-788 | when confirmed exactly the item at the index is removed; otherwise nothing changes; the selection is untouched |
| EditDrawing.ItemEditor.MoveItemDown | src/edit-drawing.js:844-858 | the last item stays; otherwise the item swaps with the next one and the selection follows whichever of the two it was on |
| EditDrawing.MoveDownSwaps | src/edit-drawing.js:844-858 | moving down permutes the items and the selection still points at the item it pointed at |
| EditDrawing.ItemEditor.MoveItemUp | src/edit-drawing.js:791-841 | the first item stays; otherwise the item is taken out and reinserted at the upward target, the selection adjusted |
| EditDrawing.UpTarget | src/edit-drawing.js:794-823 | the target lies above the item: the slot just above, or, for an item outside the touch kinds sitting below a touch child, the touchZone that child belongs to |
| EditDrawing.UpTargetScan | src/edit-drawing.js:794-823 | the backward scan finds `UpTarget` |
| EditDrawing.ZoneBefore | src/edit-drawing.js:805-810 | the nearest touchZone with that command name above the position, or none when there is no such zone above it |
| EditDrawing.FindZoneBefore | src/edit-drawing.js:805-810 | the loop finds `ZoneBefore` |
| EditDrawing.MoveUpPermutes | src/edit-drawing.js:791-841 | moving up permutes the items: the moved item lands at the target, the items between shift down by one, the rest stay, and the selection still points at the item it pointed at |
| EditDrawing.CreateMergedItemsView | src/edit-drawing.js:219-265 | the loop builds exactly the merged view `MergedView` |
| EditDrawing.MergedUpTo | src/edit-drawing.js:219-265 | every row is well formed, and rows are ordered by their leading item |
| EditDrawing.Owner | src/edit-drawing.js:233-246 | a touch child belongs to an earlier touchZone with its command name |
| EditDrawing.OwnerIsFirst | src/edit-drawing.js:223-246 | the owner is the first touchZone with that command name, and an owner-less child has no such zone above it |
| EditDrawing.JoinsGroup | src/edit-drawing.js:233-246 | an item joins a zone's group exactly when it is a different, not yet claimed touch child with the zone's command name |
| EditDrawing.InputUpTo | src/edit-drawing.js:237-239 | the group keeps the last touchActionInput that joins it, or none when none joins |
| EditDrawing.ActionsUpTo | src/edit-drawing.js:240-242 | the group's touchActions are its joining actions in ascending order |
| EditDrawing.ViewShowsEveryItem | src/edit-drawing.js:219-265 | every touchZone leads a row, every unowned non-zone item is a regular row, and every owned action is listed in its zone's row |
| EditDrawing.RowsDisjoint | src/edit-drawing.js:219-265 | no item is shown in two rows |
| EditDrawing.RowMembersDistinct | src/edit-drawing.js:588-609 | a row's members are distinct indices into the drawing |
| EditDrawing.GetMergedItemIndices | src/edit-drawing.js:588-609 | a row's member indices in ascending order, at least one |
| EditDrawing.MergedIndicesStrict | src/edit-drawing.js:588-609 | for a well-formed row the indices are strictly ascending and inside the drawing |
| EditDrawing.ItemEditor.RemoveMergedTouchZone | src/edit-drawing.js:535-562 | when confirmed exactly the row's members are removed; otherwise nothing changes |
| EditDrawing.SpliceDescending | src/edit-drawing.js:556-559 | splicing out indices in descending order removes exactly those indices |
| EditDrawing.DescendingRemoval | src/edit-drawing.js:535-552 | the descending list holds the row's members, distinct and inside the drawing |
| EditDrawing.RemoveIndicesKeeps | src/edit-drawing.js:556-559 | every item not removed is still there, and nothing else is |
| EditDrawing.ItemEditor.MoveTouchZoneAndRepositionRelated | src/edit-drawing.js:613-683 | the items become `Repositioned` at the target computed from the neighbouring row |
| EditDrawing.ItemEditor.MoveMergedTouchZone | src/edit-drawing.js:566-585 | the first row cannot move up and the last cannot move down; otherwise the zone group moves next to the neighbouring row |
| EditDrawing.ZoneTarget | src/edit-drawing.js:622-646 | the target position lies inside the drawing |
| EditDrawing.ZoneTargetBeforeRow | src/edit-drawing.js:621-649 | moving up, the touchZone taken out and put back at the target sits directly before the lead of the row above |
| EditDrawing.ZoneTargetAfterRow | src/edit-drawing.js:621-649 | moving down, the touchZone taken out and put back at the target sits directly after the last position of the row below |
| EditDrawing.MaxOf | src/edit-drawing.js:638 | the largest of the indices |
| EditDrawing.MoveZoneGroup | src/edit-drawing.js:613-672 | the splice loops compute `Repositioned` |
| EditDrawing.ExtractRelated | src/edit-drawing.js:653-663 | the backward loop splits the items into the related ones and the rest, both in order, and finds the zone's new position |
| EditDrawing.InsertAfter | src/edit-drawing.js:666-671 | the related items are inserted in order right after the zone |
| EditDrawing.RepositionedPermutes | src/edit-drawing.js:613-683 | repositioning only reorders the items |
| EditDrawing.RepositionedGroupsTogether | src/edit-drawing.js:613-683 | the zone is followed directly by all its related items in their original order |
| EditDrawing.RepositionedKeepsOrder | src/edit-drawing.js:613-683 | related items keep their relative order, as do all the other items |
| AddItem.TruncateText | src/add-item.js:11-14 | text no longer than the limit is kept; longer text becomes its first characters up to the limit followed by `...` |
| AddItem.TruncateIdempotent | src/add-item.js:11-14 | truncating a truncated text changes nothing more |
| AddItem.GenerateUniqueIndexName | src/add-item.js:224-232 | an `idx_<n>` name not yet used, with n the smallest counter from 1 whose name is free |
| AddItem.GenerateUniqueTouchZoneCommandName | src/add-item.js:235-243 | a `cmd_c<n>` name not yet used, with n the smallest counter from 1 whose name is free |
| AddItem.FirstFreeName | src/add-item.js:224-243 | the counting loop stops at the first free candidate, whose name is unused |
| AddItem.GenerateInsertDwgCommandName | src/add-item.js:245-248 | empty exactly for an empty drawing name, otherwise `dwg_` followed by the name |
| AddItem.InsertDwgCommandNameInjective | src/add-item.js:245-248 | different drawings get different command names |
| AddItem.BuildExistingNameLists | src/add-item.js:252-298 | the two lists are `ExistingNames` for index names and command names |
| AddItem.CollectedNames | src/add-item.js:259-279 | the collected names have no repeats and hold exactly the names of the items that contribute one |
| AddItem.ExistingNamesExact | src/add-item.js:252-298 | no repeats; a name is listed exactly when some item contributes it and it is not the edited item's own name |
| AddItem.IndexOfName | src/add-item.js:285-291 | -1 exactly when the name is absent, otherwise its first position |
| AddItem.RemoveNameOfDistinct | src/add-item.js:284-294 | removing one name from a list without repeats removes exactly that name |
| AddItem.CategoriesDisjoint | src/add-item.js:498-508 | no item kind is in two categories, and hide, unhide and erase are control items |
| AddItem.CheckBool | src/add-item.js:676-684 | true exactly for the boolean true or the string `true` |
| AddItem.PopulateIndexedItems | src/add-item.js:2438-2502 | the loop builds the map's values in key order, one entry per index name |
| AddItem.FoldUpToValid | src/add-item.js:2449-2497 | the map's key order and entries always agree, each entry under its own name |
| AddItem.FoldStepRules | src/add-item.js:2450-2496 | one item changes only its own name's entry: ineligible items and hide/unhide of unknown names change nothing, hide and unhide set visibility, erase removes the name, an index item only adds a new name, any other item replaces the entry keeping its visibility |
| AddItem.EraseIsFinal | src/add-item.js:2468-2470 | a name erased and not redrawn afterwards is not listed |
| AddItem.ValuesDistinct | src/add-item.js:2500 | the listed entries have distinct index names |

## Left out

- MainMenu.Dispatcher.Init: the `initDrawings()` call at the end of initialisation (pfodMainMenu.cpp:42) is not modelled; the drawing code it sets up is not part of this model.
- ConnectionManager.ResponseTimeoutMs: the timeout is taken as whole seconds; fractional seconds, which the source multiplies by 1000 as a float, are not modelled.
- ArduinoExport.ConvertColor: the colour is taken as an integer; a fractional number, which the source floors, and NaN, which passes the range test and for which the source emits the text `NaN`, are not modelled.
- Caching.Cache.CacheResponse: the `catch` around `localStorage.setItem` is not modelled; storage is a map whose update always succeeds, so a quota failure that leaves storage unchanged is not captured.
- AddItem.TruncateText: the length and the cut position are counted in characters (Unicode scalar values), where `length` and `substring` in the source count UTF-16 code units; text with characters outside the Basic Multilingual Plane is measured and cut differently.
- RawDataCollector.Collector.GetStats: the reported length counts characters, where `rawData.length` counts UTF-16 code units.
- MessageViewer.MessageCollector.AddMessage: the entry's `size` counts characters, where `message.length` counts UTF-16 code units.
- MessageViewer: the subscriber callbacks notified by `addMessage` and the path for a `null` message are not modelled; messages are strings.
- ChartDisplay.ParseChartLabels: the elements are taken as strings; the `typeof elem === 'string'` test that skips non-string elements is not modelled.
- ServerCommands.StartupTarget: the referer is given as an already parsed path; the exception thrown when the referer URL does not parse is not modelled.
- Server.DrawingServer.UpdateNumericIndices: the recursion into the drawings that `insertDwg` items load (server.js:1261-1276) is not modelled; the method numbers one drawing's items.
- Server.DrawingServer.UpdateNumericIndices: numbers the first pass with the intended branch chain `Role`, not the chain as written; see Findings. `Server.DrawingServer.ReorderTouchActionItems`, `Server.DrawingServer.ImportDrawing` and `Server.DrawingServer.TempUpdateAdd` (through `Server.TempAddRenumbered`) renumber through the same passes and inherit this; each has its own line below.
- Server.DrawingServer.ReorderTouchActionItems: renumbers with the intended `Role`, as `Server.DrawingServer.UpdateNumericIndices` does.
- Server.DrawingServer.ImportDrawing: renumbers the imported items with the intended `Role`, as `Server.DrawingServer.UpdateNumericIndices` does.
- Server.DrawingServer.TempUpdateAdd: renumbers the temporary copy with the intended `Role`, through `Server.TempAddRenumbered`.
- Server.TempAddRenumbered: renumbers with the intended `Role`, as `Server.DrawingServer.UpdateNumericIndices` does.
- Server.DrawingServer.TempUpdateAdd: only the add mode is modelled; the edit mode, the request validation answers, the touchAction item-editing branch and the sync of the temporary copy into the preview or main drawing (server.js:2645-2690) are not, so the stored drawings are stated unchanged.
- Server.DrawingServer.ImportDrawing: the 400 answers of the request validation, the translation of `raw_items` and the extraction of the drawing name from the referer are not modelled; the method starts from a parsed drawing.
- ServerImport.CleanIdx: an `idxName` or `cmdName` of `""` is defaulted like a missing one, where the source (server.js:3194, 3210) defaults only `undefined`; the model has no separate absent string. `ServerImport.CleanUpIdx` and `Server.DrawingServer.ImportDrawing` inherit this.
- ServerImport.CleanIdx: `idx` is an integer or absent. A string `idx`, which the source converts with `parseInt` (server.js:3185-3186) and keeps unindexed when it is not numeric (NaN), and a `null` idx, which the source drops because `null < 1` holds (server.js:3187), are not modelled; the model treats a missing idx as absent and keeps the item.
- ServerImport.CleanAll: folds `ServerImport.CleanIdx`, so the string and `null` idx cases are not modelled.
- ServerImport.CleanUpIdx: equals `ServerImport.CleanAll`, so the string and `null` idx cases are not modelled.
- Server.DrawingServer.ImportDrawing: cleans the imported items with `ServerImport.CleanUpIdx`, so a string or `null` idx in an imported drawing is not modelled.
- The server's `reorderInProgress` flag, which only guards against concurrent reorder requests, is not modelled.
- PfodWebDebug.DrawingViewer.AddToRequestQueue: only the queue is modelled; `setProcessingQueue`, the request tracker and the call to `processRequestQueue` are not.
- The rest of `pfodWebDebug.js` (drawing, transports, timers, the DOM) and of the designer pages (DOM, `fetch`, `confirm`, logging) is not modelled; a confirmation is a `confirmed` parameter and the clock a `now` parameter.
- The transports behind `HTTPConnection.send`, and BLE and serial I/O, are not modelled; one attempt is an abstract `sendOnce` result.
- The CSV collector's other accessors (`getFieldCounts`, `getLineCount`, `exportAsText`, `exportAll`, `getStats`, `getTotalStats`) and the raw collector's `getRawData` and `getRawDataWithoutClearing` are not modelled; they only read the state the model keeps.
- The ZIP download, the `Blob` and the browser save are not modelled; the archive is a byte sequence.

Where the comments or documentation of the code and the code itself disagree, the model follows the code:

- `handlePfodWebCommand` splits a versioned command with `split(':', 2)`, so only the text between the first and second `:` is kept.
- `addToRequestQueue` skips the purge of queued refreshes for an `insertDwg` request as well as for a refresh.
- `insertTouchActionItemByCMD` places the item after the last matching touchZone, because its scan does not stop at the first.
- `buildExistingNameLists` does not skip `index` items, although its comment says it does.
- `hideItemInPreview` in `add-item-hide.js` writes the backup before looking the item up, so a failed lookup still leaves a backup.
- `extractAndClearRawData` does not reset `lastReturnedLength`.
- `createMergedItemsView` claims every touchActionInput with the zone's command name but shows only the last one.

## Findings

| source | as written | input that shows it | evidently intended | confidence | as-written member | corrected member |
|---|---|---|---|---|---|---|
| src/arduinoExport.js:862 | an erase item with no target produces the comment `// hide: no cmd or idx specified` | an erase item with no drawing name, command name or index name | `// erase: no cmd or idx specified`, as the hide and unhide branches name their own kind | high, not executed | ArduinoExport.EraseCommentMislabelled | ArduinoExport.StatementCode |
| src/server.js:1150-1162 | the first pass of `updateNumericIndices` ends in `else if (item.cmdName)`, so a touchAction or touchActionInput with a command name gets a command number of its own unless it is indexed with an index name, which takes the earlier indexed branch (server.js:1136), and the removal of touch items whose command name no touchZone numbered (server.js:1166-1202) can never fire for a touch child that is not an indexed item with an index name | a drawing holding only a touchAction with command name `a` and no touchZone `a`: it is kept and numbered `cmd_c1` | touch items only refer to other items' command names, as the comment after the chain says, so a dangling one is removed | medium, not executed | ServerIndices.DanglingTouchAction | ServerIndices.ChildrenFollowNamedItems |
