# lprun in Dafny

This project models the core of lprun, a command-line tool that prints a
document. It sends the document either to a CUPS queue or straight to a raw
TCP printer port (9100 by default). When no printer is named, it finds one
through lpstat, avahi-browse and nmap.

The model covers these parts:

- **Discovery** (`Discovery`, src/disc.c). The lpstat, avahi-browse and nmap
  output is given as sequences of lines. The three scanners are pure
  first-match functions over those lines, chained with the same short
  circuits as the C code.
- **Raw transfer** (`RawPrint`, src/print_raw.c). The operating system is a
  `Platform.Os` object:
  - oracles decide whether `socket()`, `inet_pton()`, `connect()` and each
    `send()` succeed, and how many bytes each `send()` takes;
  - files are byte sequences;
  - the object records every socket's peer, byte stream and closed flag, the
    progress frames and the sleeps.

  `send_file_raw` is a method with the copy loop, the 8192-byte chunk loop and
  the short-send loop. It is proved to deliver exactly the file's bytes, in
  order, on one fresh, closed socket per copy. Each failure has its own code:
  the copy that stops the loop returns the code of its first phase the
  system refuses, and a copy the system allows in every phase succeeds.
- **String helpers** (`Utils`, src/utils.c):
  - `get_local_subnet_cidr` works over a sequence of interface entries;
  - `ends_with_ci` is a loop proved against a specification predicate;
  - `trim` is an in-place edit of an `array<char>`;
  - `escape_shell_arg` is modelled as well.
- **The front end** (`Lprun`, src/lprun.c `main`):
  - `MainPlan` is a reference definition of everything `main` decides: the
    subcommands, the parse loop, the validation exit codes 1, 2 and 3,
    discovery, document preparation (codes 4, 5 and 6), and the CUPS or raw
    path;
  - `Run` is `main` written step by step over a `Spool.Cups` spooler and a
    `Platform.Os`;
  - `Run` is proved to carry out that plan, through the predicate `Performed`.
- **The earlier front end** (`LegacyMain`, src/main.c together with
  `cups_print_file` in src/print_cups.c). It is modelled the same way, and
  its parse loop is related to the newer one.
- **Formatting with a little state**:
  - `Progress.Reporter` (src/progress.c) holds the module-level `g_total` and
    `g_label` and the printed lines;
  - `Scanner` (src/scanner.c) covers output-path resolution, the scan command
    and `build_output_path`;
  - `History` (src/history.c) covers the log path, the record format, and
    appending and showing the log.

`Text`, `Clock`, `Wrappers` and `Platform` supply the C library behaviour the
code relies on:
- `strstr`, `strchr`, `strrchr`, `strsep`-style splitting, `tolower`,
  `isspace` and `atoi`;
- `printf` with `%u`, `%d`, `%0Nd` and `%3d`, and `snprintf` truncation;
- C's truncating `/`;
- `struct tm`.

Integers are unbounded. Where the C code narrows something, the model states
it: `snprintf` buffer sizes become `Truncate` to 511, 1023 or 63 characters;
`strncpy` into `g_label[128]` keeps 127 characters; `(int)` casts truncate
toward zero; `htons(port)` wraps the port to 16 bits (`RawPrint.WirePort`),
so port 70000 connects to 4464 and -1 to 65535.

Behaviour of the code worth noting:
- **Pause after every raw copy.** The raw path sleeps 200 ms after every
  copy, the last included (src/print_raw.c:82-83). The CUPS loop pauses only
  between copies (src/lprun.c:407-410).
- **The avahi address field.** It is the eighth `;` token counting from one,
  with the empty token before a leading `;` included (src/disc.c:53-58).
- **Trimmed CUPS names.** The name keeps its leading white space, despite the
  comment at src/utils.c:283. `trim` advances only a local pointer and writes
  its NUL into the caller's buffer (src/utils.c:285-292).
- **Two progress bars.** The bar of src/progress.c has 30 cells; the one of
  src/print_raw.c has 40.
- **The stray `g` after the discovery block** (src/lprun.c:313) does not
  compile as written. The model takes the block to end at the brace.
- **The colour check after parsing** (src/lprun.c:283) can never fail, since
  `color_mode == 1 && color_mode == 2` is false. The conflict is caught inside
  the parse loop, as the model does.
- **One-argument converters in src/main.c.** It calls `create_temp_ps_from_text`,
  `convert_image_to_ps` and `convert_pdf_to_ps` with one argument. This does
  not match their declarations in include/utils.h:4-6. `LegacyMain` gives it
  one-argument converters of its own.
- **`--out-dir`** is parsed (src/lprun.c:259-262) but only the `scanner`
  subcommand reads `out_dir`, and that subcommand returns before the parse
  loop runs. On the print path the value has no effect.
- **Token tests.** The parse loops test each token through `Classify`, which
  is the chain of `strcmp` tests in the source's order. The option spellings
  are distinct, so this is the same as testing them one by one.

## Model

| member | source | states |
|---|---|---|
| Discovery.FirstOf | src/disc.c:17-34 | a line scan with early return yields nothing exactly when no line is accepted |
| Discovery.FirstOfAt | src/disc.c:17-32 | the first accepted line decides: later lines are never looked at, earlier ones were skipped |
| Discovery.FirstOfPrefix | src/disc.c:17-32 | lines after an accepted line do not change the result |
| Discovery.FirstOfWitness | src/disc.c:75-89 | the result of a scan is what one of the lines gave |
| Discovery.CupsNameOfLine | src/disc.c:19-30 | a line without "device for " yields nothing; a name never holds ':' |
| Discovery.CupsLineFormat | src/disc.c:19-27 | "device for NAME:URI" yields NAME with trailing white space cut by trim |
| Discovery.CupsLineNoColon | src/disc.c:19-31 | a line whose first "device for " has no ':' after it is skipped |
| Discovery.DiscoverCupsPrinter | src/disc.c:13-35 | NULL when popen fails or no line yields a name, otherwise the first line's name |
| Discovery.AvahiAddress | src/disc.c:48-61 | only a non-empty eighth ';' token is returned; it holds no ';' |
| Discovery.AvahiRecord | src/disc.c:53-58 | a record of eight or more fields yields its eighth field verbatim, whatever follows |
| Discovery.AvahiSkipped | src/disc.c:53-61 | a record with fewer than eight fields, or an empty eighth, is skipped |
| Discovery.DropBlanks | src/disc.c:79 | the blank-skipping loop leaves a suffix that does not start with ' ' |
| Discovery.DropBlanksSpaces | src/disc.c:79-81 | skipping blanks before sscanf's own white-space skip changes nothing |
| Discovery.WordRun | src/disc.c:81 | the longest prefix without white space, stopped by white space or the end |
| Discovery.ScanWord | src/disc.c:80-81 | sscanf "%63s" yields at most 63 non-space characters |
| Discovery.NmapHostOfLine | src/disc.c:76-88 | a line is accepted exactly when it starts with "Host:", mentions "Ports:" and an open 9100, 8611 or 631 |
| Discovery.NmapHostFormat | src/disc.c:76-86 | "Host:" + blanks + IP + white space + ... yields the IP |
| Discovery.ScanAfterHost | src/disc.c:78-81 | after the blanks, sscanf reads exactly the address word |
| Discovery.NmapCommand | src/disc.c:70-71 | the command fits its 512-byte buffer and starts with the nmap port list |
| Discovery.DiscoverPrinterIp | src/disc.c:41-93 | avahi's first address if any; otherwise NULL without a subnet or without nmap output, else nmap's first accepted host |
| Discovery.AvahiShortCircuits | src/disc.c:61-67 | an avahi address ends the search: interfaces and nmap play no part, and the address is non-empty |
| Discovery.NoSubnetNoScan | src/disc.c:66-68 | without a local subnet the result is NULL whatever nmap would print |
| Discovery.NmapAddressShape | src/disc.c:80-86 | an address from nmap is one word of at most 63 characters |
| Utils.FirstQualifying | src/utils.c:253-257 | the first entry with an IPv4 address other than 127.0.0.1; all before it fail that test |
| Utils.LocalSubnetCidr | src/utils.c:249-271 | a result exists exactly when enumeration succeeds and some entry qualifies; it is "a.b.c.0/24" of the first such entry |
| Utils.SubnetFields | src/utils.c:260-263 | the result splits on '.' into the first three octets in decimal and "0/24" |
| Utils.EndsWithCi | src/utils.c:273-282 | the comparison loop returns 1 exactly when the specification holds, else 0 |
| Utils.EndsWithCiBounds | src/utils.c:274-281 | an empty suffix ends every string; a longer suffix ends none |
| Utils.EndsWithCiAppended | src/utils.c:277-281 | a string ends with any suffix that matches its tail up to ASCII case |
| Utils.TrimEnd | src/utils.c:289-291 | a prefix of the string; all-space strings unchanged; otherwise cut after the last non-space |
| Utils.TrimmedBuffer | src/utils.c:285-292 | the buffer keeps its length and a NUL |
| Utils.Trim | src/utils.c:285-292 | the array after trim is TrimmedBuffer of the array before |
| Utils.SkipSpaces | src/utils.c:287 | the first loop stops at the first non-space, at or before the NUL |
| Utils.BackOverSpaces | src/utils.c:289-290 | the second loop stops at the last non-space before the NUL |
| Utils.AllSpaceUntouched | src/utils.c:287-288 | an empty or all-space string leaves the buffer unchanged |
| Utils.CutAfter | src/utils.c:289-291 | otherwise exactly one NUL is written, just after the last non-space |
| Utils.TrimmedBufferChangesOne | src/utils.c:285-292 | at most one character changes, into NUL, and everything before it is kept |
| Utils.TrimmedBufferString | src/utils.c:285-292 | the string left in the buffer is the original without trailing white space; leading white space stays |
| Utils.TrimOfCopy | src/disc.c:25-27 | trimming the strdup'd name leaves TrimEnd of it |
| Utils.EscapeShellArg | src/utils.c:295-298 | the argument is returned unchanged |
| RawPrint.BarPos | src/print_raw.c:15 | the head position lies in 0..40 and reaches 40 exactly when everything is sent |
| RawPrint.ProgressBar | src/print_raw.c:18-22 | '=' before the head, '>' on it, ' ' after it, 40 cells |
| RawPrint.BarUnique | src/print_raw.c:18-22 | a bar is determined by its head position |
| RawPrint.FullBar | src/print_raw.c:15-22 | a finished transfer draws 40 '=' cells |
| RawPrint.ProgressStep | src/print_raw.c:67-73 | a send of s bytes and its frame extend the stream by the next s file bytes and the frame counts by one rising count |
| RawPrint.SendChunk | src/print_raw.c:65-74 | the short-send loop puts exactly the chunk on the socket after the bytes already sent; on error, only part of it; it fails exactly when one of its send() calls fails |
| RawPrint.WirePort | src/print_raw.c:37 | the 16-bit value congruent to the port modulo 65536; a port already in range is unchanged |
| RawPrint.WirePortUnique | src/print_raw.c:37 | that value is the only 16-bit number congruent to the port |
| RawPrint.WirePortWraps | src/print_raw.c:37 | port 70000 reaches 4464, -1 reaches 65535, 9100 stays 9100 |
| RawPrint.SendStream | src/print_raw.c:58-75 | one copy's stream grows by exactly the file, in order, or by a proper prefix on a send error; the frames rise to the file size; an empty file draws none; it fails exactly when one of its send() calls fails |
| RawPrint.CopyCode | src/print_raw.c:32-83 | the first phase the system refuses decides the code, both ways: socket -2, inet_pton -3, connect -4, fopen -5, send -6, and 0 when every phase passes |
| RawPrint.SendFileOn | src/print_raw.c:50-80 | -5 exactly when the file cannot be opened; otherwise 0 exactly when every send() succeeds, the whole file then on the socket, and -6 with a proper prefix of it otherwise; the file is closed again |
| RawPrint.CopyOnce | src/print_raw.c:32-83 | one copy: its code is CopyCode of the oracles it consults, one socket() call, a connect() call once the address is valid; each created socket is closed and every opened file is closed again; success delivers the whole file to ip and the 16-bit port and pauses 200 ms; frames appear only once the file is open, rise to its size, and none are drawn for an empty file |
| RawPrint.SendFileRaw | src/print_raw.c:27-87 | -1 exactly for a NULL argument and before any socket exists; otherwise a stop at the first failing copy; 0 after max(copies, 0) copies delivered to ip and the 16-bit port, each followed by a 200 ms pause; every new socket closed, no file left open, every new frame one of a transfer of the file; the copies before a failure passed every phase and the failing one returns CopyCode of the oracles it consulted |
| RawPrint.NextCopy | src/print_raw.c:30-84 | one round of the copy loop grows the delivered copies by one or stops the loop with the copy's code |
| RawPrint.CopiesStep | src/print_raw.c:30-84 | a successful copy extends the run of copies that went through; a failing one ends it with its code |
| RawPrint.RawSocketRefused | src/print_raw.c:32-33 | a refused first socket() gives -2 and no copy |
| RawPrint.RawInvalidAddress | src/print_raw.c:38-42 | an address inet_pton refuses gives -3 and no copy, once the first socket is granted |
| RawPrint.RawMissingFile | src/print_raw.c:50-51 | a missing file gives a code of -5 or an earlier phase, and no copy |
| RawPrint.RawCodeMeaning | src/print_raw.c:32-68 | each failure code means the stopping copy failed in that phase |
| Platform.Os.Socket | src/print_raw.c:32-33 | a new unconnected socket, or -1 when the oracle refuses |
| Platform.Os.Connect | src/print_raw.c:44 | the socket's peer becomes ip:port exactly when connect succeeds |
| Platform.Os.Close | src/print_raw.c:80 | the socket is marked closed, nothing else changes |
| Platform.Os.Fopen | src/print_raw.c:50 | a readable file gives its contents and is counted open; another gives NULL |
| Platform.Os.Fclose | src/print_raw.c:79 | one fewer open file |
| Platform.Os.Send | src/print_raw.c:67 | -1 on error with the stream unchanged, otherwise 1 to n bytes taken from the front of the buffer |
| Platform.Os.Show | src/print_raw.c:73 | one frame is added to the drawn frames |
| Platform.Os.Sleep | src/print_raw.c:82-83 | one pause is recorded |
| Progress.Scaled | src/progress.c:22-25 | the fraction clamped above at 1 and truncated: at most k, equal to k exactly when sent reaches the total |
| Progress.Filled | src/progress.c:25 | at most 30 filled cells, 30 exactly when sent reaches the total |
| Progress.Percent | src/progress.c:31 | at most 100, 100 exactly when sent reaches the total, no lower clamp |
| Progress.BarText | src/progress.c:27-29 | always 30 cells: blocks below the filled count, '-' after |
| Progress.ProgressMonotone | src/progress.c:22-31 | bar and percentage never go back as the count grows |
| Progress.CompleteLine | src/progress.c:22-31 | the whole total draws a full bar at 100% |
| Progress.NegativeCount | src/progress.c:22-29 | a negative count draws an empty bar and a percentage of 0 or below |
| Progress.Reporter.constructor | src/progress.c:6-7 | g_total starts at 0 and g_label empty |
| Progress.Reporter.Init | src/progress.c:9-17 | stores the total and the label cut to 127 characters, and prints it with an empty bar |
| Progress.Reporter.Update | src/progress.c:19-34 | nothing when the total is not positive; otherwise one line with the 30-cell bar, the percentage and the kilobyte figures |
| Progress.Reporter.Finish | src/progress.c:36-38 | prints "Done." |
| Scanner.ResolveScanPath | src/scanner.c:92-106 | an absolute name is kept (cut to 511) and its part before the last '/' is the directory; a relative one goes under out_dir |
| Scanner.ScanCommand | src/scanner.c:116-118 | the command fits its 1024-byte buffer |
| Scanner.Scan | src/scanner.c:83-135 | 1 without a command when out_dir cannot be made; otherwise out_dir is made first, the directory of an absolute name next, and the command's status is returned unchanged |
| Scanner.RelativeScan | src/scanner.c:104-118 | a relative name that fits is saved at out_dir/name and quoted in the command |
| Scanner.AbsoluteScan | src/scanner.c:94-103 | "dir/base" resolves to itself with directory dir |
| Scanner.LastIndexOfIs | src/scanner.c:99 | strrchr finds the '/' with no '/' after it |
| Scanner.BuildOutputPath | src/scanner.c:40-57 | NULL output only for size 0; the whole out_dir/scan_STAMP.ext when it fits the buffer, otherwise its first size-1 characters |
| Scanner.OutputPathFields | src/scanner.c:47-56 | when the name fits, out_dir, "/scan_", the 15-character stamp, '.' and the extension sit at fixed offsets |
| Scanner.FieldsReadBack | src/scanner.c:48-55 | three zero-padded fields read back from fixed offsets |
| Scanner.DateFields | src/scanner.c:48-52 | the date is 8 digits reading back as year+1900, month+1 and day |
| Scanner.TimeFields | src/scanner.c:48-55 | the clock part is 6 digits reading back as hour, minute and second |
| Scanner.StampShape | src/scanner.c:47-56 | the stamp is the date, '_', the clock part: 15 characters |
| History.HistoryPath | src/history.c:7-16 | HOME or "/tmp" followed by the log's place, cut to 511 characters |
| History.SeparatedFields | src/history.c:26-28 | zero-padded fields joined by a separator read back from fixed offsets |
| History.DateTextFields | src/history.c:26-27 | "YYYY-MM-DD" reads back as year+1900, month+1 and day |
| History.ClockTextFields | src/history.c:26-28 | "HH:MM:SS" reads back as hour, minute and second |
| History.TimeStampShape | src/history.c:26-28 | the timestamp is 19 characters: date, space, clock |
| History.DetailsShape | src/history.c:26-29 | after the timestamp come the printer label and the printer, the file label and the file, and a newline |
| History.RecordShape | src/history.c:26-29 | the whole record is laid out field by field at fixed offsets |
| History.HistoryShow | src/history.c:34-48 | "No history found." when the log cannot be opened, otherwise the log's text unchanged |
| History.Appended | src/history.c:20-31 | mode "a": the log gains the text at its end or is created; other files are untouched |
| History.ShowAfterAdd | src/history.c:18-48 | after adding a record, showing prints the earlier log followed by the record |
| History.LogStore.HistoryAdd | src/history.c:18-32 | one record appended, or nothing at all when the log cannot be opened |
| Spool.Cups.PrintFile | src/lprun.c:393 | each cupsPrintFile call is recorded and answered with the oracle's job id |
| Spool.Accepted | src/lprun.c:375-403 | how many copies are accepted before the first refusal |
| Spool.AcceptedUnique | src/lprun.c:396-403 | the accepted count is fixed by its two ends |
| Spool.AcceptedAll | src/lprun.c:375-403 | all copies accepted means all counted |
| Text.ToLower | src/utils.c:279 | tolower changes only ASCII capitals, by 32 |
| Text.Find | src/disc.c:19-22 | strstr finds the first occurrence, or NULL when there is none |
| Text.IndexOf | src/disc.c:22 | strchr finds the first occurrence of a character |
| Text.LastIndexOf | src/scanner.c:99 | strrchr finds the last occurrence of a character |
| Text.Split | src/disc.c:53-59 | the strsep tokens hold no separator and join back to the line |
| Text.SplitJoin | src/disc.c:53-59 | splitting a joined record gives back its fields |
| Text.DecValueDigits | src/utils.c:263 | "%u" output reads back as the number |
| Text.ZeroPadRoundTrip | src/history.c:26-28 | "%0Nd" of a number that fits is N digits reading back as the number |
| Text.Truncate | src/history.c:13-14 | snprintf keeps a prefix of at most the buffer's room, and all of a string that fits |
| Text.AtoiIntText | src/lprun.c:242 | atoi reads back any number printed with %d |
| Text.AtoiNoDigits | src/lprun.c:242-243 | atoi of text without a number after the sign is 0 |
| Text.CDiv | src/progress.c:32 | C's `/` truncates toward zero |
| Text.CDivMonotone | src/progress.c:32 | truncating division keeps order |
| Lprun.ClassifySpelling | src/lprun.c:222-262 | each option is recognised from its spelling; --help, --list, history and scanner are not options |
| Lprun.ClampCopies | src/lprun.c:242-243 | the copy count is at least 1, kept when it is, 1 otherwise |
| Lprun.SetValue | src/lprun.c:223-262 | a value option leaves the colour mode as it was |
| Lprun.ParseOptions | src/lprun.c:222-273 | the parse loop computes ParseFrom over argv[1..] from the initial locals |
| Lprun.Next | src/lprun.c:222-262 | the loop advances by one or two tokens |
| Lprun.ReachesFlag | src/lprun.c:245-258 | reaching the spelling of --color or --grayscale is reaching that flag |
| Lprun.ParseErrorCode | src/lprun.c:246-272 | every parse failure has exit code 1 |
| Lprun.ParseAcceptsTokens | src/lprun.c:222-273 | success exactly when every reached token is known and the colour flags do not include both colours |
| Lprun.ParseAccepts | src/lprun.c:222-273 | the same, over the spellings --color and --grayscale, with exit code 1 otherwise |
| Lprun.ColorConflict | src/lprun.c:245-258 | --color and --grayscale together are refused in either order; either alone, repeated or not, is not |
| Lprun.ParsedCopies | src/lprun.c:241-244 | the parsed copy count stays at least 1 |
| Lprun.CopiesClamp | src/lprun.c:241-244 | --copies below 1, text without digits included, becomes 1; otherwise atoi's value |
| Lprun.LastValueWins | src/lprun.c:223-240 | the last reached occurrence of --printer, --ip, --text, --image or --file wins |
| Lprun.NotKnownWhenReached | src/lprun.c:263-272 | a reached token that is not an option makes the parse fail |
| Lprun.ScannerStatus | src/lprun.c:193-219 | 1 below four arguments; a crash when HOME is unset; 1 for an unknown mode; otherwise the scan's status |
| Lprun.FinishCodes | src/lprun.c:169-358 | every exit code main decides by itself is 0 to 6 or a scan's status |
| Lprun.LateCommandRejected | src/lprun.c:174-272 | --help, --list, history and scanner after the first place give 1 |
| Lprun.NothingToPrint | src/lprun.c:275-280 | without text, image or file the exit code is 2, whatever discovery would find |
| Lprun.ExplicitTargetSkipsDiscovery | src/lprun.c:289 | a given --printer or --ip makes the discovery tools irrelevant |
| Lprun.CupsBeatsRaw | src/lprun.c:365 | with both --printer and --ip the given CUPS queue is used |
| Lprun.CupsDiscoveryPreferred | src/lprun.c:289-311 | a CUPS queue from lpstat is preferred to a network address; neither gives 3 |
| Lprun.TextFirst | src/lprun.c:326-334 | text wins: only the text renderer is consulted, and its failure gives 4 |
| Lprun.FilePassedThrough | src/lprun.c:344-357 | a non-".pdf" file is printed as it is; a ".pdf" one in any case is converted, or gives 6 |
| Lprun.ColorOptions | src/lprun.c:383-391 | no options in auto mode, otherwise ColorModel then ColorSpace |
| Lprun.JobOf | src/lprun.c:393 | each copy is submitted to the queue with the prepared file, "lprun-job" and the colour options |
| Lprun.Rounds | src/lprun.c:375 | the loop goes round max(copies, 0) times |
| Lprun.CupsCode | src/lprun.c:396-400 | 0 exactly when every copy is accepted, 20 otherwise |
| Lprun.Submissions | src/lprun.c:375-401 | every copy is submitted, or the copies up to and including the refused one |
| Lprun.Pauses | src/lprun.c:407-410 | never more pauses than accepted copies; one fewer only when all are accepted |
| Lprun.CopyRound | src/lprun.c:376-410 | one submission with the colour options, then a 200 ms pause only when accepted and more copies follow |
| Lprun.SubmitCopies | src/lprun.c:374-411 | rc is CupsCode, the count is Accepted, and exactly Submissions jobs and Pauses pauses happen |
| Lprun.CopyLoopOutcome | src/lprun.c:374-411 | the loop's stopping state gives the accepted count, the code, the submissions and the pauses |
| Lprun.AllCopiesAccepted | src/lprun.c:374-411 | all copies accepted: code 0, one submission per copy, one pause fewer |
| Lprun.RefusedCopy | src/lprun.c:396-401 | a refusal of copy k after k acceptances: code 20, k+1 submissions, k counted, k pauses |
| Lprun.SendRaw | src/lprun.c:430 | the raw path keeps earlier sockets, closes every new one, leaves no file open, adds only 200 ms pauses and frames of the file; success delivers every copy to ip and the 16-bit port; the failure codes keep their meaning in terms of the oracles |
| Lprun.RawInvalidAddressExit | src/lprun.c:430-461 | on the raw path an invalid address ends main with -3 and no pause |
| Lprun.PrepareFile | src/lprun.c:326-358 | document preparation follows text, image, then file, and gives codes 4, 5 or 6 |
| Lprun.FindDestination | src/lprun.c:289-313 | the destination comes from the options or from discovery, and 3 when there is none |
| Lprun.PrintTo | src/lprun.c:364-443 | the CUPS copy loop for a queue or send_file_raw for an address carries out the print plan; the CUPS path leaves sockets, counters, open files and frames untouched |
| Lprun.Deliver | src/lprun.c:289-443 | after validation: discovery, preparation and printing carry out the delivery plan; a finish touches neither spooler nor sockets |
| Lprun.Run | src/lprun.c:158-462 | main carries out MainPlan; when it finishes early, spooler and sockets are untouched |
| LegacyMain.LegacySetValue | src/main.c:64-70 | --copies takes atoi's value as it is; other options act as in the newer loop |
| LegacyMain.LegacyStep | src/main.c:63-70 | one round on a known option consumes it and its value |
| LegacyMain.LegacyParseOptions | src/main.c:63-72 | the earlier parse loop computes LegacyParseFrom from the initial locals |
| LegacyMain.LegacyAccepts | src/main.c:63-72 | success exactly when every token is a known option followed by its value; otherwise 1 |
| LegacyMain.LegacyKeepsColor | src/main.c:63-72 | the earlier parse sets neither colour mode nor output directory |
| LegacyMain.NewerParseExtends | src/lprun.c:222-273 | wherever the earlier parse succeeds, the newer one gives the same locals with the copy count raised to at least 1 |
| LegacyMain.LegacyUnknownRejected | src/main.c:63-72 | --color, --grayscale, --out-dir, --help, history, scanner and a later --list give 1 |
| LegacyMain.LegacyJob | src/print_cups.c:10 | each copy is submitted with title "myprinter-job" and no options |
| LegacyMain.LegacyFinishCodes | src/main.c:54-126 | every exit code the earlier main decides by itself is 0 to 6 |
| LegacyMain.LegacyNothingToPrint | src/main.c:77-81 | without text, image or file the exit code is 2 |
| LegacyMain.NoCopiesSubmitsNothing | src/main.c:132 | a copy count of 0 or less submits nothing, pauses nothing, touches no socket and succeeds |
| LegacyMain.LegacyCopiesUnclamped | src/main.c:70 | --copies below 1 is kept, where the newer loop raises it to 1 |
| LegacyMain.CupsPrintFile | src/print_cups.c:8-12 | -1 without a call for a NULL argument, otherwise cupsPrintFile's job id |
| LegacyMain.LegacySubmit | src/main.c:132-136 | rc is CupsCode and exactly Submissions jobs are made, with no pause |
| LegacyMain.LegacyPrepareFile | src/main.c:108-126 | preparation with one-argument converters, codes 4, 5 or 6 |
| LegacyMain.LegacyPrintTo | src/main.c:128-140 | the earlier copy loop or send_file_raw carries out the print plan; the CUPS path leaves sockets, counters, open files and frames untouched |
| LegacyMain.LegacyDeliver | src/main.c:84-140 | discovery, preparation and printing carry out the earlier delivery plan |
| LegacyMain.LegacyRun | src/main.c:45-156 | the earlier main carries out LegacyMainPlan; an early finish touches neither spooler nor sockets |

## Left out

- Subprocesses are not run. lpstat, avahi-browse, nmap, the document
  converters, scanimage and `system()` are inputs: line sequences,
  functions from arguments to results, and exit statuses. Each output line is
  taken to fit the 1024-byte `fgets` buffer.
- Sockets, `inet_pton`, `fopen`/`fread`, `nanosleep` and `usleep` are
  oracles of `Platform.Os`. `fseek`/`ftell` are not modelled, because the
  file size is the length of its contents.
- `send()` is taken to accept at least one byte whenever it does not fail.
  A zero return would make the C loop spin forever.
- Spinner threads, atomic flags, ANSI line clearing, `print_usage`,
  `print_progress_bar(10)` and the messages printed on the way are not
  modelled. They are concurrency and cosmetics.
- RawPrint.BarPos: the head position uses exact arithmetic. It does not
  model the floating-point rounding of `progress * 40` or of the `%3.0f`
  percentage.
- Progress.Scaled: the fraction sent/total is exact rational arithmetic
  truncated toward zero. Float rounding of `(float)sent / (float)g_total`
  is not modelled.
- The text of `--help` and `--list` (src/printer_list.c) is not modelled.
  Their exit code 0 is.
- Lprun.Run: `History.HistoryShow` models the text `history` prints, but
  `Run` does not record terminal output, so its `history` branch only
  returns 0.
- Each `char` stands for one byte: strings are byte strings, and multibyte
  encodings are not modelled. The cuts at 63, 127, 511 and 1023 count bytes.
  The one exception is `Progress.Block`: one `char` for the three-byte UTF-8
  block that src/progress.c:29 prints for a filled cell.
- RawPrint.SendFileRaw: each new frame is stated to belong to a transfer of
  the file, but the split of the frames into one rising run per copy is stated
  only for a single copy, by `RawPrint.CopyOnce` and `RawPrint.SendStream`.
- RawPrint.SendStream: a read error of `fread` is not modelled. In C it ends
  the chunk loop as end of file would; the socket is closed and the copy
  still returns 0 after sending only part of the file.
- The temporary-file work of src/utils.c (`create_temp_*`, `convert_*`,
  `command_exists`, `get_imagemagick_cmd`, `run_command`, `get_file_size`) is
  not modelled. It is shell and file-system work, given as converter
  functions.
- The `unlink()` of the temporary file is not modelled.
- The pointer-freeing heuristics (src/lprun.c:451-459, src/main.c:146-153)
  are memory management, not modelled.
- `history_add` is modelled, but no part of the program calls it.
- Lprun.ScannerStatus: the `ensure_dir(out_dir)` at src/lprun.c:209 has its
  result ignored. Its effect on a later `ensure_dir` of the same path is
  folded into the `dirOk` oracle.
- Scanner.ResolveScanPath: an absolute name of 512 or more characters leaves
  `strncpy` without a terminating NUL. The model takes the first 511
  characters.
- Lprun.ScannerStatus: the `strcpy`/`strcat` of HOME into `out_dir[512]`
  (src/lprun.c:205-206) can overflow for a long HOME. The model does not
  bound it.
- Overflow of `atoi` beyond the range of `int` is not modelled, and neither
  are the 32-bit ranges of `port` and `copies`.
- `cupsAddOption`, `cupsFreeOptions` and `cupsLastErrorString` are CUPS
  library calls and are not modelled. The options a copy carries are part of
  its recorded submission.
