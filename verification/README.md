# Mikrotik command runner: inventory parser and run logic

This project models the core of the Mikrotik tools in Dafny, in two parts.

The first part is the host-inventory parser `parse_hosts_file`, which both tools share. It reads an inventory of `key=value` lines and returns one record per valid line, in file order. The model is the method `ParseHostsFile`. Its loop over lines and its loop over tokens are both proved against pure specification functions: `ParseLines`, and per line `ParseLine`. `ParseLines` is a loop `FoldLines` over the lines as `enumerate(f, 1)` numbers them (`Enumerate`), with `ParseLine` as its body. The order facts are proved once for any loop body and then applied to `ParseLine`. The model also reports the diagnostics the source prints as warnings, each with its line number and kind.

The second part is the decision logic of the command runner `connect_and_execute.py`:

- the command-file filter;
- the per-host defaults (port 22, user `root`);
- the choice of authentication method, using Python truthiness;
- the `int()` read of the port, which sits outside the `try`, so a bad port ends the whole run;
- the `try`/`except`/`finally` of `execute_commands_on_host`;
- the classification of each command's output;
- the order of work in `main`: commands first, then the inventory, then each host in turn, and each command in turn on every connected host.

The SSH session is an oracle, `Transport`. Its fields are functions: whether a key file exists, whether loading a key raises, whether `connect` raises, and what `exec_command` returns for a command. All of them are parameters.

What the runner prints and logs is modelled as a trace of `Event`s. The trace records these steps:

- connecting;
- a missing key file, or no authentication method;
- connected;
- executing a command;
- the command's success output, stderr output, or no output;
- an authentication failure, or another error;
- closing the connection.

The projections `Executions` and `ClosedHosts` pick the commands run and the connections closed out of a trace, so properties can be stated about them. The imperative parts are methods proved equal to these functions: the command loop with `connect_params` built in place, the host loop, and `main`.

Files:

- `wrappers.dfy`: `Option` and `Result`.
- `seqs.dfy`: small sequence identities.
- `text.dfy`: the Python string built-ins the code relies on: `strip`, `split()`, `split('=', 1)`, `lower`, and the comment test.
- `parse_hosts.dfy`: the inventory parser.
- `connect_and_execute.dfy`: the command runner.

Two behaviours of the source are easy to miss; the model follows the source in both:

- **Empty `key=`.** A `key=` entry with an empty value is rewritten by `normpath`, and `normpath('')` is `'.'`. The stored key is therefore non-empty, so the host chooses key authentication. The model keeps the path rewrite abstract (`normKey`), so this case follows from whatever `normKey` returns.
- **Empty command-file path.** `-f ""` gives a falsy path. `args.command` is then `None`, and the run stops with "no commands" (`CommandsToRun`).

## Model

| member | source | states |
|---|---|---|
| Text.Strip | Mikrotik/parse_hosts.py:20 | the stripped line has no whitespace at either end |
| Text.StripUnique | Mikrotik/parse_hosts.py:20 | whitespace, then a trimmed middle, then whitespace strips to exactly that middle |
| Text.StripEmpty | Mikrotik/parse_hosts.py:21 | a line strips to the empty string exactly when it is all whitespace |
| Text.StripIdempotent | Mikrotik/connect_and_execute.py:117-118 | stripping a stripped line changes nothing, so the filter's repeated `strip()` calls agree |
| Text.Words | Mikrotik/parse_hosts.py:24 | `split()` yields only non-empty tokens free of whitespace; `WordsAtSpaces`, `WordsOfWord` and `WordsOfSpaces` together fix the result on every string |
| Text.WordsOfJoin | Mikrotik/parse_hosts.py:24 | splitting whitespace-free words joined by single spaces gives the words back |
| Text.WordsAtSpaces | Mikrotik/parse_hosts.py:24 | any non-empty run of whitespace, tabs and repeated spaces included, separates words: the text around it splits into the words of each side |
| Text.WordsBeforeSpace | Mikrotik/parse_hosts.py:24 | text cut just before whitespace, or at its end, splits into the words of each part |
| Text.WordsAfterSpaces | Mikrotik/parse_hosts.py:24 | leading whitespace contributes no word |
| Text.WordsOfSpaces | Mikrotik/parse_hosts.py:24 | text that is all whitespace has no words |
| Text.WordsOfWord | Mikrotik/parse_hosts.py:24 | a non-empty run without whitespace is exactly one word |
| Text.SplitFirst | Mikrotik/parse_hosts.py:28 | no split exactly when there is no `=`; otherwise the token is key + `=` + value, and the key holds no `=` |
| Text.SplitFirstUnique | Mikrotik/parse_hosts.py:28 | the split happens at the first `=`, and the value keeps any later `=` |
| Text.IsBlankOrComment | Mikrotik/parse_hosts.py:21 | a stripped line is skipped when it is empty or starts with `#` or `;`; the command filter at connect_and_execute.py:118 uses the same test |
| Text.Lower | Mikrotik/parse_hosts.py:29 | lower-casing keeps the length; `LowerChars` fixes every character of the result |
| Text.LowerChars | Mikrotik/parse_hosts.py:29 | each upper-case ASCII letter becomes its own lower-case letter (32 code points on), so no upper-case ASCII letter is left, and every other character is kept |
| Text.LowerIdempotent | Mikrotik/parse_hosts.py:29 | lower-casing twice is lower-casing once |
| ParseHosts.AddToken | Mikrotik/parse_hosts.py:27-32 | one token: split at its first `=` and stored under the lower-cased key, overriding an earlier value, or kept as malformed when it has no `=`; `ReadOneToken` and `AddTokenKeys` state it |
| ParseHosts.ReadTokens | Mikrotik/parse_hosts.py:25-32 | the token loop over a line's words, from an empty dict, left to right; `FieldsDomain`, `LastAssignmentWins`, `ReadTokensAppend` and `MalformedTokenIgnored` state what it yields |
| ParseHosts.TokenSplitsOnFirstEquals | Mikrotik/parse_hosts.py:28-29 | a token `key=value` stores exactly the lower-cased key with the whole value, further `=` included |
| ParseHosts.ReadOneToken | Mikrotik/parse_hosts.py:26-32 | a token with `=` adds one entry to the map; a token without `=` is kept as malformed, and the map stays empty |
| ParseHosts.AddTokenKeys | Mikrotik/parse_hosts.py:29 | a token adds its own key to the map, and no other key |
| ParseHosts.FieldsAppend | Mikrotik/parse_hosts.py:26-32 | the map of two token runs is the first run's map overridden by the second's |
| ParseHosts.MalformedAppend | Mikrotik/parse_hosts.py:30-32 | the malformed tokens of two runs are those of the first run, then those of the second |
| ParseHosts.ReadTokensAppend | Mikrotik/parse_hosts.py:26-32 | both of the above at once |
| ParseHosts.UnassignedKeyAbsent | Mikrotik/parse_hosts.py:26-32 | a key that no token assigns is not in the map |
| ParseHosts.AssignedKeyPresent | Mikrotik/parse_hosts.py:26-32 | a key that some token assigns is in the map |
| ParseHosts.FieldsDomain | Mikrotik/parse_hosts.py:26-32 | a key is in the map if and only if some token of the line assigns it |
| ParseHosts.LastAssignmentWins | Mikrotik/parse_hosts.py:29 | of repeated keys, equal after lower-casing, the last token's value is stored |
| ParseHosts.MalformedTokenIgnored | Mikrotik/parse_hosts.py:30-32 | a token without `=` leaves the map as if it were absent, and is recorded as malformed in its place; the other tokens are still read |
| ParseHosts.MalformedWarnings | Mikrotik/parse_hosts.py:31 | one malformed-entry warning per dropped token, in order, carrying the token and the line number |
| ParseHosts.NormalizeKey | Mikrotik/parse_hosts.py:39-41 | only `key` is rewritten, through `normKey`; every other key and value is kept, and no key is added or removed |
| ParseHosts.ParseLine | Mikrotik/parse_hosts.py:20-43 | one pass of the line loop: nothing for a skipped line; otherwise the malformed-token warnings, then either the missing-host-or-ip warning or the record with `key` normalised; `SkippedLineSilent`, `LineRecordIffHostAndIp` and `RecordFields` state it |
| ParseHosts.SkippedLineSilent | Mikrotik/parse_hosts.py:20-22 | a blank, whitespace-only, `#` or `;` line yields no record and no warning |
| ParseHosts.LineRecordIffHostAndIp | Mikrotik/parse_hosts.py:34-36 | a line yields a record if and only if it is not skipped and its map has both `host` and `ip`; a rejected line ends with a missing-host-or-ip warning; every warning carries the line's number |
| ParseHosts.RecordFields | Mikrotik/parse_hosts.py:39-43 | the emitted record has exactly the parsed keys, with the parsed values, except `key`, which is normalised |
| ParseHosts.EnumerateAt | Mikrotik/parse_hosts.py:19 | `enumerate(f, 1)` pairs line `i` (0-based) with number `first + i` |
| ParseHosts.EnumerateAppend | Mikrotik/parse_hosts.py:19 | numbering two consecutive blocks of lines numbers the second block on from where the first ended |
| ParseHosts.ParseLines | Mikrotik/parse_hosts.py:19-43 | the line loop over the numbered lines with `ParseLine` as its body, collecting records and warnings in file order; `LineContribution`, `ParseLinesAppend`, `WarningLinesInRange` and `OnlyCommentsYieldNothing` state it |
| ParseHosts.FoldAppend | Mikrotik/parse_hosts.py:19-43 | the line loop over two consecutive blocks yields the first block's records, then the second's, and the warnings likewise |
| ParseHosts.FoldContribution | Mikrotik/parse_hosts.py:19-43 | item `i` contributes its record between the records of the items before it and those after it |
| ParseHosts.FoldAtMostOne | Mikrotik/parse_hosts.py:43 | the loop appends no more records than it reads lines |
| ParseHosts.FoldWarningSource | Mikrotik/parse_hosts.py:31-35 | every warning of the loop was emitted while reading one of its lines |
| ParseHosts.FoldSilent | Mikrotik/parse_hosts.py:21-22 | lines that each yield nothing yield nothing together |
| ParseHosts.ParseLinesAppend | Mikrotik/parse_hosts.py:19-43 | the inventory of consecutive blocks of lines is built block after block: records and warnings are each concatenated |
| ParseHosts.ParseOneLine | Mikrotik/parse_hosts.py:19-43 | a one-line file gives that line's record, if any, and its warnings |
| ParseHosts.NumberedContribution | Mikrotik/parse_hosts.py:19-43 | whatever the loop body, numbered line `i` contributes its record between those of the lines before it and those of the lines after it |
| ParseHosts.LineContribution | Mikrotik/parse_hosts.py:19-43 | records appear in file order: line `i` of the inventory, numbered `first + i`, places its record after those of earlier lines and before those of later ones |
| ParseHosts.AtMostOneRecordPerLine | Mikrotik/parse_hosts.py:43 | there are no more records than lines |
| ParseHosts.NumberedWarnings | Mikrotik/parse_hosts.py:19-35 | when each line's warnings carry that line's number, every warning names a line of the file |
| ParseHosts.WarningLinesInRange | Mikrotik/parse_hosts.py:19-36 | every warning names a line number of the file, which starts at the given first number |
| ParseHosts.OnlyCommentsYieldNothing | Mikrotik/parse_hosts.py:20-22 | a file of blank and comment lines yields no records and no warnings |
| ParseHosts.ReadLine | Mikrotik/parse_hosts.py:20-43 | the token loop, run step by step, gives exactly the record and the warnings of `ParseLine` |
| ParseHosts.ParseHostsFile | Mikrotik/parse_hosts.py:11-45 | a missing file is an error with no records; otherwise the line loop returns exactly `ParseLines` from line 1 |
| ConnectAndExecute.CommandsFromFile | Mikrotik/connect_and_execute.py:116-119 | no more commands than lines; every command is stripped, non-empty, and does not start with `#` or `;` |
| ConnectAndExecute.CommandsAppend | Mikrotik/connect_and_execute.py:116-119 | the filter keeps file order: the commands of two blocks are those of the first, then those of the second |
| ConnectAndExecute.CommandOfLine | Mikrotik/connect_and_execute.py:117-118 | a single line gives its stripped form exactly when that is not blank or a comment, and nothing otherwise |
| ConnectAndExecute.LineGivesCommand | Mikrotik/connect_and_execute.py:116-119 | every kept line's stripped text is among the commands |
| ConnectAndExecute.CommandComesFromLine | Mikrotik/connect_and_execute.py:116-119 | every command is the stripped text of a kept line |
| ConnectAndExecute.CommandsMembership | Mikrotik/connect_and_execute.py:116-119 | a string is a command if and only if it is the stripped text of a line that is neither blank nor a comment |
| ConnectAndExecute.CommandsOfCleanFile | Mikrotik/connect_and_execute.py:116-119 | a file of stripped, non-comment lines is kept whole, in order |
| ConnectAndExecute.CommandsIdempotent | Mikrotik/connect_and_execute.py:116-119 | filtering the filtered commands changes nothing |
| ConnectAndExecute.ChooseAuth | Mikrotik/connect_and_execute.py:37 | password if and only if the password is present and non-empty; key if and only if there is no usable password and the key is present and non-empty; none otherwise; the chosen secret or path is carried along |
| ConnectAndExecute.ParseInt | Mikrotik/connect_and_execute.py:32 | `int()` succeeds exactly on an optional sign followed by decimal digits |
| ConnectAndExecute.DigitsRoundTrip | Mikrotik/connect_and_execute.py:32 | the digits of a natural number read back as that number |
| ConnectAndExecute.ParseUnsigned | Mikrotik/connect_and_execute.py:32 | a run of digits reads as its decimal value |
| ConnectAndExecute.ParseNegative | Mikrotik/connect_and_execute.py:32 | a minus sign followed by digits reads as the negated value |
| ConnectAndExecute.ParsePositive | Mikrotik/connect_and_execute.py:32 | a plus sign followed by digits reads as the digits' value |
| ConnectAndExecute.ParseIntRoundTrip | Mikrotik/connect_and_execute.py:32 | the decimal text of any integer reads back as that integer |
| ConnectAndExecute.SettingsOf | Mikrotik/connect_and_execute.py:30-37 | the settings fail exactly when a port is given that `int()` rejects; host and ip are looked up; port 22 and user `root` are the defaults; a given user is used; the method is `ChooseAuth` of the password and the key |
| ConnectAndExecute.PortRead | Mikrotik/connect_and_execute.py:32 | a port written as the decimal text of `n` is read as `n` |
| ConnectAndExecute.EmptyPasswordIgnored | Mikrotik/connect_and_execute.py:35-37 | an empty `password=` gives the same settings as no password at all |
| ConnectAndExecute.Report | Mikrotik/connect_and_execute.py:79-82 | an authentication exception is reported as an authentication failure, and any other exception as an error, both under the host's name |
| ConnectAndExecute.Classify | Mikrotik/connect_and_execute.py:69-77 | success output is reported if and only if stdout is non-empty, and reported first; stderr output if and only if stderr is non-empty, so both can appear; the no-output message if and only if both are empty; one or two events |
| ConnectAndExecute.NoOutputIffBlankStreams | Mikrotik/connect_and_execute.py:66-77 | the no-output message appears if and only if both raw streams are whitespace only |
| ConnectAndExecute.CommandStep | Mikrotik/connect_and_execute.py:62-77 | one pass of `for command in commands`: after an exception nothing more happens; otherwise the command is announced, run, and its output classified, or its exception recorded; `StepExecutions`, `StepNeverCloses` and `StepNeverReports` state it |
| ConnectAndExecute.RunCommands | Mikrotik/connect_and_execute.py:62-77 | the command loop on a connected host, ended by the first exception; `CommandsInOrder`, `FaultStopsCommands`, `CommandsNeverClose` and `CommandsNeverReport` state it |
| ConnectAndExecute.Session | Mikrotik/connect_and_execute.py:59-82 | `connect`, then the command loop, with the exception that ended either reported by the `except` clauses; `SessionExecutions`, `SessionReportsFault` and `SessionNeverCloses` state it |
| ConnectAndExecute.Attempt | Mikrotik/connect_and_execute.py:43-82 | the `try` block: the key-file check and key load for key authentication, the password for password authentication, the early return when no method applies, then the session; `AttemptInOrder`, `AttemptNeverCloses` and `NoConnectionWithoutCredential` state it |
| ConnectAndExecute.Reported | Mikrotik/connect_and_execute.py:64-77 | a command that raises reports nothing; otherwise only success, stderr or no-output events |
| ConnectAndExecute.HostRun | Mikrotik/connect_and_execute.py:30-85 | a host crashes the run exactly when its port cannot be read; otherwise its trace opens with the connecting message (host, ip, port, method) and ends with the close under the host's name |
| ConnectAndExecute.FaultStopsCommands | Mikrotik/connect_and_execute.py:62-64 | once a command raises, no later command runs |
| ConnectAndExecute.StepExecutions | Mikrotik/connect_and_execute.py:62-77 | each iteration after no failure announces exactly its own command |
| ConnectAndExecute.CommandsInOrder | Mikrotik/connect_and_execute.py:62-77 | the commands run are a prefix of the list, in list order: all of them when none raised, and at least one when one did |
| ConnectAndExecute.StepNeverCloses | Mikrotik/connect_and_execute.py:62-77 | an iteration of the command loop does not close the connection |
| ConnectAndExecute.CommandsNeverClose | Mikrotik/connect_and_execute.py:62-77 | the command loop never closes the connection |
| ConnectAndExecute.SessionExecutions | Mikrotik/connect_and_execute.py:59-62 | when `connect` raises, no command runs; otherwise the session runs what the command loop runs |
| ConnectAndExecute.SessionInOrder | Mikrotik/connect_and_execute.py:59-77 | a session runs a prefix of the commands, in order |
| ConnectAndExecute.AttemptInOrder | Mikrotik/connect_and_execute.py:43-82 | the `try` block runs a prefix of the commands, in order, for every authentication method |
| ConnectAndExecute.CommandsNeverReport | Mikrotik/connect_and_execute.py:62-77 | the command loop writes no authentication-failure or error report: an exception only ends it |
| ConnectAndExecute.SessionReportsFault | Mikrotik/connect_and_execute.py:59-82 | a session whose `connect` raises is that one report; otherwise it reports at most one fault, as its last event, and that is exactly the exception that ended the command loop; a session whose commands all ran reports none |
| ConnectAndExecute.SessionNeverCloses | Mikrotik/connect_and_execute.py:59-82 | a session does not close the connection itself |
| ConnectAndExecute.AttemptNeverCloses | Mikrotik/connect_and_execute.py:43-82 | neither the `try` block nor its `except` clauses close the connection |
| ConnectAndExecute.HostClosedOnce | Mikrotik/connect_and_execute.py:83-85 | whatever happens on a host, `finally` closes its connection exactly once |
| ConnectAndExecute.HostCommandsInOrder | Mikrotik/connect_and_execute.py:43-85 | every host runs a prefix of the commands, in list order |
| ConnectAndExecute.NoConnectionWithoutCredential | Mikrotik/connect_and_execute.py:46-57 | with no authentication method, or with a key file that does not exist, the host's trace does not depend on `connect`, `exec` or key loading; no command runs; no connection is made |
| ConnectAndExecute.RunHosts | Mikrotik/connect_and_execute.py:132-133 | `execute_commands_on_host` on each host in turn, a port crash ending the run; `CrashAbortsRest`, `HostsAppend` and `HostsClosedInOrder` state it |
| ConnectAndExecute.HostNames | Mikrotik/connect_and_execute.py:132-133 | the names of the hosts, one per host, in order |
| ConnectAndExecute.CrashStopsHosts | Mikrotik/connect_and_execute.py:132-133 | after a crash, no later host is processed |
| ConnectAndExecute.CrashAbortsRest | Mikrotik/connect_and_execute.py:32 | a host with an unreadable port ends the run, keeping the trace of the hosts before it |
| ConnectAndExecute.HostStepShift | Mikrotik/connect_and_execute.py:132-133 | a host's step does not depend on the trace before it |
| ConnectAndExecute.HostsAppend | Mikrotik/connect_and_execute.py:79-84 | failures are isolated per host: after hosts that ran without a crash, the remaining hosts produce exactly the trace they would produce alone, whatever failed before |
| ConnectAndExecute.HostsClosedInOrder | Mikrotik/connect_and_execute.py:132-133 | a run without a crash visits every host exactly once, in order, and closes each connection |
| ConnectAndExecute.CommandsToRun | Mikrotik/connect_and_execute.py:113-121 | the filtered command file when a path is given, nothing when it cannot be opened, no commands for an empty path, else the `-c` commands |
| ConnectAndExecute.Run | Mikrotik/connect_and_execute.py:113-133 | `main` after argument parsing: stop on no commands, then parse the inventory, stop on no hosts, then run every host; `NoCommandsStopsFirst`, `NoHostsNoContact` and `CompletedRunVisitsHostsInOrder` state it |
| ConnectAndExecute.NoCommandsStopsFirst | Mikrotik/connect_and_execute.py:123-125 | with no commands the run stops before the inventory is read; the result depends neither on the hosts file nor on the network |
| ConnectAndExecute.NoHostsNoContact | Mikrotik/connect_and_execute.py:127-130 | when no host parses, no host is contacted |
| ConnectAndExecute.CompletedRunVisitsHostsInOrder | Mikrotik/connect_and_execute.py:123-133 | a completed run closes one connection per parsed host, in inventory order |
| ConnectAndExecute.RunCommandLoop | Mikrotik/connect_and_execute.py:62-77 | the command loop, run step by step, produces exactly the events and the fault of `RunCommands` |
| ConnectAndExecute.AttemptSession | Mikrotik/connect_and_execute.py:43-82 | building `connect_params` in place, with its early returns, gives exactly the trace of `Attempt` |
| ConnectAndExecute.ExecuteCommandsOnHost | Mikrotik/connect_and_execute.py:28-85 | `execute_commands_on_host` gives exactly `HostRun` |
| ConnectAndExecute.RunHostLoop | Mikrotik/connect_and_execute.py:132-133 | the host loop gives exactly `RunHosts` |
| ConnectAndExecute.RunCommandRunner | Mikrotik/connect_and_execute.py:113-133 | `main` after argument parsing gives exactly `Run` |

## Left out

- SSH through paramiko (`SSHClient`, the host-key policy, `RSAKey`, `connect`, `exec_command`) is the `Transport` oracle. Its answers are parameters: they depend on the connection parameters, the commands already run and the command. The session state is not modelled beyond that.
- Decoding and I/O errors while reading a command's streams are folded into the oracle's `exec` fault. `exec` reports such a fault as an exception raised by that command.
- `client.close()` is assumed not to raise.
- The text of `print` and `logging` messages, the log file and the console handlers are left out. Each message is an `Event` carrying the values it shows.
- argparse is not modelled: the parsed arguments are the `CommandSource` parameter. `nargs='+'` is not enforced, so the model also allows an empty `-c` list, which stops the run like an empty command file.
- `os.path.exists` on the inventory is left out: the inventory is an `Option` of its lines, `None` when it does not exist. Opening the command file, where `open` raises when it cannot, is modelled as `contents == None`, which gives the status `CommandsFileNotFound`. Reading either file line by line is not modelled.
- `os.path.expanduser` and `os.path.normpath` are one uninterpreted function, `normKey`.
- `os.path.exists` on a key file is an oracle predicate.
- `sys.exit(1)` on a missing inventory is the error result `HostsFileNotFound`. The run then ends with status `HostsFileMissing`. The "CRITICAL: Hosts file not found" message printed before the exit is not an `Event`; the `HostsFileMissing` status stands for it.
- Text.Lower: folds only ASCII letters. Python's `str.lower` also folds other Unicode letters.
- ConnectAndExecute.ParseInt: accepts an optional sign and ASCII digits only. Python's `int()` also accepts surrounding whitespace, `_` between digits and non-ASCII decimal digits. A port written that way is rejected by the model, where Python reads it.
- `Mikrotik/file_uploader.py` is not part of this model. It is SFTP glue, and its defaults and authentication choice are the same code as in `connect_and_execute.py`.
