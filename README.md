# Weather-station client, modelled in Dafny

`client.c` is a terminal client for a university weather-sensor network. Each pass of its main loop does four things:

1. It connects to the dispatch server `hopper.sandiego.edu:7030` and authenticates (`sensorConnect`).
2. It reads a sensor port out of the server's answer, connects to `weatherstation.sandiego.edu` on that port and authenticates again.
3. It prompts for a menu selection.
4. It runs one of three query sessions (air temperature, relative humidity, wind speed) or quits.

Every query session follows the same steps:
- send the command;
- scan "time value" from the reply into global readings;
- send `CLOSE`;
- expect `BYE` back.

All traffic goes through one shared 1024-byte buffer, which is cleared before every send and every receive.

The project has five modules:

- `CText` (ctext.dfy): the C library calls the client relies on, as functions. These are `strchr`/NUL-terminated strings, `strtol`, the `%s` and `%ld %d` conversions of `sscanf`, `strstr` and `%d` printing. It also holds lemmas tying each function to a characterisation that does not use it. Two examples: the k-th `%s` word of words joined by spaces is the k-th word, and `strstr` succeeds exactly when the needle occurs.
- `Menu` (menu.dfy): the selection parse of `prompt()`.
- `Protocol` (protocol.dfy): the global state, including the scripted network and a log of what the peers observed.
  - The global state is a `World` value.
  - Every step of the client is a function from world to world.
- `Properties` (properties.dfy): the properties of the handshake, the query sessions and the main loop, proved about those functions.
- `Client` (client.dfy): the globals as a class.
  - `buff` and `sensorPort` are arrays.
  - Every client function is a method that changes them in place.
  - Each method's postcondition says that the object ends in exactly the world computed by the `Protocol` function that the postcondition names. The library and system-call methods (`ClearBuff`, `Copy`, `Length`, `Send`, `Recv`) state their effect on the fields directly.
  - `MainLoop` is a `while true` loop whose invariant is that the rest of the run is `Protocol.Run` on the remaining input.

The network is a script. It lists:
- the outcome of each `send` (delivered or -1);
- each `recv` (-1, 0 for a closed peer, or the bytes that arrive);
- each connection attempt (a socket, or the `exit(1)` of `connectToHost`).

A `send` or `recv` on a descriptor that is not an open socket fails with -1. This covers the descriptor 1 that `sensorConnect` returns on failure and the main loop then passes to the checks. A script that runs out fails the same way. Descriptors are handed out from 3 upward, because the client never closes a socket before it exits.

The program's end is a `Halt`:
- `Exit(code)` for `exit`;
- `Undefined` for the one path that writes past an array.

## Model

| member | source | states |
|---|---|---|
| Menu.Selection | client.c:122-134 | prompt's result for the stored characters: the line is cut at its first newline, then `strtol` runs, and -1 is returned unless a number was read with nothing after it; its meaning is stated by the lemmas below |
| Menu.SelectionOfNumeral | client.c:122-134 | a line that, up to its first newline, is exactly white space, an optional sign and digits selects that number |
| Menu.SelectionIsNumeral | client.c:122-134 | conversely, every selection other than -1 is the value of exactly such a line |
| Menu.SelectionOfBlank | client.c:127-132 | a line with no number (only white space before the newline) selects -1 |
| Menu.SelectionOfTrailing | client.c:127-132 | a number followed by any character other than a digit before the newline selects -1 |
| Menu.SelectionOfTyped | client.c:107-134 | the digits of a number below 10^8 and Enter fit the 10-byte input and select that number ("3\n" gives 3) |
| Menu.SelectionBounds | client.c:107-134 | a selection from at most nine stored characters lies strictly between -10^8 and 10^9, so `strtol` cannot overflow here |
| CText.CString | client.c:123-124 | the C string a char buffer holds: everything before the first NUL |
| CText.Before | client.c:123-124 | the newline cut keeps a prefix free of the character, followed by that character or by nothing |
| CText.ParseLongFrom | client.c:128 | base-10 `strtol` from an offset: skips white space, reads an optional sign and digits, and any end it reports lies past the start and within the text |
| CText.ParseLongOfParts | client.c:128 | `strtol` on white space, a sign and digits followed by a non-digit converts those digits and ends right after them |
| CText.ParseLongParts | client.c:128-132 | whatever `strtol` converts is such a numeral and stops before a non-digit |
| CText.ScanTwoInts | client.c:296 | `sscanf` assigns the second number only after the first; the first is assigned exactly when `strtol` finds a number |
| CText.ScanTwoIntsOfLine | client.c:296 | "<time> <value>…" scans to exactly those two integers |
| CText.NthWordFrom | client.c:217 | the k-th white-space separated word as `%s` reads it; any word it gives is non-empty |
| CText.NthWordOfUnwords | client.c:217 | on words joined by single spaces, between white space, the k-th `%s` conversion reads the k-th word, or none past the last |
| CText.Contains | client.c:246 | `strstr(hay, needle) != NULL`, as a search from every offset; its meaning is stated by CText.ContainsIff |
| CText.ContainsIff | client.c:246 | `strstr` finds the needle exactly when it occurs at some offset of the haystack |
| Protocol.Initial | client.c:24-31 | at program start buff and sensorPort are zero, no socket is open and nothing has been logged |
| Protocol.Connect | client.c:144-177 | a connection gives a socket not open before, now open, numbered from the descriptor counter; the readings stay |
| Protocol.Transmit | client.c:191-194 | memset, strcpy, strlen and send only add to the log and leave the readings |
| Protocol.Receive | client.c:203-204 | memset and recv log nothing and leave the readings |
| Protocol.ScanPort | client.c:217 | a port scan that fits changes neither the log, the network nor the readings |
| Protocol.Scanned | client.c:296 | scanning a reading changes only the readings |
| Protocol.CloseFd | client.c:80 | close leaves the descriptor no longer open |
| Protocol.SensorConnect | client.c:188-256 | sensorConnect returns 1 or the socket the sensor connection received, and leaves the readings |
| Protocol.SensorLogin | client.c:218-255 | the second half returns 1 or the socket it has just opened |
| Protocol.Check | client.c:265-478 | each of the three checks keeps the world well formed and only extends the log; what a check does is stated by the Properties.Check* lemmas |
| Protocol.CloseSession | client.c:299-329 | the close phase logs CLOSE exactly when it is delivered, opens nothing and leaves the readings |
| Protocol.ActionOf | client.c:61-86 | 1, 2 and 3 are checks, numbered temperature, humidity, wind; 4 quits; any other number is invalid |
| Protocol.Dispatch | client.c:60-87 | end of input and read errors end the program |
| Protocol.Prepare | client.c:56-57 | the preparation gives both descriptors exactly when it does not end the program |
| Protocol.Iteration | client.c:53-88 | a pass that reads end of input or a read error ends the program |
| Protocol.Run | client.c:51-89 | the loop only adds to the log |
| Properties.CStringOfLoaded | client.c:203-204 | after a recv of fewer than 1024 bytes the buffer's C string is that of the bytes |
| Properties.ScanPortReads | client.c:217 | the port scan fails exactly when the third word does not fit sensorPort; otherwise sensorPort holds that word, or the old port when there is no third word |
| Properties.RedirectOfWords | client.c:217 | in a reply of space-separated words the third word is the one scanned |
| Properties.SensorLoginOpens | client.c:218 | the second half first opens the sensor host on the port in sensorPort; a failed connection ends the program with status 1 |
| Properties.SensorLoginSucceeds | client.c:220-255 | the second half returns its socket exactly when the sensor host takes the AUTH line and answers with "SUCCESS\n" somewhere, and once connected it returns 1 on every failure; buff is then all zero |
| Properties.SensorLoginOfEmbeddedSuccess | client.c:244-255 | a sensor answer with "SUCCESS\n" anywhere in it, with any text before and after, is accepted |
| Properties.SensorConnectAuthFirst | client.c:191-201 | the first message is "AUTH password123\n" on the dispatch socket; if that send fails, 1 is returned with nothing sent or opened |
| Properties.SensorConnectAfterAuth | client.c:191-256 | everything after the AUTH send only extends the log |
| Properties.SensorConnectWithoutAnswer | client.c:191-215 | a send error, recv error or zero-byte recv returns 1, and the sensor host is never contacted |
| Properties.SensorConnectMidway | client.c:191-217 | the world handed to the sensor login once the server answered and the port fits |
| Properties.SensorConnectPort | client.c:217-218 | after the server's answer: a long third word is undefined behaviour, a failed connect exits 1, otherwise the sensor host is opened on the scanned port |
| Properties.HandshakeIsLogin | client.c:217-255 | past the dispatch server, the handshake script is the sensor-login script |
| Properties.SensorConnectSucceeds | client.c:188-256 | sensorConnect returns the sensor socket exactly when the whole handshake succeeds; otherwise it returns 1 or ends the program, and once the sensor host is connected every failure (send error, recv error, zero-byte recv, no "SUCCESS\n") returns 1 |
| Properties.SensorConnectSuccess | client.c:188-256 | after a successful handshake the log holds exactly the two AUTH lines and the sensor connection on the redirect port, and buff is all zero |
| Properties.SensorConnectOfFourDigitPort | client.c:217 | a dispatch reply "OK ready 5099 go\n" writes five bytes into the four-byte sensorPort |
| Properties.FourDigitReplyPort | client.c:217 | the third word of "OK ready 5099 go\n" is "5099" |
| Properties.FourDigitReplyWords | client.c:217 | "OK ready 5099 go\n" is four words and a newline |
| Properties.SensorConnectOfRedirect | client.c:217-218 | a reply of words with a port of up to three characters in third place sends the client to that port |
| Properties.CloseSessionAcknowledged | client.c:311-329 | the close phase is acknowledged exactly when CLOSE is delivered and the answer contains "BYE\n"; buff is then all zero |
| Properties.CloseSessionFailures | client.c:311-327 | only recv == -1 is an error in the close phase; a zero-byte answer counts as a bad response |
| Properties.CheckMidway | client.c:269-303 | the world the close phase starts from, once the reading has arrived |
| Properties.CheckSends | client.c:265-330 | a check sends at most its command and then CLOSE, both on its descriptor, and opens and closes nothing |
| Properties.CheckCommandFirst | client.c:269-278 | a check first sends exactly its command; if that fails it returns with the log, the readings and the replies unchanged |
| Properties.CheckWithoutReply | client.c:280-291 | a recv error or zero-byte reply returns without sending CLOSE and without touching the readings |
| Properties.ScannedReads | client.c:296 | the scan stores the time and the kind's value where each is found and leaves the other kinds' readings |
| Properties.ReplyReads | client.c:280-296 | the readings the reply leaves before the close phase |
| Properties.CheckReading | client.c:293-330 | after a reply, `currentTime` and the kind's reading hold what the reply's first two numbers give; the other kinds' readings stay, however the close phase ends |
| Properties.CheckSendsClose | client.c:299-303 | after a reply the check sends exactly "CLOSE\n" on the same descriptor |
| Properties.CheckOfLine | client.c:293-330 | a reply "<time> <value>…" sets `currentTime` to time and the kind's reading to value |
| Properties.CheckAcknowledged | client.c:299-329 | the check is acknowledged exactly when CLOSE is delivered and its answer contains "BYE\n"; buff is then all zero |
| Properties.CheckAckFailures | client.c:311-327 | in a check's close phase only recv == -1 is an error; a zero-byte answer is a bad response |
| Properties.CheckOnFailedDescriptor | client.c:57-74 | a check on descriptor 1, which sensorConnect returns on failure, sends nothing and changes no reading |
| Properties.DispatchQuery | client.c:61-75 | selections 1, 2 and 3 run the temperature, humidity and wind check on the sensor descriptor |
| Properties.DispatchQuit | client.c:77-82 | 4 closes the dispatch socket and exits with status 0 |
| Properties.DispatchInvalid | client.c:84-86 | any other selection changes nothing and the loop goes on |
| Properties.DispatchOfTyped | client.c:60-75 | typing "3" and Enter runs the wind check |
| Properties.DispatchOpensNothing | client.c:60-87 | the prompt and the switch open no connection |
| Properties.IterationOpensServerFirst | client.c:53-57 | every pass first opens a new dispatch connection and sends it the AUTH line; a failed connection exits 1 |
| Properties.PrepareDescriptors | client.c:56-57 | a pass's descriptors: the dispatch socket just opened, and the sensor descriptor sensorConnect returns on it, which is the next socket exactly when the handshake succeeds and 1 otherwise; a failed dispatch connection exits 1 |
| Properties.IterationConnectsBeforePrompt | client.c:53-60 | every connection of a pass is made before the prompt |
| Properties.IterationAfterFailedHandshake | client.c:57-75 | after a failed sensorConnect a chosen check sends nothing and leaves the readings |
| Client.Client.constructor | client.c:24-31 | the new object is the initial world |
| Client.Client.ClearBuff | client.c:191 | memset leaves buff all zero |
| Client.Client.Copy | client.c:192 | strcpy writes the text and its NUL at the front of buff and leaves the rest |
| Client.Client.Length | client.c:193 | strlen is the length of buff's C string |
| Client.Client.Send | client.c:194 | send returns the length or -1, uses one script outcome on an open socket, and logs exactly the bytes sent |
| Client.Client.Recv | client.c:204 | recv writes the arriving bytes to the front of buff and returns their number, 0 or -1 |
| Client.Client.ConnectToHost | client.c:144-177 | the new state and descriptor are those of Protocol.Connect |
| Client.Client.Close | client.c:80 | the new state is that of Protocol.CloseFd |
| Client.Client.SendText | client.c:191-194 | the four statements before every send compute Protocol.Transmit |
| Client.Client.ReceiveInto | client.c:203-204 | memset and recv compute Protocol.Receive |
| Client.Client.ScanPortInto | client.c:217 | the copy into sensorPort computes Protocol.ScanPort, or reports the overflow |
| Client.Client.ScanReading | client.c:296 | the reading scan computes Protocol.Scanned |
| Client.Client.SensorConnect | client.c:188-256 | the new state and result are those of Protocol.SensorConnect |
| Client.Client.SensorLogin | client.c:218-255 | the new state and result are those of Protocol.SensorLogin |
| Client.Client.Check | client.c:265-478 | each of the three checks computes Protocol.Check |
| Client.Client.CloseSession | client.c:299-329 | the close phase computes Protocol.CloseSession |
| Client.Client.Prepare | client.c:56-57 | the two connections compute Protocol.Prepare |
| Client.Client.Dispatch | client.c:60-87 | the prompt and the switch compute Protocol.Dispatch |
| Client.Client.MainLoop | client.c:51-89 | the loop ends exactly as Protocol.Run does, in the state it computes |

## Left out

- `connectToHost` (client.c:144-177): name resolution, `socket` and `connect` collapse into one scripted outcome. That outcome is either a new descriptor or the `exit(1)` of any of the three failures.
- `prompt`'s reading of standard input (client.c:99-120): the menu text is not modelled. What `fgets` delivers is an `Input`:
  - the stored characters (at most nine);
  - end of file (`exit(0)`);
  - a read error (`exit(1)`).

  `fgets` returning NULL with neither flag set does not arise and is not modelled.
- `printf`, `perror` and `ctime` (client.c:297, 371, 445 and the error messages): output is not modelled. Only the scanned integers are kept.
- Integer widths: `currentTime` (`time_t`) and the `int` readings are unbounded integers. A reply number that does not fit `long` or `int` has no modelled overflow behaviour. The selection cannot overflow (`Menu.SelectionBounds`).
- Partial sends: a `send` delivers all its bytes or fails with -1.
- SIGPIPE: every `send` passes flags 0 and the client installs no SIGPIPE handler (client.c:194, 223, 272, 303, 346, 377, 420, 451). A send to a peer that has closed raises SIGPIPE, which by default ends the process. The model has no signals: a failed send returns -1 and the client carries on along its error path.
- A `recv` that fills all 1024 bytes leaves `buff` without a terminating NUL for `strstr` and `sscanf`. The script's replies have fewer than 1024 bytes (the `Chunk` type), so this path is excluded.
- A third word of four or more characters in the dispatch server's answer writes past the four-byte `sensorPort` (client.c:25, 30, 217). The model ends the run there with `Halted(Undefined)` rather than inventing a truncation. A four-digit port such as 5099 is such a word. The model follows the code (`Properties.SensorConnectOfFourDigitPort`), so a successful handshake needs a port of at most three characters.
- The global `sensor_fd` (client.c:27) is never assigned, because locals of the same name shadow it everywhere. It is not part of the model.
- Socket release: the client never closes the sensor socket and closes the dispatch socket only on quit. The model adds no cleanup. Descriptors are numbered upward from 3 because none is reused.
- `tempCheck`, `humidityCheck` and `windCheck` form one `Check(kind)`. Their scan formats (`%ld %d %*s` and `%ld %d %%`) assign the same two conversions and differ only after them. The client ignores sscanf's result, so what follows the second number has no effect.
- Protocol.Check: its own contract only keeps the world well formed and extends the log. What a check does is stated by the `Properties.Check*` lemmas.
- Protocol.Prepare: its own contract is structural (descriptors exactly when the program goes on). Which descriptors they are is stated by `Properties.PrepareDescriptors`.
- Protocol.Dispatch, Protocol.Iteration, Protocol.Run: their own contracts are the structural ones. The dispatch and iteration behaviour is stated by the `Properties.Dispatch*` and `Properties.Iteration*` lemmas.
