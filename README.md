# mc-server-runner, modelled in Dafny

mc-server-runner starts a Minecraft server as a child process and stands between it and
the outside world. This project models the decisions it makes along the way:

- **WebSocket console** (`websocket_shell.dfy`, `log_ring.dfy`). This covers:
  - the ring of recent output lines replayed to each new client;
  - who is admitted: the origin allow-list, the token taken from the
    `Sec-WebSocket-Protocol` header, the password fallback chain, and 403 before 401;
  - how inbound text frames reach the server's stdin;
  - how output is broadcast, dropping exactly the clients whose write failed.
- **SSH remote console** (`remote_shell.dfy`, `host_keys.dfy`). This covers:
  - the session registry;
  - the password check;
  - line relays in both directions;
  - the host-key file: which path is picked, missing keys filled in, PEM blocks
    written and read back, and when the file is rewritten.
- **The runner's main loop** (`termination.dfy`). This covers:
  - SIGTERM, SIGUSR1, delay-timer and child-exit events as a state machine over the
    `timer` variable;
  - what `terminate` does (RCON first, console as fallback, kill timer);
  - the `rcon-cli` arguments;
  - how stdin is wired;
  - the exit-code mapping.
- **CurseForge / Forge sync** (`string_set.dfy`, `forge.dfy`, `curse_forge.dfy`). This covers:
  - `StringSet`;
  - Maven coordinates → local path and repository URL;
  - the SHA-1 checksum rule;
  - the download, verify, re-download and remove flow for libraries;
  - the server-jar and Forge-jar skip rules;
  - `version.json` processing;
  - synchronising the `mods` directory with an instance's add-ons.

Supporting modules:
- `wrappers.dfy`: `Option`, `Result`, `Outcome`.
- `env.dfy`: `os.Getenv`.
- `text.dfy`: the `strings` functions used.
- `disk.dfy`: the filesystem, a class over a map from path to contents.

Where a stateful Go object is updated in place, it is modelled as a class whose methods
carry `modifies` clauses:
- `logRing` (over an array of nodes);
- `Console`, `websocketServer`, `hostKeys` and `StringSet`;
- the event loop;
- the filesystem.

Each such method is proved equal to a specification function, and the properties are
proved about that function.

The outside world comes in as parameters:
- HTTP GET (`fetch`);
- SHA-1 (`sha1`);
- zip listing (`unzip`);
- JSON decoding (an already-decoded `Result`);
- `url.Parse`: the path it finds in the Forge URL, and (`resolve`) what resolving a library's path against its repository gives;
- key generation (a `Result` per key);
- environment variables (a map);
- whether `rcon-cli` is on the PATH and whether running it succeeds.

Where the project's own description and its code differ, the model follows the code:

- **Repeated SIGTERM.** The description says the force-kill happens once. The code arms
  a new kill timer on every `terminate` call, and every SIGTERM without an announce delay
  calls it (`Runner.RepeatedSigTermArmsRepeatedKills`). A second SIGTERM during the
  announce delay leaves the first timer running unreachably
  (`Runner.SecondSigTermOrphansTimer`).
- **Missing token guard.** The `i+1 > len(protocols)` guard in
  `extractAuthTokenFromProtocols` never holds. When the last element names the protocol,
  the element after it is read past the end, the handler panics and the connection is
  dropped. This is modelled as `IndexOutOfRange` / `Dropped`, not as "no token".
- **Announcement runs into the stop command.** On the console path, `sendCommand` adds no
  newline. The announcement and the stop command therefore reach the server as one line
  (`Runner.AnnouncementRunsIntoStop`).
- **Library re-download without truncation.** A library is re-downloaded through a file
  opened without `O_TRUNC`. A longer corrupt copy leaves its tail behind the new bytes
  (`Forge.RedownloadKeepsOldTail`).
- **Checksum case.** Checksums are compared with the lower-case hex digest exactly as
  written, so an upper-case sum never matches (`Forge.NonLowerHexNeverMatches`).
- **Server-jar error dropped.** `PrepareLibrariesFromForgeVersionJson` discards the
  server-jar download error (`Forge.ServerJarErrorDropped`).
- **Non-jar files in `mods`.** `PrepareMods` removes every name that was in the `mods`
  directory and that no add-on lists, whether or not it is a jar
  (`CurseForge.ModsSyncContract`).

## Model

| member | source | states |
|---|---|---|
| LogHistory.LogRing.constructor | websocket_shell_service.go:100-104 | a new ring has the requested number of never-written nodes and an empty history |
| LogHistory.LayoutInitial | websocket_shell_service.go:100-104 | a ring of never-written nodes holds the empty history |
| LogHistory.LogRing.Add | websocket_shell_service.go:106-112 | `add` appends the string to the history and keeps the ring's invariant (oldest-first window of the last N strings) |
| LogHistory.LayoutAdd | websocket_shell_service.go:106-112 | stepping to the next node and writing there moves the window by one string |
| LogHistory.RotatedAdvance | websocket_shell_service.go:106-112 | overwriting the node after the head and advancing onto it drops the oldest slot from the visiting order and puts the new one last |
| LogHistory.LastNAppend | websocket_shell_service.go:106-129 | one more string is appended to the window; once the ring is full the oldest string is dropped |
| LogHistory.LastNBeforeWrap | websocket_shell_service.go:114-129 | before the ring wraps, `getAll` yields exactly the strings added so far (never-written nodes are skipped) |
| LogHistory.LayoutPresent | websocket_shell_service.go:114-129 | collecting the written nodes from the one after the head gives the last min(k, N) strings, oldest first |
| LogHistory.LogRing.Walk | websocket_shell_service.go:114-129 | the walk once around the ring collects the values of the written nodes in visiting order |
| LogHistory.LogRing.GetAll | websocket_shell_service.go:114-129 | `getAll` returns the last min(k, N) strings added, oldest first, and changes nothing |
| WebsocketShell.GetWebsocketPassword | websocket_shell_service.go:131-145 | `WEBSOCKET_PASSWORD` if non-empty, else `RCON_PASSWORD` if non-empty, else "minecraft" |
| WebsocketShell.TrimAll | websocket_shell_service.go:155-157 | each element of the split header is trimmed, one for one |
| WebsocketShell.ExtractAuthTokenFromProtocols | websocket_shell_service.go:147-170 | an absent or empty header gives no token; otherwise the result is the search over the trimmed comma-separated elements |
| WebsocketShell.SearchFindsFirstHit | websocket_shell_service.go:155-168 | a returned token is the element after the first element that names the protocol and is followed by a non-empty token |
| WebsocketShell.SearchSucceedsOnHit | websocket_shell_service.go:155-168 | empty tokens do not stop the search: if any element naming the protocol is followed by a token, a token is returned |
| WebsocketShell.SearchOutOfRange | websocket_shell_service.go:158-162 | the search reads past the end exactly when the last element names the protocol and no earlier one is followed by a token |
| WebsocketShell.ExtractionOutcome | websocket_shell_service.go:147-170 | a token is found iff some protocol element is followed by a non-empty one; the out-of-range failure happens iff the last element names the protocol and none is |
| WebsocketShell.IsOriginAllowed | websocket_shell_service.go:172-174 | allowed iff the origin is in the trusted list |
| WebsocketShell.Admit | websocket_shell_service.go:178-221 | an untrusted origin (when checked) gives 403 "origin not allowed"; otherwise a missing or wrong token (when checked) gives 401 "invalid password", a panic in extraction drops the connection, and admission happens iff both checks pass |
| WebsocketShell.EnsureNewline | websocket_shell_service.go:326-330 | the stdin text ends in "\n", which is added only when missing |
| WebsocketShell.StdinWritesAppend | websocket_shell_service.go:307-335 | a frame adds one newline-terminated write iff it is a text frame whose JSON parses; malformed and non-text frames write nothing and reading goes on |
| WebsocketShell.StdinWritesTerminated | websocket_shell_service.go:307-335 | every write the relay makes to stdin ends in "\n" |
| WebsocketShell.WebsocketServer.HandleIncoming | websocket_shell_service.go:307-335 | the writes to stdin are exactly the relay's writes for the frames read |
| WebsocketShell.WebsocketServer.Connect | websocket_shell_service.go:178-251 | an admitted, upgraded request registers exactly its session id and receives the whole history; any other request registers nothing |
| WebsocketShell.WebsocketServer.Disconnect | websocket_shell_service.go:254-256 | the ending read removes exactly that session |
| WebsocketShell.WebsocketServer.ServeHTTP | websocket_shell_service.go:178-279 | admission as `Admit`; an admitted session writes its frames to stdin and leaves the client map as it found it; a rejected one writes nothing |
| WebsocketShell.FrameFor | websocket_shell_service.go:357-372 | stdout and stderr messages are wrapped with their type and content; any other type yields a nil message |
| WebsocketShell.WebsocketServer.Broadcast | websocket_shell_service.go:351-386 | every client is sent one frame of the message's type, and the new client map is the old one minus exactly the clients whose write failed |
| WebsocketShell.WsWriter.Write | websocket_shell_service.go:342-349 | the whole chunk is reported written with no error; with a server attached it is broadcast and appended to the history and nothing is written to stdin, otherwise nothing changes |
| RemoteShell.OutputPipe | remote_shell_service.go:57-67 | the stderr target reads the child's stderr; stdout and every unknown target read its stdout |
| RemoteShell.Console.constructor | remote_shell_service.go:48-55 | a new console has no sessions and has written nothing |
| RemoteShell.Console.WriteToStdIn | remote_shell_service.go:69-76 | one whole write to the child's stdin, its length returned |
| RemoteShell.Console.RegisterSession | remote_shell_service.go:78-83 | the id maps to the session and every other entry is kept |
| RemoteShell.Console.UnregisterSession | remote_shell_service.go:85-90 | only the id is removed; an unknown id changes nothing |
| RemoteShell.Console.CurrentSessions | remote_shell_service.go:92-101 | the snapshot lists every registered session exactly once and the registry is unchanged |
| RemoteShell.ListingComplete | remote_shell_service.go:92-101 | a snapshot has one entry per registered id and contains every registered session |
| RemoteShell.ConstantTimeCompare | remote_shell_service.go:110 | 1 iff both byte strings are equal, else 0 |
| RemoteShell.Int32 | remote_shell_service.go:109 | a length converted to int32 is the value congruent to it modulo 2^32 in the signed 32-bit range |
| RemoteShell.PasswordHandler | remote_shell_service.go:103-116 | a login is accepted iff the password equals `RCON_PASSWORD` (or "minecraft" when that is unset or empty) |
| RemoteShell.HandleSession | remote_shell_service.go:118-169 | every line the session's terminal yields reaches stdin as line + "\n", in order, and the session is unregistered afterwards |
| RemoteShell.ConsoleInRoutine | remote_shell_service.go:193-203 | every line the scanner yields from local stdin reaches the child's stdin as line + "\n", in order |
| RemoteShell.FramedLinesRoundTrip | remote_shell_service.go:146-158 | the framed writes split at "\n" give back the lines read, so framing loses nothing |
| RemoteShell.DeliverLine | remote_shell_service.go:173-188 | one output line goes first to the local output, then to every session of a fresh snapshot |
| RemoteShell.FanoutReachesEveryone | remote_shell_service.go:171-191 | the local copy comes first, then each registered session gets line + "\n" on the stream matching the target; an unknown target reaches no session |
| RemoteShell.ConsoleOutRoutine | remote_shell_service.go:171-191 | the output is, line by line, the local copy and then one write per session of that line's snapshot |
| HostKeys.MarshalParse | remote_shell_service.go:297-349 | parsing a marshalled key gives it back, and a key of the other kind is refused |
| HostKeys.ParsePKCS1PrivateKey | remote_shell_service.go:338-343 | parsing succeeds exactly on the encodings of RSA keys, giving the key encoded |
| HostKeys.ParseECPrivateKey | remote_shell_service.go:344-349 | parsing succeeds exactly on the encodings of EC keys, giving the key encoded |
| HostKeys.PickHostKeyPath | remote_shell_service.go:214-229 | the hidden file if it exists, else the legacy file if that exists, else the hidden file |
| HostKeys.Populate | remote_shell_service.go:261-286 | present keys are never replaced; EC is generated first and its failure returns at once; on success both keys are present and `didAdd` holds iff one was missing |
| HostKeys.PopulateKeys | remote_shell_service.go:261-286 | the key fields, the added flag and the error are as `Populate` describes |
| HostKeys.HostKeys.constructor | remote_shell_service.go:330 | a new key set holds no keys |
| HostKeys.WriteKeys | remote_shell_service.go:288-322 | the file at the path is replaced by the EC block, then the RSA block, each only if present |
| HostKeys.ReadKeys | remote_shell_service.go:324-356 | an unreadable file gives no keys and an error; otherwise the keys and error are those of reading the blocks in order |
| HostKeys.ReadEncoded | remote_shell_service.go:288-356 | reading a written key file lays its keys over those already read |
| HostKeys.WriteReadRoundTrip | remote_shell_service.go:288-356 | reading what `writeKeys` wrote yields the same keys without error |
| HostKeys.LaterBlocksWin | remote_shell_service.go:331-353 | when blocks of the same type repeat, the later block's key wins |
| HostKeys.UnknownBlocksIgnored | remote_shell_service.go:333-350 | blocks of unknown type make no difference to what is read |
| HostKeys.EnsureSound | remote_shell_service.go:358-392 | on success both keys are present and the hidden file holds exactly them; a failure writes nothing; no file other than the hidden one is ever written |
| HostKeys.EnsureMigratesLegacy | remote_shell_service.go:358-392 | when only the legacy file exists and reads cleanly, success copies its keys (completed) to the hidden file |
| HostKeys.EnsureHostKeys | remote_shell_service.go:358-392 | a home-directory failure changes nothing; otherwise the files, keys and error are those `EnsureSpec` gives |
| HostKeys.CleanupOldHostKey | remote_shell_service.go:231-254 | the legacy key file is removed if present, and nothing else changes |
| Runner.HasRconCli | main.go:231-238 | true iff upper-cased `ENABLE_RCON` is "TRUE" and `rcon-cli` is found |
| Runner.EnableRconCaseInsensitive | main.go:231-238 | any letter case of "true" enables RCON, and no other value does |
| Runner.RconArgs | main.go:240-270 | `--config <file>` when `RCON_CONFIG_FILE` is set, otherwise `--port` (default 25575) and `--password` (default "minecraft"), then the command words |
| Runner.SendCommandEffects | main.go:272-280 | through `rcon-cli` with those arguments when it is available, otherwise the words joined by single spaces written to stdin with no newline |
| Runner.EventLoop.SendCommand | main.go:272-280 | one `sendCommand` effect; fails exactly when the RCON run fails |
| Runner.StopCommand | main.go:282-285 | the stop command is never empty ("stop" replaces an empty one) |
| Runner.TerminateEffects | main.go:282-306 | the stop goes through RCON when available; stop + "\n" is written to stdin iff RCON is not used or fails; a kill timer is armed iff the stop duration is not zero |
| Runner.EventLoop.StopViaConsole | main.go:323-329 | the stop command followed by "\n" is written to stdin |
| Runner.EventLoop.Terminate | main.go:282-306 | appends the `terminate` effects and counts one more stop request |
| Runner.ExitCodeFor | main.go:165-179 | a clean exit sends 0, an exit-status error its code, and any other error sends nothing |
| Runner.EventLoop.constructor | main.go:181 | the loop starts with no timer and nothing done |
| Runner.EventLoop.Handle | main.go:184-219 | one case of the `select` changes the loop state as `Step` says |
| Runner.EventLoop.Run | main.go:183-220 | the loop over the events reaches the state `RunSpec` gives and returns its exit code |
| Runner.TerminationsBounded | main.go:183-220 | stop requests made or pending never outnumber the SIGTERMs and SIGUSR1s received |
| Runner.SigTermWithoutDelay | main.go:195-197 | without an announce delay, a SIGTERM runs `terminate` once |
| Runner.SigTermsTerminateEach | main.go:185-197 | without an announce delay, each of n SIGTERMs runs `terminate` in full |
| Runner.RepeatedSigTermArmsRepeatedKills | main.go:185-197 | with no delay and a non-zero stop duration, n SIGTERMs arm at least n kill timers; nothing deduplicates them |
| Runner.SigUsr1BypassesOnce | main.go:199-210 | a SIGUSR1 during the delay stops the timer and terminates at once; a second SIGUSR1 does nothing |
| Runner.SecondSigTermOrphansTimer | main.go:188-210 | a second SIGTERM during the delay replaces the timer, whose predecessor still fires: the server is told to stop twice |
| Runner.ExitEndsLoop | main.go:215-218 | an exit code ends the loop and later events change nothing |
| Runner.AnnounceThenElapse | main.go:188-194 | with a delay, a SIGTERM announces, arms the delay timer, and its expiry runs `terminate` |
| Runner.AnnouncementRunsIntoStop | main.go:188-194 | on the console path the server reads "say <announcement><stop command>" as one line |
| Runner.WireStdin | main.go:93-135 | with the remote console, stdin is relayed unless detached; without it, stdin goes straight to the child iff RCON is available and no named pipe is set, and is copied otherwise |
| StringSets.StringSet.constructor | cfsync/stringset.go:7-11 | the new set holds exactly the given names |
| StringSets.DuplicatesCollapse | cfsync/stringset.go:7-11 | duplicate names collapse: the set is no larger than the list, and equal in size iff no name repeats |
| StringSets.StringSet.Add | cfsync/stringset.go:29-31 | the name is a member afterwards and nothing else is added |
| StringSets.StringSet.AddAll | cfsync/stringset.go:33-37 | every given name is added, and nothing else |
| StringSets.StringSet.Difference | cfsync/stringset.go:44-52 | a fresh set holding the members not in the other set |
| StringSets.StringSet.String | cfsync/stringset.go:13-27 | "[" + each member once, in some order, separated by "," + "]" |
| StringSets.ShownReadsBack | cfsync/stringset.go:13-27 | the text between the brackets splits at "," into the members in the order shown |
| Forge.ParseCoordinate | cfsync/forge.go:200-206 | group and artifact hold no ':' and rejoining the three parts gives the coordinate back |
| Forge.CoordinateNeedsTwoColons | cfsync/forge.go:200-204 | a coordinate is rejected iff it has fewer than two colons; any further colon stays in the version |
| Forge.BuildUrlPath | cfsync/forge.go:227-237 | the builder loop yields each group part + "/", then artifact/version/artifact-version.jar |
| Forge.LocalPathMirrorsUrlPath | cfsync/forge.go:205-237 | the local file is outPath/libraries/ followed by exactly the URL path when no name is empty |
| Forge.Hex | cfsync/forge.go:309 | two lower-case hex digits per digest byte |
| Forge.HexRoundTrip | cfsync/forge.go:309 | the hex form reads back as the digest it came from |
| Forge.NonLowerHexNeverMatches | cfsync/forge.go:309-314 | a sum that is not lower-case hex never matches, so a list of only such sums rejects every file |
| Forge.VerifyChecksums | cfsync/forge.go:291-316 | passes iff there are no sums, or the file exists and its lower-case hex SHA-1 is one of them; otherwise the message names the digest and path |
| Forge.WrittenOver | cfsync/forge.go:262-277 | writing without truncation leaves the new bytes followed by any longer tail of the old content |
| Forge.WriteNoTrunc | cfsync/forge.go:262-277 | the file becomes the old content overwritten by the data, from the start |
| Forge.RedownloadKeepsOldTail | cfsync/forge.go:262-277 | a re-download over a longer corrupt copy leaves that copy's tail behind the new bytes |
| Forge.FetchLibraryContract | cfsync/forge.go:253-286 | the URL is fetched; a network error or a status other than 200 is an error and writes nothing; after a 200 the step succeeds iff what the write leaves in the file verifies, the file then holds exactly that, and otherwise the file is removed; no other file changes |
| Forge.FetchLibrary | cfsync/forge.go:253-286 | fetching, writing, verifying and removing leave the state `FetchLibrarySpec` gives |
| Forge.DownloadLibraryContract | cfsync/forge.go:199-289 | a bad coordinate, or a repository (https://libraries.minecraft.net/ when none is named) or path that does not parse as a URL, is an error that fetches and touches nothing; a verified library in place is neither fetched nor changed; anything else is fetched from the resolved URL, with `FetchLibraryContract`'s outcomes: a network or status error writes nothing, a 200 whose written file fails verification removes it; success leaves it verified; no other file changes |
| Forge.DownloadLibrary | cfsync/forge.go:199-289 | the files, error and fetched URL are those `DownloadLibrarySpec` gives |
| Forge.OnlyServerLibraries | cfsync/forge.go:141-148 | client-only libraries make no difference; server libraries are processed in manifest order, stopping at the first failure |
| Forge.HtmlEscape | cfsync/forge.go:24-27 | the `html/template` escaping of inserted text leaves no quote, "'", "+", "<", ">" or NUL, and leaves a value without replaced characters as it is |
| Forge.ServerJarUrlEscapes | cfsync/forge.go:24-27 | an ordinary version goes into the server URL verbatim, in both places; one holding a character markup gives a meaning to does not |
| Forge.ServerJarSpec | cfsync/forge.go:155-196 | a present jar means nothing is done; for an absent jar, success iff the GET of the server URL answers 200, leaving the body in the jar; only the jar's path changes; a failure changes nothing |
| Forge.DownloadMinecraftServer | cfsync/forge.go:155-196 | the files and error are those `ServerJarSpec` gives |
| Forge.ServerJarErrorDropped | cfsync/forge.go:150-152 | the step succeeds iff the libraries did; the server-jar error is never reported |
| Forge.PrepareLibrariesFromForgeVersionJson | cfsync/forge.go:133-153 | a decoding error is returned and nothing is written; otherwise the libraries and then the server jar, as `FromVersionJsonSpec` gives |
| Forge.ManifestsDecode | cfsync/forge.go:110-123 | the entry loop succeeds only if every `version.json` entry it meets decoded |
| Forge.NoManifests | cfsync/forge.go:110-123 | a jar's entries without a `version.json` are all passed over and nothing changes |
| Forge.PrepareVersionJsons | cfsync/forge.go:110-127 | the entry loop leaves the state `ManifestsSpec` gives and reports a `version.json` iff the jar has one |
| Forge.ForgeLibrariesContract | cfsync/forge.go:102-130 | a missing jar, an unreadable zip or a jar with no version.json fails and writes nothing; success means the jar opened, has a version.json, and every version.json in it decoded |
| Forge.PrepareLibrariesForForge | cfsync/forge.go:102-130 | the files and error are those `ForgeLibrariesSpec` gives: each version.json entry processed in jar order, stopping at a failure |
| Forge.LastSegment | cfsync/forge.go:54-55 | the name after the last "/" of the URL path |
| Forge.DownloadForgeSpec | cfsync/forge.go:78-100 | succeeds iff the GET answers 200, writing the body over the file without truncating it; otherwise nothing changes |
| Forge.DownloadForge | cfsync/forge.go:78-100 | the files and error are those `DownloadForgeSpec` gives |
| Forge.PrepareForgeFailures | cfsync/forge.go:46-67 | a URL that does not parse changes nothing; an absent jar whose download fails gives an error and changes nothing |
| Forge.PrepareForgeSuccess | cfsync/forge.go:46-76 | success returns the last segment of the URL path, after a jar already present or a GET that answered 200, and that jar opened and has a version.json, every one of which decoded |
| Forge.PrepareForge | cfsync/forge.go:46-76 | the files and result are those `PrepareForgeSpec` gives |
| Disk.FileSystem.ReadDirnames | cfsync/cf.go:122-129 | the names listed are exactly those of the files in the directory, each once |
| CurseForge.LocateExistingModFiles | cfsync/cf.go:122-129 | a fresh set of exactly the names in the mods directory |
| CurseForge.ModsDirPath | cfsync/cf.go:86 | the mods directory is `mods` inside the base path |
| CurseForge.ModFileSpec | cfsync/cf.go:131-162 | an existing file is kept and not fetched; for a missing one, success iff the GET answers 200, leaving the body as the file; a failure (non-200 or network) writes nothing; only that path changes |
| CurseForge.PrepareModFile | cfsync/cf.go:131-162 | the files and error are those `ModFileSpec` gives |
| CurseForge.DownloadsSpec | cfsync/cf.go:98-109 | files are only added, and on success every add-on's file is present |
| CurseForge.DownloadMods | cfsync/cf.go:98-109 | each add-on's name joins the latest set and its file is prepared in order, stopping at the first failure |
| CurseForge.ModsSyncContract | cfsync/cf.go:83-120 | a failure removes nothing; success leaves every add-on's file present, and keeps a pre-existing entry iff an add-on names it; only such unlisted entries are removed |
| CurseForge.PruneStep | cfsync/cf.go:111-117 | removing one more stale name removes exactly its path |
| CurseForge.RemoveOldModFiles | cfsync/cf.go:111-117 | exactly the stale names' files are removed from the mods directory |
| CurseForge.PrepareMods | cfsync/cf.go:83-120 | the files and error are those `ModsSpec` gives |
| CurseForge.PrepareInstanceContract | cfsync/cf.go:60-81 | a bad instance file changes nothing; the instance is ready iff Forge and then the mods were prepared; a Forge failure (a URL that does not parse, a jar that cannot be fetched, ...) is returned and the mods step never runs; success returns the Forge jar's name and leaves every add-on's file in the mods directory |
| CurseForge.PrepareInstance | cfsync/cf.go:60-81 | the files and result are those `InstanceSpec` gives |

## Left out

- Goroutines, mutexes and channels are left out. Every operation is modelled as one sequential step, so these are not captured:
  - `broadcast` holding its lock across network writes;
  - the unlocked delete on disconnect;
  - concurrent `add`/`getAll`.
- Network servers and their libraries are left out: `ssh.ListenAndServe`, `twinKeys`, `websocket.Accept`, `http.Server`, `runWebsocketServer` and the heartbeat. They are library plumbing and real-time timers.
- Frames and messages are not modelled at the byte level: the JSON encoding of frames, the `time.Now()` timestamps in messages, and the close-status switch (it only selects a log level).
- Cryptography is replaced by stand-ins:
  - RSA/ECDSA generation comes in as inputs;
  - DER marshal/parse use a stand-in encoding with the same round trip;
  - SHA-1 is a parameter;
  - PEM is a sequence of typed blocks, not text;
  - `subtle` timing is not modelled, only its boolean result.
- JSON decoding, zip reading and `url.Parse` are inputs, as their decoded values. For a library, parsing its repository, resolving its path against it and printing the result back (`String()`, which re-escapes) are one input, `resolve`; the model does not compute the URL itself.
- The error for a `version.json` entry that cannot be opened ("failed to open version.json from jar") is not told apart from a decoding error: both come in as the entry's decoded `Result`, which is returned as it is.
- `filepath.Join`'s lexical clean-up, directories and `MkdirAll`, and permissions are not modelled. A path is a string and a file exists or not.
- `os.Stat` errors other than "does not exist", and write or remove failures, are not modelled. In particular, a removal in `PrepareMods` cannot fail in the model.
- Subdirectories of `mods` are not listed by `Disk.FileSystem.ReadDirnames`. Only files are.
- An add-on whose file name is empty joins to the mods directory itself, which Go sees as existing. The model, which has no directories, fetches to that path.
- Nil add-on pointers in a decoded instance are not modelled.
- `announceStop`'s `%0.f` formatting of seconds is floating point. The announcement text is an input.
- These are left out: process spawning, signal delivery, `os.Exit`, flag parsing, logging, `relayStdin`'s byte copy, the bootstrap file, named pipes, and the wiring of writers in `main()`. The wiring in `main()` does not match its callees' current signatures.
- `strings.TrimSpace` is specified only through its two halves, `Text.TrimLeft` and `Text.TrimRight`. The white space recognised is the whole `unicode.IsSpace` set (`Text.IsSpace`).
- `Text.ToUpper` is ASCII-only. That is enough for the comparison with "TRUE".
- Forge.PrepareForge: an empty last URL segment (a Forge URL whose path ends in `/`) makes the jar path the base directory itself. Go sees that directory as existing, skips the download and then fails to open it as a zip ("failed to prepare libraries: unable to open forge jar: …"). The model has no directories, so it fetches the URL to the base path and can succeed with an empty installer name.
- Forge.ForgeLibrariesContract: on success it states that every `version.json` decoded, not that each one's libraries are all in place at the end; a later library may be written over an earlier one's path.
- LogHistory.LogRing.constructor: requires a size above zero. Go's `newLogRing(0)` returns a ring whose first `add` or `getAll` panics; that panic is not modelled.
- `bufio.Scanner` stops at the first line longer than 64 KiB, ending `consoleInRoutine` and `consoleOutRoutine` early. The model's lines are what the scanner yields, so that limit is not modelled.
- `Runner.Setup.rconSucceeds` is one input for the whole run: every `rcon-cli` run in it succeeds or every one fails.
- RemoteShell.PasswordHandler: `Int32(|password|)` counts characters, while Go's `len` counts UTF-8 bytes. The two counts differ only for passwords outside ASCII; since equal passwords have equal lengths either way, which logins are accepted is the same.
- WebsocketShell.WebsocketServer.ServeHTTP: the panic in token extraction is modelled as a `Dropped` admission, not as the HTTP server's recovery.
