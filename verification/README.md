# Verified model of FRP Manager

FRP Manager is a web panel around frp: it edits frp configurations, runs frps and frpc, filters
ports with nftables, and manages accounts. This project models the parts of it that compute
something hard and proves what they promise.

- **Firewall.** `Cidr`, `CidrLaws` and `NetAddr` cover the regrouping of networks and the last
  address of a network; `RuleNets` the cached networks of a rule; `Firewall` the compiler of rules
  into nftables sets and lines, and the independent evaluator of the verdict page. Packets are
  (loopback, new, local, protocol, family, source, port); a set is a set of integers and the first
  verdict of a chain wins.
- **Supervisor.** `Supervisor` models one instance as a class whose methods are the critical sections
  under its mutex, each tied to a step function; theorems are about all interleavings of those steps,
  stale timers included.
- **Byte streams.** `Cbor` is the CBOR decoder of passkeys (RFC 8949) against a reference decoder and
  encoder; `DockerLogs` and `Utf8` the log reader that must
  not depend on how its stream is chopped, with the encoding of frames and of code points it inverts.
- **Accounts.** `Accounts` covers permission closure and delegation over runs; `LoginLimit` the login
  lockout over runs of attempts in real time.
- **Lists.** `Blocklists` relates the two validators of community lists.
- **TOML editor.** `InlineTables` states the put and removal law of inline tables on trees, and
  `InlineScan`, `InlineText`, `InlineLayout`, `InlineRead`, `InlineEdits`, `InlineRefines`,
  `InlineSetLaws` and `InlineValues` carry it to the text of one line and of one value. `TomlLines` is
  the line-level model of a file and its meaning; `MergeScan`, `MergeEdits`, `MergeAdds`,
  `MergePlaces`, `MergePlan`, `MergeCounts`, `MergeMeaning` and `Merge` are the structure-preserving
  merge of form values. `SetKeys` and `ListenPorts` are the key setter and the port rewriting of copied
  instances. `Tunnels` and `TunnelLaws` group and split "TCP + UDP" pairs. `TomlStrings`, `TomlText`,
  `TextLines`, `TomlValues`, `DomainText`, `DomainLists`, `TunnelText`, `ValueReads`, `ValueExact`,
  `TunnelRoundTrip`, `VisitorRoundTrip`, `TunnelLosses` and `TunnelDress` print tunnels as a text and read
  it back, as it was written and as a hand may have changed its looks.

Reading conventions:

- In the merge, an entry of a file is one element of the line model, however many lines its value
  spans; its value is a text, and an inline table is read from that text. A file is `WellFormed` when
  no setting is repeated or stands above another, headers have names, and a value that opens an inline
  table is the text of one. A sub-table of a tunnel (`[proxies.plugin]`) belongs to the tunnel wherever
  it stands, as in TOML, although the scan of the merge takes it for a table when another one stands
  between.
- The keys merged are `Mergeable`: dotted keys of plain names, none above another, as those of the
  forms are (panel/templates/assets/js/pages/config.js:434-443). A key that stands
  above settings outside inline tables is simply added, as the code does.
- A tunnel to write is `Normal`: only the settings of its type, strings whose template actions hold no
  quote or backslash, ports that read as themselves, and advanced settings that are `WholeValue`, which
  `ValueExact.ReadsBack` shows to be exactly the values that survive; no line of its text starts an
  array of tunnels.
- The machine's answers (is a port free, which port is drawn, does a program start, does a
  configuration exist, the clock, the text readers for addresses) are parameters.

Facts about the code that the theorems state exactly: the verdict page does not look at the
master switch of the filter (`Firewall.VerdictsIgnoreSwitch`), and a manual start that fails while a
relaunch is pending leaves a wanted instance without any relaunch (`Supervisor.StepKeepsProgress`,
`Supervisor.FailedStartStrands`); a string written over an inline table of the same
text is not written (`InlineSetLaws.TableLeft`, and `Stays` in the contract of the merge); and an
advanced setting that leaves an array open loses the tunnel behind it
(`TunnelLosses.OpenArraySwallows`).

## Model

| member | source | states |
|---|---|---|
| `Cidr.ContainsIsRange` | panel/netaddr/netaddr.go:52-67 | A network contains exactly the addresses between its masked first address and its last one, inside the address space of its family |
| `Cidr.SortByLow` | panel/netutil.go:42 | The sort by first address keeps every range and puts them in order; ranges with the same start may come in any order |
| `Cidr.ToRanges` | panel/netutil.go:36-41 | The ranges of the networks hold the addresses of the networks |
| `Cidr.Merge` | panel/netutil.go:43-54 | Overlapping and adjacent ranges become one: same addresses, and the ranges left are separated by gaps |
| `Cidr.WidestAt` | panel/netutil.go:59-68 | The inner loop stops at the widest aligned block that starts at lo and ends by hi |
| `Cidr.WidestIsMaximal` | panel/netutil.go:57-79 | The block that the greedy step takes cannot be widened inside its range |
| `Cidr.MaximalMeet` | panel/netutil.go:32-81 | Two maximal blocks that share an address are the same block |
| `Cidr.Collapse` | panel/netutil.go:32-81 | The result is exactly the maximal aligned blocks of the union of the input, each once, sorted and disjoint |
| `CidrLaws.MaximalExists` | panel/netutil.go:32-81 | Every address of the union lies in some maximal block |
| `CidrLaws.CollapseKeepsUnion` | panel/netutil.go:30-32 | Regrouping keeps the set of addresses |
| `CidrLaws.CollapseIsCanonical` | panel/netutil.go:32-81 | Two inputs with the same union give the same list |
| `CidrLaws.CollapseIsShortest` | panel/netutil.go:30-32 | No list of networks with that union is shorter |
| `NetAddr.SetBitAdds` | panel/netaddr/netaddr.go:58-62 | Setting a bit of the byte array, below which everything is clear, adds that power of two to the number the bytes stand for |
| `NetAddr.NextHostBit` | panel/netaddr/netaddr.go:58-62 | One turn of the bit-filling loop sets the next host bit and keeps the others |
| `NetAddr.FillHostBits` | panel/netaddr/netaddr.go:58-62 | The loop adds 2^(128 - bits) - 1 to the address |
| `NetAddr.Last` | panel/netaddr/netaddr.go:52-67 | The last address of a network is base + 2^(width - bits) - 1, for IPv4 through its mapped form and for IPv6 |
| `NetAddr.PublicNetworks` | panel/netaddr/netaddr.go:14-79 | A network is public if and only if its first or its last address lies in no special network, or in an exception to one, by the ranges of the tables |
| `RuleNets.KeyDetermines` | panel/firewall.go:1184-1203 | The cache key leaves nothing out: equal keys give equal networks, whatever the states of the ASN cache they were taken in |
| `RuleNets.NetsCache.Lookup` | panel/firewall.go:1204-1209 | A hit is what recomputation gives for every rule and state with that key: nothing stale is ever served |
| `RuleNets.NetsCache.Store` | panel/firewall.go:1224-1231 | A result is stored and the oldest keys leave the queue and the map once more than 64 are queued; the cache stays valid |
| `RuleNets.NetsCache.RuleNets` | panel/firewall.go:1184-1233 | In every valid cache state, a network is returned if and only if some source of the rule, or of its list in the current catalog, has a text read as it: its own without an AS, an IPv4 or IPv6 prefix of a known AS otherwise; the cache stays valid |
| `RuleNets.Recompute` | panel/firewall.go:1210-1223 | The networks of every source in turn, and no others: own texts, those of the list, and both families of prefixes of each known AS |
| `RuleNets.NetsAreThoseOfTheRule` | panel/firewall.go:322-345 | Recomputation holds a network exactly when a source of the rule or of its list gives a text read as it |
| `RuleNets.CacheIsBounded` | panel/firewall.go:1176-1232 | At most 64 keys are held, all of them in the eviction queue |
| `Firewall.RuleRanges` | panel/firewall.go:1038-1068 | The ranges of a rule cover exactly the ports it asks for, never the panel port: the listed ones, or those known for its frps, or for each frps when it names none; unreadable ports are the error case |
| `Firewall.KnownRanges` | panel/firewall.go:1040-1046 | The ranges of a rule for all ports cover exactly the known ports of its frps, or of each frps |
| `Firewall.Carve` | panel/firewall.go:1053-1066 | A range without the panel port: every other port of it, in no, one or two pieces |
| `Firewall.ChainsJoin` | panel/firewall.go:1238-1317 | Without a return line, what a first chain drops is dropped and recorded as it says; what it leaves, the chain behind it decides, and records add up |
| `Firewall.MoreSets` | panel/firewall.go:1238-1317 | Sets added later do not change what a chain that names none of them does |
| `Firewall.GuardsDecide` | panel/firewall.go:1308-1313 | The entry guards let exactly the new external packets to the machine through to the rules |
| `Firewall.CompileFamily` | panel/firewall.go:1257-1301 | The lines of a rule for one family drop, under the id of the rule, exactly the packets of that family to its ports whose source is outside the list (allow) or inside it (block), and with recording on put exactly those in its set |
| `Firewall.CompileRule` | panel/firewall.go:1249-1302 | The lines of a rule drop and record exactly the packets the rule asks to drop, and its sets do not collide with those of other rules |
| `Firewall.CompileRules` | panel/firewall.go:1248-1302 | Under the chain of a list of rules, the first one that asks to drop a packet decides: its id, its record; others are accepted |
| `Firewall.Ruleset` | panel/firewall.go:1238-1317 | For every packet, the table drops it if and only if filtering is on, the packet passes the guards, and an enabled rule covers its port with its source on the wrong side of the networks of its sources; the drop carries the id of the first such rule, whose set alone records the address when recording is on |
| `Firewall.TouchMeansCommonPort` | panel/firewall.go:1594-1601 | Two ranges that touch share a port |
| `Firewall.NamesAreBlockers` | panel/firewall.go:1553-1606 | The labels kept for a range are those of the rules that block the address on one of its ports, in order |
| `Firewall.BlockedByIsShown` | panel/firewall.go:1553-1606 | Those labels are, in rule order, the name, or else the id, of each enabled rule that drops a packet from the address to some port of the range |
| `Firewall.Verdicts` | panel/firewall.go:1553-1606 | Each known range comes with exactly the labels of the enabled rules that drop a packet from the address to one of its ports, in rule order: the name of the rule, or its id without one |
| `Firewall.VerdictsAgree` | panel/firewall.go:1553-1606 | With filtering on, a range shows a blocker if and only if the table drops some new external packet from that address to one of its ports |
| `Firewall.TableAndPage` | panel/firewall.go:1238-1606 | With filtering on, the page shows a blocker for a range if and only if the compiled table drops some new external packet from that address to one of its ports |
| `Firewall.VerdictsIgnoreSwitch` | panel/firewall.go:1553-1606 | With the configuration as it is, page and filter disagree exactly when a blocker is shown while filtering is off |
| `Supervisor.RestartDelay` | panel/standalone.go:272-278 | The loop computes 2 * 2^(f-1) seconds, at most 60, for every f |
| `Supervisor.FrpProc.LaunchLocked` | panel/standalone.go:284-327 | A launch that works adds one process, the one in cmd; one that fails changes nothing |
| `Supervisor.FrpProc.Start` | panel/standalone.go:361-391 | The critical section of a start is the step function StartStep |
| `Supervisor.FrpProc.Stop` | panel/standalone.go:395-421 | The critical section of a stop is the step function StopStep |
| `Supervisor.FrpProc.OnExit` | panel/standalone.go:302-326 | What follows the end of a process is the step function ExitStep |
| `Supervisor.FrpProc.Relaunch` | panel/standalone.go:331-355 | A timer callback, stale or not, is the step function RelaunchStep |
| `Supervisor.FrpProc.Status` | panel/standalone.go:425-436 | Active, activating and inactive are the three cases of running, wanted but not running, and neither |
| `Supervisor.ProcessFields` | panel/standalone.go:284-355 | A start or relaunch that works launches the program exactly when it finds it stopped, a relaunch only when it is also wanted and configured: cmd is the new process, it is alive and the count of launches is one higher; no other step launches |
| `Supervisor.WantedField` | panel/standalone.go:331-421 | What is wanted changes only so: a start of a running program, or one that works, wants it; a stop does not, nor does a relaunch that finds it stopped and without a configuration |
| `Supervisor.TimerFields` | panel/standalone.go:302-421 | Which steps reset or raise the count of close exits, which arm a timer, which cancel one, and which leave all of it |
| `Supervisor.LaunchesAreCounted` | panel/standalone.go:284-391 | Over every run the launches are exactly those steps, and the process known is the last one launched until its end is handled |
| `Supervisor.StepKeepsInv` | panel/standalone.go:284-421 | Every step keeps the invariant that ties processes, cmd and timers |
| `Supervisor.AlwaysOneProcess` | panel/standalone.go:284-421 | In every interleaving at most one process is alive, and it is the one in cmd |
| `Supervisor.EveryRunHasOneProcess` | panel/standalone.go:284-421 | The same from the initial state |
| `Supervisor.NoLaunchAfterStop` | panel/standalone.go:331-355 | After a stop, whatever timers are left, nothing is launched until a start |
| `Supervisor.StepKeepsProgress` | panel/standalone.go:302-391 | "Wanted and not running implies an outstanding relaunch" is kept by a step if and only if the step is not a failing start that cancels the only timer |
| `Supervisor.ProgressRecovers` | panel/standalone.go:331-355 | From every wanted and stopped instance with an outstanding relaunch, at most two steps bring it back as a process of its own, the count of close exits unchanged |
| `Supervisor.RunsKeepProgress` | panel/standalone.go:302-391 | Runs without such a start keep a relaunch coming |
| `Supervisor.FailedStartStrands` | panel/standalone.go:361-391 | A run of four steps that leaves a wanted instance stranded: the exact exception is real |
| `Supervisor.FailuresCountSetbacks` | panel/standalone.go:302-349 | Between starts and stable runs, the counter counts the close exits and failed launches |
| `Supervisor.DelayGrows` | panel/standalone.go:272-349 | From every step that forgets (a start of a stopped program, or the end of a stable one): after f - 1 setbacks in a row the next one arms a timer of min(2 * 2^(f-1), 60) seconds |
| `Utf8.RepairCut` | panel/system.go:290-301 | Repairing invalid UTF-8 commutes with cutting after a newline |
| `Utf8.WellFormedMeansEncoded` | panel/passkeys.go:143-147 | A text passes for UTF-8 if and only if it is the encoding of some code points, as section 3 of RFC 3629 lays the bytes out |
| `Utf8.RepairKeepsText` | panel/system.go:290-301 | Encoded code points stay as they are, and what follows is repaired apart |
| `Utf8.RepairReplacesRun` | panel/system.go:290-301 | A run of bytes where no code point starts becomes one U+FFFD |
| `Utf8.TextSplits` | panel/system.go:290-301 | Every text is code points and then such a run, so that the two laws settle every repair |
| `Cbor.Decoder.UInt` | panel/passkeys.go:72-97 | The argument of a head is read inside the input as RFC 8949 section 3 lays it out, or refused |
| `Cbor.Decoder.ReadValue` | panel/passkeys.go:99-192 | The decoder terminates, reads inside the input only, builds no more values than bytes passed, and agrees with the reference decoder in success and failure |
| `Cbor.HeadRead` | panel/passkeys.go:72-97 | Reading an encoded head, of the least width or wider, gives back its number and what follows |
| `Cbor.RoundTrip` | panel/passkeys.go:99-192 | For every supported item of at most 16 levels with distinct keys, heads of any width and tags included, decoding its encoding followed by any bytes gives its meaning and those bytes |
| `Cbor.ItemsRoundTrip` | panel/passkeys.go:150-162 | The same for the items of a list |
| `Cbor.PairsRoundTrip` | panel/passkeys.go:163-187 | The same for the pairs of a map, in any order |
| `Cbor.OnlySupported` | panel/passkeys.go:99-192 | Whatever is decoded was written as a supported item of at most 16 levels |
| `Cbor.CborDecode` | panel/passkeys.go:66-70 | A value is returned if and only if the bytes start with an encoding of a supported item of at most 16 levels (64-bit integers, UTF-8 texts, integer or text keys each once, definite lengths, tags, booleans, null), and then it is its meaning, with the length of the encoding; floats, repeated keys, a 17th level and truncated input are refused |
| `Accounts.ExpansionIsLeast` | panel/auth.go:239-255 | The expansion of a list of permissions is the least set that holds them and is closed under implication |
| `Accounts.ExpansionsAgree` | panel/auth.go:239-255 | That set is the only one |
| `Accounts.ExpandPermissions` | panel/auth.go:239-255 | The worklist loop computes it, whatever the order and the repetitions |
| `Accounts.FullAdminMeansAll` | panel/auth.go:274-324 | An account has every permission if and only if it is a full administrator |
| `Accounts.ParseAccountFields` | panel/users.go:64-124 | Role, permissions and instances of a request, or its refusal, as the specification of the form says |
| `Accounts.FormMeans` | panel/users.go:64-124 | A form is refused exactly for a field of the wrong type, an unknown role or permission, unreadable instances, more than 200 or an invalid id; otherwise the record holds role, permissions and instances as asked, and what is not given as it was, lists without repetitions |
| `Accounts.AccountStore.CreateAccount` | panel/users.go:279-357 | The handler is the create step, or changes nothing and refuses |
| `Accounts.AccountStore.UpdateAccount` | panel/users.go:358-435 | The handler is the update step, or changes nothing and refuses |
| `Accounts.AccountStore.DeleteAccount` | panel/users.go:436-451 | The handler is the delete step, or changes nothing and refuses |
| `Accounts.CreationMeans` | panel/users.go:279-357 | A creation is accepted exactly when the form and the profile are, fewer than 100 accounts exist and the actor is entitled to what is given; the account is then stored as asked, enabled unless asked otherwise, and nothing else changes |
| `Accounts.UpdateMeans` | panel/users.go:358-435 | An update is accepted exactly when the account may be touched, the form and the profile are accepted and the actor is entitled to what it was and becomes; it is then as asked and the others as they were |
| `Accounts.DeletionMeans` | panel/users.go:436-451 | A deletion removes that account alone, exactly when it may be touched by an actor entitled to it |
| `Accounts.GrantBounded` | panel/users.go:136-149 | What a grant check lets through is within the permissions of the actor and is no full administrator |
| `Accounts.StepKeepsBound` | panel/users.go:136-206 | One action of a group of accounts keeps each account they reached within one initial account of the group |
| `Accounts.DelegationNeverEscalates` | panel/users.go:64-451 | Over any run of create, update and delete actions, accounts that are no full administrators, and those they create or modify, stay within the permissions of one initial account each; none becomes a full administrator and no other account changes but by deletion |
| `DockerLogs.LinesAppend` | panel/system.go:438-467 | Splitting a text into lines after a pending text is splitting the whole |
| `DockerLogs.FramesAppend` | panel/system.go:296-304 | Complete frames of a stream cut anywhere are the frames of the stream |
| `DockerLogs.StreamReads` | panel/system.go:296-304 | Frames of any type, written as type, three zeros, big-endian length and content, read back as their repaired contents in order, and the bytes behind them that make no frame are kept |
| `DockerLogs.CutAppend` | panel/system.go:290-293 | The same for a terminal stream, cut after its last newline |
| `DockerLogs.Demux` | panel/system.go:289-305 | The loop gives the text of the complete frames and keeps the rest; on written frames followed by an unfinished one, the repaired contents in order and exactly the unfinished one |
| `DockerLogs.SplitLines` | panel/system.go:455-463 | The loop sends the complete lines and keeps the rest |
| `DockerLogs.CompleteAreLines` | panel/system.go:455-463 | The lines of a text are its stretches that end with a line feed, without the carriage returns at their end, in order |
| `DockerLogs.Follow` | panel/system.go:438-467 | Whatever way a stream is cut into reads, the lines sent are those of the joined repaired contents of its frames, whichever output they come from, or, for a terminal stream, of its repaired text up to the last newline |
| `LoginLimit.Limiter.LoginRetryAfter` | panel/auth.go:533-546 | The wait is the specification function, whose meaning after every run is WaitAfterRun |
| `LoginLimit.Limiter.LoginFailed` | panel/auth.go:548-576 | A failure is the step Failed: idle entries purged above 10000, count kept or restarted, lock set |
| `LoginLimit.Limiter.LoginSucceeded` | panel/auth.go:587-591 | After a success the address has no wait at any time and its next failure counts as its first one; other addresses wait exactly as before |
| `LoginLimit.LockValue` | panel/auth.go:566-575 | The lock after n failures is min(30 * 2^(n-5), 3600) seconds |
| `LoginLimit.WaitAfterRun` | panel/auth.go:515-576 | After every run and at every later time: no wait with fewer than five failures in the streak; with n of them, none from min(30 * 2^(n-5), 3600) seconds after the last one on, and before that what is left of them, to a second more and a millisecond less |
| `LoginLimit.StreakMeans` | panel/auth.go:548-591 | A streak is the wrong passwords let through, each at most a day after the one before, with nothing else let through since the first; what was let through earlier was followed by an accepted attempt or by more than a day |
| `LoginLimit.StreaksAreSpaced` | panel/auth.go:533-576 | In every run of attempts the table records the streak of each address, and failures past the fourth are spaced by the locks, up to a millisecond |
| `LoginLimit.LockoutTakesTime` | panel/auth.go:515-576 | A streak of n failures from one address lasts at least the sum of its locks, a millisecond less each |
| `LoginLimit.PurgeIsUnobservable` | panel/auth.go:548-576 | A table that is purged and one that keeps everything give the same waits after every run |
| `Blocklists.TrimTwice` | panel/firewall.go:122-189 | Trimming twice, as the panel does, is trimming once, as the robot does |
| `Blocklists.EntryParts` | panel/firewall.go:148-153 | An entry is its text and, behind the first hash sign, its note, each without the spaces around it |
| `Blocklists.AsnReads` | panel/firewall.go:81 | as, in either case, blanks or none and one to ten digits read as that number |
| `Blocklists.AsnReadOnlyFrom` | panel/firewall.go:81 | Nothing else reads as an AS |
| `Blocklists.CheckList` | tools/blocklists/main.go:175-255 | The robot reports nothing if and only if the header, the size, the repetitions and every entry are fine |
| `Blocklists.ListSources` | panel/firewall.go:122-189 | The loop keeps and skips entries as the reader specification says |
| `Blocklists.PanelReads` | panel/firewall.go:122-189 | Whatever the list, the panel keeps, each once and with its note, exactly the AS numbers in range, those of the first fifty such entries, and the public networks of at least /8 (/16 in IPv6), and notes every other text that is not empty as skipped; past twenty thousand sources it stops |
| `Blocklists.ReadsPrefix` | panel/firewall.go:122-189 | Entry by entry, the panel keeps what an accepted list denotes |
| `Blocklists.AcceptedListsAreReadWhole` | tools/blocklists/main.go:175-255 | If the robot reports nothing, the panel skips no entry and the sources it keeps are exactly those the entries denote, despite different rules on repetitions |
| `TomlStrings.BodyReads` | panel/templates/assets/js/toml.js:119-126 | Reading the escapes of a written string gives its characters outside actions and reads the actions |
| `TomlStrings.StringRoundTrip` | panel/templates/assets/js/toml.js:119-154 | unquote(str(s)) = s if and only if no template action of s holds something that reads as an escape |
| `TomlStrings.PlainActionsHoldNoEscape` | panel/templates/assets/js/toml.js:313-325 | In particular for every string whose actions hold no backslash |
| `TomlStrings.PlainReads` | panel/templates/assets/js/toml.js:130-154 | A value that starts with no quote reads as its own text |
| `TomlStrings.LiteralReads` | panel/templates/assets/js/toml.js:130-154 | Between single quotes nothing is an escape |
| `TomlStrings.MultilineReads` | panel/templates/assets/js/toml.js:130-154 | Between three quotes a text reads as it is, without a line feed that comes first |
| `TomlStrings.ShortEscapes` | panel/templates/assets/js/toml.js:119-126 | Each short escape reads as its character |
| `TomlStrings.NumberEscapes` | panel/templates/assets/js/toml.js:119-126 | Four hexadecimal digits behind u, eight behind U, read as the character of that number |
| `TomlStrings.LineEndEscapes` | panel/templates/assets/js/toml.js:119-126 | A backslash at the end of a line takes the line end and the spaces that follow with it |
| `InlineTables.SetLaw` | panel/templates/assets/js/toml.js:1014-1037 | Put and removal law on trees, for every key: refused if and only if a value stands above the key or the key stands above others without being one; otherwise the key holds the value written, or none, nothing stays below it, and every other value is as before; a table whose text is the value written is left |
| `InlineScan.FindEnd` | panel/templates/assets/js/toml.js:164-178 | The loop over brackets and quotes is the scan ScanEnd |
| `InlineScan.ReadItems` | panel/templates/assets/js/toml.js:900-930 | The loop over a table lists the items of the reader ItemsFrom, or fails where it does |
| `InlineLayout.TableEnds` | panel/templates/assets/js/toml.js:164-178 | The scan for the closing brace of a well-formed table ends at it, whatever follows |
| `InlineRead.ValueEndAt` | panel/templates/assets/js/toml.js:869-893 | A string, array, word or nested table ends where its text ends |
| `InlineRead.TableReads` | panel/templates/assets/js/toml.js:900-930 | Reading the text of a well-formed table gives each key with the places of its key and value |
| `InlineEdits.SetValText` | panel/templates/assets/js/toml.js:1018-1024 | Replacing the text of a value is replacing it in its row |
| `InlineEdits.DropText` | panel/templates/assets/js/toml.js:951-974 | Removing an item of several, first, middle or last, removes its row and one comma |
| `InlineEdits.AddText` | panel/templates/assets/js/toml.js:981-996 | Adding an item puts a row behind the last one |
| `InlineRefines.DottedReads` | panel/templates/assets/js/toml.js:723-738 | A dotted key of plain names is read as its segments |
| `InlineSetLaws.SetRefines` | panel/templates/assets/js/toml.js:1014-1037 | On every well-formed one-line table inside any text, the text operation succeeds exactly when the tree operation does, and writes, between the same surrounding texts, a well-formed table that reads as its tree; with nothing to do, the text is unchanged |
| `InlineSetLaws.InlineSetLaw` | panel/templates/assets/js/toml.js:1014-1037 | Put and removal law on texts, for every key: refused if and only if a value stands above the key or the key stands above others without being one; otherwise only what the key leads to changes, and the text outside the braces stays; a key that has its value, or that is to go and is not there, leaves the text as it is |
| `InlineSetLaws.TableLeft` | panel/templates/assets/js/toml.js:1018-1024 | The input behind the exception: writing the string {} at a key that holds the table {} leaves the text, and the key holds no string |
| `InlineValues.SameTable` | panel/templates/assets/js/toml.js:900-930 | A text is the text of one well-formed table at most |
| `InlineValues.RawSetLaw` | panel/templates/assets/js/toml.js:1014-1037 | A key written or removed in the text of an entry: what the text says afterwards, and every path apart from the key leads where it led; with nothing to do, the text is the same |
| `MergeScan.ScanConnection` | panel/templates/assets/js/toml.js:781-843 | The scan lists exactly the settings under their full keys, the headers outside tunnels, every header, and the first tunnel |
| `MergePlan.PlanReads` | panel/templates/assets/js/toml.js:1303-1309 | The edited file is read as its chunks, each where it stood in the original, although headers leave and tables are added |
| `MergePlan.PlanHolds` | panel/templates/assets/js/toml.js:1102-1310 | No edit of the plan touches a tunnel, another array of tables, or a comment |
| `MergePlan.PlanSays` | panel/templates/assets/js/toml.js:1303-1309 | The edited file says what the added lines say and what the settings kept say |
| `MergePlan.PlanOthers` | panel/templates/assets/js/toml.js:1303-1309 | Everything that the merged keys do not concern stays as it is written, raw values and end comments included, in order |
| `MergePlan.PlanFacts` | panel/templates/assets/js/toml.js:1303-1309 | The settings of the edited file are exactly the added ones and the original ones not dropped, each with the end comment it had |
| `MergeCounts.PlanCounts` | panel/templates/assets/js/toml.js:1303-1309 | The edited file gives a key at most as often as the added lines and the original together |
| `MergeEdits.EditFound` | panel/templates/assets/js/toml.js:1165-1180 | A key found as a setting: its value replaced under the same key and end comment, kept as it is written when it has the value already, or dropped; all other settings and raw texts as they were |
| `MergeEdits.EditHost` | panel/templates/assets/js/toml.js:1185-1193 | A key inside the text of an inline table: written or removed there, or refused, whatever keys were merged before |
| `MergeEdits.RefusedMeans` | panel/templates/assets/js/toml.js:1185-1193 | A key cannot be written if and only if a value stands above it, or it stands above keys of an inline table without being one |
| `MergeEdits.WriteBack` | panel/templates/assets/js/toml.js:1235-1245 | Inline tables changed go back to their lines with the end comments they had, emptied ones leave, and every raw value stays what it was |
| `MergeAdds.Home` | panel/templates/assets/js/toml.js:1195-1202 | The home table is the longest header that contains the key |
| `MergeAdds.SharedIsMost` | panel/templates/assets/js/toml.js:1073-1079 | The segments shared by two keys are their longest common beginning |
| `MergeAdds.AddKey` | panel/templates/assets/js/toml.js:1194-1226 | A new key is added exactly once, where it is read under its full key: in a new table when its section has neither header nor key and the file is not one of dotted keys; otherwise in its home table, behind the last of the settings that share the most segments with it, or else below the first header of the table, or else at the root |
| `MergePlaces.PlaceAdds` | panel/templates/assets/js/toml.js:1255-1276 | Root keys and new tables are placed where they are read as meant, and nothing behind them is read differently |
| `MergeMeaning.FileSays` | panel/templates/assets/js/toml.js:1163-1245 | Settings edited key by key, with the keys added, together say what a merged file must say |
| `Merge.GeneratedRaws` | panel/templates/assets/js/toml.js:1041-1052 | Keys in order of first appearance with the value of their last line |
| `Merge.DropEmptied` | panel/templates/assets/js/toml.js:1280-1301 | The headers that leave are exactly those of tables the merge empties; with them go only blank lines of those tables, and dropped settings |
| `Merge.MergeKeys` | panel/templates/assets/js/toml.js:1163-1226 | After every key, each setting holds the asked values and the added lines are the new keys, once each |
| `Merge.MergeConnection` | panel/templates/assets/js/toml.js:1102-1310 | Functional update: for every well-formed text, sub-tables apart from their tunnel included, every touched key holds the generated value or is gone; an inline table under a touched key goes whole, or stays when its text is the value asked; every other key is as before, raw text and end comment included, in order; every setting still given keeps its key and end comment, and its raw text when there is nothing to do for the keys it leads to; the result is the original line by line but for settings of those keys, emptied tables and added lines; no key is given twice; tunnels and comments are unchanged in order; refused if and only if a key to write cannot be written, with exactly those keys |
| `SetKeys.LooksUp` | panel/instances.go:133-140 | With no key given twice, looking a key up gives the value it is bound to |
| `SetKeys.Replaced` | panel/instances.go:437-441 | Rewriting the line of a key changes that key alone |
| `SetKeys.Inserted` | panel/instances.go:443-464 | A line inserted in the table of its key binds that key alone, although every later line moves |
| `SetKeys.SetTomlKey` | panel/instances.go:398-466 | The key has the value, every other key, tunnel and comment is as before, and no key is given twice; one line is all that changes: that of the key, or one added below the first header of its table, or else in front of the first header and the comments and blank lines above it, or at the end |
| `ListenPorts.DecimalReads` | panel/instances.go:577 | A port written in decimal reads as itself |
| `ListenPorts.PickPort` | panel/instances.go:235-256 | A port picked is the first one from the base on that is in range, not in used and free when asked, or, when there is none, one drawn between 10000 and 32767, and is added to used; nothing is picked only after the whole range and two hundred draws failed |
| `ListenPorts.PortsMean` | panel/instances.go:143-165 | The listening ports of a configuration are those of its listening keys, 7000 for a server without bindPort, and those of its visitors |
| `ListenPorts.RenewedNext` | panel/instances.go:554-578 | A key that draws its own port, or shares the new bindPort, keeps the sharing invariant |
| `ListenPorts.RewriteListenPorts` | panel/instances.go:544-592 | On success no listening port was taken, each key in use (without all: each whose port was taken) has a new port, a UDP key that had the port of bindPort follows it when that port is free over UDP, and two keys share one only if they stood for the same port; other keys are untouched; a failure names a key for which nothing could be picked, or a taken port that a visitor keeps |
| `ListenPorts.OnlyVisitorsKeep` | panel/instances.go:580-592 | A taken port left after the rewriting is that of a visitor |
| `Tunnels.FindPairs` | panel/templates/assets/js/toml.js:1550-1556 | Each tcp tunnel in turn takes the first free udp tunnel that mates it |
| `Tunnels.PairProxies` | panel/templates/assets/js/toml.js:1546-1569 | The loops compute the grouped list |
| `TunnelLaws.JoinSplits` | panel/templates/assets/js/toml.js:1526-1532 | The two halves of an entry are the tunnels it was made of, each with its own comments and notes |
| `TunnelLaws.SplitRestores` | panel/templates/assets/js/toml.js:1526-1569 | Splitting the grouped list gives a permutation of the tunnels, up to uid |
| `TunnelLaws.GroupedOrdered` | panel/templates/assets/js/toml.js:1546-1569 | In a grouped list nothing is left to pair, and a tunnel left alone never stands in front of an entry made of tunnels like it |
| `TunnelLaws.RegroupOrdered` | panel/templates/assets/js/toml.js:1526-1569 | Splitting such a list and grouping it again changes nothing |
| `TunnelLaws.RegroupIsSame` | panel/templates/assets/js/toml.js:1526-1569 | Grouping again after splitting gives the same list |
| `TunnelLaws.GroupedMeans` | panel/templates/assets/js/toml.js:1546-1569 | Tunnel by tunnel: the tcp tunnels in order each take the first tunnel X-udp with the same settings that no earlier one took; each two so paired are one entry, with the settings and the comments and notes of both, at the place of the first, and every other tunnel stands as it was, in order |
| `TomlText.SplitComment` | panel/templates/assets/js/toml.js:52-76 | The loop cuts a value at the start of its end comment, outside quotes and multi-line strings |
| `TomlText.FindKeyEnd` | panel/templates/assets/js/toml.js:80-92 | The loop finds the first = outside quotes, before any comment |
| `TomlText.StrComplete` | panel/templates/assets/js/toml.js:52-76 | A written string hides its quotes and hash signs from the comment scan |
| `TomlText.CommentFound` | panel/templates/assets/js/toml.js:52-76 | For every value made of characters and strings in either quotes, the comment starts at the first hash sign outside the strings, and without one there is none |
| `TomlText.NoteLeftOut` | panel/templates/assets/js/toml.js:52-76 | The value of a line does not depend on its end comment |
| `TomlText.QuotedKeyEnds` | panel/templates/assets/js/toml.js:80-92 | A key in quotes may hold equals and hash signs: the sign of the line is the one behind it |
| `TextLines.LinesApart` | panel/templates/assets/js/toml.js:301-351 | Texts joined by a line feed have the lines of both |
| `TextLines.LoneReturn` | panel/templates/assets/js/toml.js:302 | A carriage return alone ends a line |
| `TomlValues.CountBrackets` | panel/templates/assets/js/toml.js:530-543 | The loop counts the brackets left open outside quotes |
| `TomlValues.BracketsOutside` | panel/templates/assets/js/toml.js:530-543 | The brackets counted are those outside the strings of the value |
| `TomlValues.StrOneLine` | panel/templates/assets/js/toml.js:304-325 | A written string stays on its line: it opens no multi-line string and no array |
| `DomainText.StripRestores` | panel/templates/assets/js/toml.js:1507 | The name of a range template loses exactly the suffix it was written with |
| `DomainText.DomainLooped` | panel/templates/assets/js/toml.js:1513 | The loop port in a domain becomes the {port} it was written from |
| `DomainLists.DomainsRoundTrip` | panel/templates/assets/js/toml.js:1635-1639 | A list of domains written as an array on one line and read back is the same text, in plain and range form |
| `TunnelText.ParseBlocks` | panel/templates/assets/js/toml.js:331-497 | The loops over the lines of a text, multi-line strings, arrays and inline tables included, compute the reader ReadText |
| `TunnelText.RangeReads` | panel/templates/assets/js/toml.js:360-365 | The range line of a template gives back its ports |
| `TunnelText.AssignLineReads` | panel/templates/assets/js/toml.js:413-421 | A line written from a bare key and the start of a value reads as that key, the value without its comment, and the text behind the = kept |
| `ValueExact.ReadsBack` | panel/templates/assets/js/toml.js:421-471 | A value written under a key of a block is read back as it is, and as nothing else, if and only if it ends where its text ends: quotes closed on the last line, brackets closed by the last line and no earlier, no comment behind, no carriage return |
| `TunnelRoundTrip.BlockReads` | panel/templates/assets/js/toml.js:1484-1486 | A block made of main keys and advanced settings gives each value, and the advanced settings in order |
| `TunnelRoundTrip.ProxyFeeds` | panel/templates/assets/js/toml.js:1613-1648 | The text of a tunnel, split into lines and read behind any blocks, adds its block and leaves nothing open |
| `TunnelRoundTrip.BlockRoundTrip` | panel/templates/assets/js/toml.js:1495-1522 | The block of a normalised tunnel reads as that tunnel |
| `TunnelRoundTrip.TunnelsRoundTrip` | panel/templates/assets/js/toml.js:1613-1696 | Any list of normalised tunnels, plain or range, with advanced settings over several lines, written as a text and read is the same list; each block holds the settings of its tunnel under the names of frp |
| `VisitorRoundTrip.VisitorBlockReads` | panel/templates/assets/js/toml.js:1586-1607 | The block of a normalised visitor reads as that visitor |
| `VisitorRoundTrip.FileRoundTrip` | panel/templates/assets/js/toml.js:1613-1696 | The text of a file of tunnels and visitors reads as those tunnels and visitors, with either kind of line ends, and each block holds its settings under the names of frp |
| `TunnelDress.DressedFile` | panel/templates/assets/js/toml.js:331-497 | A file that says the same as a written one reads as the same tunnels and visitors: with a connection part in front, and with comments, blank lines, indentation and end comments where no value is open |
| `TunnelDress.SubTableReads` | panel/templates/assets/js/toml.js:390-421 | A setting under a sub-table header of the block is that of the dotted key in the block |
| `TunnelLosses.OpenArraySwallows` | panel/templates/assets/js/toml.js:462-470 | An advanced setting that leaves an array open takes the next tunnel with it: of two tunnels written, one is read |
| `TunnelLosses.ArraySetting` | panel/templates/assets/js/toml.js:270-303 | A tunnel with an advanced setting proxies or visitors that holds an array has a text that is converted before it is read |

## Left out

- Merge.MergeConnection: keys of tunnels (`proxies.…`), which the form never asks for, are merged only where every sub-table stands in its tunnel; the values generated for the keys are plain ones, as the generators write them; template lines and blocks, CRLF and BOM, and values that span several lines are not modelled; an entry is one element and comments between entries are kept whole.
- Merge.GeneratedRaws: the generated text is taken as section headers and assignments of bare keys, as the generators write it.
- MergeScan.ScanConnection: the text of a header or key is taken as its list of segments; a quoted segment that holds a dot is not told from two segments in the source's joined names.
- InlineSetLaws.SetRefines: comments, line breaks and multi-line strings inside an inline table, and trailing commas (not TOML 1.0.0), are outside the layouts; new keys are plain names. The merge uses the operation on texts.
- TomlStrings.StringRoundTrip: an escape for a surrogate or past U+10FFFF is kept as text, where the source would build an invalid character or fail.
- TunnelText.ParseBlocks: comments and the settings of the connection part are read over but not kept, and other spellings of the range, end and header lines are not modelled; a text with a line that starts an array of tunnels (`proxies = [`) is converted before it is read, and the conversion is not part of this model, even where the line stands inside a multi-line string and the code would leave it.
- TunnelRoundTrip.TunnelsRoundTrip: tunnels without comments and notes of their own; a public port is a decimal number other than 0, so that other spellings of numbers are outside the normal form.
- SetKeys.SetTomlKey: template lines and multi-line strings are not modelled.
- ListenPorts.RewriteListenPorts: for files without inline tables; only decimal integers are read as ports; the refusal of a text that no longer parses is not modelled; the caller's map of used ports, which grows with each pick, is a value.
- Supervisor.FrpProc.Start: observing the first instants of a process, killing it after the stop delay and its logs are left out; a stop is the critical section that ends it.
- RuleNets.NetsCache.RuleNets: addresses are read by a parameter; the JSON text of the key is a datatype, and a fetch stamp identifies the content fetched.
- Firewall.Ruleset: the nft text is the structure it denotes; a full dynamic set only stops its own line; concurrent passes are sequential.
- Firewall.Verdicts: plain addresses only; mapped and zoned spellings belong to the address reader.
- Accounts.AccountStore.CreateAccount: names, passwords, e-mails and sessions are one flag that says whether the profile is acceptable; permission and instance lists are kept without their sorted order.
- Accounts.AccountStore.UpdateAccount: profile checks are one flag, as for a creation; the sessions that an update closes are left out.
- DockerLogs.Follow: a failing or cancelled reader and the send side are left out.
- LoginLimit.Limiter.LoginFailed: one attempt is the retry check and the failure record together, on a clock that does not go back.
- Blocklists.CheckList: messages are kinds of problems; entries that are not strings belong to the JSON reader.
- Blocklists.ListSources: entries are strings; object entries and the shortening of notes belong to the JSON reader and the page.
- Cbor.CborDecode: the authenticator data around the decoder, COSE keys and signatures are not part of this model.
- Cidr.SortByLow: the library sort is any sort that keeps the ranges and orders them by first address; the local slices that are sorted and extended in place are sequences.
- Texts of port lists (fwParsePorts, rangesText): conversions that would only add easy members.
- HTTP routing, sessions, cookies, pages, translations, statistics, webhooks, version comparison, downloads, archives and file writes: plumbing around libraries.
- Text parsing inside the address, TOML and regular-expression libraries: foreign code.
