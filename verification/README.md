# Models and proofs for five programs of the repository

The repository teaches Unix system programming. Five of its programs hold real state: a license
server with its clients, a threaded word counter in four versions, a small shell, a builder of
pipelines, and the insertion sort of a directory lister. This project models them in Dafny and proves
what they are for. `dafny verify dfyconfig.toml` checks everything.

## The programs and their main results

**License server and clients** (`CText`, `LicenseServer`, `LicenseClient`, `LicenseSystem`,
`SignalServer`, `SignalSystem`). The ticket table is an array with a counter, as in the C code, of any size n.
`LicenseSystem` puts the server together with any number of clients and every datagram in flight.
Messages are character sequences: `%d`, `atoi` and `sscanf` are modelled (section 7.21.6.2 of C11),
and so are the 128-byte buffers, including the client's static reply buffer in which each reply lies
on top of the one before. Datagrams may be lost or delayed, clients may crash at any moment, and the
reclaimer may look at any slot at any moment. In every reachable state at most n clients run licensed
(and for every n some run reaches n), they own distinct recorded slots, live clients are answered as
they should be, and grants, releases and reclaims balance. `SignalServer` breaks the server into
statements with SIGALRM delivered at once and shows that the interleaved server refines the atomic one,
in which the reclaimer frees slots of dead processes only. `SignalSystem` puts the clients and the
network around that statement-level server, shows that the whole refines `LicenseSystem`, and carries
the results over: at most n clients run licensed at every instant between any two statements.

**Word counters** (`WordCount`, `RacingCounter`, `LockedCounter`, `Mailbox`, `WordCountVersions`). A
word is counted where a non-alphanumeric byte follows an alphanumeric one, so a word at the very end of
a file is not counted. Version 1's possible totals are determined exactly. Versions 2 and 3 count
correctly under every schedule. Version 4, the mailbox under one mutex and one condition variable, is
safe, never stuck, and every run of it is bounded, given that there are no spurious wakeups; one
spurious wakeup can crash it on any input.

**Small shell** (`VarTable`, `Commands`, `ControlFlow`, `Environment`, `LineReader`, `SmallShell`). The
line-at-a-time if/then/fi automaton has the meaning of a structured evaluator and accepts exactly the
lines of structured programs; the array of variables is a map with flags; after any session each
child's environment is what the history of assignments and exports says; reading and tokenizing undo
printing; and all of it together runs a script from its text to its effect.

**Pipeline builder** (`Pipeline`). For every number of commands the descriptor table of each process at
its exec is determined exactly.

**Directory sort** (`FileSort`). The comparison is a total order, and the sort with its sentinel in
slot 0 produces the one sorted, stable arrangement.

Code that changes state is modelled by classes and methods with loops, each proved equal to a function
on values; laws are lemmas about those functions. Concurrent programs are step systems whose runs are
arbitrary sequences of actions, where an action that is not enabled has no effect.

## Where the code differs from what is said about it

The models follow the code.

- `my_shell/varlib.c:76` writes `"%s= %s"`, so a stored value reads back with one leading space.
- `my_shell/varlib.c:106` tests the opposite of its comment: exporting an absent name stores it with an
  empty value, unmarked, and reports failure; with a full table the call never returns
  (`ExportReturnsIff`). The shell's state has a flag `hung` for that.
- `my_shell/varlib.c:6` promises 1 for success from `VLstore`; it returns 0.
- An environment of more than MAXVARS strings is cut at MAXVARS (`my_shell/varlib.c:163-164`).
- `if if c` counts as a condition that succeeds whatever `c` returns, and words after `then` and `fi`
  are ignored (`my_shell/controlflow.c:58-86`). The structured evaluator says so too.
- An error inside an if line, as in `if then`, counts as a failed condition and does not lead back to
  NEUTRAL (`ErrorInCondition`).
- `have_ticket` stays set after a release (`datagram/lclnt_funcs1.c:125-128`).
- `main` in `thread/twordcount2.c:10-21` never starts its threads; its `count_words` is modelled under
  the `main` of version 1.
- The server's handlers take it for granted that a request with a keyword has at least five characters
  and that a parsed slot is an index of the table (`Acceptable`). The system model proves that all
  requests real clients send are such.
- A ticket for pid 0 cannot be told from a free slot. `HandleKeepsAccountIff` shows that requests
  touching pid 0 are the only ones that spoil the count.
- From three commands on, processes further down a pipeline keep the write ends of the pipes before
  theirs. `WriterIsAloneIff` shows for which pipes the end of input can be seen.

## Model

| member | source | states |
|---|---|---|
| Characters.CharactersAre | thread/twordcount1.c:35 | the character tests, character by character, as `isalnum`, `isdigit` and `isspace` have them in the C locale |
| CText.CString | datagram/lserv2.c:37 | the string in a buffer is the part before the first NUL |
| CText.Receive | datagram/lclnt_funcs1.c:158 | a datagram covers the head of the buffer, cut at its size; the rest keeps what an earlier reply left |
| CText.ScanDecimal | datagram/lserv_funcs2.c:120-121 | `%d` reads back the very integer that `%d` printed and stops in front of whatever non-digit text follows |
| CText.AtoiDecimal | datagram/lserv_funcs2.c:120 | `atoi` of a printed pid is the pid |
| CText.ScanTicketText | datagram/lserv_funcs2.c:135 | a ticket printed with `"%d . %d"` and followed by any non-digit tail scans to the same pid and slot |
| CText.ScanIntReads | datagram/lserv_funcs2.c:135 | `%d` in full: white space, an optional sign and digits are read as that number, up to the first character that is no digit |
| CText.ScanIntFails | datagram/lserv_funcs2.c:120 | without a digit there `%d` fails and `atoi` gives 0 |
| CText.ScanTicketReads | datagram/lserv_funcs2.c:135 | the ticket format in full: any white space or none around the dot |
| CText.ScanTicketNeedsDot | datagram/lserv_funcs2.c:135 | a number not followed by white space and a dot is no ticket |
| CText.DecimalLength | datagram/lserv_funcs2.c:121 | a 32-bit integer prints in at most eleven characters, so tickets fit every buffer |
| LicenseServer.Server.constructor | datagram/lserv_funcs2.c:41-54 | a new server has all slots free, counter 0, and an empty log that accounts for them |
| LicenseServer.Server.DoHello | datagram/lserv_funcs2.c:99-124 | the in-place handler grants the first free slot to the parsed pid, with the specified response, count and log entry, or refuses and changes nothing |
| LicenseServer.Server.DoGoodbye | datagram/lserv_funcs2.c:126-147 | frees exactly the slot named by a ticket whose pid owns it; otherwise changes nothing |
| LicenseServer.Server.DoValidate | datagram/lserv_funcs2.c:191-202 | GOOD exactly for a ticket whose pid is recorded in its slot |
| LicenseServer.Server.HandleRequest | datagram/lserv_funcs2.c:71-90 | table, counter, response and log after any acceptable request are those of the specification |
| LicenseServer.Server.TicketReclaim | datagram/lserv_funcs2.c:167-182 | the in-place loop has the table, counter and log of the specified reclaim |
| LicenseServer.HandleKeepsAccountIff | datagram/lserv_funcs2.c:99-147 | from an accounted state a request leaves the counter equal to the number of occupied slots if and only if it does not grant or take back a ticket of pid 0, and likewise for the log explaining the table |
| LicenseServer.HelloZeroMiscounts | datagram/lserv_funcs2.c:109-122 | the input "HELO 0" to a server with room is counted and occupies no slot |
| LicenseServer.AccountBalances | datagram/lserv_funcs2.c:104-122 | in an accounted state the counter's balance of grants, releases and reclaims is the number of occupied slots |
| LicenseServer.NeverCorrupt | datagram/lserv_funcs2.c:111-115 | the "database corrupt" answer is unreachable in accounted states |
| LicenseServer.OnlyValidTicketsPass | datagram/lserv_funcs2.c:126-202 | VALD and GBYE succeed if and only if the text names a slot recorded for the very pid it names; nothing but a successful GBYE changes anything |
| LicenseServer.AnswersSayWhatHappened | datagram/lserv_funcs2.c:71-202 | the answer starts with TICK, and gives the ticket, exactly for a grant; with THNX exactly for a release, which is a GBYE with a valid ticket; with GOOD exactly for a VALD with a valid ticket; and with FAIL for everything else, requests with unknown keywords included, and then nothing changed |
| LicenseServer.TicketLifeCycle | datagram/lserv_funcs2.c:99-147 | the ticket a HELO is answered with is valid; GBYE with it restores table and count exactly, after which it is valid no longer |
| LicenseServer.ReclaimFreesExactlyTheDead | datagram/lserv_funcs2.c:167-180 | a full reclaim empties exactly the slots of dead owners, logs one reclaim for each and nothing else, and keeps the account |
| LicenseServer.EveryEndHasItsGrant | datagram/lserv_funcs2.c:135-143 | in every replayable log each release and reclaim ends a grant of that slot to that process, with nothing in between |
| LicenseServer.EndsMatchGrants | datagram/lserv_funcs2.c:135-143 | in every replayable log releases and reclaims match grants one to one (the work is in finding each end its grant; that no grant is ended twice follows from an end being the next event of its slot) |
| LicenseClient.Client.DoTransaction | datagram/lclnt_funcs1.c:145-165 | the static buffer ends up with the reply laid over its old content; a failed send or receive changes nothing |
| LicenseClient.Client.GetTicket | datagram/lclnt_funcs1.c:74-103 | nothing is sent while a ticket is held; otherwise HELO pid is sent, and flag, ticket text and buffer become those of the protocol's client |
| LicenseClient.Client.ReleaseTicket | datagram/lclnt_funcs1.c:111-134 | nothing is sent without a ticket; otherwise GBYE with the copied text, and the result is that of the buffer examined, -1 if nothing was heard |
| LicenseClient.ReleaseSucceedsIff | datagram/lclnt_funcs1.c:125-133 | whatever the buffer held before, release_ticket returns 0 on the server's answer if and only if the ticket was valid, and -1 otherwise |
| LicenseClient.RepliesAreUnderstood | datagram/lclnt_funcs1.c:91-133 | in every run a live client takes its reply for what it is: a release returns 0 and the client is done, a validation is GOOD and the client holds on, and a request ends with a ticket exactly when the server has recorded a slot for the client |
| LicenseClient.RefusalsLeaveNoDigits | datagram/lclnt_funcs1.c:147-164 | after any series of refusals the reply buffer holds no digit and NULs from byte 64 on |
| LicenseClient.TicketRoundTrip | datagram/lclnt_funcs1.c:91-117 | after any series of refusals a granted ticket, copied out of the stale buffer and sent back in GBYE, arrives whole and scans to the pid and slot granted |
| LicenseSystem.TicketSurvivesStaleBuffer | datagram/lclnt_funcs1.c:91-92 | the same for any buffer without digits: the copied text is short and scans to the pid and slot |
| LicenseSystem.StepInv | datagram/lserv_funcs2.c:71-202 | every step of server, client, network or reclaimer keeps the system's invariant |
| LicenseSystem.RunInv | datagram/lclnt1.c:17-27 | every state of every run satisfies the invariant |
| LicenseSystem.AtMostNLicensed | datagram/lserv_funcs2.c:99-124 | in every run each licensed client has a ticket that parses to its pid and a slot that the server has recorded for it; so no two have the same slot, and at most n run licensed |
| LicenseSystem.LiveClientsAreServed | datagram/lserv_funcs2.c:71-202 | every request that reaches the server arrives whole, is shorter than MSGLEN, and is acceptable; a live holder's VALD is answered GOOD, its GBYE THNX, and a HELO gets a ticket exactly when a slot is free |
| LicenseSystem.LiveClientsHear | datagram/lclnt_funcs1.c:145-165 | a reply in flight to a live client belongs to the transaction it waits in |
| LicenseSystem.TicketsAreConserved | datagram/lserv_funcs2.c:104-180 | over every run the counter is the number of occupied slots and grants minus releases minus reclaims, and the releases and reclaims match grants one to one |
| LicenseSystem.NothingIsHeldUp | datagram/lserv2.c:33-45 | in every run each request in flight can be served, each reply to a live client delivered, any datagram lost and its client crash, with just these effects |
| LicenseSystem.ReclaimFreesTheCrashed | datagram/lserv_funcs2.c:171-179 | in every run the reclaimer may look at any slot, and frees it exactly if its owner has crashed, changing nothing else |
| LicenseSystem.RefusedClientsQuit | datagram/lclnt1.c:20-21 | a refused client leaves without a slot |
| LicenseSystem.TicketCanBeHad | datagram/lclnt_funcs1.c:74-103 | from every run with a free slot an unused pid can come to hold a ticket, all others unchanged |
| LicenseSystem.TicketCanBeChecked | datagram/lserv_funcs2.c:191-202 | from every run a holder's VALD can go there and back: it holds on, and nothing else is different |
| LicenseSystem.TicketCanBeGivenBack | datagram/lclnt_funcs1.c:111-128 | from every run a holder can give its ticket back: it is done, exactly its slot is free again, and one release is logged |
| LicenseSystem.AllTicketsCanBeOut | datagram/lserv_funcs2.c:104-105 | the limit is exact: for every n and k up to n some run has exactly k licensed clients |
| SignalServer.StepRefines | datagram/lserv2.c:33-45 | every statement of main or of the handler performs one atomic action or none, and keeps the invariant |
| SignalServer.InterleavingIsAtomic | datagram/lserv2.c:30-41 | every interleaved run matches an atomic run with the same table, count, responses and dead processes, whose reclaims free slots of processes dead at that time only; the handler never runs inside a request; a reclaim is scheduled whenever the loop waits and no handler runs |
| SignalServer.RequestsDoNotMoveTheReclaim | datagram/lserv2.c:39-41 | in every run the seconds passed since the start or the last reclaim, and the seconds left or saved during a request, make 60; the handler runs exactly when 60 have passed, however many requests came between |
| SignalServer.ReclaimIsComplete | datagram/lserv_funcs2.c:171-181 | the handler deals with the slots one by one, and when it ends no slot belongs to a process that was dead when the alarm went off, and the alarm is set to 60 seconds |
| SignalServer.TicketsOfTheDeadComeBack | datagram/lserv_funcs2.c:167-182 | from every run in which main waits: if nobody asks anything, at most 60 seconds later the handler has run to its end and no slot belongs to a process that was dead at the outset |
| SignalServer.AnyRequestsAreAccounted | datagram/lserv_funcs2.c:99-202 | conservation for the server alone, whoever sends what, forged and repeated tickets included: as long as no answered request names pid 0, whenever the loop waits the counter is the number of occupied slots and a log of grants, releases and reclaims explains it, and nobody was told that the database is corrupt |
| SignalSystem.StepRefines | datagram/lserv2.c:33-45 | with clients and network acting between any two statements, each step is one step of LicenseSystem or none |
| SignalSystem.RunRefines | datagram/lserv2.c:19-46 | every run of the whole has a run of LicenseSystem with the same clients and table, and the same datagrams, the one in the server's hands included |
| SignalSystem.AtMostNLicensedEver | datagram/lserv_funcs2.c:99-182 | at every instant between any two statements of main or handler at most n clients run licensed, each with a ticket for a slot that the array records for it |
| SignalSystem.RepliesAreRight | datagram/lserv2.c:35-40 | every request can be received by a waiting main, whole and acceptable; replies on their way to live holders are GOOD and THNX |
| SignalSystem.NothingIsHeldUp | datagram/lserv2.c:33-45 | in every run the server has a statement to execute unless it waits; the clock runs while an alarm is pending; datagrams can be lost or delivered and clients crash between any two statements |
| SignalSystem.CountIsRightWhenQuiet | datagram/lserv_funcs2.c:104-179 | whenever main waits and no handler runs, the counter is the number of occupied slots |
| WordCount.WordsAreWordEnds | thread/twordcount1.c:34-38 | the running count is the number of positions where a word ends |
| WordCount.CountWords | thread/twordcount3.c:42-59 | the reading loop with `prevc`, run alone, counts those positions; a file that cannot be opened counts as none |
| RacingCounter.RaceOutcomes | thread/twordcount1.c:27-38 | a total is reached by some schedule if and only if it lies between the exact bounds: n1+n2 when either is 0, else from min(2,n1,n2) to n1+n2 |
| LockedCounter.LockedCounts | thread/twordcount2.c:29-36 | under every schedule: never two threads inside the lock, no stuck unfinished state, every step shortens what is left, and the final total is the number of word ends in both files |
| LockedCounter.OwnCountersCount | thread/twordcount3.c:27-54 | under every schedule each thread's counter is exact at every moment, and the sum after joining is the number of word ends |
| Mailbox.StepInv | thread/twordcount4.c:42-82 | every step without spurious wakeup keeps the mailbox invariant |
| Mailbox.MailboxIsSafe | thread/twordcount4.c:42-82 | under every schedule: no null mailbox is read, no report overwritten or taken twice, at most one thread waits on the condition, a worker's signal finds main waiting, a join under the lock waits for a thread past its unlock; and at exit both reports were taken and the total is exact |
| Mailbox.MailboxProgresses | thread/twordcount4.c:44-82 | under every schedule: some thread can go on until main exits, and every step lowers a measure bounded by zero |
| Mailbox.RunsAreShort | thread/twordcount4.c:42-82 | under every schedule at most 55 + the two files' lengths steps are made |
| Mailbox.EveryRunCanBeCompleted | thread/twordcount4.c:42-55 | every run, wherever it has got to, extends to one in which main exits, with the exact total |
| Mailbox.OneSpuriousWakeupCrashes | thread/twordcount4.c:44-47 | whatever the files, some run in which exactly one action is a spurious wakeup reads through the null mailbox |
| WordCountVersions.VersionsAgree | thread/twordcount4.c:42-55 | finished runs of versions 2, 3 and 4 have the same total under any schedules; version 1 never exceeds it, equals it when a file has no words, and otherwise can end at 2 or less |
| VarTable.MatchesIff | my_shell/varlib.c:125-127 | the `strncmp` test matches exactly the name in front of an entry's first `=` |
| VarTable.StoreIsUpdate | my_shell/varlib.c:43-64 | VLstore is map update: fails exactly for an absent name in a table of 200, otherwise changes one value, which reads back with a space in front, and keeps all others, all flags, and the order |
| VarTable.ExportIsMark | my_shell/varlib.c:93-110 | VLexport of a present name sets its flag and nothing else; of an absent one it stores an empty value unmarked and reports failure |
| VarTable.ExportReturnsIff | my_shell/varlib.c:102-109 | the recursion of VLexport comes to an end if and only if the name is present or the table has room, and then with the first call |
| VarTable.LookupMeans | my_shell/varlib.c:80-91 | the first entry of a present name is the name, `=`, and what VLlookup gives; for an absent name it gives nothing |
| VarTable.StoreKeepsDistinct | my_shell/varlib.c:43-64 | storing keeps names distinct |
| VarTable.EnvironmentRoundTrip | my_shell/varlib.c:152-207 | loading and rebuilding gives the same strings in the same order, the first 200 if there are more |
| VarTable.Tab.FindItem | my_shell/varlib.c:112-133 | the entry of the name, or the first blank one if asked for and there is room |
| VarTable.Tab.VLstore | my_shell/varlib.c:43-64 | the array after the call, and the status, are those of the specified update; occupied entries stay a prefix and blanks unexported |
| VarTable.Tab.VLlookup | my_shell/varlib.c:80-91 | the text after the `=` of the name's entry, or the empty string |
| VarTable.Tab.VLexport | my_shell/varlib.c:93-110 | the specified mark, whenever the call returns at all |
| VarTable.Tab.VLenviron2table | my_shell/varlib.c:152-177 | the array holds the first MAXVARS strings, all exported, and blanks behind them; 1 exactly when none was cut |
| VarTable.Tab.VLtable2environ | my_shell/varlib.c:179-207 | the counting and filling passes agree: the array is filled exactly with the exported strings in table order and a NULL |
| Commands.CheckName | my_shell/builtin.c:60-73 | the character loop accepts exactly the legal names |
| Commands.LegalNamesAre | my_shell/builtin.c:60-73 | the legal names, character by character |
| Commands.AssignmentMeans | my_shell/builtin.c:29-58 | name=value with a legal name and room: succeeds, logs exactly that assignment, the value reads back with a space in front, no other name changes and nothing is run; without room it fails with 1 and changes nothing |
| Commands.ExportMeans | my_shell/builtin.c:34-40 | export of a present name marks it and nothing else; of an absent one assigns the empty value unmarked and fails; in a full table the shell hangs |
| Commands.QuietBuiltins | my_shell/builtin.c:24-39 | `set` succeeds, export without a legal name fails with 1, an empty command succeeds, none with any effect on the shell |
| Commands.ProgramMeans | my_shell/process.c:33-36 | every other command, an assignment to an illegal name included, is run as a program with exactly its words, in the environment the table gives, and with the program's status and world |
| ControlFlow.MeaningPreserved | my_shell/controlflow.c:20-90 | for every program and oracle, feeding the lines to the automaton executes the same commands in the same order with the same environments, statuses and world as the structured evaluator, and unless a command hangs ends in NEUTRAL without a syntax error |
| ControlFlow.CleanLinesAreStructured | my_shell/controlflow.c:50-90 | lines that pass without a syntax error and end in NEUTRAL parse as a program |
| ControlFlow.AcceptsExactlyPrograms | my_shell/controlflow.c:20-101 | no syntax error and NEUTRAL at the end if and only if the lines are those of some structured program |
| ControlFlow.ErrorsResynchronize | my_shell/controlflow.c:20-101 | outside an if line met in NEUTRAL, a line is an error exactly where it does not belong, and then executes nothing and leads back to NEUTRAL; a misplaced control word gives -1, one in its place 0 |
| ControlFlow.ProgramAfterError | my_shell/controlflow.c:92-101 | after such an error a program has its structured meaning |
| ControlFlow.ErrorInCondition | my_shell/controlflow.c:58-67 | an error inside an if line executes nothing but leaves the automaton wanting a then, with the condition failed, or succeeded if `if` is repeated |
| ControlFlow.BlockAfterErrorInCondition | my_shell/controlflow.c:58-86 | the block behind such a line is skipped, or executed if `if` is repeated |
| Environment.ChildrenGetTheEnvironment | my_shell/execute2.c:26 | after any lines every child got exactly the environment that the startup strings and the assignments and marks executed before it determine |
| Environment.HistoryIsWhatHappened | my_shell/execute2.c:23-36 | after any lines, running the recorded programs one by one with their recorded words and environments gives every recorded status and the final world; so what the environment laws say of the history is what the programs were given |
| Environment.ChildSees | my_shell/varlib.c:179-207 | over whole sessions: whatever program was run, it saw a name if and only if the name was in the startup environment or had been marked by then, and with the last value executed by then; and names were marked only at moments when they were in the table |
| LineReader.LinesOfUnlines | my_shell/splitline.c:28-48 | repeated reading returns the lines that were printed |
| LineReader.UnlinesOfLines | my_shell/splitline.c:28-48 | the lines read, put together, are the whole input, a final partial line included |
| LineReader.NextCmd | my_shell/splitline.c:13-49 | the line up to the next newline or the end, NULL only at the end; every write falls inside the grown buffer |
| LineReader.SplitsIff | my_shell/splitline.c:80-100 | a line splits into given words if and only if it consists of these words separated by non-empty runs of blanks, with any blanks around them |
| LineReader.Splitline | my_shell/splitline.c:55-103 | the array holds exactly those words and then NULL; every write falls inside the grown array |
| SmallShell.ScriptsKeepTheirMeaning | my_shell/smsh4.c:26-33 | however a program is laid out as text, the main loop does to it what the structured evaluator says |
| SmallShell.ScriptsOfANewShell | my_shell/smsh4.c:17-47 | for every startup environment, program and layout, a new shell does to the script what the structured evaluator does from the loaded table on, and ends without a syntax error |
| SmallShell.SmallShell.constructor | my_shell/smsh4.c:37-47 | the shell starts in NEUTRAL, with the startup environment loaded and an empty history |
| SmallShell.SmallShell.OkToExecute | my_shell/controlflow.c:20-39 | the answer in each state, and the syntax error in WANT_THEN |
| SmallShell.SmallShell.AssignWord | my_shell/builtin.c:43-58 | the table, history and status of the specified assignment, with nothing else changed |
| SmallShell.SmallShell.ExportWord | my_shell/builtin.c:34-40 | the table, history and status of the specified export |
| SmallShell.SmallShell.ExecuteProgram | my_shell/execute2.c:10-37 | the program runs with the rebuilt environment; only the world and the history change |
| SmallShell.SmallShell.ProcessLine | my_shell/process.c:19-38 | the in-place dispatcher's new state and result are those of the specified automaton |
| SmallShell.SmallShell.DoControlCommand | my_shell/controlflow.c:50-90 | likewise for the control words |
| SmallShell.SmallShell.RunScript | my_shell/smsh4.c:17-35 | the main loop over the text of a script has the effect that RunText specifies |
| Pipeline.RunPipeline | IO/pipeAnyArgc.c:18-47 | each process at its exec has exactly the descriptors the chain prescribes for its depth |
| Pipeline.PipelineConnects | IO/pipeAnyArgc.c:24-46 | every command is run by exactly one process, writes to the pipe its successor reads, and the outer ends are the originals |
| Pipeline.Census | IO/pipeAnyArgc.c:28-43 | which ends of pipe j the process at depth i holds, and on which descriptors, in all cases |
| Pipeline.WriterIsAloneIff | IO/pipeAnyArgc.c:28-43 | the write end of a pipe is held by its writer alone if and only if it is the last pipe of the line |
| FileSort.Compare | my_ls/test.c:62-70 | the loop returns the specified order |
| FileSort.OrderMeaning | my_ls/test.c:62-70 | 0 exactly for equal names; -1 or 1 exactly when the first or the second name comes before the other, by the characters at the first difference, the end of a name counting as 0 |
| FileSort.OrderIsTotal | my_ls/test.c:62-70 | antisymmetric, transitive, and zero only for equals |
| FileSort.FileList.ShiftGreater | my_ls/test.c:80-81 | the inner loop moves exactly the greater records up by one, and the sentinel stops it at slot 0 at the latest |
| FileSort.FileList.InsertRecord | my_ls/test.c:75-83 | the record of slot i goes in front of exactly the greater records, which move up by one |
| FileSort.FileList.LsSort | my_ls/test.c:72-84 | slots 1 to length become an arrangement in which no name comes before an earlier one and equal names keep their order, and no other slot but 0 changes |
| FileSort.SpliceKeepsStable | my_ls/test.c:75-83 | inserting the next record where it goes keeps a prefix sorted and stable |
| FileSort.StableSortIsPermutation | my_ls/test.c:72-84 | such an arrangement is a permutation |
| FileSort.StableSortIsUnique | my_ls/test.c:72-84 | two sorted stable arrangements of the same records are equal |

## Left out

- Sockets, host lookup and byte order: sending and receiving are message steps, and a `sendto` or `recvfrom` failure is a parameter of the client's calls.
- System calls: `kill(pid, 0)`, program execution, file contents and wakeup choices are oracles or arbitrary steps; `fork`, `dup2` and `pthread_create` succeed.
- The client's source for VALD is not part of the repository; the request's form follows `datagram/help.md:209` and the server's parser.
- Duplicated datagrams, reuse of a dead process's pid, and clients with pid 0 or negative pids in the system model.
- Requests of MSGLEN bytes or more, and `HELO`, `GBYE` or `VALD` without a fifth character: real clients send none (`LicenseSystem.LiveClientsAreServed`), and the C code's behaviour on them is undefined.
- SignalServer.InterleavingIsAtomic: does not claim that a reclaim ever comes under constant traffic, because the code restarts the alarm around each request.
- Mailbox.MailboxIsSafe: is stated for exactly two workers and no spurious wakeups; `OneSpuriousWakeupCrashes` shows why the second is needed.
- Scheduler fairness: a schedule may pick threads that cannot go on for ever; the bounds count the steps that are made.
- LineReader.NextCmd: input is taken to be free of NUL characters.
- SmallShell.SmallShell.RunScript: covers scripts in which no export hangs, since a method that never returns has no post-state; the value-level results cover the others through `hung`.
- The byte count in `my_shell/varlib.c:74`, `malloc` failure, `free`, and allocation sizes.
- C integer overflow: pids and slots are 32-bit by a predicate, counters are mathematical integers.
- FileSort names: `strcpy`, `struct stat` fields and the reading of directories; a record is its name and an opaque remainder, and at most MAXSIZE records are in the array.
- Printing and tracing (`narrate`, `VLlist`, prompts, listings), signals of the shell, and the small demonstration programs.
- `datagram/lserv_funcs1.c`, which version 2 contains, and everything under `socket/` and `web/`.
