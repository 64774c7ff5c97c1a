# Verified model of solarpowerlog's protocol, template and scheduling cores

solarpowerlog polls photovoltaic inverters and logs what they answer. This project models four
parts of it in Dafny and proves what they are built to guarantee.

* **The shared line** (`SharedLine*.dfy`, `SputnikLine.dfy`, `SharedReads.dfy`). Many inverters
  share one physical connection. A slave draws a ticket for an atomic block of commands; the master
  gives the line to one ticket, queues everything else, and replaces the last command of a block by
  one of its own, so that it learns when the block is over. `SharedLine.dfy` is the state machine
  for any number of slaves, any order of commands, and a connection that answers in any order;
  `SharedLineObjects.dfy` holds the two classes that update the same state in place;
  `SputnikLine.dfy` puts any number of Sputnik inverter state machines on the line.
  `SharedReads.dfy` is the other mode, reads outside atomic blocks, which the design does not allow
  at the same time (`src/Connections/sharedconnection/CSharedConnection.h:109-110`).
* **The template engine** (`Template*.dfy`): scanner with one-tag look-ahead, recursive-descent
  parser with stop bitmaps, tree walker with break and continue flags, includes, and variable lists
  with parent pointers. Functions on values specify every piece; the classes `Template`, `Writer` and
  `Variables` do the work in place and are proved equal to them. Independent of the code are the
  description of a template as a sequence of pieces with a stack of open statements
  (`TemplateCover.dfy`, `TemplateStack.dfy`), the printer (`TemplatePrint.dfy`) and the jump machine
  (`TemplateMachine.dfy`).
* **The Sputnik telegrams** (`Sputnik*.dfy`): tokenizer, checksum, packing of commands into
  telegrams under two length budgets, the checks on received telegrams, the poll rounds of an
  inverter, and the simulator as an independent other end.
* **The scheduler pair** (`Scheduler*.dfy`): producers, a semaphore-driven consumer and the timer
  thread with sticky interrupts, in all interleavings of their lock-delimited steps.

A run is always a sequence of arbitrary steps; a step that is not possible changes nothing. Main
results hold for every run, every template, every received string or every command table.

Each part has results that are stated without the functions that compute: on the requests and the log of
the line (`SharedLineRequests.dfy`), on what slaves have got (`SharedReadsData.dfy`), on the commands,
results and callbacks of an inverter (`SputnikSession.dfy`), on the bytes of a telegram and the parts of
an answer (`SputnikAnswers.dfy`), on the calls and the clock of the scheduler (`SchedulerPromises.dfy`),
on the spellings of tags (`TemplateGrammar.dfy`), and on the bindings of names (`TemplateMeaning.dfy`).

## Findings

Two promises do not hold of the code as it stands, and a third holds because the shipped commands are
small. The model keeps the code and states exactly when each holds.

* The checksum test sums all bytes but the first and the last five of a telegram, counted from its
  end and not from the bar before the checksum. A changed byte before the checksum's delimiter is always
  detected if and only if it is not one of the last five bytes
  (`SputnikDetection.DetectedExactly`); with a checksum of fewer than four digits, which neither end
  prints but both accept, a byte can change unnoticed (`SputnikDetection.ShortChecksumMisses`).
* The slave's timeout handler looks for the deadline in the timer command instead of the pending read
  (`src/Connections/sharedconnection/CSharedConnectionSlave.cpp:264-280`), so it answers nobody and drops
  every second pending read (`SharedReads.TimeoutsForget`), contrary to the header
  (`src/Connections/sharedconnection/CSharedConnection.h:105-107`). No read of a slave is ever forgotten if
  and only if none of its timers runs while it has a read pending (`SharedReads.ForgottenExactly`); its
  reads then are all answered or still waiting (`SharedReads.AllAnsweredOrPending`). A read is forgotten
  when its own time is over (`SharedReads.TimedOutReadIsForgotten`), and also long before, by the timer of
  an earlier read that was answered (`SharedReads.StaleTimerForgets`).
* A poll round ends if and only if each considered command alone is small enough for a telegram; one
  that is not would stay pending and be polled for without end (`SputnikPolling.PollingEnds`). Every
  command of the shipped table is small enough, so its rounds end
  (`SputnikTable.ShippedCommandsAreAsked`).

## Model

| member | source | states |
|---|---|---|
| SharedLineObjects.SharedConnectionMaster.GetTicket | src/Connections/sharedconnection/CSharedConnectionMaster.cpp:300-308 | Each ticket is one larger than the one before and never 0. |
| SharedLineObjects.SharedConnectionSlave.HandleTickets | src/Connections/sharedconnection/CSharedConnectionSlave.cpp:331-370 | In place: a hinted command gets the slave's ticket, a new one if it has none; a cease gives it back. |
| SharedLineObjects.SharedConnectionSlave.Issue | src/Connections/sharedconnection/CSharedConnectionSlave.cpp:60-178 | In place: ticket handling, then the master's decision, then the real connection, are the issue step of the state machine. |
| SharedLineObjects.SharedConnectionMaster.HandleAtomicBlock | src/Connections/sharedconnection/CSharedConnectionMaster.cpp:445-534 | In place: forwards, replaces or queues a command exactly as the state machine does. |
| SharedLineObjects.SharedConnectionMaster.ExecuteEndOfBlock | src/Connections/sharedconnection/CSharedConnectionMaster.cpp:91-165 | In place: answers the saved command, drains the commands without ticket, then the block with the smallest ticket. |
| SharedLineRuns.StepKeeps | src/Connections/sharedconnection/CSharedConnectionMaster.cpp:91-534 | The invariant: queued tickets lie above the active one, a cease is last in its queue, one substitute is outstanding while a command is saved, tickets belong to their slaves, nothing is lost or doubled. Every step keeps it and meets the asserts. |
| SharedLineTheorems.AssertsNeverFail | src/Connections/sharedconnection/CSharedConnectionMaster.cpp:95-163 | No assert of the master fails in any run of any number of slaves. |
| SharedLineTheorems.BlocksAreExclusive | src/Connections/sharedconnection/CSharedConnectionMaster.cpp:474-521 | Between two forwarded commands of one ticket only commands of that ticket and that slave are forwarded. |
| SharedLineTheorems.BlocksAreCompleted | src/Connections/sharedconnection/CSharedConnectionMaster.cpp:474-521 | Nothing else follows a request before the cease of its block was forwarded as the master's substitute. |
| SharedLineTheorems.TicketsInOrder | src/Connections/sharedconnection/CSharedConnectionMaster.cpp:123-163 | Tickets reach the connection in increasing order, strictly after a cease. |
| SharedLineTheorems.InOnePlace | src/Connections/sharedconnection/CSharedConnectionMaster.cpp:480-532 | Every issued command is in exactly one of: forwarded, queued without ticket, queued in its block. |
| SharedLineTheorems.AnsweredAtMostOnce | src/Connections/sharedconnection/CSharedConnectionMaster.cpp:91-165 | Every answer goes to an issued command, carries a result of the connection, and no command is answered twice. |
| SharedLineTheorems.AnswersAreResults | src/Connections/sharedconnection/CSharedConnectionMaster.cpp:91-165 | In every run each reply of the connection takes its command off the wire, and its result goes to the caller of that command, at once or at the end of its block, and to nobody else. |
| SharedLineTheorems.QuietMeansAnswered | src/Connections/sharedconnection/CSharedConnectionMaster.cpp:91-165 | When nothing is on the wire or in the scheduler and no slave is inside a block, every issued command has been answered. |
| SharedLineTheorems.StepServes | src/Connections/sharedconnection/CSharedConnectionMaster.cpp:123-163 | The number of unfinished tickets before a queued block never grows, each end of block lowers it by one, and at one the block becomes active. |
| SharedLineTheorems.BypassIsBounded | src/Connections/sharedconnection/CSharedConnectionMaster.cpp:123-163 | Over whole runs: a queued block waits for exactly as many ends of block as there were tickets before it. |
| SharedLineTheorems.PlainWaitsOnce | src/Connections/sharedconnection/CSharedConnectionMaster.cpp:109-117 | A queued command without ticket is forwarded at the next end of block. |
| SharedLineRequests.IssuedAsAsked | src/Connections/sharedconnection/CSharedConnectionMaster.cpp:310-369 | In every run each request makes one command, in the order of the requests, with the operation asked for, except that a disconnect by a slave other than the master's own becomes a no-operation; its ticket is that of the block its slave is in, a larger one than any before for a new block, none without hint. |
| SharedLineRequests.ForwardedAsAsked | src/Connections/sharedconnection/CSharedConnectionMaster.cpp:329-338 | Every forwarded command is one that was asked for, and a forwarded disconnect was asked for by the master's own slave. |
| SharedLineRequests.ForwardedInOrder | src/Connections/sharedconnection/CSharedConnectionMaster.cpp:109-163 | In every run, for each ticket and for none: what was forwarded, followed by what waits at the master, is what was issued, in order. |
| SputnikLine.TelegramsComeInPairs | src/Inverters/SputnikEngineering/CInverterSputnikSSeries.cpp:577-625 | With any number of inverters the ticketed part of the line's log is a sequence of pairs by one inverter: a Send, then the Receive or Noop that ends its block. |
| SputnikLine.NeverStuck | src/Inverters/SputnikEngineering/CInverterSputnikSSeries.cpp:445-755 | The line never deadlocks: an inverter can run, the connection owes a reply, or an end of block is scheduled, until all inverters are stopped. |
| SputnikSession.SessionsAreLawful | src/Inverters/SputnikEngineering/CInverterSputnikSSeries.cpp:445-755 | In every run of any number of inverters, on the commands, results and callbacks of one: a successful connect leads to a send, a sent telegram to its receive, a failed one to the end of its block, a parsed answer to the next send, anything else over a disconnect, if and only if connected, to a new connect; the inverter stops if and only if it would connect and a shutdown is requested. |
| SputnikSession.TelegramsNeedAConnection | src/Inverters/SputnikEngineering/CInverterSputnikSSeries.cpp:513-698 | Before each send and receive there is a successful connect, and every exchange since then has succeeded. |
| SputnikSession.BlocksAreEnded | src/Inverters/SputnikEngineering/CInverterSputnikSSeries.cpp:577-625 | A send is followed by the receive of its answer, or by a no-operation if it failed, and nothing else ends a block. |
| SputnikSession.OverIsTheEnd | src/Inverters/SputnikEngineering/CInverterSputnikSSeries.cpp:492-497 | After the callback that would connect has seen a shutdown request nothing is issued any more. |
| SharedReads.ReadingSlave.Receive | src/Connections/sharedconnection/CSharedConnectionSlave.cpp:92-161 | In place: a read is answered from the buffer, or becomes pending and asks the master. |
| SharedReads.ReadingSlave.HandleRead | src/Connections/sharedconnection/CSharedConnectionSlave.cpp:285-314 | In place: received data answers all pending reads, or is buffered. |
| SharedReads.ReadingSlave.HandleTimeouts | src/Connections/sharedconnection/CSharedConnectionSlave.cpp:254-283 | In place: every second pending read is dropped without an answer. |
| SharedReads.ReadingMaster.Receive | src/Connections/sharedconnection/CSharedConnectionMaster.cpp:371-421 | In place: the first read of a session goes to the connection, later ones only move the deadline. |
| SharedReads.ReadingMaster.ReadCompleted | src/Connections/sharedconnection/CSharedConnectionMaster.cpp:166-227 | In place: received data goes to every listening slave and ends the session; a timeout restarts the read while there is time and somebody listens. |
| SharedReads.OneReadAtATime | src/Connections/sharedconnection/CSharedConnectionMaster.cpp:166-421 | readtimeout is set if and only if exactly one read is outstanding, never more are, and it is the latest deadline requested in the session. |
| SharedReads.ListedOnce | src/Connections/sharedconnection/CSharedConnectionMaster.cpp:536-544 | A slave is listed once if it is registered and not at all otherwise. |
| SharedReads.DataIsComplete | src/Connections/sharedconnection/CSharedConnectionSlave.cpp:92-315 | While a slave has at most one read pending at a time, whatever the other slaves do, the data answered to its callers since the last reset followed by its buffer is all data delivered to it, in order. |
| SharedReads.TimeoutsForget | src/Connections/sharedconnection/CSharedConnectionSlave.cpp:254-283 | A timer that runs answers no read, and forgets every second pending one, the oldest first; it changes nothing if and only if no read is pending. |
| SharedReads.EachReadOnce | src/Connections/sharedconnection/CSharedConnectionSlave.cpp:92-315 | In every run, each read issued once is in exactly one place: answered, pending, or forgotten. |
| SharedReads.ForgottenExactly | src/Connections/sharedconnection/CSharedConnection.h:105-107 | In every run, no read of a slave is forgotten if and only if no timer of that slave runs while it has a read pending. |
| SharedReads.AllAnsweredOrPending | src/Connections/sharedconnection/CSharedConnection.h:105-107 | Under that condition all reads issued at the slave have been answered or are pending, each once. |
| SharedReads.TimedOutReadIsForgotten | src/Connections/sharedconnection/CSharedConnectionSlave.cpp:264-280 | A run in which a read times out and its caller is not answered. |
| SharedReads.StaleTimerForgets | src/Connections/sharedconnection/CSharedConnectionSlave.cpp:254-283 | A run in which the timer of an answered read makes a later one forgotten before its own time. |
| SharedReadsData.EverySlaveGetsTheData | src/Connections/sharedconnection/CSharedConnectionMaster.cpp:186-196 | In every run, what a slave has got, with what is on its way to it, is the data of all reads that completed while it was registered, each once; in order too, when the scheduler keeps the order. |
| SharedReadsData.ReadsGoOnExactly | src/Connections/sharedconnection/CSharedConnectionMaster.cpp:198-226 | In every run, a read that times out is started again if and only if a slave is registered and a deadline asked for since it began has not passed; a read with data is not repeated; a read that no buffer can answer finds one going on or begins one. |
| SharedReadsData.ReadersGetTheData | src/Connections/sharedconnection/CSharedConnectionSlave.cpp:92-161 | Arriving data answers every pending read once and in order, or goes to the buffer; a read takes the whole buffer or becomes pending. |
| SharedReadsData.TimersRunOnce | src/Connections/sharedconnection/CSharedConnectionSlave.cpp:119-161 | In every run each read that becomes pending sets one timer, to its own deadline, which runs once and not before it. |
| TemplateObjects.Template.ScanSpaces | src/ctemplate/ctemplate.c:402-411 | In place: skips blanks and counts line ends. |
| TemplateObjects.Template.ScanComment | src/ctemplate/ctemplate.c:418-443 | In place: finds the end of a comment; an unterminated one is an error and counts its lines. |
| TemplateObjects.Template.ScanAttr | src/ctemplate/ctemplate.c:454-497 | In place: an attribute with a quoted or bare value, or nothing; the line counter follows. |
| TemplateObjects.Template.ScanTag | src/ctemplate/ctemplate.c:520-767 | In place: the tag at this place with its attributes, or none, with the line counter set back. |
| TemplateGrammar.TagsAreSpelled | src/ctemplate/ctemplate.c:454-767 | The scanner finds a tag with a given meaning and end if and only if the text up to there is one of its spellings: names and attribute names in any case, as a tag or as an HTML comment, attributes in any order, quoted or bare, any white space, a closing slash only for tags that contain nothing. |
| TemplateGrammar.PlainTagsAreScanned | src/ctemplate/ctemplate.c:540-582 | The plainest spelling of each of the ten tags is scanned as that tag. |
| TemplateGrammar.LevelsAreRead | src/ctemplate/ctemplate.c:703-723 | A level is read as C reads numbers: blanks, a sign, decimal digits, and anything behind them. |
| TemplateParser.Scan | src/ctemplate/ctemplate.c:774-827 | Each call consumes input or is at the end; when a tag is saved behind a text, the current node is that text, so current and saved node never share the reusable node. |
| TemplateObjects.Template.Scan | src/ctemplate/ctemplate.c:774-827 | In place: the next text or tag is what the specification finds. |
| TemplateObjects.Template.ParseList | src/ctemplate/ctemplate.c:935-990 | In place: the loop of the parser builds the list of the recursive specification and ends at a tag of its stop bitmap. |
| TemplateObjects.Template.ParseIf | src/ctemplate/ctemplate.c:859-892 | In place: condition, branches and closing tag. |
| TemplateObjects.Template.ParseLoop | src/ctemplate/ctemplate.c:899-918 | In place: body and closing tag, one loop deeper. |
| TemplateLocal.TagOnAnyLine | src/ctemplate/ctemplate.c:520-767 | The tag at a place and its end do not depend on the line counter. |
| TemplateLocal.TagSame | src/ctemplate/ctemplate.c:454-767 | The tag at a place depends only on the characters up to the next opening angle bracket, unless a quoted value runs beyond it to a closing quote. |
| TemplateLocal.TagInContext | src/ctemplate/ctemplate.c:454-767 | A tag found at the end of a text that stands alone is found there whatever follows the text. |
| TemplateStack.StopsAtOpen | src/ctemplate/ctemplate.c:859-957 | The bitmap that a list inherits from the statements around it lets a terminator end the list if and only if some open statement takes that terminator. |
| TemplateCover.TemplateIsCovered | src/ctemplate/ctemplate.c:774-990 | For every template: comments, texts and tags cover it without a gap or an overlap, each at the loop depth that the tags before it make; the texts and tags are in order what scan returns; and the recursive descent with inherited bitmaps reports an error if and only if a text holds an open comment or the stack of open statements meets a stray, a missing or an unclosed tag; the final line number is 1 plus all line ends, where those behind an open comment in a text count once more. |
| TemplateCover.CoverIsUnique | src/ctemplate/ctemplate.c:774-827 | There is only one such sequence of pieces, so the template alone determines the scanned tags. |
| TemplateLines.AllLinesCounted | src/ctemplate/ctemplate.c:402-827 | After parsing, the whole template is scanned; with no unterminated comment the line counter is 1 plus all line ends, also after tags that were tried and rejected. |
| TemplateTrees.EveryTagLinkedOnce | src/ctemplate/ctemplate.c:935-990 | For every template, erroneous or not, the nodes of the tree in order are exactly the allocated tags in scan order: none lost, none linked twice. |
| TemplateOwnership.LateReadIsHarmless | src/ctemplate/ctemplate.c:956-965 | The kind of an unexpected terminator is read after the next scan, when the shared node may have been overwritten; it still decides as the scanned tag would. |
| TemplateOwnership.EachNodeIsFreedOnce | src/ctemplate/ctemplate.c:283-361 | For every template, erroneous or not: linking nodes by address gives the parse tree, and freeing it frees each allocated node exactly once and never the shared one. |
| TemplateTrees.ParsedTagsAreLegal | src/ctemplate/ctemplate.c:691-723 | For every template, each break or continue names one of the loops around it, includes stay below the depth limit, attributes are as the scanner accepts them. |
| TemplateRoundTrip.ErrorFreeParseFlattens | src/ctemplate/ctemplate.c:859-990 | If parsing ends without error, flattening the tree gives back the scanned tags, up to an else without content. |
| TemplateRoundTrip.ProperTreesAreParsed | src/ctemplate/ctemplate.c:859-990 | If the scanner yields the flattened tags of a proper tree, the parser returns that tree without error. |
| TemplatePrint.TagScanned | src/ctemplate/ctemplate.c:520-767 | Scanning a printed tag gives the tag and ends right behind it. |
| TemplatePrint.ParsedTreesArePrintable | src/ctemplate/ctemplate.c:520-990 | The tree of any template without error is proper, with legal tags at their loop depth and texts in which, standing alone, no comment starts and no tag is found. |
| TemplatePrint.PrintedTreesAreParsed | src/ctemplate/ctemplate.c:520-990 | A proper tree written out as template text parses to the same tree without error if and only if its tags are legal and no comment starts and no tag is found in a text standing alone. |
| TemplatePrint.ReprintingKeepsTheTree | src/ctemplate/ctemplate.c:520-990 | Any template that parses without error, whatever its texts, can be replaced by its printed form: same tree, no error. |
| TemplatePrint.MarkupIsOk | src/ctemplate/ctemplate.c:774-827 | Text whose opening angle brackets start no comment and no tag name, as mark-up, can always be printed. |
| TemplateWriter.Writer.Walk | src/ctemplate/ctemplate.c:1158-1287 | In place: walking with flags as fields is the walk of the specification; it terminates for any files, also with cyclic includes. |
| TemplateWriter.Writer.WalkLoop | src/ctemplate/ctemplate.c:1210-1239 | In place: the rounds of a loop and what the flags do to them. |
| TemplateWriter.Writer.WalkFile | src/ctemplate/ctemplate.c:1255-1279 | In place: an included file is read, parsed and walked with flags of its own. |
| TemplateWriter.Write | src/ctemplate/ctemplate.c:1494-1518 | Writing a template returns success exactly when the walk has no error, with its output. |
| TemplateMachine.WriteFollowsTheMachine | src/ctemplate/ctemplate.c:1158-1287 | What the flag-based walk writes, and whether it fails, is the only end that a machine without flags can reach, in which break n leaves n loops and continue n starts the next round of the n-th; no jump leaves its file, a template in error writes nothing, and both flags end at 0. |
| TemplateMachine.KeptTemplateIsFresh | src/ctemplate/ctemplate.c:1255-1279 | However often an include tag is visited, walking the template kept from the first visit on the flags that the last visit left does what reading and parsing the file again would do. |
| TemplateMeaning.ValueIsBound | src/ctemplate/ctemplate.c:1002-1015 | The search for a value finds the latest entry of the innermost list that has one, and nothing exactly when no list has one. |
| TemplateMeaning.LoopIsBound | src/ctemplate/ctemplate.c:1023-1036 | The search for a loop variable finds the latest one of the innermost list that has one, with the lists around it. |
| TemplateMeaning.ConditionMeans | src/ctemplate/ctemplate.c:1038-1071 | A condition without test value is true exactly for a variable that is not empty, or without such a variable for a loop; with an empty one for an empty variable, or neither; with any other for that value. |
| TemplateMeaning.ConditionsChoose | src/ctemplate/ctemplate.c:1199-1208 | A condition writes exactly what the branch writes that its meaning selects. |
| TemplateMeaning.VariablesShow | src/ctemplate/ctemplate.c:1179-1196 | A variable writes the value it is bound to with its format, or else its default, or else nothing. |
| TemplateMeaning.LoopsGoOver | src/ctemplate/ctemplate.c:1210-1239 | A loop goes over the items of the loop variable its name is bound to, seeing the lists around that variable; without one it writes nothing. |
| TemplateMeaning.RoundsFollow | src/ctemplate/ctemplate.c:1210-1239 | A round of a loop sees its own item before everything around the loop; rounds that end without a jump or an error follow each other over all items. |
| TemplateMeaning.WalkAppend | src/ctemplate/ctemplate.c:1286 | Nodes in a row write one after the other. |
| TemplateMeaning.ConditionalIsWritten | src/ctemplate/ctemplate.c:1494-1518 | A template text that is one condition with an else part writes the text its meaning selects. |
| TemplateMeaning.IncludedNames | src/ctemplate/ctemplate.c:1132-1152 | An included name is taken as it is; after three dots and a slash it lies in the directory of the including file. |
| TemplateMeaning.IncludesNest | src/ctemplate/ctemplate.c:1255-1279 | Wherever the walk is, it reads the contents of its file with the formats of the first template, counts as deep as there are files around it, and returns to the including file. |
| TemplateVars.Variables.AddVar | src/ctemplate/ctemplate.c:1300-1330 | In place: the variables go to the front of the list, which is made if it is null. |
| TemplateVars.Variables.AddLoop | src/ctemplate/ctemplate.c:1340-1368 | Attaches the loop variable if and only if it hangs nowhere and does not enclose the list; the parent graph stays a forest and nothing else changes. |
| TemplateVars.Variables.AddVarList | src/ctemplate/ctemplate.c:1378-1411 | Attaches the list if and only if it hangs nowhere and does not enclose the loop variable; the parent graph stays a forest and nothing else changes. |
| TemplateVars.Variables.IsAround | src/ctemplate/ctemplate.c:1354-1362 | The walk up the parents ends and finds the loop variable if and only if it encloses the list. |
| TemplateVars.Variables.LoopWouldCloseCycle | src/ctemplate/ctemplate.c:1354-1362 | What is refused would have closed a cycle: no ranking of the nodes has room for it. |
| TemplateVars.Variables.ListWouldCloseCycle | src/ctemplate/ctemplate.c:1392-1400 | The same in the other direction. |
| TemplateVars.Variables.ValueOf | src/ctemplate/ctemplate.c:1002-1015 | The search through the parents terminates and finds the latest value in the innermost list. |
| TemplateVars.Variables.FindLoop | src/ctemplate/ctemplate.c:1023-1036 | The search terminates and finds the latest loop variable in the innermost list, with the lists around it. |
| SputnikTokenizer.Tokenizer | src/Inverters/SputnikEngineering/CInverterSputnikSSeries.cpp:929-991 | The nested skip and find loops terminate and return the tokens of the specification. |
| SputnikTokenizer.Skip | src/Inverters/SputnikEngineering/CInverterSputnikSSeries.cpp:966-974 | Skips only delimiters, and may stop on the first delimiter again, on no other. |
| SputnikTokenizer.TokensExactly | src/Inverters/SputnikEngineering/CInverterSputnikSSeriesSimulator.cpp:1098-1158 | A list is the result of the tokenizer if and only if it is the list of all maximal non-empty delimiter-free runs, in order. |
| SputnikTokenizer.TokensSplit | src/Inverters/SputnikEngineering/CInverterSputnikSSeries.cpp:929-991 | Tokens of a string are those before a delimiter followed by those after it. |
| SputnikTelegram.CalcChecksum | src/Inverters/SputnikEngineering/CInverterSputnikSSeries.cpp:434-443 | The loop sums len signed bytes after the first, modulo 2 to the 32. |
| SputnikTelegram.PrintedIsScanned | src/Inverters/SputnikEngineering/CInverterSputnikSSeries.cpp:799-808 | A number printed in hexadecimal with leading zeros reads back as the same number. |
| SputnikTelegram.WidthFits | src/Inverters/SputnikEngineering/CInverterSputnikSSeries.cpp:799-808 | A number fills two digits if and only if it is at most 0xFF, four if and only if at most 0xFFFF. |
| SputnikRoundTrip.SealedTokens | src/Inverters/SputnikEngineering/CInverterSputnikSSeries.cpp:841-845 | The tokens of a printed telegram are its addresses, length, port, data and checksum. |
| SputnikRoundTrip.SumsAgree | src/Inverters/SputnikEngineering/CInverterSputnikSSeries.cpp:806-867 | The receiver's sum over a telegram is the printer's sum over its front, though both take different pieces. |
| SputnikRoundTrip.AnswerIsAccepted | src/Inverters/SputnikEngineering/CInverterSputnikSSeries.cpp:852-899 | A printed answer passes the inverter's checks if and only if it has data and at most 255 bytes, and then yields exactly its data. |
| SputnikRoundTrip.QueryIsAccepted | src/Inverters/SputnikEngineering/CInverterSputnikSSeriesSimulator.cpp:830-893 | A printed query passes the simulator's checks if and only if it has data and at most 255 bytes, and then yields its sender and exactly its commands. |
| SputnikRoundTrip.InjectedErrorIsRejected | src/Inverters/SputnikEngineering/CInverterSputnikSSeriesSimulator.cpp:957-961 | The checksum error the simulator injects is never accepted. |
| SputnikRoundTrip.TelegramIsExtracted | src/Inverters/SputnikEngineering/CInverterSputnikSSeries.cpp:817-832 | The inverter cuts a telegram out of anything received before it and anything without an opening brace after it. |
| SputnikAnswers.TelegramForm | src/Inverters/SputnikEngineering/CInverterSputnikSSeries.cpp:797-810 | A telegram byte by byte: addresses, its own length and the port in hexadecimal, the data, and in four digits the sum of all bytes between the opening brace and the checksum. |
| SputnikAnswers.AddressesDecide | src/Inverters/SputnikEngineering/CInverterSputnikSSeries.cpp:869-897 | A telegram between the right addresses yields its data, one between any others is left alone. |
| SputnikAnswers.ChecksMean | src/Inverters/SputnikEngineering/CInverterSputnikSSeries.cpp:841-897 | Whatever is between the braces: 0 if and only if the checksum is right and an address is certainly another one, data if and only if checksum, both addresses and length are right, else an error. |
| SputnikAnswers.NumbersAreRead | src/Inverters/SputnikEngineering/CInverterSputnikSSeries.cpp:852-897 | Numbers of a telegram are read as C reads them: blanks, a sign, 0x, hexadecimal digits and anything behind them, cut to 32 bits. |
| SputnikAnswers.DigitsCount | src/Inverters/SputnikEngineering/CInverterSputnikSSeries.cpp:852-897 | The sixteen hexadecimal digits, as capitals or not, stand for 0 to 15 in order. |
| SputnikAnswers.SimulatorIsAddressed | src/Inverters/SputnikEngineering/CInverterSputnikSSeriesSimulator.cpp:830-893 | The simulator takes a query if and only if it is sent to its address. |
| SputnikAnswers.AnswersGoToTheirCommands | src/Inverters/SputnikEngineering/CInverterSputnikSSeries.cpp:899-925 | An answer of a token and one or two values goes to the first command that handles the token, and to no other, which gets exactly these parts and decides alone whether it is accepted. |
| SputnikAnswers.ResultsMean | src/Inverters/SputnikEngineering/CInverterSputnikSSeries.cpp:813-927 | For received bytes with a telegram that fits among them: 0 if it is between other addresses, -1 if an answer in it is refused, else 1; answered are exactly the commands with an accepted answer in it. |
| SputnikAnswers.SimulatorAcceptsOnly | src/Inverters/SputnikEngineering/CInverterSputnikSSeriesSimulator.cpp:830-893 | Whatever the simulator takes has braces at both ends, its address, its own length, port 64 in hexadecimal, data and the right checksum. |
| SputnikAnswers.EachAnswerCounts | src/Inverters/SputnikEngineering/CInverterSputnikSSeries.cpp:899-925 | Of several answers each is judged for itself: one that is accepted answers its command, one that is refused makes the telegram refused. |
| SputnikDetection.ChangeIsDetected | src/Inverters/SputnikEngineering/CInverterSputnikSSeries.cpp:852-867 | Changing any summed byte before the checksum's delimiter of an accepted telegram to any other byte but a brace gives -1, whatever it does to the tokens. |
| SputnikDetection.DetectedExactly | src/Inverters/SputnikEngineering/CInverterSputnikSSeries.cpp:813-867 | All changes of a byte before the checksum's delimiter are detected if and only if the byte is not one of the last five. |
| SputnikDetection.FourDigitsDetectAll | src/Inverters/SputnikEngineering/CInverterSputnikSSeries.cpp:804-808 | With the four digits both ends print, every byte before the bar is protected. |
| SputnikDetection.SplitExists | src/Inverters/SputnikEngineering/CInverterSputnikSSeries.cpp:841-850 | Every telegram with two tokens that ends in a delimiter has the form the detection results speak of. |
| SputnikDetection.ShortChecksumMisses | src/Inverters/SputnikEngineering/CInverterSputnikSSeries.cpp:863-867 | A telegram with a two-digit checksum that is accepted and does not detect every changed byte. |
| SputnikPolling.TelegramKeepsLimits | src/Inverters/SputnikEngineering/CInverterSputnikSSeries.cpp:757-798 | Taken and left commands partition the pending ones in order; at most 251 bytes are announced and answers stay below 224 bytes; a command is left only if with it the commands would reach 232 bytes or the answers 224; a first command that fits alone is taken. |
| SputnikPolling.QueryReachesSimulator | src/Inverters/SputnikEngineering/CInverterSputnikSSeries.cpp:757-811 | The assembled telegram passes every check of the simulator, which reads the sender and exactly the commands taken, in order. |
| SputnikPolling.PollingEnds | src/Inverters/SputnikEngineering/CInverterSputnikSSeries.cpp:776-796 | Texts and answer lengths may change between telegrams. If all pending commands fit alone, as many telegrams as commands ask them all; one that never fits is never asked. Where each command fits always or never, all are asked if and only if each fits. |
| SputnikTable.ShippedCommandsFit | src/Inverters/SputnikEngineering/CInverterSputnikSSeries.cpp:191-384 | Each of the 33 or 39 commands of the shipped table is well formed and fits alone, in each state of the version command. |
| SputnikTable.ShippedCommandsAreAsked | src/Inverters/SputnikEngineering/SputnikCommand/CSputnikCommandSoftwareVersion.cpp:53-67 | Whatever the version command learns between telegrams, as many telegrams as pending commands of the shipped table ask them all. |
| SputnikTable.ShippedTelegramIsAccepted | src/Inverters/SputnikEngineering/CInverterSputnikSSeries.cpp:757-811 | Each telegram for shipped commands asks the first pending one and passes the simulator's checks, with exactly the commands taken. |
| SputnikInverter.Inverter.CollectQueries | src/Inverters/SputnikEngineering/CInverterSputnikSSeries.cpp:555-574 | In place: the considered commands join the pending ones in table order. |
| SputnikInverter.Inverter.TakeQueries | src/Inverters/SputnikEngineering/CInverterSputnikSSeries.cpp:764-796 | In place: the loop that erases while it iterates takes and leaves what the packing function does, and marks what it takes as unanswered. |
| SputnikInverter.Inverter.AssembleQueryString | src/Inverters/SputnikEngineering/CInverterSputnikSSeries.cpp:757-811 | In place: the assembled string is the telegram of the packed commands, or empty when nothing is pending. |
| SputnikInverter.Inverter.ParseReceivedString | src/Inverters/SputnikEngineering/CInverterSputnikSSeries.cpp:813-927 | In place: -1, 0 or 1 as specified; exactly the commands with an accepted answer leave the unanswered ones. |
| SputnikInverter.Inverter.HandleFields | src/Inverters/SputnikEngineering/CInverterSputnikSSeries.cpp:899-925 | In place: -1 if and only if some token is refused by the first command that handles it, all tokens being looked at. |
| SputnikInverter.Inverter.ExecuteCommand | src/Inverters/SputnikEngineering/CInverterSputnikSSeries.cpp:445-755 | In place: each callback makes the request, the new book of pending and unanswered commands, the telegram and the notifications that are specified. |
| SputnikPollRuns.OneTelegramAtATime | src/Inverters/SputnikEngineering/CInverterSputnikSSeries.cpp:555-710 | In every run, no command is unanswered when a telegram is built, and afterwards exactly those of the telegram are. |
| SputnikPollRuns.RoundStarts | src/Inverters/SputnikEngineering/CInverterSputnikSSeries.cpp:555-574 | A round starts with each considered command once, in table order, and nothing else. |
| SputnikPollRuns.RoundIsComplete | src/Inverters/SputnikEngineering/CInverterSputnikSSeries.cpp:700-731 | A round that ends has asked each of its commands exactly once. |
| SputnikPollRuns.RoundIsShort | src/Inverters/SputnikEngineering/CInverterSputnikSSeries.cpp:700-731 | A round of commands that fit alone needs at most as many telegrams as commands. |
| SputnikSimulator.Simulator.CheckQuery | src/Inverters/SputnikEngineering/CInverterSputnikSSeriesSimulator.cpp:830-893 | In place: the simulator's checks in their order. |
| SputnikSimulator.Simulator.AppendAnswer | src/Inverters/SputnikEngineering/CInverterSputnikSSeriesSimulator.cpp:902-945 | The loop over the table adds what is specified for one token. |
| SputnikSimulator.Simulator.ParseReceivedString | src/Inverters/SputnikEngineering/CInverterSputnikSSeriesSimulator.cpp:824-967 | In place: the answer is the one specified, and an injected error is used up by an answer only. |
| SputnikSimulator.TokensAreAnswered | src/Inverters/SputnikEngineering/CInverterSputnikSSeriesSimulator.cpp:895-945 | The data of an answer is in the order asked, one entry for each token whose first line that is disabled or does not print an empty value is enabled and has a value. |
| SputnikSimulator.SpoiledAnswerIsRejected | src/Inverters/SputnikEngineering/CInverterSputnikSSeriesSimulator.cpp:957-961 | Whatever the simulator is asked, an answer with the injected checksum error yields no data at the inverter that asked. |
| SputnikSimulator.OnceAround | src/Inverters/SputnikEngineering/CInverterSputnikSSeriesSimulator.cpp:824-967 | From inverter to simulator and back: the inverter takes exactly the answers to the commands it sent, in order, if and only if there is one and the answer has at most 255 bytes. |
| SchedulerObjects.TimedWork.Insert | src/interfaces/CTimedWork.cpp:112-152 | In place: the command enters the sorted queue; an interrupt is needed if and only if the queue was empty or began later. |
| SchedulerObjects.TimedWork.Look | src/interfaces/CTimedWork.cpp:174-240 | In place: the timer thread hands over the first command if it is due, else sleeps until it is, or an hour. |
| SchedulerObjects.WorkScheduler.ScheduleWork | src/interfaces/CWorkScheduler.cpp:131-163 | In place: deletes commands without target, gives up only on a try, else appends and posts. |
| SchedulerObjects.WorkScheduler.DoWork | src/interfaces/CWorkScheduler.cpp:79-129 | In place: with nothing due it returns false, or waits if it may block; else it takes the oldest command. |
| SchedulerRuns.StepKeeps | src/interfaces/CTimedWork.cpp:100-262 | Every step of every thread keeps the order of the queue, the wake-up condition, the semaphore count, the conservation of commands and their times. |
| SchedulerRuns.NoLostWakeUp | src/interfaces/CTimedWork.cpp:100-262 | A sleeping timer thread wakes no later than the first deadline, plus the time it took to fall asleep, unless an interrupt is pending or about to be raised. |
| SchedulerRuns.FrontExists | src/interfaces/CWorkScheduler.cpp:79-129 | A thread that passed the semaphore always finds a command. |
| SchedulerRuns.FirstComeFirstServed | src/interfaces/CWorkScheduler.cpp:121-163 | Commands run in the order in which they became due and never before their time. |
| SchedulerRuns.EachInOnePlace | src/interfaces/CTimedWork.cpp:100-262 | Every accepted command is in exactly one place, so a timed command is handed over and executed at most once. |
| SchedulerRuns.NothingIsForgotten | src/interfaces/CTimedWork.cpp:100-262 | Either some thread can go on, or every accepted command has been executed or lies in the future. |
| SchedulerPromises.CommandsAreAccepted | src/interfaces/CTimedWork.cpp:100-152 | In every run, a command with a target that is no broadcast, or a broadcast without target, is accepted as it is; a fire-and-forget command, or a try that finds the mutex locked, is not. |
| SchedulerPromises.DelaysAreKept | src/interfaces/CTimedWork.cpp:100-262 | In every run, a command scheduled for later is executed at most once and never before that time, and has been executed when the threads rest later than that, plus the time the timer thread took to fall asleep; one scheduled at once has been executed whenever the threads rest. |
| SchedulerPromises.TimerSleepsExactly | src/interfaces/CTimedWork.cpp:174-240 | In every run, the timer thread hands over a command that is due and none before it; if none is due it sleeps until the first of them is, or an hour if nothing waits. |
| SchedulerPromises.InterruptsAreNeeded | src/interfaces/CTimedWork.cpp:123-152 | In every run, a timed command makes its caller interrupt the timer thread if and only if it is due before every other one. |
| SchedulerPromises.InterruptsAreUsedUp | src/interfaces/CTimedWork.cpp:174-262 | In every run at most as many sleeps are cut short as interrupts were raised, not counting one still pending. |
| SchedulerPromises.TerminationIsSeen | src/interfaces/CTimedWork.cpp:264-269 | In every run the timer thread has ended when termination was requested and no thread can go on, and never without a request. |

## Left out

- Issuing a command at a slave and the master's decision are one step: all of them run in the main scheduler's single thread.
- The connection answers its commands in any order, which covers its queue and the immediate answer of Noop.
- Reads outside atomic blocks are not part of ticketed runs, and atomic blocks not of `SharedReads`; mixing them is excluded by the design, and the code would dereference a null pointer.
- Tickets and the semaphore are unbounded; the clock is monotone.
- AbortAll and shutdown of the connections, the data carried by commands on the shared line, and the contents of error messages.
- SharedReads.ReadingSlave.HandleTimeouts: with an odd number of pending reads the iterator is moved past the end of the list; the model takes this as the end of the loop.
- mergeData on the commands of the shared line; its behaviour on duplicate keys is not part of this model.
- In a parse tree, the strings that tags own, and the templates kept for included files, which are freed with their tag; `TemplateOwnership` gives addresses to tag nodes only.
- TemplateWalk: an included file is read and parsed at every visit; TemplateMachine.KeptTemplateIsFresh shows that keeping it is the same as long as the file does not change.
- SputnikPolling.PollingEnds: for commands that may outgrow a telegram and shrink again, the condition is not exact; no shipped command does so.
- When an inverter's callbacks run: the delays before a reconnect and before the next round; `SputnikSession` is about their order.
- SputnikTelegram.CalcChecksum: char is signed, which C leaves to the platform; where it is unsigned, bytes above 127 count differently.
- TemplateParser.Scan: the C locale is meant; a level beyond the range of int is taken as its mathematical value.
- Compression of blanks in texts and the format functions: the output is a sequence of events with the text or the value and the name of its format.
- Opening and reading template files beyond a map from names to contents; messages to the error stream.
- SputnikTokenizer.Tokenizer: strings of 2 to the 32 or more bytes; the loop before the main loop that cannot change anything, although it indexes the delimiters beyond their end.
- SputnikTelegram.PrintedIsScanned: of sscanf only the forms the conversion %x accepts; a lone 0x counts as 0.
- The handlers of single commands, their scaling of values and the backoff strategies: which commands are considered, handle a token or accept it is arbitrary.
- SputnikSimulator.TokensAreAnswered: lines of the simulator's table with a second value have a first one.
- Values of the simulator's table are given as printed; its random changes of values, its control server and its disconnected state.
- The order of timed commands with equal deadlines.
- What commands do when they run, broadcast subscriptions, and what happens to timed work after termination was requested.
- Sockets, serial ports, logging, configuration, databases, CSV output and web pages.
