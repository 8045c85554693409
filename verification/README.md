# Verification model of the desktop's broker, menu and configuration code

This project models six stateful parts of the repository and proves what each of them is relied
upon for. Every part has a specification in functions and lemmas, and, where the source updates
things in place, classes and methods with the source's own loops, each proved to do what the
specification says. `dafny verify dfyconfig.toml` checks everything.

| part | source | files |
|---|---|---|
| DCOP server: calls in flight, client register, output queue | `tde-tdelibs/dcop/dcopserver.cpp` | `CallBook`, `ClientNames`, `ClientRegistry`, `ServerRuns`, `CallLedger`, `DcopServer`, `OutputChannel` |
| DCOP signal connections | `tde-tdelibs/dcop/dcopsignals.cpp` | `SignalTable`, `SignalRuns` |
| Menu engine: rules, tree merge, three passes, directories | `tde-tdelibs/kded/vfolder_menu.cpp` | `MenuConditions`, `MenuTrees`, `SubMenus`, `MenuPasses`, `MenuAllocation`, `MenuContents`, `VFolderMenu`, `DirectoryList` |
| Configuration database text | `tde-tdelibs/kab/qconfigDB.cpp` | `StringCodec`, `ListCodec`, `SectionLines`, `SectionTree`, `SectionStream` |
| Rebuild scheduler of the daemon | `tde-tdelibs/kded/kded.cpp` | `RebuildScheduler` |
| Signature normaliser | `tde-tdelibs/dcop/dcopclient.cpp` | `SignatureForm` |

`Lists`, `Optional` and `Text` hold what several parts share.

**Calls.** Each connection keeps three lists: whom it waits on, who waits on it, and whom it told to
wait. The header promises that both ends of a call record it. `CallBook` shows which list updates
keep that promise and exactly when a reply does not; `ServerRuns` lifts it to every run of the
server and gives the run that breaks it; `CallLedger` counts: along a run whose replies answer
calls, the calls passed on from one client to another are the ones resolved plus the ones
outstanding, and summed over all clients they are the ones resolved plus the lengths of all lists of
awaited replies. Whatever clients send, a closed connection leaves nobody waiting on it.

The lists name open connections throughout a run exactly when nobody ever closes who is owed more
answers than it expects, which harmless replies guarantee. A message goes to a connection that is
gone exactly when a connection closes that owes an answer to itself or to one that is gone.

**Signals.** `SignalTable` keeps all dictionaries as views of one flat list of records. `SignalRuns`
joins it to the server: no record ever names a connection that is gone.

**Menus.** Rules select sets of application ids. Merging and moving are stated by what is found at
each path afterwards, in trees with distinct sibling names; the three passes keep them distinct.
`MenuContents` says what the passes put into every menu: in the pass that an element's rules belong to,
the last rule that fits an application decides where it goes, and nothing else changes but by legacy
merges and moves. The engine object runs the passes over submenu objects with a footprint each.

**Where the code and its description differ.** The code is modelled as it is, and the difference is
proved to be exact:

- A final reply sent after a request to wait leaves an entry that no call accounts for
  (`ServerRuns.StepMirrors`, `ServerRuns.StrayReplyBreaksBooks`).
- The server can write to a connection that is gone; `ServerRuns.RunListsAreLive` and
  `ServerRuns.RunReachesLive` say exactly when. Two deaths lead there after a request to wait that
  answers no call (`ServerRuns.StrayWaitReachesDead`), or after a final reply that follows a request to
  wait (`ServerRuns.StrayReplyReachesDead`); one death does when a client closes while its call to
  itself is open, although every reply was in order (`ServerRuns.SelfCallReachesDead`).
- A signal connection for the sender `DCOPServer` is served whichever client emits
  (`tde-tdelibs/dcop/dcopsignals.cpp:61`): `SignalTable.DeliveryVersusDocumentation` says for which
  tables the messages sent are the documented ones, `SignalTable.ClientPosesAsServer` shows another.
- Removing a client's connections for one object spares a connection of the client to itself of
  which only one end is that object (`tde-tdelibs/dcop/dcopsignals.cpp:243-250`):
  `SignalTable.RemovalVersusDocumentation` says for which tables what is left is as documented,
  `SignalTable.SelfConnectionStays` shows another.
- A list of strings is read back exactly when no element ends in a backslash
  (`ListCodec.RoundTripIff`); what is read otherwise is `ListCodec.Glue`.
- A file is read back exactly when, at every depth, section names are non-empty words without `]` and
  without the letters `END`, keys are visible characters without `=`, and the line of no pair is a
  comment or ends or starts a section; only the last pair of the file may look like a start
  (`SectionTree.RoundTripIff`, and on the text `SectionStream.TextRoundTripIff`). A section called
  `WEEKEND` is lost (`SectionTree.WeekendIsLost`), and so is a pair `[a=b]` with another one behind it
  (`SectionTree.BracketPairIsLost`).
- An `And` rule with a comment behind its first element is taken for a rule that nothing fits, wherever
  it stands in the tree (`MenuConditions.EvalCodes`, `tde-tdelibs/kded/vfolder_menu.cpp:868-889`).
- A merge in which the second menu has priority keeps items and excludes apart exactly when the
  second shows nothing that the first excludes (`MenuPasses.MergeApartIff`).

## Model

| member | source | states |
|---|---|---|
| CallBook.MirroredIsLive | tde-tdelibs/dcop/dcopserver.h:90-103 | with both ends recording the same calls, every entry of every list names a live connection |
| CallBook.CoveredIsLive | tde-tdelibs/dcop/dcopserver.cpp:1203-1245 | under the weaker rule that survives any client, whoever a client waits on is alive |
| CallBook.CloseCounts | tde-tdelibs/dcop/dcopserver.cpp:1203-1245 | closing a connection changes the number of calls between two others not at all, and removes those from and to the dead one on both ends |
| CallBook.PlaceCallKeeps | tde-tdelibs/dcop/dcopserver.cpp:797-822 | a call or find to a client keeps both bookkeeping rules |
| CallBook.TakeReplyKeeps | tde-tdelibs/dcop/dcopserver.cpp:878-907 | a final reply keeps the books equal if and only if it answers a prompt entry or the replier owes that caller nothing |
| CallBook.DeferKeeps | tde-tdelibs/dcop/dcopserver.cpp:878-907 | a request to wait keeps the books equal if and only if it answers a prompt entry |
| CallBook.TakeDelayedKeeps | tde-tdelibs/dcop/dcopserver.cpp:733-742 | a delayed reply keeps the books, asked for or not |
| CallBook.CloseKeeps | tde-tdelibs/dcop/dcopserver.cpp:1194-1245 | the death of a connection keeps the books, and afterwards nobody waits on it |
| CallBook.CloseLivesIff | tde-tdelibs/dcop/dcopserver.cpp:1203-1245 | closing a connection leaves no list entry for it if and only if everybody else owed it what it expected |
| CallBook.OpenKeeps | tde-tdelibs/dcop/dcopserver.cpp:1183-1192 | a new connection starts with empty lists and keeps the books, even under an identity used before |
| ClientNames.Pigeonhole | tde-tdelibs/dcop/dcopserver.cpp:1443-1455 | a dictionary cannot hold more numbered candidates than it has names, so the search for a free name ends |
| ClientNames.CandidateInjective | tde-tdelibs/dcop/dcopserver.cpp:1443-1455 | different numbers give different candidate names |
| ClientNames.CandidateMeans | tde-tdelibs/dcop/dcopserver.cpp:1443-1455 | a candidate is the wanted name, a dash and the number in decimal without leading zeros |
| ClientNames.UniqueNameIsFree | tde-tdelibs/dcop/dcopserver.cpp:1443-1455 | the chosen name is unused and non-empty, is the wanted one exactly when that is free, and otherwise carries the least free number from 2 on |
| ClientNames.Unify | tde-tdelibs/dcop/dcopserver.cpp:1443-1455 | the do-while search ends with the specified name |
| ClientRegistry.NamesUnique | tde-tdelibs/dcop/dcopserver.cpp:1108-1114 | two live clients of the same name are the same client |
| ClientRegistry.RegisterAsKeeps | tde-tdelibs/dcop/dcopserver.cpp:1412-1464 | registering, again or for the first time, keeps names and clients one to one and the regular-client count exact, and gives the wanted name exactly when nobody else has it |
| ClientRegistry.RegisterAsChanges | tde-tdelibs/dcop/dcopserver.cpp:1412-1464 | registering touches the name of this client, its old and its new entry in the dictionary, and stops the timer exactly for a new client |
| ClientRegistry.SetDaemonModeKeeps | tde-tdelibs/dcop/dcopserver.cpp:1370-1410 | switching daemon mode keeps the count of regular clients exact and the timer rule |
| ClientRegistry.SetDaemonModeChanges | tde-tdelibs/dcop/dcopserver.cpp:1370-1410 | the flag of a registered client becomes the one asked for; the timer stops exactly when a daemon becomes a regular client |
| ClientRegistry.DisconnectKeeps | tde-tdelibs/dcop/dcopserver.cpp:1247-1286 | a death keeps the count, the timer rule and the names, and no name is left that maps to the dead client |
| ClientRegistry.DisconnectChanges | tde-tdelibs/dcop/dcopserver.cpp:1247-1286 | a death takes the client and its name and no other, and starts the timer exactly when a server that may end itself has no regular client left, or one asked to end has no name left |
| ClientRegistry.TimerFiresKeeps | tde-tdelibs/dcop/dcopserver.cpp:1289-1307 | when the timer fires without a shutdown request, no regular client is registered |
| ClientRegistry.ShutdownKeeps | tde-tdelibs/dcop/dcopserver.cpp:1309-1329 | a shutdown request keeps the register's invariant |
| ServerRuns.StepKeeps | tde-tdelibs/dcop/dcopserver.cpp:710-921 | every event, whatever a client sends, keeps the register's invariant and the weaker bookkeeping rule |
| ServerRuns.StepMirrors | tde-tdelibs/dcop/dcopserver.cpp:878-907 | an event keeps the books equal if and only if the reply it carries, if any, is harmless |
| ServerRuns.CallAnsweredOrPending | tde-tdelibs/dcop/dcopserver.cpp:797-876 | a call or find is either answered at once by the server with exactly one reply and no change to the books, or passed on and then outstanding once more |
| ServerRuns.MessagePassedOn | tde-tdelibs/dcop/dcopserver.cpp:743-916 | a message of any kind for a registered client sends exactly that message to it, and leaves the register alone |
| ServerRuns.MessageNotPassedOn | tde-tdelibs/dcop/dcopserver.cpp:743-876 | for any other name: a call or find gets one answer, a message for `prefix*` goes to exactly the clients registered under a name with the prefix, nothing else is sent, and the calls stay |
| ServerRuns.ServerFunctionRuns | tde-tdelibs/dcop/dcopserver.cpp:757-834 | the server's own functions run when sent or called, and update the register |
| ServerRuns.CallQueuesUp | tde-tdelibs/dcop/dcopserver.cpp:797-822 | a call or find is recorded behind the others on both ends, and nowhere else |
| ServerRuns.WaitQueuesUp | tde-tdelibs/dcop/dcopserver.cpp:897-903 | a request to wait moves the caller behind those who wait already |
| ServerRuns.DeathSends | tde-tdelibs/dcop/dcopserver.cpp:1208-1229 | a death sends one failure per entry of the two lists of callers, the prompt ones first, in order |
| ServerRuns.RunSound | tde-tdelibs/dcop/dcopserver.cpp:1194-1286 | in every run: names one to one, client count exact, exit timer only without regular clients, nobody expects more answers than are owed |
| ServerRuns.RunMirrors | tde-tdelibs/dcop/dcopserver.h:90-103 | in every run of harmless replies both ends of every call record it equally often |
| ServerRuns.RunListsAreLive | tde-tdelibs/dcop/dcopserver.h:90-103 | in a run every entry of every list always names a live connection if and only if every close is of a connection that everybody else owes exactly what it expects |
| ServerRuns.StepLivesIff | tde-tdelibs/dcop/dcopserver.cpp:1203-1245 | and one event keeps the lists free of connections that are gone exactly under that condition |
| ServerRuns.HarmlessIsClean | tde-tdelibs/dcop/dcopserver.h:90-103 | every close in a run of harmless replies is such a one |
| ServerRuns.RunReachesLive | tde-tdelibs/dcop/dcopserver.cpp:1194-1229 | after any run, every message of the next event goes to connections still open when it is sent if and only if the event does not close a connection that owes an answer to itself or to one that is gone; where all closes so far were clean, only an answer to itself can |
| ServerRuns.DisciplinedIsHarmless | tde-tdelibs/dcop/dcopserver.h:90-103 | runs whose replies answer prompt entries are such runs |
| ServerRuns.StrayReplyBreaksBooks | tde-tdelibs/dcop/dcopserver.cpp:897-907 | a run of seven events after which the books differ: the demand on replies is needed |
| ServerRuns.StrayWaitReachesDead | tde-tdelibs/dcop/dcopserver.cpp:897-916 | after a request to wait that answers no call and the death of its receiver, the sender's death makes the server write to a connection that was already gone |
| ServerRuns.StrayReplyReachesDead | tde-tdelibs/dcop/dcopserver.cpp:897-907 | the same after a call, a request to wait and a final reply |
| ServerRuns.SelfCallReachesDead | tde-tdelibs/dcop/dcopserver.cpp:1200-1229 | a disciplined run of three events after which closing a client sends it a failure when it is gone |
| ServerRuns.CloseLeavesNoWaiter | tde-tdelibs/dcop/dcopserver.cpp:1203-1245 | after any run, closing a connection leaves no client waiting on it and no name mapped to it |
| ServerRuns.NoSuicideWithClients | tde-tdelibs/dcop/dcopserver.cpp:1289-1307 | a server that exits without a shutdown request has no regular client registered |
| ServerRuns.ShutdownEnds | tde-tdelibs/dcop/dcopserver.cpp:1279-1329 | after a shutdown request a server that has not exited has its timer running, which then ends it, or a registered client |
| ServerRuns.ShutdownIsHeard | tde-tdelibs/dcop/dcopserver.cpp:1309-1329 | a shutdown request is recorded, and ends the server at once exactly when no client is registered |
| ServerRuns.LonelyServerExits | tde-tdelibs/dcop/dcopserver.cpp:1279-1307 | a server that may end itself has ended when a death leaves no regular client and the timer fires twice; a timer that never fired only warns first |
| ServerRuns.TimerNeedsCause | tde-tdelibs/dcop/dcopserver.cpp:1289-1307 | in every run the timer is off until a death or a shutdown request, and wired to the warning until it has fired |
| CallLedger.StepConserves | tde-tdelibs/dcop/dcopserver.cpp:710-921 | one event changes the calls outstanding between two clients by the calls it passes on minus those it resolves |
| CallLedger.CallsConserved | tde-tdelibs/dcop/dcopserver.cpp:797-916 | in every disciplined run, for each caller and callee: calls passed on == final replies passed back + failures made up for a dead callee + calls of a dead caller + calls outstanding |
| CallLedger.AllCallsConserved | tde-tdelibs/dcop/dcopserver.h:90-103 | in every disciplined run, summed over all callers and callees: calls passed on == calls resolved + the lengths of all live lists of awaited replies |
| DcopServer.Broker.WatchConnection | tde-tdelibs/dcop/dcopserver.cpp:1183-1192 | opening makes exactly the step of the state machine and keeps its invariant |
| DcopServer.Broker.ProcessMessage | tde-tdelibs/dcop/dcopserver.cpp:710-921 | any message makes exactly the step of the state machine, and sends exactly its messages, in order |
| DcopServer.Broker.Receive | tde-tdelibs/dcop/dcopserver.cpp:1345-1455 | the server's own functions update the register as specified, and the result says whether the function is known |
| DcopServer.Broker.RegisterAs | tde-tdelibs/dcop/dcopserver.cpp:1412-1464 | the in-place registration is the specified one |
| DcopServer.Broker.AbortCallers | tde-tdelibs/dcop/dcopserver.cpp:1208-1229 | the loops over a dead callee's callers send one failure per entry and take one entry from each caller still alive |
| DcopServer.Broker.ForgetCaller | tde-tdelibs/dcop/dcopserver.cpp:1231-1245 | the loop over a dead caller's callees takes one prompt entry, or else one delayed entry, from each |
| DcopServer.Broker.RemoveConnection | tde-tdelibs/dcop/dcopserver.cpp:1194-1286 | a closed connection makes exactly the step of the state machine and keeps its invariant |
| DcopServer.Broker.TimerFires | tde-tdelibs/dcop/dcopserver.cpp:1289-1307 | the timer slots make exactly the step of the state machine |
| DcopServer.Broker.SlotShutdown | tde-tdelibs/dcop/dcopserver.cpp:1309-1329 | a shutdown request makes exactly the step of the state machine |
| OutputChannel.WriteAppends | tde-tdelibs/dcop/dcopserver.cpp:239-314 | a write, blocked or not and however much the kernel accepts, appends exactly its bytes to the stream; after a fatal error nothing is queued and at most a prefix was sent |
| OutputChannel.PushMeans | tde-tdelibs/dcop/dcopserver.cpp:165-237 | up to the first answer that ends it the send loop sends what the kernel takes, interruptions apart; a fatal error gives the rest up, anything else leaves it |
| OutputChannel.ReadyKeeps | tde-tdelibs/dcop/dcopserver.cpp:331-384 | sending queued bytes never changes the stream, and what the kernel accepts makes the queue smaller |
| OutputChannel.StreamIntact | tde-tdelibs/dcop/dcopserver.cpp:165-384 | in every run of writes and partial sends: sent bytes and queued bytes are the submitted bytes in order, the channel is blocked exactly while chunks wait, and after a fatal error what was sent is a prefix |
| OutputChannel.Drains | tde-tdelibs/dcop/dcopserver.cpp:331-384 | once the kernel has accepted often enough the queue is empty and the whole stream got through |
| OutputChannel.Output.WriteIceData | tde-tdelibs/dcop/dcopserver.cpp:165-237 | the send loop accepts, leaves and fails as specified for every sequence of kernel answers |
| OutputChannel.Output.IceWrite | tde-tdelibs/dcop/dcopserver.cpp:239-314 | both writers update the queue as specified |
| OutputChannel.Output.SlotOutputReady | tde-tdelibs/dcop/dcopserver.cpp:331-384 | the ready slot updates the queue as specified |
| SignalTable.SlotMayIgnoreArguments | tde-tdelibs/dcop/dcopsignals.cpp:97-130 | the length-and-comma test accepts a slot if and only if its argument list is a leading part of the signal's |
| SignalTable.CompatibleMeans | tde-tdelibs/dcop/dcopsignals.cpp:97-130 | signal and slot fit if and only if both have an argument list between their first brackets and the slot's is a leading part of the signal's |
| SignalTable.DeliveryVersusDocumentation | tde-tdelibs/dcop/dcopsignals.cpp:50-78 | the messages sent over a table are the documented ones if and only if it holds no record of the signal for the sender `DCOPServer` that is served although a client of another name emits |
| SignalTable.ClientPosesAsServer | tde-tdelibs/dcop/dcopsignals.cpp:50-78 | a table built by connecting, from which a client sends what only the server should |
| SignalTable.RemovalVersusDocumentation | tde-tdelibs/dcop/dcopsignals.cpp:236-255 | what is left after removing a client's connections for one object is what the documentation says if and only if the table holds no connection of the client to itself of which exactly one end is the object |
| SignalTable.SelfConnectionStays | tde-tdelibs/dcop/dcopsignals.cpp:243-250 | a connection of a client to itself that stays although the documentation says it goes |
| SignalTable.SweepIsFilter | tde-tdelibs/dcop/dcopsignals.cpp:185-220 | removing while the cursor runs over one list leaves exactly the records that do not match |
| SignalTable.EachRecordOnce | tde-tdelibs/dcop/dcopsignals.cpp:136-156 | every record is once in its signal's list, once in the list of each client it involves, and nothing else is in any list |
| SignalTable.Table.ConnectSignal | tde-tdelibs/dcop/dcopsignals.cpp:97-156 | connecting appends one new record to the flat list if and only if slot and signal fit and a volatile sender exists, and keeps all lists views of it |
| SignalTable.Table.DisconnectSignal | tde-tdelibs/dcop/dcopsignals.cpp:168-222 | disconnecting removes exactly the matching records, and reports whether there was one |
| SignalTable.DisconnectUndoesConnect | tde-tdelibs/dcop/dcopsignals.cpp:168-222 | disconnecting with the arguments of the last connection undoes it, and leaves the table as before if and only if no other record is alike in these arguments, an empty object or slot standing for every one |
| SignalTable.Table.RemoveConnections | tde-tdelibs/dcop/dcopsignals.cpp:230-272 | removes exactly the records of a client, or of one of its objects, from every list; without an object, no record of the client is left |
| SignalTable.Table.EmitSignal | tde-tdelibs/dcop/dcopsignals.cpp:38-84 | for the object and signal that the text names, sends one message per record served, in connect order |
| SignalTable.NamesSplit | tde-tdelibs/dcop/dcopsignals.cpp:42-47 | every function text names exactly one object and signal: what stands before and behind its first `#`, or no object |
| SignalRuns.BusStepKeeps | tde-tdelibs/dcop/dcopserver.cpp:1194-1198 | a message, a connection made or dropped, or a close keeps every record between connected clients |
| SignalRuns.RunConnected | tde-tdelibs/dcop/dcopserver.cpp:1194-1198 | in every run, whatever clients send, both ends of every signal connection are connected |
| SignalRuns.EmittedToLive | tde-tdelibs/dcop/dcopsignals.cpp:38-84 | in every run a signal is delivered to connected clients only |
| SignalRuns.EmittedMeans | tde-tdelibs/dcop/dcopserver.cpp:1360-1368 | what is sent for a text that names an object and a signal is what the table serves for these, and nothing when the emitter is not connected |
| SignalRuns.EmptyRequestForgets | tde-tdelibs/dcop/dcopsignals.cpp:172-176 | a request that names neither sender nor signal nor object drops exactly the records that involve the client |
| SignalRuns.SignalServer.ConnectSignal | tde-tdelibs/dcop/dcopserver.cpp:1509-1528 | a request makes exactly the step of the joined machine and keeps its invariant; it succeeds exactly when something changes |
| SignalRuns.SignalServer.DisconnectSignal | tde-tdelibs/dcop/dcopserver.cpp:1529-1546 | a request makes exactly the step of the joined machine, keeps its invariant, and reports whether there was a connection to drop |
| SignalRuns.SignalServer.EmitSignal | tde-tdelibs/dcop/dcopserver.cpp:1360-1368 | an emission changes nothing and sends one message per record served, each to a connected client |
| SignalRuns.SignalServer.RemoveConnection | tde-tdelibs/dcop/dcopserver.cpp:1194-1198 | a close drops the signal connections first and then makes the server's step |
| MenuConditions.EvalCodes | tde-tdelibs/kded/vfolder_menu.cpp:850-973 | started from nothing, evaluation of any rule tree selects an application if and only if it is in scope and fits the rule, where an `And` with a late comment, at any depth, fits nothing |
| MenuConditions.EvalMeans | tde-tdelibs/kded/vfolder_menu.cpp:850-973 | without late comments, evaluation selects an application if and only if it is in scope and fits the rule as it is meant |
| MenuConditions.EvalSelects | tde-tdelibs/kded/vfolder_menu.cpp:850-973 | the selected set is the set of ids in scope that fit the rule as coded, and as meant when it has no late comments |
| MenuConditions.EvalWithin | tde-tdelibs/kded/vfolder_menu.cpp:850-973 | whatever the comments, only applications in scope are added |
| MenuConditions.EvalServes | tde-tdelibs/kded/vfolder_menu.cpp:850-973 | each selected application comes with the service of one frame: for a category the last that has it there, for a file name the first, for `All` and `Not` the last, for an `And` that of its first element, for an `Or` that of its last child that fits |
| MenuConditions.EvalKeeps | tde-tdelibs/kded/vfolder_menu.cpp:850-973 | what evaluation keeps and adds when the dictionary is not empty at the start |
| MenuConditions.AndNotIsComplement | tde-tdelibs/kded/vfolder_menu.cpp:870-881 | subtracting the children of a `Not` is intersecting with its own evaluation |
| MenuConditions.LateCommentEmptiesAnd | tde-tdelibs/kded/vfolder_menu.cpp:868-889 | a comment behind the first element of an `And` empties whatever dictionary it is given |
| MenuConditions.CommentChangesResult | tde-tdelibs/kded/vfolder_menu.cpp:868-889 | an application that fits and is not selected, and inside a `Not` one that does not fit and is selected, because of a comment |
| MenuConditions.Dict.Include | tde-tdelibs/kded/vfolder_menu.cpp:115-122 | the iterator loop adds the other dictionary, whose services replace |
| MenuConditions.Dict.Keep | tde-tdelibs/kded/vfolder_menu.cpp:124-134 | removing while iterating keeps exactly the common ids |
| MenuConditions.Dict.Exclude | tde-tdelibs/kded/vfolder_menu.cpp:136-143 | the iterator loop removes exactly the other dictionary's ids |
| MenuConditions.AppsInfo.BuildIndex | tde-tdelibs/kded/vfolder_menu.cpp:334-370 | afterwards used applications have left the pool, if asked for, and each category lists each service of the pool as often as the service names the category, and no others |
| MenuConditions.BuildApplicationIndex | tde-tdelibs/kded/vfolder_menu.cpp:334-370 | the same for every level of the menu file |
| MenuConditions.ProcessCondition | tde-tdelibs/kded/vfolder_menu.cpp:850-973 | the in-place evaluator, reading the category index, fills the dictionary as specified over the pools |
| MenuConditions.SelectItems | tde-tdelibs/kded/vfolder_menu.cpp:850-973 | a rule evaluated in place selects exactly the applications in scope that fit it as coded, and as meant when it has no late comments |
| MenuTrees.MergeAt | tde-tdelibs/kded/vfolder_menu.cpp:171-269 | after a merge, a menu that only one tree has at a path is there unchanged with all below it, and where both have one there is their merge |
| MenuTrees.MergeMeaning | tde-tdelibs/kded/vfolder_menu.cpp:179-220 | at every path of both trees: which applications the result shows and excludes and with which service, its name and deleted flag, and each attribute by cases: the value of the menu with priority, and the other's where that gives none |
| MenuTrees.MergePlain | tde-tdelibs/kded/vfolder_menu.cpp:171-269 | merging keeps sibling names distinct |
| MenuTrees.MergeOrder | tde-tdelibs/kded/vfolder_menu.cpp:195-199 | merging keeps the submenus in place and puts the new ones behind, in their own order |
| MenuTrees.InsertAtTarget | tde-tdelibs/kded/vfolder_menu.cpp:231-269 | inserting at a path merges into the menu there, or places the menu there under the last name |
| MenuTrees.InsertElsewhere | tde-tdelibs/kded/vfolder_menu.cpp:231-269 | elsewhere menus are kept, and the only new ones are empty menus on the way |
| MenuTrees.InsertPathPlain | tde-tdelibs/kded/vfolder_menu.cpp:231-269 | inserting at a path keeps sibling names distinct |
| MenuTrees.TakeTakes | tde-tdelibs/kded/vfolder_menu.cpp:145-169 | what is taken is what was at the path, and when there is nothing the tree stays the same |
| MenuTrees.TakeAt | tde-tdelibs/kded/vfolder_menu.cpp:145-169 | afterwards nothing is at the path or below it, and every other menu is as it was but for that |
| MenuTrees.TakeNotSolid | tde-tdelibs/kded/vfolder_menu.cpp:148-150 | a path with an empty inner name takes nothing |
| MenuTrees.MoveTarget | tde-tdelibs/kded/vfolder_menu.cpp:1441-1463 | a move merges the menu with all below it into what is at the new path, which has priority, or puts it there under the last name; before that the new path holds what it held, but for what was taken |
| MenuTrees.MoveElsewhere | tde-tdelibs/kded/vfolder_menu.cpp:1441-1463 | nothing is left at the old path, menus off both ways stay with all below them, those on the way keep their own part, and the only new menus are empty ones on the way |
| MenuTrees.MovePlain | tde-tdelibs/kded/vfolder_menu.cpp:1441-1463 | a move by any two path strings keeps sibling names distinct |
| SubMenus.SubMenu.MergeMenu | tde-tdelibs/kded/vfolder_menu.cpp:171-229 | merging menu objects in place, using up the second, gives the merge of their trees, and the object stays a tree of disjoint parts |
| SubMenus.SubMenu.InsertSubMenu | tde-tdelibs/kded/vfolder_menu.cpp:231-269 | inserting an object at a path gives the insertion of its tree |
| SubMenus.SubMenu.TakeSubMenu | tde-tdelibs/kded/vfolder_menu.cpp:145-169 | the object taken is disjoint from what is left, and both have the specified trees |
| SubMenus.SubMenu.MoveSubMenu | tde-tdelibs/kded/vfolder_menu.cpp:1441-1463 | the move rule on objects is the move of trees |
| MenuPasses.MergeApartIff | tde-tdelibs/kded/vfolder_menu.cpp:179-194 | a merge keeps one menu's items and excludes apart if and only if the first has priority or the second shows nothing that the first excludes |
| MenuPasses.ForwardMergeBreaks | tde-tdelibs/kded/vfolder_menu.cpp:187-194 | two menus whose merge both shows and excludes an application |
| MenuPasses.MergeEvery | tde-tdelibs/kded/vfolder_menu.cpp:171-229 | a property of items and excludes that merging two menus keeps is kept, at every menu, by merging two trees |
| MenuPasses.InsertEvery | tde-tdelibs/kded/vfolder_menu.cpp:231-269 | and by inserting at any path |
| MenuPasses.Pass0NoExcludes | tde-tdelibs/kded/vfolder_menu.cpp:1210-1251 | in pass 0, legacy merges included, no menu of the tree excludes anything |
| MenuPasses.LaterPassDisjoint | tde-tdelibs/kded/vfolder_menu.cpp:1347-1467 | passes 1 and 2 keep items and excludes apart in every menu of the tree |
| MenuPasses.PassesDisjoint | tde-tdelibs/kded/vfolder_menu.cpp:1637-1656 | after each of the three passes, no menu both shows and excludes an application |
| MenuPasses.PassesPlain | tde-tdelibs/kded/vfolder_menu.cpp:1637-1656 | after each of the three passes, for files and legacy menus whose names hold no slash, sibling names are distinct and hold none |
| MenuContents.NodesRule | tde-tdelibs/kded/vfolder_menu.cpp:1347-1392 | the rules of an element put an application where the last rule that fits it says, with the service that rule selects, leave all others where they are, and include exactly what an include rule fits |
| MenuContents.FirstPassBuilds | tde-tdelibs/kded/vfolder_menu.cpp:1210-1251 | pass 0 sets the attributes of each menu, and in order creates or finds the menus of the elements and merges the legacy menus with priority |
| MenuContents.DirectoryFileAfterPass0 | tde-tdelibs/kded/vfolder_menu.cpp:1242-1245 | after pass 0 the directory file of a menu is the last one given by what was there, its element and its legacy menus |
| MenuContents.LaterPassPasses | tde-tdelibs/kded/vfolder_menu.cpp:1347-1467 | in pass 1, and in pass 2 for `OnlyUnallocated`, each element fills its own menu by its rules; other menus and attributes stay, and in pass 2 its moves follow, one after the other |
| MenuContents.MissingFillsParent | tde-tdelibs/kded/vfolder_menu.cpp:1252-1270 | an element whose menu is missing in a later pass fills the menu of its parent |
| MenuContents.IncludedExactly | tde-tdelibs/kded/vfolder_menu.cpp:1347-1368 | a pass includes exactly the applications that fit an include rule of an element of that pass |
| MenuContents.FilledAtPath | tde-tdelibs/kded/vfolder_menu.cpp:1347-1467 | where nothing moves, the menu at every path is filled by the element at that path, or stays as it is |
| MenuContents.PassesFinish | tde-tdelibs/kded/vfolder_menu.cpp:1637-1656 | the three passes one after the other: built, filled from all applications, filled from what pass 1 left, then moved |
| MenuAllocation.OnlyUnallocatedIncluded | tde-tdelibs/kded/vfolder_menu.cpp:1347-1368 | nothing that a rule includes in pass 2 was marked used before pass 2, and all of it is marked used afterwards |
| MenuAllocation.PrunedSelection | tde-tdelibs/kded/vfolder_menu.cpp:334-370 | for every rule, `Not` and comments included, selecting from the pruned pools is selecting from the full ones and leaving out what is used |
| MenuAllocation.Pass2Selection | tde-tdelibs/kded/vfolder_menu.cpp:1645-1648 | a rule picks in pass 2 exactly what it would pick from the full pools of its scope, without what was used before |
| MenuAllocation.EarlyPassExtends | tde-tdelibs/kded/vfolder_menu.cpp:1210-1270 | passes 0 and 1 only add menus, and after pass 0 there is a menu for every element of the file |
| MenuAllocation.EveryMenuFound | tde-tdelibs/kded/vfolder_menu.cpp:1252-1270 | when elements next to each other have different names, no element in any pass falls back to its parent's menu |
| VFolderMenu.Engine.ApplyRulesTo | tde-tdelibs/kded/vfolder_menu.cpp:1353-1392 | the loops over includes and excludes update the current menu and the used applications as specified |
| VFolderMenu.Engine.ProcessMenu | tde-tdelibs/kded/vfolder_menu.cpp:1151-1475 | one element of the file processed on submenu objects, created or found or replaced by the parent, is the specified step |
| VFolderMenu.Engine.ParseMenu | tde-tdelibs/kded/vfolder_menu.cpp:1616-1665 | the three passes on objects, with the pools indexed and pruned between them, give the specified tree and used applications |
| VFolderMenu.Engine.BuildMenus | tde-tdelibs/kded/vfolder_menu.cpp:1616-1665 | the finished tree never shows what it excludes, pass 2 included nothing used before it, every element found its menu, sibling names are distinct, and every menu holds what the last rule that fits puts there |
| DirectoryList.NextIsFree | tde-tdelibs/kded/vfolder_menu.cpp:93-104 | in a sorted list, an entry that does not lie in the one before lies in no earlier one |
| Text.LessMeans | tde-tdelibs/kded/vfolder_menu.cpp:85-106 | the order of the list: a proper prefix comes first, otherwise the smaller character where two strings first differ |
| DirectoryList.KeptAreMinimal | tde-tdelibs/kded/vfolder_menu.cpp:85-106 | a directory is kept if and only if it is registered and lies in no other registered directory |
| DirectoryList.Directories.Reduce | tde-tdelibs/kded/vfolder_menu.cpp:85-106 | the list ends sorted, free of prefixes and covering every registered directory |
| Text.PrefixBetween | tde-tdelibs/kded/vfolder_menu.cpp:93-104 | a string between a prefix and its extension has the prefix |
| StringCodec.RoundTrip | tde-tdelibs/kab/qconfigDB.cpp:314-466 | parsing a quoted string gives it back and reports the whole encoded length |
| StringCodec.QuotedParses | tde-tdelibs/kab/qconfigDB.cpp:314-413 | the parser stops at the closing quote, whatever follows |
| StringCodec.ParseMeans | tde-tdelibs/kab/qconfigDB.cpp:314-413 | the parser accepts exactly a quote, legal characters and escapes and a quote, white space in front apart, and gives their meaning and length |
| StringCodec.EscapedIsFlat | tde-tdelibs/kab/qconfigDB.cpp:416-466 | a stored string holds no line break and no tab |
| StringCodec.QuoteInjective | tde-tdelibs/kab/qconfigDB.cpp:416-466 | different strings are stored differently |
| StringCodec.MakeComplexString | tde-tdelibs/kab/qconfigDB.cpp:416-466 | the writing loop produces the specified form |
| StringCodec.ParseComplexString | tde-tdelibs/kab/qconfigDB.cpp:314-413 | the parsing loop accepts, rejects and counts as specified |
| ListCodec.ElementIsClean | tde-tdelibs/kab/qconfigDB.cpp:1120-1143 | the text of an escaped element contains no delimiter, whatever stands around it |
| ListCodec.CloserSeen | tde-tdelibs/kab/qconfigDB.cpp:1128-1137 | the delimiter after an element is recognised if and only if the element does not end in a backslash |
| ListCodec.DecodeEncoded | tde-tdelibs/kab/qconfigDB.cpp:1103-1204 | reading back any stored list gives the elements, each that ends in a backslash glued to the next |
| ListCodec.DecodeMeans | tde-tdelibs/kab/qconfigDB.cpp:1103-1171 | any text: cut at its delimiters it gives the values of all parts in order, and fails exactly when some part does not parse |
| ListCodec.RoundTripIff | tde-tdelibs/kab/qconfigDB.cpp:1103-1204 | a list is read back as it was if and only if no element ends in a backslash |
| ListCodec.BackslashRunsOn | tde-tdelibs/kab/qconfigDB.cpp:1128-1137 | a list of two elements, the first ending in a backslash, that is read back as one |
| ListCodec.EncodeList | tde-tdelibs/kab/qconfigDB.cpp:1178-1204 | the writing loop produces the specified form |
| ListCodec.DecodeList | tde-tdelibs/kab/qconfigDB.cpp:1103-1171 | the scanning loops read the specified elements |
| SectionLines.BeginRecognised | tde-tdelibs/kab/qconfigDB.cpp:1662-1758 | the start line of a good name is a start, no end and no comment at any depth, and gives back the name |
| SectionLines.EndRecognised | tde-tdelibs/kab/qconfigDB.cpp:1688-1726 | the end line of a good name is an end |
| SectionLines.PairRecognised | tde-tdelibs/kab/qconfigDB.cpp:557-609 | at any depth the line of a pair with a plain key gives back key and value, is a comment exactly when the key starts with `#`, and starts or ends a section exactly when it does without indentation |
| SectionLines.NameSurvivesIff | tde-tdelibs/kab/qconfigDB.cpp:1662-1758 | a name written as a start line is read back if and only if it is good |
| SectionLines.LooseBegin | tde-tdelibs/kab/qconfigDB.cpp:1662-1758 | a start line with any other white space is recognised and gives back its name |
| SectionLines.LooseEnd | tde-tdelibs/kab/qconfigDB.cpp:1688-1726 | so is an end line, with anything behind its `END` |
| SectionLines.ParsePairMeans | tde-tdelibs/kab/qconfigDB.cpp:557-609 | any line: its pair is what stands around the first equals sign, the key without what is not visible |
| SectionTree.ReadClosedIff | tde-tdelibs/kab/qconfigDB.cpp:1592-1659 | reading a nested section restores it and returns at exactly its own end line, whatever follows, if and only if its names and pairs are good at every depth |
| SectionTree.RoundTripIff | tde-tdelibs/kab/qconfigDB.cpp:1550-1659 | reading the lines written for any tree restores exactly that tree if and only if its names are good, siblings are in order and every pair line is read as a pair, the last one of the file by its laxer test |
| SectionTree.ReadFormed | tde-tdelibs/kab/qconfigDB.cpp:1592-1659 | whatever the lines, a section that was read has good names, plain keys and ordered siblings at every depth, and no more pairs than lines that can be taken for one |
| SectionTree.ReadAddsPair | tde-tdelibs/kab/qconfigDB.cpp:1613-1636 | reading a pair adds it, unless its key is there already; no other key changes |
| SectionTree.ReadReopens | tde-tdelibs/kab/qconfigDB.cpp:1636-1650 | a section that is met again goes on with what it holds, and the others stay |
| SectionTree.ReadIntoCutOff | tde-tdelibs/kab/qconfigDB.cpp:1636-1650 | when the file ends inside a nested section, what was read of it is kept |
| SectionTree.WeekendIsLost | tde-tdelibs/kab/qconfigDB.cpp:1678-1684 | a file of one section called `WEEKEND` is not read back as it was |
| SectionTree.BracketPairIsLost | tde-tdelibs/kab/qconfigDB.cpp:1613-1636 | a pair that looks like a section start is read back at the end of a file and not before another pair |
| SectionTree.ReadUnclosed | tde-tdelibs/kab/qconfigDB.cpp:1608-1634 | for any tree whose end line is missing at the end of the file: the section is reported as unfinished with everything written for it, if and only if it would be read back as a whole file |
| SectionStream.TextRoundTripIff | tde-tdelibs/kab/qconfigDB.cpp:1550-1659 | the same for the text of the whole file with its comment lines on top, if and only if moreover no key or value holds a line break |
| SectionStream.TextInjective | tde-tdelibs/kab/qconfigDB.cpp:1550-1590 | different trees that survive are written differently |
| SectionStream.TextStream.ReadLineFromStream | tde-tdelibs/kab/qconfigDB.cpp:100-124 | the loop returns the next line that is no comment and consumes up to there |
| SectionStream.InsertLine | tde-tdelibs/kab/qconfigDB.cpp:557-609 | the backward loop over the key and the insertion store the specified pair, or nothing |
| SectionStream.IsEndOfSection | tde-tdelibs/kab/qconfigDB.cpp:1688-1726 | the two scanning loops decide whether a line ends a section |
| SectionStream.NameOfSection | tde-tdelibs/kab/qconfigDB.cpp:1729-1758 | the two scanning loops find the name of a section |
| SectionStream.ReadSection | tde-tdelibs/kab/qconfigDB.cpp:1592-1659 | the reading loop, recursive at each start line, consumes the stream and builds the section as specified, missing ends included |
| SectionStream.SaveSection | tde-tdelibs/kab/qconfigDB.cpp:1550-1590 | the writing loops append the specified lines |
| SectionStream.SaveAndLoad | tde-tdelibs/kab/qconfigDB.cpp:1550-1659 | saving to a stream and reading the stream back restores the tree if and only if it survives |
| RebuildScheduler.RunKeeps | tde-tdelibs/kded/kded.cpp:474-562 | in every run: transactions are ended once each and in order of arrival, only by a build that started after they arrived, and an arrival no build covers yet has the timer running or another build in store |
| RebuildScheduler.DoneAnswers | tde-tdelibs/kded/kded.cpp:503-524 | when a build ends, the transactions ended so far are exactly those that arrived before it started, in order; the new ones are recorded with its start and were all asked for |
| RebuildScheduler.BuildStartIsLatest | tde-tdelibs/kded/kded.cpp:474-502 | the start of the latest build is the time of the last timer event that took effect |
| RebuildScheduler.ArrivalsAreTimed | tde-tdelibs/kded/kded.cpp:531-562 | the clock goes on with every event that happens, and each arrival is recorded with its time |
| RebuildScheduler.RestMeansDone | tde-tdelibs/kded/kded.cpp:503-562 | an idle daemon has ended every transaction, and its last build started after every change |
| RebuildScheduler.ComesToRest | tde-tdelibs/kded/kded.cpp:503-541 | left alone, the daemon is idle after at most one more build |
| RebuildScheduler.Kded.Update | tde-tdelibs/kded/kded.cpp:531-541 | the handler makes exactly the specified step and keeps the invariant |
| RebuildScheduler.Kded.ProcessRecreate | tde-tdelibs/kded/kded.cpp:543-562 | the handler makes exactly the specified step and keeps the invariant |
| RebuildScheduler.Kded.RecreateDone | tde-tdelibs/kded/kded.cpp:503-524 | the loop ends exactly the transactions that arrived before the build started and were not ended yet, in order, and keeps the invariant |
| SignatureForm.Idempotent | tde-tdelibs/dcop/dcopclient.cpp:1055-1080 | normalising twice is normalising once |
| SignatureForm.EqualFormsIffSameMarks | tde-tdelibs/dcop/dcopclient.cpp:1055-1080 | two signatures have the same form if and only if they have the same visible characters and the same gaps between identifier characters |
| SignatureForm.KeepsVisible | tde-tdelibs/dcop/dcopclient.cpp:1055-1080 | the visible characters are kept, in order |
| SignatureForm.NeverLonger | tde-tdelibs/dcop/dcopclient.cpp:1055-1080 | the form is never longer than the signature |
| SignatureForm.BlanksSeparateIdentifiers | tde-tdelibs/dcop/dcopclient.cpp:1061-1071 | white space in the form is single blanks, each between two identifier characters |
| SignatureForm.IdentifierChars | tde-tdelibs/dcop/dcopclient.cpp:1049-1053 | an identifier character is a letter, a digit or an underscore |
| SignatureForm.NormalizeFunctionSignature | tde-tdelibs/dcop/dcopclient.cpp:1055-1080 | the two-pointer rewrite stays inside its buffer and produces the form |

## Left out

- DcopServer.Broker.ProcessMessage: the keys and the bytes that a message carries are not passed through; connections are records in dictionaries keyed by identity, not objects that point at each other, so aliasing between connection objects is not modelled; the register, the calls and the output queue of a connection are three models.
- DcopServer.Broker.Receive: of the server's own functions, `registerAs` and `setDaemonMode` are modelled here, and `emit` and connecting and disconnecting signals in `SignalRuns`; the others touch neither the call lists nor the register and appear as one known or unknown function.
- DcopServer.Broker.RegisterAs: the second name `plainAppId`, which nothing here reads, and the broadcast of the registration.
- DcopServer.Broker.RemoveConnection: the broadcast that an application is gone; dropping its signal connections is `SignalRuns.SignalServer.RemoveConnection`.
- DcopServer.Broker.TimerFires: the signal `terminateTDE` and the shutdown helper process; the exit is a flag.
- DcopServer.Broker.SlotShutdown: the signal `terminateTDE` that announces the shutdown.
- SignalTable.Table.EmitSignal: a message is its receiver, object and slot; the sender's name and the data, the same in all of them, are not carried.
- SignalTable.Table.ConnectSignal: records are values with an address of their own, and the lists hold these values.
- SectionStream.ReadSection: sections are values that the reader rebuilds, not objects behind pointers; a section line without a name, which the source leaves undefined, ends the model's read.
- SectionLines.PairRecognised: character classes are those of the C locale.
- SectionStream.TextRoundTripIff: a line ends at a line feed; what the stream class does with a carriage return is not part of this model, so for values with one the statement has no counterpart.
- StringCodec.RoundTrip: strings are sequences of characters; a C string ends at its first NUL, so the statement about strings with a NUL inside has no counterpart.
- ClientNames.Unify: the counter is unbounded where the source has an `int`.
- VFolderMenu.Engine.ProcessMenu: scanning application, directory and legacy directories and the stack of scopes; what they find for each element is given with the element.
- VFolderMenu.Engine.ParseMenu: starts from a menu file already merged into one document, with the pools, directory files and legacy menus given; layout and the forced loading of the legacy directories are left out.
- MenuPasses.Process: a legacy directory named twice in one file is outside the model, because the source then uses a menu it has already deleted.
- RebuildScheduler.Kded.Update: the delayed check at start-up is off; build and timer are events that come when they come.
- OutputChannel.Output.WriteIceData: the kernel's answers are given in advance. A `send` of 0 is judged by the left-over `errno` in the source, so it is one of the three error answers here; the I/O error handlers that a fatal error calls are left out.
- OutputChannel.Output.SlotOutputReady: a `send` of 0 on a chunk with bytes left changes nothing, as an interrupted one does.
- ICE connection set-up, authentication, sockets, signals, lock and address files.
- Broadcasts of registered and removed applications, and the count of clients that want them.
- `DCOPClient` calls and its event loop.
- Reading menu files: `mergeMenus`, `mergeFile`, comments outside rules, layout nodes and `layoutMenu`.
- Lock files and file watching of the configuration database, and its other value types.
- Building the service database itself, the address book and the remaining programs of the repository.
