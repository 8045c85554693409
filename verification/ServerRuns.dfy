/** The DCOP server as a state machine over its events, and what holds in every run. */
module ServerRuns {
  import opened Lists
  import opened Optional
  import opened CallBook
  import opened ClientNames
  import opened ClientRegistry

  datatype Opcode = Send | ReplyDelayed | Call | Find | Reply | ReplyFailed | ReplyWait

  /** A request to the server itself; `Other` covers the functions that touch neither the
      call books nor the register, and malformed requests (`known == false`). */
  datatype ServerFun = RegisterAs(app: string) | SetDaemonMode(daemon: bool) | Other(known: bool)

  datatype Message = Message(op: Opcode, toApp: string, fun: ServerFun)

  datatype Out =
    | Forward(op: Opcode, from: Id, to: Id)
    | Multicast(recipients: set<Id>)
    | ServerReply(to: Id, failed: bool)
    | Abort(to: Id, dead: Id)          // a DCOPReplyFailed made by the server

  datatype Server = Server(book: Book, reg: Registry)

  datatype Event =
    | Opened(id: Id)
    | Received(from: Id, m: Message)
    | Closed(id: Id)
    | TimerFired
    | ShutdownRequested

  function FindApp(s: Server, app: string): Maybe<Id> {
    if app in s.reg.names then Just(s.reg.names[app]) else Nothing
  }

  /** `receive`: the server's own functions. */
  ghost function Receive(s: Server, from: Id, f: ServerFun): Server {
    match f
    case RegisterAs(app) => s.(reg := ClientRegistry.RegisterAs(s.reg, from, app))
    case SetDaemonMode(daemon) => s.(reg := ClientRegistry.SetDaemonMode(s.reg, from, daemon))
    case Other(_) => s
  }

  predicate Known(f: ServerFun) {
    f.Other? ==> f.known
  }

  /** The registered clients whose name starts with everything before the final `*`. */
  function MulticastTargets(s: Server, toApp: string): set<Id>
    requires toApp != ""
  {
    set n | n in s.reg.names && toApp[..|toApp| - 1] <= n :: s.reg.names[n]
  }

  /** The two books, and the register's view of who is connected, describe the same clients. */
  ghost predicate Linked(s: Server) {
    && s.book.Keys == s.reg.clients.Keys
    && NamesMatch(s.reg)
  }

  /** `processMessage`. */
  ghost function Handle(s: Server, from: Id, m: Message): (Server, seq<Out>)
    requires Linked(s)
  {
    if from !in s.book then (s, [])
    else
      match FindApp(s, m.toApp)
      case Just(target) => HandleClient(s, from, m.op, target)
      case Nothing => HandleServer(s, from, m)
  }

  /** What a message of each kind for a connected client does to the call books. */
  function UpdateBook(t: Book, op: Opcode, from: Id, target: Id): Book
    requires from in t && target in t
  {
    match op
    case Send => t
    case ReplyDelayed => TakeDelayed(t, from, target)
    case Call => PlaceCall(t, from, target)
    case Find => PlaceCall(t, from, target)
    case Reply => TakeReply(t, from, target)
    case ReplyFailed => TakeReply(t, from, target)
    case ReplyWait => Defer(t, from, target)
  }

  /** A message for a connected client. */
  function HandleClient(s: Server, from: Id, op: Opcode, target: Id): (Server, seq<Out>)
    requires from in s.book && target in s.book
  {
    (s.(book := UpdateBook(s.book, op, from, target)), [Forward(op, from, target)])
  }

  /** A message for the server, for several clients, or for nobody. */
  ghost function HandleServer(s: Server, from: Id, m: Message): (Server, seq<Out>) {
    if m.op.Send? || m.op.ReplyDelayed? then
      if m.toApp == "DCOPServer" then (Receive(s, from, m.fun), [])
      else if m.toApp != "" && m.toApp[|m.toApp| - 1] == '*' then (s, [Multicast(MulticastTargets(s, m.toApp))])
      else (s, [])
    else if m.op.Call? && m.toApp == "DCOPServer" then
      (Receive(s, from, m.fun), [ServerReply(from, !Known(m.fun))])
    else if m.op.Call? || m.op.Find? then (s, [ServerReply(from, true)])
    else (s, [])
  }

  /** One server-made failure for each caller, in order. */
  function Aborts(callers: seq<Id>, dead: Id): seq<Out> {
    if callers == [] then [] else [Abort(callers[0], dead)] + Aborts(callers[1..], dead)
  }

  /** `removeConnection`. */
  ghost function Drop(s: Server, id: Id): (Server, seq<Out>)
    requires id in s.book && id in s.reg.clients
  {
    (Server(Close(s.book, id), Disconnect(s.reg, id)),
     Aborts(s.book[id].forReply, id) + Aborts(s.book[id].forDelayed, id))
  }

  ghost predicate Enabled(s: Server, e: Event) {
    && !s.reg.exited
    && match e
       case Opened(id) => id !in s.book
       case Received(_, _) => true
       case Closed(id) => id in s.book
       case TimerFired => s.reg.timerActive
       case ShutdownRequested => true
  }

  /** One event; an event that cannot happen now is skipped. */
  ghost function Step(s: Server, e: Event): (Server, seq<Out>) {
    if !Linked(s) || !Enabled(s, e) then (s, []) else
    match e
    case Opened(id) => (Server(s.book[id := NO_CALLS], Connect(s.reg, id)), [])
    case Received(from, m) => Handle(s, from, m)
    case Closed(id) => Drop(s, id)
    case TimerFired => (s.(reg := TimerFires(s.reg)), [])
    case ShutdownRequested => (s.(reg := Shutdown(s.reg)), [])
  }

  // ---------- Single steps ----------

  /** A reply is disciplined when it answers a call its sender was asked and has not yet
      answered or deferred. */
  ghost predicate Disciplined(s: Server, e: Event) {
    e.Received? && e.from in s.book && (e.m.op.Reply? || e.m.op.ReplyFailed? || e.m.op.ReplyWait?)
      && FindApp(s, e.m.toApp).Just?
    ==> FindApp(s, e.m.toApp).value in s.book[e.from].forReply
  }

  /** The weakest demand on a message of `from` for `target` that keeps the books equal: a final
      reply may also be one nobody waits for, promptly or delayed. */
  ghost predicate HarmlessTo(t: Book, op: Opcode, from: Id, target: Id)
    requires from in t
  {
    && (op.Reply? || op.ReplyFailed? ==> target in t[from].forReply || target !in t[from].forDelayed)
    && (op.ReplyWait? ==> target in t[from].forReply)
  }

  /** The same, of an event. */
  ghost predicate Harmless(s: Server, e: Event) {
    e.Received? && e.from in s.book && FindApp(s, e.m.toApp).Just? ==>
      HarmlessTo(s.book, e.m.op, e.from, FindApp(s, e.m.toApp).value)
  }

  ghost predicate Sound(s: Server) {
    && Linked(s)
    && ClientRegistry.Inv(s.reg)
    && Covered(s.book)
  }

  // The three ways a message or a death is handled, one at a time.

  lemma StepToClient(s: Server, from: Id, m: Message)
    requires Linked(s) && !s.reg.exited && from in s.book && m.toApp in s.reg.names
    ensures Step(s, Received(from, m)) == HandleClient(s, from, m.op, s.reg.names[m.toApp])
  {
  }

  lemma StepToServer(s: Server, from: Id, m: Message)
    requires Linked(s) && !s.reg.exited && from in s.book && m.toApp !in s.reg.names
    ensures Step(s, Received(from, m)) == HandleServer(s, from, m)
  {
  }

  lemma StepClosed(s: Server, id: Id)
    requires Linked(s) && !s.reg.exited && id in s.book
    ensures Step(s, Closed(id)) == Drop(s, id)
  {
  }

  /** What every step keeps, whatever clients send. */
  lemma StepKeeps(s: Server, e: Event)
    requires Sound(s)
    ensures Sound(Step(s, e).0)
  {
    if !Enabled(s, e) { return; }
    match e
    case Opened(id) =>
      ConnectKeeps(s.reg, id);
      OpenKeeps(s.book, id);
    case Received(from, m) =>
      HandleKeeps(s, from, m);
    case Closed(id) =>
      DropKeeps(s, id);
    case TimerFired =>
      TimerFiresKeeps(s.reg);
    case ShutdownRequested =>
      ShutdownKeeps(s.reg);
  }

  lemma HandleKeeps(s: Server, from: Id, m: Message)
    requires Sound(s) && !s.reg.exited
    ensures Sound(Handle(s, from, m).0)
  {
    if from in s.book {
      match FindApp(s, m.toApp)
      case Just(target) => ForwardKeeps(s, from, m.op, target);
      case Nothing => ReceiveKeeps(s, from, m.fun);
    }
  }

  lemma ForwardKeeps(s: Server, from: Id, op: Opcode, target: Id)
    requires Sound(s) && from in s.book && target in s.book
    ensures Sound(HandleClient(s, from, op, target).0)
  {
    UpdateKeeps(s.book, op, from, target);
  }

  lemma UpdateKeeps(t: Book, op: Opcode, from: Id, target: Id)
    requires Covered(t) && from in t && target in t
    ensures Covered(UpdateBook(t, op, from, target)) && UpdateBook(t, op, from, target).Keys == t.Keys
  {
    PlaceCallKeeps(t, from, target);
    TakeReplyKeeps(t, from, target);
    DeferKeeps(t, from, target);
    TakeDelayedKeeps(t, from, target);
  }

  lemma DropKeeps(s: Server, id: Id)
    requires Sound(s) && id in s.book
    ensures Sound(Drop(s, id).0)
  {
    DisconnectKeeps(s.reg, id);
    CloseKeeps(s.book, id);
    CloseCounts(s.book, id, id, id);
  }

  lemma ReceiveKeeps(s: Server, from: Id, f: ServerFun)
    requires Sound(s) && !s.reg.exited && from in s.book
    ensures Sound(Receive(s, from, f))
    ensures Receive(s, from, f).book == s.book
  {
    match f
    case RegisterAs(app) => RegisterAsKeeps(s.reg, from, app);
    case SetDaemonMode(daemon) => SetDaemonModeKeeps(s.reg, from, daemon);
    case Other(_) =>
  }

  /** A step keeps the books equal exactly when its reply, if it is one, is harmless. */
  lemma StepMirrors(s: Server, e: Event)
    requires Sound(s) && Enabled(s, e) && Mirrored(s.book)
    ensures Mirrored(Step(s, e).0.book) <==> Harmless(s, e)
  {
    match e
    case Opened(id) => OpenKeeps(s.book, id);
    case Received(from, m) =>
      if from in s.book {
        if m.toApp in s.reg.names {
          StepToClient(s, from, m);
          UpdateMirrors(s.book, m.op, from, s.reg.names[m.toApp]);
        } else {
          StepToServer(s, from, m);
          ReceiveKeeps(s, from, m.fun);
        }
      }
    case Closed(id) =>
      StepClosed(s, id);
      CloseKeeps(s.book, id);
    case TimerFired =>
    case ShutdownRequested =>
  }

  lemma UpdateMirrors(t: Book, op: Opcode, from: Id, target: Id)
    requires Mirrored(t) && from in t && target in t
    ensures Mirrored(UpdateBook(t, op, from, target)) <==> HarmlessTo(t, op, from, target)
  {
    PlaceCallKeeps(t, from, target);
    TakeReplyKeeps(t, from, target);
    DeferKeeps(t, from, target);
    TakeDelayedKeeps(t, from, target);
  }

  // What a message or a death sends.

  /** A message for a registered client is passed on as it is, whatever its kind, and nothing else is
      sent. */
  lemma MessagePassedOn(s: Server, from: Id, m: Message)
    requires Sound(s) && !s.reg.exited && from in s.book && m.toApp in s.reg.names
    ensures var (s', outs) := Step(s, Received(from, m));
      outs == [Forward(m.op, from, s.reg.names[m.toApp])] && s'.reg == s.reg
  {
    StepToClient(s, from, m);
  }

  /** A call or find is recorded behind the others, on both ends. */
  lemma CallQueuesUp(s: Server, from: Id, m: Message)
    requires Sound(s) && !s.reg.exited && from in s.book && m.toApp in s.reg.names && (m.op.Call? || m.op.Find?)
    ensures var t, t', target := s.book, Step(s, Received(from, m)).0.book, s.reg.names[m.toApp];
      && t'.Keys == t.Keys
      && t'[from].onReply == t[from].onReply + [target] && t'[target].forReply == t[target].forReply + [from]
      && (forall id :: id in t && id != from ==> t'[id].onReply == t[id].onReply)
      && (forall id :: id in t && id != target ==> t'[id].forReply == t[id].forReply)
      && (forall id :: id in t ==> t'[id].forDelayed == t[id].forDelayed)
  {
    StepToClient(s, from, m);
  }

  /** A request to wait moves the caller behind those who wait already. */
  lemma WaitQueuesUp(s: Server, from: Id, m: Message)
    requires Sound(s) && !s.reg.exited && from in s.book && m.toApp in s.reg.names && m.op.ReplyWait?
    ensures var t, t', target := s.book, Step(s, Received(from, m)).0.book, s.reg.names[m.toApp];
      && t'.Keys == t.Keys
      && t'[from].forDelayed == t[from].forDelayed + [target]
      && t'[from].forReply == RemoveFirst(t[from].forReply, target)
      && (forall id :: id in t ==> t'[id].onReply == t[id].onReply)
      && (forall id :: id in t && id != from ==> t'[id] == t[id])
  {
    StepToClient(s, from, m);
  }

  /** Any other message: one for the names that start with a prefix goes to exactly the clients of these
      names, a call or find is answered, and nothing else is sent. */
  lemma MessageNotPassedOn(s: Server, from: Id, m: Message)
    requires Sound(s) && !s.reg.exited && from in s.book && m.toApp !in s.reg.names
    ensures var (s', outs) := Step(s, Received(from, m));
      var toServer := m.toApp == "DCOPServer";
      && s'.book == s.book
      && (if m.op.Call? || m.op.Find? then
            outs == [ServerReply(from, !(m.op.Call? && toServer && (m.fun.Other? ==> m.fun.known)))]
          else if (m.op.Send? || m.op.ReplyDelayed?) && !toServer && m.toApp != ""
                  && m.toApp[|m.toApp| - 1] == '*' then
            && |outs| == 1 && outs[0].Multicast?
            && (forall id :: id in outs[0].recipients <==>
                  exists n :: n in s.reg.names && m.toApp[..|m.toApp| - 1] <= n && s.reg.names[n] == id)
          else outs == [])
      && (!toServer || !(m.op.Send? || m.op.ReplyDelayed? || m.op.Call?) ==> s'.reg == s.reg)
  {
    StepToServer(s, from, m);
    ReceiveKeeps(s, from, m.fun);
  }

  /** The server's own functions, called or sent. */
  lemma ServerFunctionRuns(s: Server, from: Id, m: Message)
    requires Sound(s) && !s.reg.exited && from in s.book && m.toApp !in s.reg.names && m.toApp == "DCOPServer"
    requires m.op.Send? || m.op.ReplyDelayed? || m.op.Call?
    ensures var reg := Step(s, Received(from, m)).0.reg;
      && (m.fun.RegisterAs? ==> reg == ClientRegistry.RegisterAs(s.reg, from, m.fun.app))
      && (m.fun.SetDaemonMode? ==> reg == ClientRegistry.SetDaemonMode(s.reg, from, m.fun.daemon))
      && (m.fun.Other? ==> reg == s.reg)
  {
    StepToServer(s, from, m);
  }

  /** A death sends one failure per entry of the two lists of callers, the prompt ones first. */
  lemma DeathSends(s: Server, id: Id)
    requires Sound(s) && !s.reg.exited && id in s.book
    ensures var (s', outs) := Step(s, Closed(id));
      var callers := s.book[id].forReply + s.book[id].forDelayed;
      && |outs| == |callers| && (forall k :: 0 <= k < |outs| ==> outs[k] == Abort(callers[k], id))
      && s'.reg == Disconnect(s.reg, id)
  {
    StepClosed(s, id);
    AbortsAre(s.book[id].forReply, id);
    AbortsAre(s.book[id].forDelayed, id);
  }

  lemma {:induction false} AbortsAre(callers: seq<Id>, dead: Id)
    ensures |Aborts(callers, dead)| == |callers|
    ensures forall k :: 0 <= k < |callers| ==> Aborts(callers, dead)[k] == Abort(callers[k], dead)
  {
    if callers != [] { AbortsAre(callers[1..], dead); }
  }

  /** Nothing else sends anything. */
  lemma OthersSendNothing(s: Server, e: Event)
    requires !e.Received? && !e.Closed?
    ensures Step(s, e).1 == [] && (!e.Opened? ==> Step(s, e).0.book == s.book)
  {
  }

  /** A call or find is answered at once by the server, or passed on and then outstanding. */
  lemma CallAnsweredOrPending(s: Server, from: Id, m: Message)
    requires Sound(s) && !s.reg.exited && from in s.book && (m.op.Call? || m.op.Find?)
    ensures var (s', outs) := Step(s, Received(from, m));
      if m.toApp in s.reg.names then
        var target := s.reg.names[m.toApp];
        outs == [Forward(m.op, from, target)]
        && Outstanding(s'.book, from, target) == Outstanding(s.book, from, target) + 1
      else
        outs == [ServerReply(from, !(m.op.Call? && m.toApp == "DCOPServer" && Known(m.fun)))]
        && s'.book == s.book
  {
    if m.toApp in s.reg.names {
      StepToClient(s, from, m);
      PlaceCallCounts(s.book, from, s.reg.names[m.toApp], from, s.reg.names[m.toApp]);
    } else {
      StepToServer(s, from, m);
      ReceiveKeeps(s, from, m.fun);
    }
  }

  // ---------- Runs ----------

  /** The state after a run, from an empty server. */
  ghost function After(suicide: bool, es: seq<Event>): Server {
    if es == [] then Server(map[], Initial(suicide))
    else Step(After(suicide, es[..|es| - 1]), es[|es| - 1]).0
  }

  /** Every reply in the run answers an entry of its sender's prompt list. */
  ghost predicate DisciplinedRun(suicide: bool, es: seq<Event>) {
    es == [] ||
    var prefix := es[..|es| - 1];
    DisciplinedRun(suicide, prefix) && Disciplined(After(suicide, prefix), es[|es| - 1])
  }

  lemma AfterSnoc(suicide: bool, es: seq<Event>, e: Event)
    ensures After(suicide, es + [e]) == Step(After(suicide, es), e).0
    ensures Sound(After(suicide, es))
  {
    RunSound(suicide, es);
    assert (es + [e])[..|es|] == es;
  }

  ghost predicate HarmlessRun(suicide: bool, es: seq<Event>) {
    es == [] ||
    var prefix := es[..|es| - 1];
    HarmlessRun(suicide, prefix) && Harmless(After(suicide, prefix), es[|es| - 1])
  }

  lemma {:induction false} DisciplinedIsHarmless(suicide: bool, es: seq<Event>)
    requires DisciplinedRun(suicide, es)
    ensures HarmlessRun(suicide, es)
  {
    if es != [] {
      DisciplinedIsHarmless(suicide, es[..|es| - 1]);
    }
  }

  /** In every run: one name per client and one client per name, the count of regular clients
      is exact, the exit timer is only active without regular clients, and nobody expects
      more answers than are owed. */
  lemma {:induction false} RunSound(suicide: bool, es: seq<Event>)
    ensures Sound(After(suicide, es))
  {
    if es == [] {
      InitialHolds(suicide);
    } else {
      RunSound(suicide, es[..|es| - 1]);
      StepKeeps(After(suicide, es[..|es| - 1]), es[|es| - 1]);
    }
  }

  /** In every run of harmless replies both sides of every call record it equally often. */
  lemma {:induction false} RunMirrors(suicide: bool, es: seq<Event>)
    requires HarmlessRun(suicide, es)
    ensures Mirrored(After(suicide, es).book)
  {
    if es != [] {
      var prefix := es[..|es| - 1];
      RunMirrors(suicide, prefix);
      RunSound(suicide, prefix);
      if Enabled(After(suicide, prefix), es[|es| - 1]) {
        StepMirrors(After(suicide, prefix), es[|es| - 1]);
      }
    }
  }

  // ---------- Which connections the lists name, and where messages go ----------

  /** The one way a step can leave a list that names a connection that is gone. */
  ghost predicate CleanClose(s: Server, e: Event) {
    Enabled(s, e) && e.Closed? ==> OwedAsExpected(s.book, e.id)
  }

  lemma UpdateLives(t: Book, op: Opcode, from: Id, target: Id)
    requires AllLive(t) && from in t && target in t
    ensures AllLive(UpdateBook(t, op, from, target))
  {
    var t' := UpdateBook(t, op, from, target);
    AllLiveCounts(t);
    AllLiveCounts(t');
    forall x: Id | x !in t'
      ensures NothingAbout(t', x)
    {
      assert NothingAbout(t, x);
      forall a: Id
        ensures Outstanding(t', a, x) == 0 && Owed(t', a, x) == 0
      {
        UpdateAdds(t, op, from, target, a, x);
        UpdateAdds(t, op, from, target, x, a);
      }
    }
  }

  /** No message adds to what is recorded about others than its sender and its receiver. */
  lemma UpdateAdds(t: Book, op: Opcode, from: Id, target: Id, a: Id, b: Id)
    requires from in t && target in t
    ensures var t' := UpdateBook(t, op, from, target);
      a !in t || b !in t ==> Outstanding(t', a, b) <= Outstanding(t, a, b) && Owed(t', b, a) <= Owed(t, b, a)
  {
    PlaceCallCounts(t, from, target, a, b);
    TakeReplyCounts(t, from, target, a, b);
    DeferCounts(t, from, target, a, b);
    TakeDelayedCounts(t, from, target, a, b);
  }

  lemma MessageLives(s: Server, from: Id, m: Message)
    requires Sound(s) && !s.reg.exited && AllLive(s.book)
    ensures AllLive(Step(s, Received(from, m)).0.book)
  {
    if from in s.book {
      if m.toApp in s.reg.names {
        StepToClient(s, from, m);
        UpdateLives(s.book, m.op, from, s.reg.names[m.toApp]);
      } else {
        StepToServer(s, from, m);
        ReceiveKeeps(s, from, m.fun);
      }
    }
  }

  /** A step keeps every list free of connections that are gone if and only if it does not close a
      connection that somebody else owes more than it expects. */
  lemma StepLivesIff(s: Server, e: Event)
    requires Sound(s) && AllLive(s.book)
    ensures AllLive(Step(s, e).0.book) <==> CleanClose(s, e)
  {
    if !Enabled(s, e) { return; }
    match e
    case Opened(id) =>
      OpenLives(s.book, id);
    case Received(from, m) =>
      MessageLives(s, from, m);
    case Closed(id) =>
      StepClosed(s, id);
      CloseLivesIff(s.book, id);
    case TimerFired =>
    case ShutdownRequested =>
  }

  /** Every close in the run is a clean one. */
  ghost predicate CleanRun(suicide: bool, es: seq<Event>) {
    es == [] ||
    var prefix := es[..|es| - 1];
    CleanRun(suicide, prefix) && CleanClose(After(suicide, prefix), es[|es| - 1])
  }

  /** At no time in the run does a list name a connection that is gone. */
  ghost predicate LiveThroughout(suicide: bool, es: seq<Event>) {
    AllLive(After(suicide, es).book) && (es == [] || LiveThroughout(suicide, es[..|es| - 1]))
  }

  /** In a run every entry of every list always names a live connection, if and only if every close
      is a clean one. */
  lemma {:induction false} RunListsAreLive(suicide: bool, es: seq<Event>)
    ensures LiveThroughout(suicide, es) <==> CleanRun(suicide, es)
  {
    if es != [] {
      var prefix := es[..|es| - 1];
      RunListsAreLive(suicide, prefix);
      RunSound(suicide, prefix);
      if AllLive(After(suicide, prefix).book) {
        StepLivesIff(After(suicide, prefix), es[|es| - 1]);
      }
    }
  }

  /** Runs of harmless replies are such runs. */
  lemma {:induction false} HarmlessIsClean(suicide: bool, es: seq<Event>)
    requires HarmlessRun(suicide, es)
    ensures CleanRun(suicide, es)
  {
    if es != [] {
      var prefix := es[..|es| - 1];
      HarmlessIsClean(suicide, prefix);
      RunMirrors(suicide, prefix);
      assert forall a: Id, b: Id :: MirrorsAt(After(suicide, prefix).book, a, b);
    }
  }

  /** Whom a message is sent to. */
  function Recipients(o: Out): set<Id> {
    match o
    case Forward(_, _, to) => {to}
    case Multicast(recipients) => recipients
    case ServerReply(to, _) => {to}
    case Abort(to, _) => {to}
  }

  /** Every message of the step goes to a connection that is open when it is sent: a connection that
      closes is taken from the server's list before the failures for its callers go out. */
  ghost predicate ReachesLive(s: Server, e: Event) {
    forall o :: o in Step(s, e).1 ==> Recipients(o) <= Step(s, e).0.book.Keys
  }

  /** Everybody who waits for an answer of `id` is another open connection. */
  ghost predicate CallersOpen(t: Book, id: Id)
    requires id in t
  {
    forall x :: x in t[id].forReply || x in t[id].forDelayed ==> x in t && x != id
  }

  lemma {:induction false} AbortsGoTo(callers: seq<Id>, dead: Id, o: Out)
    ensures o in Aborts(callers, dead) <==> o.Abort? && o.dead == dead && o.to in callers
  {
    if callers != [] { AbortsGoTo(callers[1..], dead, o); }
  }

  lemma DropReachesLive(s: Server, id: Id)
    requires Sound(s) && !s.reg.exited && id in s.book
    ensures ReachesLive(s, Closed(id)) <==> CallersOpen(s.book, id)
  {
    var calls, outs, left := s.book[id], Drop(s, id).1, s.book.Keys - {id};
    StepClosed(s, id);
    CloseCounts(s.book, id, id, id);
    forall o
      ensures o in outs <==> o.Abort? && o.dead == id && (o.to in calls.forReply || o.to in calls.forDelayed)
    {
      AbortsGoTo(calls.forReply, id, o);
      AbortsGoTo(calls.forDelayed, id, o);
    }
    if ReachesLive(s, Closed(id)) {
      forall x | x in calls.forReply || x in calls.forDelayed
        ensures x in s.book && x != id
      {
        assert Abort(x, id) in outs;
        assert x in Recipients(Abort(x, id));
      }
    }
  }

  lemma MessageReachesLive(s: Server, from: Id, m: Message)
    requires Sound(s) && !s.reg.exited
    ensures ReachesLive(s, Received(from, m))
  {
    if from in s.book {
      if m.toApp in s.reg.names {
        var target := s.reg.names[m.toApp];
        StepToClient(s, from, m);
        UpdateKeeps(s.book, m.op, from, target);
      } else {
        StepToServer(s, from, m);
        ReceiveKeeps(s, from, m.fun);
      }
    }
  }

  /** Whatever the clients sent before, every message goes to open connections, if and only if no
      connection closes that owes an answer to itself or to one that is gone. */
  lemma StepReachesLive(s: Server, e: Event)
    requires Sound(s)
    ensures ReachesLive(s, e) <==> (Enabled(s, e) && e.Closed? ==> CallersOpen(s.book, e.id))
  {
    if !Enabled(s, e) { return; }
    match e
    case Opened(id) =>
    case Received(from, m) => MessageReachesLive(s, from, m);
    case Closed(id) => DropReachesLive(s, id);
    case TimerFired =>
    case ShutdownRequested =>
  }

  /** So after every run; and as long as every close was clean, only a connection that closes while
      it waits for itself gets a failure after it is gone. */
  lemma RunReachesLive(suicide: bool, es: seq<Event>, e: Event)
    ensures var s := After(suicide, es);
      ReachesLive(s, e) <==> (Enabled(s, e) && e.Closed? ==> CallersOpen(s.book, e.id))
    ensures var s := After(suicide, es);
      CleanRun(suicide, es) && Enabled(s, e) && e.Closed? ==>
        (CallersOpen(s.book, e.id) <==> e.id !in s.book[e.id].forReply && e.id !in s.book[e.id].forDelayed)
  {
    RunSound(suicide, es);
    StepReachesLive(After(suicide, es), e);
    RunListsAreLive(suicide, es);
    if CleanRun(suicide, es) && e.Closed? { assert LiveAt(After(suicide, es).book, e.id); }
  }

  /** After a shutdown request the server never hangs: it has exited, or its timer is running, or a
      client is registered whose end will start the timer. */
  lemma ShutdownEnds(suicide: bool, es: seq<Event>)
    requires var r := After(suicide, es).reg; r.shutdown && !r.exited
    ensures var r := After(suicide, es).reg;
      r.timerActive || exists id :: id in r.clients && r.clients[id].appId != ""
    ensures After(suicide, es).reg.timerActive ==> After(suicide, es + [TimerFired]).reg.exited
  {
    RunSound(suicide, es);
    var r := After(suicide, es).reg;
    if !r.timerActive {
      var n :| n in r.names;
      assert r.clients[r.names[n]].appId == n;
    }
    AfterSnoc(suicide, es, TimerFired);
  }

  /** A shutdown request is heard, and ends a server without clients at once. */
  lemma ShutdownIsHeard(suicide: bool, es: seq<Event>)
    requires !After(suicide, es).reg.exited
    ensures var r' := After(suicide, es + [ShutdownRequested]).reg;
      r'.shutdown && (!After(suicide, es).reg.shutdown ==> (r'.exited <==> After(suicide, es).reg.names == map[]))
  {
    AfterSnoc(suicide, es, ShutdownRequested);
  }

  /** A server that may end itself does so when a death leaves no regular client: at the latest when its
      timer has fired twice; a timer that has never fired before only warns at first. */
  lemma LonelyServerExits(es: seq<Event>, id: Id)
    requires var s := After(true, es); id in s.book && !s.reg.exited && !s.reg.shutdown
    requires Regulars(After(true, es + [Closed(id)]).reg) == {}
    ensures var r1 := After(true, es + [Closed(id)] + [TimerFired]).reg;
      var r2 := After(true, es + [Closed(id)] + [TimerFired] + [TimerFired]).reg;
      r2.exited && (After(true, es).reg.slot.Terminate? ==> !r1.exited)
  {
    var s := After(true, es);
    AfterThree(true, es, Closed(id), TimerFired, TimerFired);
    AfterSnoc(true, es, Closed(id));
    AfterSnoc(true, es + [Closed(id)], TimerFired);
    TimerNeedsCause(true, es);
    StepClosed(s, id);
    DisconnectChanges(s.reg, id);
    TwoFirings(Step(s, Closed(id)).0);
  }

  lemma TwoFirings(s: Server)
    requires Sound(s) && !s.reg.exited && !s.reg.shutdown && s.reg.timerActive
    ensures var s1 := Step(s, TimerFired).0;
      Step(s1, TimerFired).0.reg.exited && (s.reg.slot.Terminate? ==> !s1.reg.exited)
  {
    StepKeeps(s, TimerFired);
  }

  /** Whether the server may end itself is settled at its start; the timer is off until a death or a
      shutdown request, and wired to the warning until it has fired. */
  lemma {:induction false} TimerNeedsCause(suicide: bool, es: seq<Event>)
    ensures var r := After(suicide, es).reg;
      && r.suicide == suicide
      && (r.timerActive ==> ShutdownRequested in es || exists id :: Closed(id) in es)
      && (r.slot.Suicide? ==> TimerFired in es)
  {
    if es != [] {
      var front, e := es[..|es| - 1], es[|es| - 1];
      TimerNeedsCause(suicide, front);
      RunSound(suicide, front);
      StepKeepsTimer(After(suicide, front), e);
      assert es == front + [e];
      if id :| Closed(id) in front { assert Closed(id) in es; }
    }
  }

  lemma StepKeepsTimer(s: Server, e: Event)
    requires Sound(s)
    ensures var r, r' := s.reg, Step(s, e).0.reg;
      && r'.suicide == r.suicide
      && (r'.timerActive && !r.timerActive ==> e.Closed? || e.ShutdownRequested?)
      && (r'.slot == r.slot || e.TimerFired?)
  {
    if e.Received? && e.from in s.book && !s.reg.exited {
      if e.m.toApp in s.reg.names {
        StepToClient(s, e.from, e.m);
      } else {
        StepToServer(s, e.from, e.m);
        ReceiveKeepsTimer(s, e.from, e.m.fun);
      }
    }
  }

  lemma ReceiveKeepsTimer(s: Server, from: Id, f: ServerFun)
    ensures var r, r' := s.reg, Receive(s, from, f).reg;
      r'.suicide == r.suicide && (r'.timerActive ==> r.timerActive) && r'.slot == r.slot
  {
  }

  lemma FreshRegistration(s: Server, from: Id, app: string)
    requires Sound(s) && !s.reg.exited && from in s.book && s.reg.clients[from].appId == ""
    requires app != "" && app !in s.reg.names && "DCOPServer" !in s.reg.names
    ensures var s' := Step(s, Received(from, Message(Send, "DCOPServer", RegisterAs(app)))).0;
      s'.book == s.book && !s'.reg.exited && s'.reg.names == s.reg.names[app := from]
      && s'.reg.clients == s.reg.clients[from := s.reg.clients[from].(appId := app)]
  {
  }

  ghost predicate TwoIdleClients(s: Server) {
    && s.book == map[1 := NO_CALLS, 2 := NO_CALLS]
    && s.reg.names == map["a" := 1, "b" := 2] && !s.reg.exited
  }

  lemma TwoClientsConnect() returns (es: seq<Event>)
    ensures |es| == 4 && TwoIdleClients(After(false, es))
  {
    AfterSnoc(false, [], Opened(1));
    assert [] + [Opened(1)] == [Opened(1)];
    AfterSnoc(false, [Opened(1)], Opened(2));
    es := [Opened(1)] + [Opened(2)];
    var s := After(false, es);
    assert s.book == map[1 := NO_CALLS, 2 := NO_CALLS] && s.reg.names == map[] && !s.reg.exited;
    var r1 := Received(1, Message(Send, "DCOPServer", RegisterAs("a")));
    AfterSnoc(false, es, r1);
    FreshRegistration(s, 1, "a");
    es := es + [r1];
    var r2 := Received(2, Message(Send, "DCOPServer", RegisterAs("b")));
    AfterSnoc(false, es, r2);
    FreshRegistration(After(false, es), 2, "b");
    es := es + [r2];
    RunSound(false, es);
  }

  const CALL_B := Received(1, Message(Call, "b", Other(true)))
  const DEFER_A := Received(2, Message(ReplyWait, "a", Other(true)))
  const REPLY_A := Received(2, Message(Reply, "a", Other(true)))

  const TWO_IDLE: Book := map[1 := NO_CALLS, 2 := NO_CALLS]

  /** `b` keeps an entry for `a`, and `a` waits for nothing. */
  ghost predicate OneHeld(t: Book) {
    t.Keys == {1, 2} && t[1] == NO_CALLS && t[2] == Calls([], [], [1])
  }

  lemma StrayReply(s: Server)
    requires Sound(s) && TwoIdleClients(s)
    ensures var s' := Step(Step(Step(s, CALL_B).0, DEFER_A).0, REPLY_A).0;
      OneHeld(s'.book) && s'.reg == s.reg
  {
    var s2 := CallThenDefer(s);
    CalledAndDeferred();
    StepToClient(s2, 2, REPLY_A.m);
  }

  lemma CallThenDefer(s: Server) returns (s2: Server)
    requires Sound(s) && TwoIdleClients(s)
    ensures s2 == Step(Step(s, CALL_B).0, DEFER_A).0 && Sound(s2) && s2.reg == s.reg
    ensures var t := PlaceCall(TWO_IDLE, 1, 2);
      t.Keys == TWO_IDLE.Keys && s2.book == Defer(t, 2, 1)
  {
    CalledAndDeferred();
    StepToClient(s, 1, CALL_B.m);
    StepKeeps(s, CALL_B);
    var s1 := s.(book := PlaceCall(s.book, 1, 2));
    StepToClient(s1, 2, DEFER_A.m);
    StepKeeps(s1, DEFER_A);
    s2 := s1.(book := Defer(s1.book, 2, 1));
  }

  lemma CalledAndDeferred()
    ensures
      var t := PlaceCall(TWO_IDLE, 1, 2);
      t.Keys == TWO_IDLE.Keys
    ensures
      var t := Defer(PlaceCall(TWO_IDLE, 1, 2), 2, 1);
      t.Keys == TWO_IDLE.Keys && OneHeld(TakeReply(t, 2, 1))
  {
    var t := PlaceCall(TWO_IDLE, 1, 2);
    assert t[1] == Calls([2], [], []) && t[2] == Calls([], [1], []);
    var u := Defer(t, 2, 1);
    assert u[1] == t[1] && u[2] == Calls([], [], [1]);
  }

  lemma HeldIsUnequal(t: Book)
    requires OneHeld(t)
    ensures !Mirrored(t)
  {
    CountPositive(t[2].forDelayed, 1);
    assert !MirrorsAt(t, 1, 2);
  }

  lemma AfterThree(suicide: bool, es: seq<Event>, e1: Event, e2: Event, e3: Event)
    ensures After(suicide, es + [e1] + [e2] + [e3])
         == Step(Step(Step(After(suicide, es), e1).0, e2).0, e3).0
    ensures Sound(After(suicide, es))
  {
    AfterSnoc(suicide, es, e1);
    AfterSnoc(suicide, es + [e1], e2);
    AfterSnoc(suicide, es + [e1] + [e2], e3);
  }

  lemma StrayReplyRun() returns (es: seq<Event>, run: seq<Event>)
    ensures |es| == 4 && TwoIdleClients(After(false, es)) && run == es + [CALL_B] + [DEFER_A] + [REPLY_A]
    ensures OneHeld(After(false, run).book) && !After(false, run).reg.exited
  {
    es := TwoClientsConnect();
    run := es + [CALL_B] + [DEFER_A] + [REPLY_A];
    AfterThree(false, es, CALL_B, DEFER_A, REPLY_A);
    StrayReply(After(false, es));
  }

  /** The demand on replies is needed: a client that tells its caller to wait and then answers
      with a plain reply leaves an entry behind that no call accounts for. */
  lemma StrayReplyBreaksBooks()
    ensures exists es: seq<Event> :: |es| == 7 && !Mirrored(After(false, es).book)
  {
    var start, es := StrayReplyRun();
    HeldIsUnequal(After(false, es).book);
  }

  /** The client with the entry is told nothing of the death, and writes to it when it dies itself. */
  lemma TwoDeaths(s: Server)
    requires Sound(s) && !s.reg.exited && OneHeld(s.book)
    ensures var s1 := Step(s, Closed(1)).0;
      1 !in s1.book && Abort(1, 2) in Step(s1, Closed(2)).1
  {
    StepClosed(s, 1);
    StepKeeps(s, Closed(1));
    HeldAndClosed(s.book);
    var s1 := Step(s, Closed(1)).0;
    StepClosed(s1, 2);
    AbortsGoTo([1], 2, Abort(1, 2));
  }

  lemma HeldAndClosed(t: Book)
    requires OneHeld(t)
    ensures Close(t, 1).Keys == {2} && Close(t, 1)[2] == t[2]
  {
    assert Close(t, 1) == t - {1};
  }

  /** The server writes to a connection that was gone before the step. */
  ghost predicate WritesToDead(s: Server, e: Event) {
    exists o :: o in Step(s, e).1 && !(Recipients(o) <= s.book.Keys)
  }

  lemma DeathsAfter(es: seq<Event>)
    requires OneHeld(After(false, es).book) && !After(false, es).reg.exited
    ensures WritesToDead(After(false, es + [Closed(1)]), Closed(2))
  {
    AfterSnoc(false, es, Closed(1));
    TwoDeaths(After(false, es));
    assert 1 in Recipients(Abort(1, 2));
  }

  lemma DeferredAlone()
    ensures OneHeld(Defer(TWO_IDLE, 2, 1))
  {
    assert TWO_IDLE[2] == NO_CALLS;
  }

  /** After a request to wait that answers no call, the death of the client it was sent to, and then
      of its sender, make the server write to a connection that is gone. */
  lemma StrayWaitReachesDead()
    ensures exists es: seq<Event> ::
      TwoIdleClients(After(false, es))
      && WritesToDead(After(false, es + [DEFER_A] + [Closed(1)]), Closed(2))
  {
    var es := TwoClientsConnect();
    var s := After(false, es);
    AfterSnoc(false, es, DEFER_A);
    StepToClient(s, 2, DEFER_A.m);
    DeferredAlone();
    DeathsAfter(es + [DEFER_A]);
  }

  /** So do the same deaths after a final reply that follows a request to wait. */
  lemma StrayReplyReachesDead()
    ensures exists es: seq<Event> ::
      TwoIdleClients(After(false, es))
      && WritesToDead(After(false, es + [CALL_B] + [DEFER_A] + [REPLY_A] + [Closed(1)]), Closed(2))
  {
    var es, run := StrayReplyRun();
    DeathsAfter(run);
  }

  // A client that calls itself and closes: disciplined throughout.

  const REGISTER_A := Received(1, Message(Send, "DCOPServer", RegisterAs("a")))
  const CALL_A := Received(1, Message(Call, "a", Other(true)))

  lemma DisciplinedSnoc(suicide: bool, es: seq<Event>, e: Event)
    requires DisciplinedRun(suicide, es) && Disciplined(After(suicide, es), e)
    ensures DisciplinedRun(suicide, es + [e])
  {
    assert (es + [e])[..|es|] == es;
  }

  lemma OneClientCallsItself() returns (es: seq<Event>)
    ensures DisciplinedRun(false, es) && |es| == 3
    ensures var s := After(false, es); !s.reg.exited && 1 in s.book && 1 in s.book[1].forReply
  {
    es := [] + [Opened(1)];
    AfterSnoc(false, [], Opened(1));
    DisciplinedSnoc(false, [], Opened(1));
    AfterSnoc(false, es, REGISTER_A);
    DisciplinedSnoc(false, es, REGISTER_A);
    FreshRegistration(After(false, es), 1, "a");
    es := es + [REGISTER_A];
    var s := After(false, es);
    AfterSnoc(false, es, CALL_A);
    StepToClient(s, 1, CALL_A.m);
    PlaceCallCounts(s.book, 1, 1, 1, 1);
    DisciplinedSnoc(false, es, CALL_A);
    es := es + [CALL_A];
  }

  /** Even when every reply answers a call, a client that closes while it waits for itself is sent a
      failure after it is gone. */
  lemma SelfCallReachesDead()
    ensures exists es: seq<Event> ::
      |es| == 3 && DisciplinedRun(false, es) && !ReachesLive(After(false, es), Closed(1))
  {
    var es := OneClientCallsItself();
    RunReachesLive(false, es, Closed(1));
  }

  /** Whatever the clients sent, a closed connection leaves nobody waiting on it. */
  lemma CloseLeavesNoWaiter(suicide: bool, es: seq<Event>, dead: Id, a: Id)
    requires dead in After(suicide, es).book && !After(suicide, es).reg.exited
    ensures var s' := After(suicide, es + [Closed(dead)]);
      && dead !in s'.book
      && (a in s'.book ==> dead !in s'.book[a].onReply)
      && (forall n :: n in s'.reg.names ==> s'.reg.names[n] != dead)
  {
    var s := After(suicide, es);
    RunSound(suicide, es);
    assert (es + [Closed(dead)])[..|es|] == es;
    CloseKeeps(s.book, dead);
    CloseCounts(s.book, dead, dead, dead);
    DisconnectKeeps(s.reg, dead);
  }

  /** The server exits by itself, without a shutdown request, only when no regular client is
      registered. */
  lemma NoSuicideWithClients(suicide: bool, es: seq<Event>)
    requires After(suicide, es).reg.exited && !After(suicide, es).reg.shutdown
    ensures forall id :: id in After(suicide, es).reg.clients ==>
      var c := After(suicide, es).reg.clients[id]; c.appId == "" || c.daemon
  {
    RunSound(suicide, es);
    var r := After(suicide, es).reg;
    forall id | id in r.clients
      ensures r.clients[id].appId == "" || r.clients[id].daemon
    {
      assert id !in Regulars(r);
    }
  }
}
