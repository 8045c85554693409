/** The signal table together with the server: connections are made by connected clients and dropped
    before a client goes, so no record ever names a connection that is gone. */
module SignalRuns {
  import opened Lists
  import opened Optional
  import opened CallBook
  import opened ClientRegistry
  import opened ServerRuns
  import opened SignalTable
  import DcopServer

  /** The arguments of `connectSignal` and `disconnectSignal`. */
  datatype Request = Request(sender: string, senderObj: string, signal: string, recvObj: string, slot: string)

  datatype Bus = Bus(server: Server, flat: seq<Record>, handles: nat)

  datatype BusEvent =
    | Handled(e: Event)
    | Connects(from: Id, c: Request, volatile: bool)
    | Disconnects(from: Id, c: Request)

  ghost function ConnectStep(n: Bus, from: Id, c: Request, volatile: bool): Bus {
    var names := n.server.reg.names;
    if from !in n.server.book || !Compatible(c.signal, c.slot) || (volatile && c.sender !in names) then n
    else
      var r := Record(n.handles, c.sender, if volatile then Just(names[c.sender]) else Nothing,
                      c.senderObj, c.signal, from, c.recvObj, c.slot);
      n.(flat := n.flat + [r], handles := n.handles + 1)
  }

  /** Which records a request to disconnect drops. */
  ghost function Dropped(reg: Registry, from: Id, c: Request): Record -> bool {
    if c.sender == "" && c.signal == "" then Removing(from, c.recvObj)
    else Matching(reg, c.sender, c.senderObj, c.signal, from, c.recvObj, c.slot)
  }

  /** What the client is told: whether there was a connection to drop. A request that names neither
      sender nor signal always succeeds. */
  ghost predicate AnyDropped(n: Bus, from: Id, c: Request) {
    (c.sender == "" && c.signal == "") || exists r :: r in n.flat && Dropped(n.server.reg, from, c)(r)
  }

  ghost function DisconnectStep(n: Bus, from: Id, c: Request): Bus {
    if from !in n.server.book then n
    else n.(flat := Filter(n.flat, Unless(Dropped(n.server.reg, from, c))))
  }

  /** A request that names neither sender nor signal nor object drops everything that involves the
      client. */
  lemma EmptyRequestForgets(n: Bus, from: Id, c: Request)
    requires from in n.server.book && c.sender == "" && c.signal == "" && c.recvObj == ""
    ensures forall r :: r in DisconnectStep(n, from, c).flat <==> r in n.flat && !Involves(r, from)
  {
  }

  /** One event; a connection that closes first loses its signal connections. */
  ghost function BusStep(n: Bus, e: BusEvent): Bus {
    if n.server.reg.exited then n else
    match e
    case Handled(e) =>
      if !Enabled(n.server, e) then n
      else Bus(Step(n.server, e).0,
               if e.Closed? then Filter(n.flat, Unless(Removing(e.id, ""))) else n.flat, n.handles)
    case Connects(from, c, volatile) => ConnectStep(n, from, c, volatile)
    case Disconnects(from, c) => DisconnectStep(n, from, c)
  }

  ghost function BusAfter(suicide: bool, es: seq<BusEvent>): Bus {
    if es == [] then Bus(Server(map[], Initial(suicide)), [], 0)
    else BusStep(BusAfter(suicide, es[..|es| - 1]), es[|es| - 1])
  }

  /** Both ends of a record are connected. */
  ghost predicate Connected(r: Record, t: Book) {
    r.recvConn in t && (r.senderConn.Just? ==> r.senderConn.value in t)
  }

  ghost predicate AllConnected(n: Bus) {
    forall r :: r in n.flat ==> Connected(r, n.server.book)
  }

  lemma StepKeepsConnections(s: Server, e: Event)
    requires Sound(s) && Enabled(s, e)
    ensures Step(s, e).0.book.Keys
         == match e
            case Opened(id) => s.book.Keys + {id}
            case Closed(id) => s.book.Keys - {id}
            case _ => s.book.Keys
  {
    match e
    case Opened(id) =>
    case Received(from, m) =>
      MessageKeepsConnections(s, from, m);
    case Closed(id) =>
      StepClosed(s, id);
      CloseCounts(s.book, id, id, id);
    case TimerFired =>
    case ShutdownRequested =>
  }

  lemma MessageKeepsConnections(s: Server, from: Id, m: Message)
    requires Sound(s) && !s.reg.exited
    ensures Step(s, Received(from, m)).0.book.Keys == s.book.Keys
  {
    if from in s.book {
      if m.toApp in s.reg.names {
        StepToClient(s, from, m);
        ForwardKeepsConnections(s, from, m.op, s.reg.names[m.toApp]);
      } else {
        StepToServer(s, from, m);
        ServerKeepsConnections(s, from, m);
      }
    }
  }

  lemma ForwardKeepsConnections(s: Server, from: Id, op: Opcode, target: Id)
    requires Sound(s) && from in s.book && target in s.book
    ensures HandleClient(s, from, op, target).0.book.Keys == s.book.Keys
  {
    UpdateKeeps(s.book, op, from, target);
  }

  lemma ServerKeepsConnections(s: Server, from: Id, m: Message)
    requires Sound(s) && !s.reg.exited && from in s.book
    ensures HandleServer(s, from, m).0.book.Keys == s.book.Keys
  {
    ReceiveKeeps(s, from, m.fun);
  }

  lemma BusStepKeeps(n: Bus, e: BusEvent)
    requires Sound(n.server) && AllConnected(n)
    ensures Sound(BusStep(n, e).server) && AllConnected(BusStep(n, e))
  {
    if !n.server.reg.exited {
      match e
      case Handled(e) =>
        if Enabled(n.server, e) {
          StepKeeps(n.server, e);
          StepKeepsConnections(n.server, e);
        }
      case Connects(from, c, volatile) =>
      case Disconnects(from, c) =>
    }
  }

  /** In every run every signal connection joins live connections. */
  lemma {:induction false} RunConnected(suicide: bool, es: seq<BusEvent>)
    ensures Sound(BusAfter(suicide, es).server) && AllConnected(BusAfter(suicide, es))
  {
    if es == [] {
      RunSound(suicide, []);
    } else {
      RunConnected(suicide, es[..|es| - 1]);
      BusStepKeeps(BusAfter(suicide, es[..|es| - 1]), es[|es| - 1]);
    }
  }

  lemma {:induction false} DeliveredTo(rs: seq<Record>, d: Delivery)
    requires d in Deliveries(rs)
    ensures exists r :: r in rs && r.recvConn == d.to
  {
    if d == Delivery(rs[0].recvConn, rs[0].recvObj, rs[0].slot) {
      assert rs[0] in rs;
    } else {
      DeliveredTo(rs[1..], d);
      var r :| r in rs[1..] && r.recvConn == d.to;
      assert r in rs;
    }
  }

  /** What is sent for a signal of a connected client, or of the server itself. */
  ghost function Emitted(n: Bus, emitter: Maybe<Id>, fun: string, excludeSelf: bool): seq<Delivery> {
    var (senderObj, signal) := SplitFun(fun);
    if emitter.Just? && emitter.value !in n.server.book then []
    else Deliveries(Filter(n.flat, Serving(n.server.reg, emitter, senderObj, signal, excludeSelf)))
  }

  /** In terms of the object and signal that the text names. */
  lemma EmittedMeans(n: Bus, emitter: Maybe<Id>, fun: string, excludeSelf: bool, obj: string, signal: string)
    requires Names(fun, obj, signal)
    ensures Emitted(n, emitter, fun, excludeSelf)
         == if emitter.Just? && emitter.value !in n.server.book then []
            else Deliveries(Filter(n.flat, Serving(n.server.reg, emitter, obj, signal, excludeSelf)))
  {
    NamesSplit(fun);
  }

  ghost predicate ToConnected(n: Bus, sent: seq<Delivery>) {
    forall d :: d in sent ==> d.to in n.server.book
  }

  lemma EmittedIsLive(n: Bus, emitter: Maybe<Id>, fun: string, excludeSelf: bool)
    requires AllConnected(n)
    ensures ToConnected(n, Emitted(n, emitter, fun, excludeSelf))
  {
    var sent := Emitted(n, emitter, fun, excludeSelf);
    if sent != [] {
      var (senderObj, signal) := SplitFun(fun);
      var served := Filter(n.flat, Serving(n.server.reg, emitter, senderObj, signal, excludeSelf));
      forall d | d in sent
        ensures d.to in n.server.book
      {
        DeliveredTo(served, d);
      }
    }
  }

  /** So in every run a signal is delivered to live connections only. */
  lemma EmittedToLive(suicide: bool, es: seq<BusEvent>, emitter: Maybe<Id>, fun: string, excludeSelf: bool)
    ensures ToConnected(BusAfter(suicide, es), Emitted(BusAfter(suicide, es), emitter, fun, excludeSelf))
  {
    RunConnected(suicide, es);
    EmittedIsLive(BusAfter(suicide, es), emitter, fun, excludeSelf);
  }

  // ---------- The server object and its table ----------

  class SignalServer {
    const broker: DcopServer.Broker
    const table: Table

    constructor (suicide: bool)
      ensures Valid() && State() == BusAfter(suicide, []) && fresh(broker) && fresh(table)
    {
      broker := new DcopServer.Broker(suicide);
      table := new Table();
    }

    ghost predicate Valid()
      reads broker, table
    {
      Sound(broker.State()) && table.Valid() && AllConnected(State())
    }

    ghost function State(): Bus
      reads broker, table
    {
      Bus(broker.State(), table.flat, table.nextHandle)
    }

    /** A client asks for a signal connection. */
    method ConnectSignal(from: Id, c: Request, volatile: bool) returns (ok: bool)
      requires Valid() && !broker.exited
      modifies table
      ensures Valid() && State() == BusStep(old(State()), Connects(from, c, volatile))
      ensures ok <==> State() != old(State())
    {
      BusStepKeeps(State(), Connects(from, c, volatile));
      ok := false;
      if from in broker.calls {
        ok := table.ConnectSignal(broker.Register(), c.sender, c.senderObj, c.signal,
                                  from, c.recvObj, c.slot, volatile);
      }
    }

    method DisconnectSignal(from: Id, c: Request) returns (found: bool)
      requires Valid() && !broker.exited
      modifies table
      ensures Valid() && State() == BusStep(old(State()), Disconnects(from, c))
      ensures found <==> old(from in broker.calls && AnyDropped(State(), from, c))
    {
      BusStepKeeps(State(), Disconnects(from, c));
      found := false;
      if from in broker.calls {
        found := table.DisconnectSignal(broker.Register(), c.sender, c.senderObj, c.signal, from, c.recvObj, c.slot);
      }
    }

    /** `emit`, or a signal of the server's own: one message per record served, in connect order, each
        to a connected client. */
    method EmitSignal(emitter: Maybe<Id>, fun: string, excludeSelf: bool) returns (sent: seq<Delivery>)
      requires Valid()
      ensures sent == Emitted(State(), emitter, fun, excludeSelf) && ToConnected(State(), sent)
    {
      EmittedIsLive(State(), emitter, fun, excludeSelf);
      NamesSplit(fun);
      sent := [];
      if emitter == Nothing || emitter.value in broker.calls {
        sent := table.EmitSignal(broker.Register(), emitter, fun, excludeSelf);
      }
    }

    /** Any other message: the table stays as it is. */
    method ProcessMessage(from: Id, m: Message)
      requires Valid() && !broker.exited
      modifies broker
      ensures Valid() && State() == BusStep(old(State()), Handled(Received(from, m)))
    {
      BusStepKeeps(State(), Handled(Received(from, m)));
      broker.ProcessMessage(from, m);
    }

    /** `removeConnection`: the signal connections go first. */
    method RemoveConnection(conn: Id)
      requires Valid() && !broker.exited && conn in broker.calls
      modifies broker, table
      ensures Valid() && State() == BusStep(old(State()), Handled(Closed(conn)))
    {
      BusStepKeeps(State(), Handled(Closed(conn)));
      table.RemoveConnections(conn, "");
      broker.RemoveConnection(conn);
    }
  }
}
