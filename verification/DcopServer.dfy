/** The server object: dictionaries and lists updated in place, statement by statement, each
    handler proved to make exactly the step of the state machine. */
module DcopServer {
  import opened Lists
  import opened CallBook
  import opened ClientNames
  import opened ClientRegistry
  import opened ServerRuns

  class Broker {
    /** Per connection: the three lists of pending calls. */
    var calls: map<Id, Calls>
    /** Per connection: its name and whether it is a daemon. */
    var clients: map<Id, Client>
    var appIds: map<string, Id>
    var currentClientNumber: int
    const suicide: bool
    var shutdown: bool
    var timerActive: bool
    var slot: TimerSlot
    var exited: bool
    /** Messages handed to the transport, oldest first. */
    var traffic: seq<Out>

    function Register(): Registry
      reads this
    {
      Registry(clients, appIds, currentClientNumber, suicide, shutdown, timerActive, slot, exited)
    }

    ghost function State(): Server
      reads this
    {
      Server(calls, Register())
    }

    constructor (suicide: bool)
      ensures State() == Server(map[], Initial(suicide)) && traffic == [] && Sound(State())
    {
      calls, clients, appIds := map[], map[], map[];
      currentClientNumber := 0;
      this.suicide := suicide;
      shutdown, timerActive, slot, exited := false, false, Terminate, false;
      traffic := [];
      new;
      InitialHolds(suicide);
      RunSound(suicide, []);
    }

    /** `watchConnection`. */
    method WatchConnection(iceConn: Id)
      requires Sound(State()) && !exited && iceConn !in calls
      modifies this
      ensures Sound(State())
      ensures State() == Step(old(State()), Opened(iceConn)).0 && traffic == old(traffic)
    {
      StepKeeps(State(), Opened(iceConn));
      calls := calls[iceConn := NO_CALLS];
      clients := clients[iceConn := NEW_CLIENT];
    }

    /** `processMessage`. */
    method ProcessMessage(from: Id, m: Message)
      requires Sound(State()) && !exited
      modifies this
      ensures Sound(State())
      ensures State() == Step(old(State()), Received(from, m)).0
      ensures traffic == old(traffic) + Step(old(State()), Received(from, m)).1
    {
      StepKeeps(State(), Received(from, m));
      if from in clients {
        if m.toApp in appIds {
          ForwardMessage(from, m.op, appIds[m.toApp]);
        } else {
          ServeMessage(from, m);
        }
      }
    }

    method ForwardMessage(conn: Id, op: Opcode, target: Id)
      requires conn in calls && target in calls
      modifies this`calls, this`traffic
      ensures State() == HandleClient(old(State()), conn, op, target).0
      ensures traffic == old(traffic) + HandleClient(old(State()), conn, op, target).1
    {
      if op.ReplyDelayed? {
        if target in calls[conn].forDelayed {
          calls := calls[conn := calls[conn].(forDelayed := RemoveFirst(calls[conn].forDelayed, target))];
          calls := calls[target := calls[target].(onReply := RemoveFirst(calls[target].onReply, conn))];
        }
      } else if op.Call? || op.Find? {
        calls := calls[target := calls[target].(forReply := calls[target].forReply + [conn])];
        calls := calls[conn := calls[conn].(onReply := calls[conn].onReply + [target])];
      } else if op.Reply? || op.ReplyFailed? || op.ReplyWait? {
        calls := calls[conn := calls[conn].(forReply := RemoveFirst(calls[conn].forReply, target))];
        if op.ReplyWait? {
          calls := calls[conn := calls[conn].(forDelayed := calls[conn].forDelayed + [target])];
        } else {
          calls := calls[target := calls[target].(onReply := RemoveFirst(calls[target].onReply, conn))];
        }
      }
      traffic := traffic + [Forward(op, conn, target)];
    }

    method ServeMessage(conn: Id, m: Message)
      requires conn in clients && m.toApp !in appIds
      modifies this
      ensures State() == HandleServer(old(State()), conn, m).0
      ensures traffic == old(traffic) + HandleServer(old(State()), conn, m).1
    {
      if m.op.Send? || m.op.ReplyDelayed? {
        if m.toApp == "DCOPServer" {
          var _ := Receive(conn, m.fun);
        } else if m.toApp != "" && m.toApp[|m.toApp| - 1] == '*' {
          traffic := traffic + [Multicast(set n | n in appIds && m.toApp[..|m.toApp| - 1] <= n :: appIds[n])];
        }
      } else if m.op.Call? || m.op.Find? {
        var b := false;
        if m.op.Call? && m.toApp == "DCOPServer" {
          b := Receive(conn, m.fun);
        }
        traffic := traffic + [ServerReply(conn, !b)];
      }
    }

    /** `receive`; the result says whether the function is known. */
    method Receive(conn: Id, f: ServerFun) returns (known: bool)
      requires conn in clients
      modifies this`clients, this`appIds, this`currentClientNumber, this`timerActive
      ensures known == Known(f)
      ensures State() == ServerRuns.Receive(old(State()), conn, f)
    {
      match f {
        case RegisterAs(app) => RegisterAs(conn, app);
        case SetDaemonMode(daemon) => SetDaemonMode(conn, daemon);
        case Other(_) =>
      }
      known := !f.Other? || f.known;
    }

    method RegisterAs(conn: Id, app: string)
      requires conn in clients
      modifies this`clients, this`appIds, this`currentClientNumber, this`timerActive
      ensures Register() == ClientRegistry.RegisterAs(old(Register()), conn, app)
    {
      if app == "" {
        return;
      }
      var appId := clients[conn].appId;
      if appId != "" && appId in appIds && appIds[appId] == conn {
        appIds := appIds - {appId};
      }
      if appId == "" {
        currentClientNumber := currentClientNumber + 1;
        timerActive := false;
      }
      var name := Unify(appIds.Keys, app);
      clients := clients[conn := clients[conn].(appId := name)];
      appIds := appIds[name := conn];
    }

    method SetDaemonMode(conn: Id, daemon: bool)
      requires conn in clients
      modifies this`clients, this`currentClientNumber, this`timerActive
      ensures Register() == ClientRegistry.SetDaemonMode(old(Register()), conn, daemon)
    {
      if clients[conn].appId != "" {
        if daemon {
          if !clients[conn].daemon {
            clients := clients[conn := clients[conn].(daemon := true)];
            currentClientNumber := currentClientNumber - 1;
          }
        } else if clients[conn].daemon {
          clients := clients[conn := clients[conn].(daemon := false)];
          currentClientNumber := currentClientNumber + 1;
          timerActive := false;
        }
      }
    }

    /** The first two loops of `removeConnection`: fail every caller in the list. */
    method AbortCallers(callers: seq<Id>, dead: Id)
      modifies this`calls, this`traffic
      ensures calls == AbortAll(old(calls), callers, dead)
      ensures traffic == old(traffic) + Aborts(callers, dead)
    {
      var rest := callers;
      while rest != []
        invariant AbortAll(calls, rest, dead) == AbortAll(old(calls), callers, dead)
        invariant traffic + Aborts(rest, dead) == old(traffic) + Aborts(callers, dead)
      {
        var c := rest[0];
        traffic := traffic + [Abort(c, dead)];
        if c in calls {
          calls := calls[c := calls[c].(onReply := RemoveFirst(calls[c].onReply, dead))];
        }
        rest := rest[1..];
      }
    }

    /** The third loop: every callee forgets one call of the dead client. */
    method ForgetCaller(callees: seq<Id>, dead: Id)
      modifies this`calls
      ensures calls == ForgetAll(old(calls), callees, dead)
    {
      var rest := callees;
      while rest != []
        invariant ForgetAll(calls, rest, dead) == ForgetAll(old(calls), callees, dead)
      {
        var c := rest[0];
        if c in calls {
          if dead in calls[c].forReply {
            calls := calls[c := calls[c].(forReply := RemoveFirst(calls[c].forReply, dead))];
          } else {
            calls := calls[c := calls[c].(forDelayed := RemoveFirst(calls[c].forDelayed, dead))];
          }
        }
        rest := rest[1..];
      }
    }

    /** `removeConnection`: first the calls, then the name, the count and the timer. */
    method RemoveConnection(conn: Id)
      requires Sound(State()) && !exited && conn in calls
      modifies this
      ensures Sound(State())
      ensures State() == Step(old(State()), Closed(conn)).0
      ensures traffic == old(traffic) + Step(old(State()), Closed(conn)).1
    {
      StepKeeps(State(), Closed(conn));
      SettleCalls(conn);
      Unregister(conn);
    }

    method SettleCalls(conn: Id)
      requires conn in calls
      modifies this`calls, this`traffic
      ensures calls == Close(old(calls), conn)
      ensures traffic == old(traffic) + (Aborts(old(calls)[conn].forReply, conn)
                                         + Aborts(old(calls)[conn].forDelayed, conn))
    {
      var me := calls[conn];
      calls := calls - {conn};
      AbortCallers(me.forReply, conn);
      AbortCallers(me.forDelayed, conn);
      ForgetCaller(me.onReply, conn);
    }

    method Unregister(conn: Id)
      requires conn in clients
      modifies this`clients, this`appIds, this`currentClientNumber, this`timerActive
      ensures Register() == Disconnect(old(Register()), conn)
    {
      var client := clients[conn];
      clients := clients - {conn};
      if client.appId != "" {
        if !client.daemon {
          currentClientNumber := currentClientNumber - 1;
        }
        appIds := appIds - {client.appId};
      }
      if suicide && currentClientNumber == 0 {
        timerActive := true;
      }
      if shutdown && appIds == map[] {
        timerActive := true;
      }
    }

    /** `slotTerminate` and, once that has rewired the timer, `slotSuicide`; `slotExit` after a
        shutdown request. */
    method TimerFires()
      requires Sound(State()) && !exited && timerActive
      modifies this`slot, this`exited
      ensures Sound(State()) && State() == Step(old(State()), TimerFired).0
    {
      StepKeeps(State(), TimerFired);
      if shutdown || slot.Suicide? {
        exited := true;
      } else {
        slot := Suicide;
      }
    }

    method SlotShutdown()
      requires Sound(State()) && !exited
      modifies this`shutdown, this`timerActive, this`exited
      ensures Sound(State()) && State() == Step(old(State()), ShutdownRequested).0
    {
      StepKeeps(State(), ShutdownRequested);
      if !shutdown {
        shutdown := true;
        timerActive := true;
        if appIds == map[] {
          exited := true;
        }
      }
    }
  }
}
