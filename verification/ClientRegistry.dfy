/** The server's register of clients: their names, how many regular (non-daemon) ones there
    are, and the termination timer that depends on that count. */
module ClientRegistry {
  import opened CallBook
  import opened ClientNames

  /** An empty `appId` stands for a connection that has not registered. */
  datatype Client = Client(appId: string, daemon: bool)

  /** Which slot the timer is wired to before a shutdown request. */
  datatype TimerSlot = Terminate | Suicide

  datatype Registry = Registry(
    clients: map<Id, Client>,
    names: map<string, Id>,
    clientNumber: int,
    suicide: bool,
    shutdown: bool,
    timerActive: bool,
    slot: TimerSlot,
    exited: bool)

  const NEW_CLIENT := Client("", false)

  function Initial(suicide: bool): Registry {
    Registry(map[], map[], 0, suicide, false, false, Terminate, false)
  }

  function Connect(r: Registry, id: Id): Registry {
    r.(clients := r.clients[id := NEW_CLIENT])
  }

  /** A name is given up only when the dictionary maps it to this very client. */
  function Unname(names: map<string, Id>, name: string, id: Id): map<string, Id> {
    if name in names && names[name] == id then names - {name} else names
  }

  /** The dictionary after the client has given up its old name, if any. */
  ghost function Freed(r: Registry, id: Id): map<string, Id>
    requires id in r.clients
  {
    if r.clients[id].appId == "" then r.names else Unname(r.names, r.clients[id].appId, id)
  }

  /** `registerAs`. */
  ghost function RegisterAs(r: Registry, id: Id, app: string): Registry {
    if id !in r.clients || app == "" then r
    else
      var c := r.clients[id];
      var names := Freed(r, id);
      var name := UniqueName(names.Keys, app);
      r.(clients := r.clients[id := c.(appId := name)],
         names := names[name := id],
         clientNumber := if c.appId == "" then r.clientNumber + 1 else r.clientNumber,
         timerActive := r.timerActive && c.appId != "")
  }

  /** `setDaemonMode`. */
  function SetDaemonMode(r: Registry, id: Id, daemon: bool): Registry {
    if id !in r.clients || r.clients[id].appId == "" || r.clients[id].daemon == daemon then r
    else
      var r1 := r.(clients := r.clients[id := r.clients[id].(daemon := daemon)]);
      if daemon then r1.(clientNumber := r.clientNumber - 1)
      else r1.(clientNumber := r.clientNumber + 1, timerActive := false)
  }

  /** The registration part of `removeConnection`. */
  function Disconnect(r: Registry, id: Id): Registry
    requires id in r.clients
  {
    var c := r.clients[id];
    var names := if c.appId == "" then r.names else r.names - {c.appId};
    var number := if c.appId != "" && !c.daemon then r.clientNumber - 1 else r.clientNumber;
    r.(clients := r.clients - {id}, names := names, clientNumber := number,
       timerActive := r.timerActive || (r.suicide && number == 0) || (r.shutdown && names == map[]))
  }

  /** The timer is periodic: it stays active until stopped. */
  function TimerFires(r: Registry): Registry {
    if r.shutdown || r.slot.Suicide? then r.(exited := true) else r.(slot := Suicide)
  }

  /** `slotShutdown`. */
  function Shutdown(r: Registry): Registry {
    if r.shutdown then r
    else r.(shutdown := true, timerActive := true, exited := r.exited || r.names == map[])
  }

  // ---------- Invariants ----------

  /** Names and registered live connections correspond one to one. */
  ghost predicate NamesMatch(r: Registry) {
    && (forall n :: n in r.names ==>
          n != "" && r.names[n] in r.clients && r.clients[r.names[n]].appId == n)
    && (forall id :: id in r.clients && r.clients[id].appId != "" ==>
          r.clients[id].appId in r.names && r.names[r.clients[id].appId] == id)
  }

  /** The live, registered, non-daemon connections. */
  ghost function Regulars(r: Registry): set<Id> {
    set id | id in r.clients && r.clients[id].appId != "" && !r.clients[id].daemon
  }

  ghost predicate Inv(r: Registry) {
    && NamesMatch(r)
    && (forall id :: id in r.clients && r.clients[id].appId == "" ==> !r.clients[id].daemon)
    && r.clientNumber == |Regulars(r)|
    && (!r.shutdown && r.timerActive ==> Regulars(r) == {})
    && (r.exited && !r.shutdown ==> r.timerActive)
    && (r.shutdown ==> r.exited || r.timerActive || r.names != map[])
  }

  /** No two clients share a name. */
  lemma NamesUnique(r: Registry, a: Id, b: Id)
    requires NamesMatch(r) && a in r.clients && b in r.clients
    requires r.clients[a].appId == r.clients[b].appId != ""
    ensures a == b
  {
  }

  lemma InitialHolds(suicide: bool)
    ensures Inv(Initial(suicide))
  {
  }

  lemma ConnectKeeps(r: Registry, id: Id)
    requires Inv(r) && id !in r.clients && !r.exited
    ensures Inv(Connect(r, id))
  {
    assert Regulars(Connect(r, id)) == Regulars(r);
  }

  lemma FreedNames(r: Registry, id: Id, n: string)
    requires NamesMatch(r) && id in r.clients
    ensures n in Freed(r, id) <==> n in r.names && r.names[n] != id
    ensures n in Freed(r, id) ==> Freed(r, id)[n] == r.names[n]
  {
  }

  lemma RegisterAsNames(r: Registry, id: Id, app: string)
    requires NamesMatch(r) && id in r.clients && app != ""
    ensures NamesMatch(RegisterAs(r, id, app))
  {
    var r' := RegisterAs(r, id, app);
    var name := UniqueName(Freed(r, id).Keys, app);
    UniqueNameIsFree(Freed(r, id).Keys, app);
    forall n { FreedNames(r, id, n); }
    assert r'.names == Freed(r, id)[name := id];
    assert r'.clients == r.clients[id := r.clients[id].(appId := name)];
  }

  /** Registering keeps the one-to-one correspondence and the count, frees the old name, and
      gives the client exactly the wanted name when nobody else has it. */
  lemma RegisterAsKeeps(r: Registry, id: Id, app: string)
    requires Inv(r) && !r.exited
    ensures Inv(RegisterAs(r, id, app))
    ensures id in r.clients && app != "" ==>
      var r' := RegisterAs(r, id, app);
      && r'.clients[id].appId != ""
      && (r'.clients[id].appId == app <==> app !in r.names || r.names[app] == id)
  {
    if id in r.clients && app != "" {
      RegisterAsNames(r, id, app);
      RegisterAsCounts(r, id, app);
      NameGiven(r, id, app);
    }
  }

  lemma NameGiven(r: Registry, id: Id, app: string)
    requires NamesMatch(r) && id in r.clients && app != ""
    ensures var r' := RegisterAs(r, id, app);
      && r'.clients == r.clients[id := r.clients[id].(appId := r'.clients[id].appId)]
      && r'.clients[id].appId != ""
      && (r'.clients[id].appId == app <==> app !in r.names || r.names[app] == id)
  {
    FreedNames(r, id, app);
    UniqueNameIsFree(Freed(r, id).Keys, app);
  }

  /** Registering touches the entry of this client, its old and its new name, and the timer when the
      client is new. */
  lemma RegisterAsChanges(r: Registry, id: Id, app: string)
    requires NamesMatch(r)
    ensures var r' := RegisterAs(r, id, app);
      if id !in r.clients || app == "" then r' == r
      else
        var name := r'.clients[id].appId;
        && r'.clients == r.clients[id := Client(name, r.clients[id].daemon)]
        && name in r'.names && r'.names[name] == id
        && (forall n :: n != name ==> (n in r'.names <==> n in r.names && r.names[n] != id))
        && (forall n :: n != name && n in r'.names ==> r'.names[n] == r.names[n])
        && (r'.timerActive <==> r.timerActive && r.clients[id].appId != "")
        && r'.suicide == r.suicide && r'.shutdown == r.shutdown && r'.slot == r.slot && r'.exited == r.exited
  {
    if id in r.clients && app != "" {
      NameGiven(r, id, app);
      forall n { FreedNames(r, id, n); }
    }
  }

  /** `setDaemonMode` sets the flag of a registered client, and stops the timer when a daemon becomes a
      regular client. */
  lemma SetDaemonModeChanges(r: Registry, id: Id, daemon: bool)
    ensures var r' := SetDaemonMode(r, id, daemon);
      if id !in r.clients || r.clients[id].appId == "" then r' == r
      else
        && r'.clients == r.clients[id := Client(r.clients[id].appId, daemon)] && r'.names == r.names
        && (r'.timerActive <==> r.timerActive && (daemon || !r.clients[id].daemon))
        && r'.suicide == r.suicide && r'.shutdown == r.shutdown && r'.slot == r.slot && r'.exited == r.exited
  {
    if id in r.clients && r.clients[id].daemon == daemon {
      assert r.clients[id := Client(r.clients[id].appId, daemon)] == r.clients;
    }
  }

  /** A death takes the client and its name, and starts the timer when no regular client is left of a
      server that may end itself, or nobody is left of one that is asked to. */
  lemma DisconnectChanges(r: Registry, id: Id)
    requires Inv(r) && id in r.clients
    ensures var r' := Disconnect(r, id);
      && r'.clients == r.clients - {id}
      && (forall n :: n in r'.names <==> n in r.names && r.names[n] != id)
      && (forall n :: n in r'.names ==> r'.names[n] == r.names[n])
      && (r'.timerActive <==>
            r.timerActive || (r.suicide && Regulars(r') == {}) || (r.shutdown && r'.names == map[]))
      && r'.suicide == r.suicide && r'.shutdown == r.shutdown && r'.slot == r.slot && r'.exited == r.exited
  {
    DisconnectKeeps(r, id);
  }

  lemma RegisterAsCounts(r: Registry, id: Id, app: string)
    requires Inv(r) && id in r.clients && app != ""
    ensures Regulars(RegisterAs(r, id, app))
         == if r.clients[id].appId == "" then Regulars(r) + {id} else Regulars(r)
  {
    var r' := RegisterAs(r, id, app);
    var name := UniqueName(Freed(r, id).Keys, app);
    UniqueNameIsFree(Freed(r, id).Keys, app);
    assert r'.clients == r.clients[id := r.clients[id].(appId := name)];
    if r.clients[id].appId == "" {
      assert Regulars(r') == Regulars(r) + {id};
    } else {
      assert Regulars(r') == Regulars(r);
    }
  }

  lemma SetDaemonModeKeeps(r: Registry, id: Id, daemon: bool)
    requires Inv(r) && !r.exited
    ensures Inv(SetDaemonMode(r, id, daemon))
  {
    if SetDaemonMode(r, id, daemon) != r {
      SetDaemonModeCounts(r, id, daemon);
    }
  }

  lemma SetDaemonModeCounts(r: Registry, id: Id, daemon: bool)
    requires Inv(r) && SetDaemonMode(r, id, daemon) != r
    ensures var r' := SetDaemonMode(r, id, daemon);
      if daemon then id in Regulars(r) && Regulars(r') == Regulars(r) - {id}
      else id !in Regulars(r) && Regulars(r') == Regulars(r) + {id}
  {
  }

  lemma DisconnectKeeps(r: Registry, id: Id)
    requires Inv(r) && id in r.clients
    ensures Inv(Disconnect(r, id))
    ensures forall n :: n in Disconnect(r, id).names ==> Disconnect(r, id).names[n] != id
  {
    var r' := Disconnect(r, id);
    assert Regulars(r') == Regulars(r) - {id};
  }

  /** The timer reaches the exit without a shutdown request only when no regular client is
      registered. */
  lemma TimerFiresKeeps(r: Registry)
    requires Inv(r) && r.timerActive
    ensures Inv(TimerFires(r))
    ensures !r.shutdown ==> Regulars(TimerFires(r)) == {}
  {
  }

  lemma ShutdownKeeps(r: Registry)
    requires Inv(r)
    ensures Inv(Shutdown(r))
  {
  }
}
