/** Signal connections: a dictionary of lists by signal and one list per client, all holding
    the same records. Together they behave as one flat list of records in connect order. */
module SignalTable {
  import opened Lists
  import opened Optional
  import opened Text
  import opened CallBook
  import opened ClientRegistry

  /** A record; `handle` is its address, which tells equal connections apart. */
  datatype Record = Record(
    handle: nat,
    sender: string,
    senderConn: Maybe<Id>,
    senderObj: string,
    signal: string,
    recvConn: Id,
    recvObj: string,
    slot: string)

  datatype Delivery = Delivery(to: Id, obj: string, slot: string)

  function AppId(reg: Registry, c: Id): string {
    if c in reg.clients then reg.clients[c].appId else ""
  }

  /** A registered name is the current name of the client it stands for. */
  lemma NameOfClient(reg: Registry, name: string)
    requires NamesMatch(reg) && name in reg.names
    ensures AppId(reg, reg.names[name]) == name
  {
  }

  // ---------- Argument compatibility of signal and slot ----------

  /** The text between the first `(` and the first `)` after it. */
  function ArgsOf(signature: string): Maybe<string> {
    var i := Find(signature, '(', 0);
    if i < 0 then Nothing
    else
      var args := signature[i + 1..];
      var j := Find(args, ')', 0);
      if j < 0 then Nothing else Just(args[..j])
  }

  predicate ArgsFit(signalArgs: string, slotArgs: string) {
    signalArgs == slotArgs
    || (&& |signalArgs| > |slotArgs|
        && (|slotArgs| > 0 ==> signalArgs[|slotArgs|] == ',')
        && signalArgs[..|slotArgs|] == slotArgs)
  }

  predicate Compatible(signal: string, slot: string) {
    ArgsOf(signal).Just? && ArgsOf(slot).Just? && ArgsFit(ArgsOf(signal).value, ArgsOf(slot).value)
  }

  /** The pieces of `s` between commas; at least one. */
  function Pieces(s: string): seq<string>
    decreases |s|
  {
    var i := Find(s, ',', 0);
    if i < 0 then [s] else [s[..i]] + Pieces(s[i + 1..])
  }

  /** An argument list; an empty text is no arguments at all. */
  function ArgList(s: string): seq<string> {
    if s == "" then [] else Pieces(s)
  }

  /** The pieces of `t` are the first pieces of `s`. */
  predicate LeadingPieces(s: string, t: string) {
    Pieces(t) <= Pieces(s)
  }

  /** `t` is `s`, or `s` goes on with a comma after it. */
  predicate StopsAtComma(s: string, t: string) {
    s == t || (t <= s && |t| < |s| && s[|t|] == ',')
  }

  lemma PiecesCons(s: string, i: nat, t: string, j: nat)
    requires Find(s, ',', 0) == i && Find(t, ',', 0) == j
    ensures LeadingPieces(s, t) <==> s[..i] == t[..j] && LeadingPieces(s[i + 1..], t[j + 1..])
  {
    PrefixCons(s[..i], Pieces(s[i + 1..]), t[..j], Pieces(t[j + 1..]));
  }

  lemma PrefixCons<T>(a: T, as': seq<T>, b: T, bs: seq<T>)
    ensures [b] + bs <= [a] + as' <==> a == b && bs <= as'
  {
    var xs, ys := [a] + as', [b] + bs;
    assert xs[1..] == as' && ys[1..] == bs;
    if ys <= xs {
      assert ys[0] == xs[0] && ys[1..] <= xs[1..];
    }
  }

  lemma StopsCons(s: string, i: nat, t: string, j: nat)
    requires Find(s, ',', 0) == i && Find(t, ',', 0) == j
    ensures StopsAtComma(s, t) <==> s[..i] == t[..j] && StopsAtComma(s[i + 1..], t[j + 1..])
  {
  }

  lemma {:induction false} PiecesPrefix(s: string, t: string)
    ensures LeadingPieces(s, t) <==> StopsAtComma(s, t)
    decreases |t|
  {
    var i, j := Find(s, ',', 0), Find(t, ',', 0);
    if i >= 0 && j >= 0 {
      PiecesCons(s, i, t, j);
      StopsCons(s, i, t, j);
      PiecesPrefix(s[i + 1..], t[j + 1..]);
    } else if i >= 0 {
      LastPiece(s, i, t);
    } else {
      OnlyPiece(s, t);
    }
  }

  lemma OnlyPiece(s: string, t: string)
    requires Find(s, ',', 0) == -1
    ensures LeadingPieces(s, t) <==> s == t
    ensures StopsAtComma(s, t) <==> s == t
  {
    assert Pieces(s) == [s];
    if Pieces(t) <= Pieces(s) {
      assert Pieces(t)[0] == Pieces(s)[0];
    }
  }

  lemma CommaInside(s: string, i: nat, t: string)
    requires t <= s && i < |t| && s[i] == ','
    ensures Find(t, ',', 0) != -1
  {
  }

  lemma LastPiece(s: string, i: nat, t: string)
    requires Find(s, ',', 0) == i && Find(t, ',', 0) == -1
    ensures LeadingPieces(s, t) <==> t == s[..i]
    ensures StopsAtComma(s, t) <==> t == s[..i]
  {
    assert Pieces(t) == [t] && Pieces(s)[0] == s[..i];
    if Pieces(t) <= Pieces(s) { assert Pieces(t)[0] == Pieces(s)[0]; }
    if t <= s && i < |t| { CommaInside(s, i, t); }
  }

  /** The length-and-comma test of the code decides exactly this: the slot's argument list is
      a leading part of the signal's. */
  lemma SlotMayIgnoreArguments(signalArgs: string, slotArgs: string)
    ensures ArgsFit(signalArgs, slotArgs) <==> ArgList(slotArgs) <= ArgList(signalArgs)
  {
    PiecesPrefix(signalArgs, slotArgs);
    if slotArgs != "" && signalArgs == "" {
      assert Pieces(slotArgs) != [];
    }
  }

  /** `args` stands between the first `(` of a signature and the first `)` after it. */
  ghost predicate HasArgs(signature: string, args: string) {
    exists name: string, tail: string, rest: string ::
      Around(signature, name, '(', tail) && Around(tail, args, ')', rest)
  }

  lemma ArgsOfMeans(signature: string)
    ensures forall args :: ArgsOf(signature) == Just(args) <==> HasArgs(signature, args)
  {
    if ArgsOf(signature).Just? { ArgsThere(signature); }
    forall args, name, tail, rest | Around(signature, name, '(', tail) && Around(tail, args, ')', rest)
      ensures ArgsOf(signature) == Just(args)
    {
      FindCuts(signature, name, '(', tail);
      FindCuts(tail, args, ')', rest);
    }
  }

  lemma ArgsThere(signature: string)
    requires ArgsOf(signature).Just?
    ensures HasArgs(signature, ArgsOf(signature).value)
  {
    var i := Find(signature, '(', 0);
    var tail := signature[i + 1..];
    var j := Find(tail, ')', 0);
    FindCuts(signature, signature[..i], '(', tail);
    FindCuts(tail, tail[..j], ')', tail[j + 1..]);
  }

  /** Signal and slot fit exactly when both have an argument list and the slot's is a leading part of the
      signal's. */
  lemma CompatibleMeans(signal: string, slot: string)
    ensures Compatible(signal, slot)
       <==> exists a, b :: HasArgs(signal, a) && HasArgs(slot, b) && ArgList(b) <= ArgList(a)
  {
    ArgsOfMeans(signal);
    ArgsOfMeans(slot);
    if Compatible(signal, slot) {
      SlotMayIgnoreArguments(ArgsOf(signal).value, ArgsOf(slot).value);
      assert HasArgs(signal, ArgsOf(signal).value) && HasArgs(slot, ArgsOf(slot).value);
    }
    if a, b :| HasArgs(signal, a) && HasArgs(slot, b) && ArgList(b) <= ArgList(a) {
      SlotMayIgnoreArguments(a, b);
    }
  }

  // ---------- The flat list and its views ----------

  ghost function BySignal(signal: string): Record -> bool {
    (r: Record) => r.signal == signal
  }

  predicate Involves(r: Record, c: Id) {
    r.recvConn == c || r.senderConn == Just(c)
  }

  ghost function OfClient(c: Id): Record -> bool {
    (r: Record) => Involves(r, c)
  }

  ghost function Unless(drop: Record -> bool): Record -> bool {
    (r: Record) => !drop(r)
  }

  /** Which records `emitSignal` delivers. A record that names the sender `DCOPServer` is
      served whoever emits. */
  predicate Delivers(r: Record, reg: Registry, emitter: Maybe<Id>, senderObj: string, excludeSelf: bool) {
    && (if r.senderConn.Just? then emitter == r.senderConn
        else if r.sender != "" then
          (emitter.Just? && r.sender == AppId(reg, emitter.value)) || r.sender == "DCOPServer"
        else true)
    && (r.senderObj == "" || r.senderObj == senderObj)
    && !(excludeSelf && emitter == Just(r.recvConn))
  }

  ghost function Served(reg: Registry, emitter: Maybe<Id>, senderObj: string, excludeSelf: bool): Record -> bool {
    (r: Record) => Delivers(r, reg, emitter, senderObj, excludeSelf)
  }

  ghost function Serving(reg: Registry, emitter: Maybe<Id>, senderObj: string, signal: string,
                         excludeSelf: bool): Record -> bool
  {
    (r: Record) => r.signal == signal && Delivers(r, reg, emitter, senderObj, excludeSelf)
  }

  /** What the documentation says: a named sender is the client of that name, and the server
      itself is called `DCOPServer`. */
  predicate DeliversAsDocumented(r: Record, reg: Registry, emitter: Maybe<Id>, senderObj: string, excludeSelf: bool) {
    && (if r.senderConn.Just? then emitter == r.senderConn
        else r.sender == "" || r.sender == (if emitter.Just? then AppId(reg, emitter.value) else "DCOPServer"))
    && (r.senderObj == "" || r.senderObj == senderObj)
    && !(excludeSelf && emitter == Just(r.recvConn))
  }

  /** A record that only the code serves: it names `DCOPServer`, and a client of another name
      emits. */
  predicate ServedByCodeOnly(r: Record, reg: Registry, emitter: Maybe<Id>, senderObj: string, excludeSelf: bool) {
    && r.senderConn.Nothing? && r.sender == "DCOPServer"
    && emitter.Just? && AppId(reg, emitter.value) != "DCOPServer"
    && (r.senderObj == "" || r.senderObj == senderObj)
    && !(excludeSelf && emitter == Just(r.recvConn))
  }

  ghost function ServingAsDocumented(reg: Registry, emitter: Maybe<Id>, senderObj: string, signal: string,
                                     excludeSelf: bool): Record -> bool
  {
    (r: Record) => r.signal == signal && DeliversAsDocumented(r, reg, emitter, senderObj, excludeSelf)
  }

  /** What is sent over a table is what the documentation says, if and only if the table holds no
      record of the signal that only the code serves. */
  lemma DeliveryVersusDocumentation(flat: seq<Record>, reg: Registry, emitter: Maybe<Id>, senderObj: string,
                                    signal: string, excludeSelf: bool)
    ensures Deliveries(Filter(flat, Serving(reg, emitter, senderObj, signal, excludeSelf)))
         == Deliveries(Filter(flat, ServingAsDocumented(reg, emitter, senderObj, signal, excludeSelf)))
       <==> !exists r :: r in flat && r.signal == signal
                         && ServedByCodeOnly(r, reg, emitter, senderObj, excludeSelf)
  {
    var code := Serving(reg, emitter, senderObj, signal, excludeSelf);
    var documented := ServingAsDocumented(reg, emitter, senderObj, signal, excludeSelf);
    forall r | r in flat
      ensures documented(r) == code(r)
         <==> !(r.signal == signal && ServedByCodeOnly(r, reg, emitter, senderObj, excludeSelf))
    {
    }
    NarrowFilter(flat, documented, code);
    DeliveriesLength(Filter(flat, code));
    DeliveriesLength(Filter(flat, documented));
    if forall r :: r in flat ==> documented(r) == code(r) { FilterAgree(flat, documented, code); }
  }

  lemma {:induction false} DeliveriesLength(rs: seq<Record>)
    ensures |Deliveries(rs)| == |rs|
  {
    if rs != [] { DeliveriesLength(rs[1..]); }
  }

  /** Which records `disconnectSignal` removes. The sender is compared by its current name. */
  predicate Matches(r: Record, reg: Registry, sender: string, senderObj: string, signal: string,
                    conn: Id, recvObj: string, slot: string)
  {
    && r.signal == signal && r.recvConn == conn
    && (if r.senderConn.Just? then AppId(reg, r.senderConn.value) == sender else r.sender == sender)
    && (senderObj == "" || r.senderObj == senderObj)
    && (recvObj == "" || r.recvObj == recvObj)
    && (slot == "" || r.slot == slot)
  }

  ghost function Matching(reg: Registry, sender: string, senderObj: string, signal: string,
                          conn: Id, recvObj: string, slot: string): Record -> bool
  {
    (r: Record) => Matches(r, reg, sender, senderObj, signal, conn, recvObj, slot)
  }

  /** Two records that the arguments of the second cannot tell apart: an empty object or slot stands for
      every one. */
  ghost predicate Alike(x: Record, r: Record, reg: Registry) {
    && x.signal == r.signal && x.recvConn == r.recvConn
    && (x.senderConn.Just? ==> AppId(reg, x.senderConn.value) == r.sender)
    && (x.senderConn.Nothing? ==> x.sender == r.sender)
    && x.senderObj == (if r.senderObj == "" then x.senderObj else r.senderObj)
    && x.recvObj == (if r.recvObj == "" then x.recvObj else r.recvObj)
    && x.slot == (if r.slot == "" then x.slot else r.slot)
  }

  /** Disconnecting with the arguments of the connection made last undoes it, and leaves the table as it
      was before if and only if the table held no record that these arguments cannot tell from it. */
  lemma DisconnectUndoesConnect(flat: seq<Record>, r: Record, reg: Registry)
    requires r.senderConn.Just? ==> AppId(reg, r.senderConn.value) == r.sender
    ensures var left := Filter(flat + [r],
        Unless(Matching(reg, r.sender, r.senderObj, r.signal, r.recvConn, r.recvObj, r.slot)));
      left == flat <==> !exists x :: x in flat && Alike(x, r, reg)
  {
    var drop := Matching(reg, r.sender, r.senderObj, r.signal, r.recvConn, r.recvObj, r.slot);
    FilterAppend(flat, r, Unless(drop));
    ShorterIffDropped(flat, drop);
    forall x
      ensures drop(x) <==> Alike(x, r, reg)
    {
    }
    assert Filter(flat, Unless(drop)) + [] == Filter(flat, Unless(drop));
  }

  /** Which records `removeConnections` removes for a client and, if given, one object. */
  predicate Removes(r: Record, conn: Id, obj: string) {
    && Involves(r, conn)
    && (obj != "" ==>
          (r.senderConn == Just(conn) ==> r.senderObj == obj) && (r.recvConn == conn ==> r.recvObj == obj))
  }

  ghost function Removing(conn: Id, obj: string): Record -> bool {
    (r: Record) => Removes(r, conn, obj)
  }

  /** What the documentation says: the client and object are the receiver, or the sender of a
      volatile connection. */
  predicate RemovesAsDocumented(r: Record, conn: Id, obj: string) {
    || (r.recvConn == conn && (obj == "" || r.recvObj == obj))
    || (r.senderConn == Just(conn) && (obj == "" || r.senderObj == obj))
  }

  ghost function RemovingAsDocumented(conn: Id, obj: string): Record -> bool {
    (r: Record) => RemovesAsDocumented(r, conn, obj)
  }

  /** A client's connection to itself of which exactly one end is the object. */
  predicate HalfMatchedSelf(r: Record, conn: Id, obj: string) {
    && r.recvConn == conn && r.senderConn == Just(conn) && obj != ""
    && (r.recvObj == obj) != (r.senderObj == obj)
  }

  /** What is left of a table is what the documentation says, if and only if the table holds no
      such connection. */
  lemma RemovalVersusDocumentation(flat: seq<Record>, conn: Id, obj: string)
    ensures Filter(flat, Unless(Removing(conn, obj))) == Filter(flat, Unless(RemovingAsDocumented(conn, obj)))
       <==> !exists r :: r in flat && HalfMatchedSelf(r, conn, obj)
  {
    var code, documented := Unless(Removing(conn, obj)), Unless(RemovingAsDocumented(conn, obj));
    forall r | r in flat
      ensures documented(r) == code(r) <==> !HalfMatchedSelf(r, conn, obj)
    {
    }
    NarrowFilter(flat, documented, code);
    if forall r :: r in flat ==> documented(r) == code(r) { FilterAgree(flat, documented, code); }
  }

  /** Unlink one by one the records of `todo` that satisfy `drop`. */
  ghost function Sweep(flat: seq<Record>, todo: seq<Record>, drop: Record -> bool): seq<Record>
    decreases |todo|
  {
    if todo == [] then flat
    else Sweep(if drop(todo[0]) then RemoveFirst(flat, todo[0]) else flat, todo[1..], drop)
  }

  /** One round of a sweep. */
  lemma SweepStep(flat: seq<Record>, todo: seq<Record>, drop: Record -> bool)
    requires todo != []
    ensures drop(todo[0]) ==> Sweep(flat, todo, drop) == Sweep(RemoveFirst(flat, todo[0]), todo[1..], drop)
    ensures !drop(todo[0]) ==> Sweep(flat, todo, drop) == Sweep(flat, todo[1..], drop)
  {
  }

  lemma {:induction false} SweepIsFilter(flat: seq<Record>, todo: seq<Record>, drop: Record -> bool,
                                         keep: Record -> bool)
    requires Distinct(flat)
    requires forall r :: r in flat ==> (keep(r) <==> !(r in todo && drop(r)))
    ensures Sweep(flat, todo, drop) == Filter(flat, keep)
    decreases |todo|
  {
    if todo == [] {
      FilterAll(flat, keep);
    } else if !drop(todo[0]) {
      SweepIsFilter(flat, todo[1..], drop, keep);
    } else {
      var x := todo[0];
      var without: Record -> bool := (r: Record) => r != x;
      RemoveFirstDistinct(flat, x);
      RemoveIsFilter(flat, x, without);
      var rest: Record -> bool := (r: Record) => !(r in todo[1..] && drop(r));
      SweepIsFilter(RemoveFirst(flat, x), todo[1..], drop, rest);
      FilterTwice(flat, without, rest, keep);
    }
  }

  /** Filtering shortens a list if and only if it drops a member. */
  lemma ShorterIffDropped(flat: seq<Record>, drop: Record -> bool)
    ensures |Filter(flat, Unless(drop))| < |flat| <==> exists r :: r in flat && drop(r)
    ensures Filter(flat, Unless(drop)) == flat <==> !exists r :: r in flat && drop(r)
  {
    var all: Record -> bool := (r: Record) => true;
    FilterAll(flat, all);
    NarrowFilter(flat, Unless(drop), all);
    if !exists r :: r in flat && drop(r) { FilterAll(flat, Unless(drop)); }
  }

  /** Sweeping a view removes exactly the records of the view that satisfy `drop`. */
  lemma SweepView(flat: seq<Record>, view: Record -> bool, drop: Record -> bool, all: Record -> bool)
    requires Distinct(flat)
    requires forall r :: r in flat ==> (all(r) <==> view(r) && drop(r))
    ensures Sweep(flat, Filter(flat, view), drop) == Filter(flat, Unless(all))
  {
    SweepIsFilter(flat, Filter(flat, view), drop, Unless(all));
  }

  // ---------- The dictionaries as views of the flat list ----------

  function At<K>(m: map<K, seq<Record>>, k: K): seq<Record> {
    if k in m then m[k] else []
  }

  /** The list of each signal shows its records of the flat list, in order and no others. */
  ghost predicate SignalsShown(m: map<string, seq<Record>>, flat: seq<Record>) {
    forall signal: string :: SignalShown(m, flat, signal)
  }

  ghost predicate SignalShown(m: map<string, seq<Record>>, flat: seq<Record>, signal: string) {
    At(m, signal) == Filter(flat, BySignal(signal))
  }

  /** So does the list of each client: every record once, even if the client is both ends. */
  ghost predicate ClientsShown(m: map<Id, seq<Record>>, flat: seq<Record>) {
    forall c: Id :: ClientShown(m, flat, c)
  }

  ghost predicate ClientShown(m: map<Id, seq<Record>>, flat: seq<Record>, c: Id) {
    At(m, c) == Filter(flat, OfClient(c))
  }

  lemma AppendToSignals(m: map<string, seq<Record>>, flat: seq<Record>, r: Record)
    requires SignalsShown(m, flat)
    ensures SignalsShown(m[r.signal := At(m, r.signal) + [r]], flat + [r])
  {
    var m' := m[r.signal := At(m, r.signal) + [r]];
    forall s: string
      ensures SignalShown(m', flat + [r], s)
    {
      assert SignalShown(m, flat, s);
      FilterAppend(flat, r, BySignal(s));
    }
  }

  function AddLinks(m: map<Id, seq<Record>>, r: Record): map<Id, seq<Record>> {
    var m1 := m[r.recvConn := At(m, r.recvConn) + [r]];
    if r.senderConn.Just? && r.senderConn.value != r.recvConn then
      m1[r.senderConn.value := At(m1, r.senderConn.value) + [r]]
    else m1
  }

  lemma AppendToClients(m: map<Id, seq<Record>>, flat: seq<Record>, r: Record)
    requires ClientsShown(m, flat)
    ensures ClientsShown(AddLinks(m, r), flat + [r])
  {
    forall c: Id
      ensures ClientShown(AddLinks(m, r), flat + [r], c)
    {
      assert ClientShown(m, flat, c);
      FilterAppend(flat, r, OfClient(c));
      assert At(AddLinks(m, r), c) == At(m, c) + (if Involves(r, c) then [r] else []);
    }
  }

  lemma RemoveFromSignals(m: map<string, seq<Record>>, flat: seq<Record>, r: Record, m': map<string, seq<Record>>)
    requires SignalsShown(m, flat)
    requires At(m', r.signal) == RemoveFirst(At(m, r.signal), r)
    requires forall s: string :: s != r.signal ==> At(m', s) == At(m, s)
    ensures SignalsShown(m', RemoveFirst(flat, r))
  {
    forall s: string
      ensures SignalShown(m', RemoveFirst(flat, r), s)
    {
      assert SignalShown(m, flat, s);
      FilterRemove(flat, r, BySignal(s));
      if s != r.signal { RemoveAbsent(Filter(flat, BySignal(s)), r); }
    }
  }

  /** The lists of the clients involved have lost `r`, and the others are as they were. */
  ghost predicate TakenFromClients(m: map<Id, seq<Record>>, r: Record, m': map<Id, seq<Record>>) {
    forall c: Id :: At(m', c) == if Involves(r, c) then RemoveFirst(At(m, c), r) else At(m, c)
  }

  lemma RemoveFromClients(m: map<Id, seq<Record>>, flat: seq<Record>, r: Record, m': map<Id, seq<Record>>)
    requires ClientsShown(m, flat)
    requires TakenFromClients(m, r, m')
    ensures ClientsShown(m', RemoveFirst(flat, r))
  {
    forall c: Id
      ensures ClientShown(m', RemoveFirst(flat, r), c)
    {
      assert ClientShown(m, flat, c);
      FilterRemove(flat, r, OfClient(c));
      if !Involves(r, c) { RemoveAbsent(Filter(flat, OfClient(c)), r); }
    }
  }

  lemma {:induction false} DistinctCount(s: seq<Record>, x: Record)
    requires Distinct(s)
    ensures Count(s, x) == if x in s then 1 else 0
  {
    if s != [] {
      DistinctCount(s[1..], x);
      assert s[0] !in s[1..];
    }
  }

  /** Every record is in its signal's list once, in the list of each client it involves once,
      and nothing else is in any list. */
  lemma EachRecordOnce(signals: map<string, seq<Record>>, clients: map<Id, seq<Record>>,
                       flat: seq<Record>, r: Record, signal: string, c: Id)
    requires Distinct(flat) && SignalsShown(signals, flat) && ClientsShown(clients, flat)
    ensures Count(At(signals, signal), r) == if r in flat && r.signal == signal then 1 else 0
    ensures Count(At(clients, c), r) == if r in flat && Involves(r, c) then 1 else 0
  {
    assert SignalShown(signals, flat, signal) && ClientShown(clients, flat, c);
    FilterDistinct(flat, BySignal(signal));
    FilterDistinct(flat, OfClient(c));
    DistinctCount(At(signals, signal), r);
    DistinctCount(At(clients, c), r);
  }

  // ---------- The table ----------

  class Table {
    var connections: map<string, seq<Record>>
    var clientLists: map<Id, seq<Record>>
    var nextHandle: nat
    /** All records, in connect order. */
    ghost var flat: seq<Record>

    ghost predicate Valid()
      reads this
    {
      && Distinct(flat)
      && (forall r :: r in flat ==> r.handle < nextHandle)
      && SignalsShown(connections, flat)
      && ClientsShown(clientLists, flat)
    }

    constructor ()
      ensures Valid() && flat == [] && nextHandle == 0
    {
      connections, clientLists, nextHandle, flat := map[], map[], 0, [];
    }

    method ConnectSignal(reg: Registry, sender: string, senderObj: string, signal: string,
                         conn: Id, recvObj: string, slot: string, volatile: bool) returns (ok: bool)
      requires Valid()
      modifies this
      ensures Valid()
      ensures ok <==> Compatible(signal, slot) && (volatile ==> sender in reg.names)
      ensures !ok ==> flat == old(flat) && nextHandle == old(nextHandle)
      ensures ok ==>
        var r := Record(old(nextHandle), sender, if volatile then Just(reg.names[sender]) else Nothing,
                        senderObj, signal, conn, recvObj, slot);
        flat == old(flat) + [r] && r !in old(flat) && nextHandle == old(nextHandle) + 1
    {
      if !Compatible(signal, slot) {
        return false;
      }
      var senderConn := Nothing;
      if volatile {
        if sender !in reg.names {
          return false;
        }
        senderConn := Just(reg.names[sender]);
      }
      var current := Record(nextHandle, sender, senderConn, senderObj, signal, conn, recvObj, slot);
      nextHandle := nextHandle + 1;
      AppendToSignals(connections, flat, current);
      AppendToClients(clientLists, flat, current);
      connections := connections[signal := At(connections, signal) + [current]];
      clientLists := clientLists[conn := At(clientLists, conn) + [current]];
      if senderConn.Just? && senderConn.value != conn {
        clientLists := clientLists[senderConn.value := At(clientLists, senderConn.value) + [current]];
      }
      flat := flat + [current];
      ok := true;
    }

    /** Take a record out of every list that shows it. Only `removeConnections` also drops
        the dictionary entry of a signal whose list has become empty. */
    method Unlink(r: Record, dropEmpty: bool)
      requires Valid()
      modifies this`connections, this`clientLists, this`flat
      ensures Valid() && flat == RemoveFirst(old(flat), r)
      ensures At(connections, r.signal) == RemoveFirst(At(old(connections), r.signal), r)
      ensures TakenFromClients(old(clientLists), r, clientLists)
    {
      UnlinkFromSignal(r, dropEmpty);
      UnlinkFromClients(r);
      RemoveFromSignals(old(connections), flat, r, connections);
      RemoveFromClients(old(clientLists), flat, r, clientLists);
      RemoveFirstDistinct(flat, r);
      flat := RemoveFirst(flat, r);
    }

    method UnlinkFromSignal(r: Record, dropEmpty: bool)
      modifies this`connections
      ensures At(connections, r.signal) == RemoveFirst(At(old(connections), r.signal), r)
      ensures forall s: string :: s != r.signal ==> At(connections, s) == At(old(connections), s)
    {
      if r.signal in connections {
        connections := connections[r.signal := RemoveFirst(connections[r.signal], r)];
        if dropEmpty && connections[r.signal] == [] {
          connections := connections - {r.signal};
        }
      }
    }

    method UnlinkFromClients(r: Record)
      modifies this`clientLists
      ensures TakenFromClients(old(clientLists), r, clientLists)
    {
      if r.recvConn in clientLists {
        clientLists := clientLists[r.recvConn := RemoveFirst(clientLists[r.recvConn], r)];
      }
      if r.senderConn.Just? && r.senderConn.value != r.recvConn && r.senderConn.value in clientLists {
        clientLists := clientLists[r.senderConn.value := RemoveFirst(clientLists[r.senderConn.value], r)];
      }
    }

    /** Unlink the record under the cursor of a signal's list: the cursor then stands on the
        next one. */
    method UnlinkInSignal(signal: string, i: nat)
      requires Valid() && i < |At(connections, signal)|
      modifies this`connections, this`clientLists, this`flat
      ensures Valid() && flat == RemoveFirst(old(flat), At(old(connections), signal)[i])
      ensures |flat| < |old(flat)|
      ensures At(connections, signal) == At(old(connections), signal)[..i] + At(old(connections), signal)[i + 1..]
    {
      assert SignalShown(connections, flat, signal);
      FilterDistinct(flat, BySignal(signal));
      assert At(connections, signal)[i] in Filter(flat, BySignal(signal));
      RemoveAtIndex(At(connections, signal), i);
      RemoveShortens(flat, At(connections, signal)[i]);
      Unlink(At(connections, signal)[i], false);
    }

    method UnlinkOfClient(conn: Id, i: nat)
      requires Valid() && i < |At(clientLists, conn)|
      modifies this`connections, this`clientLists, this`flat
      ensures Valid() && flat == RemoveFirst(old(flat), At(old(clientLists), conn)[i])
      ensures At(clientLists, conn) == At(old(clientLists), conn)[..i] + At(old(clientLists), conn)[i + 1..]
    {
      assert ClientShown(clientLists, flat, conn);
      FilterDistinct(flat, OfClient(conn));
      assert At(clientLists, conn)[i] in Filter(flat, OfClient(conn));
      RemoveAtIndex(At(clientLists, conn), i);
      Unlink(At(clientLists, conn)[i], true);
    }

    /** `disconnectSignal`. The cursor stands still when the current record is removed. */
    method DisconnectSignal(reg: Registry, sender: string, senderObj: string, signal: string,
                            conn: Id, recvObj: string, slot: string) returns (found: bool)
      requires Valid()
      modifies this`connections, this`clientLists, this`flat
      ensures Valid()
      ensures sender == "" && signal == "" ==>
        found && flat == Filter(old(flat), Unless(Removing(conn, recvObj)))
      ensures sender != "" || signal != "" ==>
        && flat == Filter(old(flat), Unless(Matching(reg, sender, senderObj, signal, conn, recvObj, slot)))
        && (found <==> exists r :: r in old(flat) && Matches(r, reg, sender, senderObj, signal, conn, recvObj, slot))
    {
      if sender == "" && signal == "" {
        RemoveConnections(conn, recvObj);
        return true;
      }
      found := DisconnectMatching(reg, sender, senderObj, signal, conn, recvObj, slot);
    }

    method DisconnectMatching(reg: Registry, sender: string, senderObj: string, signal: string,
                              conn: Id, recvObj: string, slot: string) returns (found: bool)
      requires Valid()
      modifies this`connections, this`clientLists, this`flat
      ensures Valid()
      ensures flat == Filter(old(flat), Unless(Matching(reg, sender, senderObj, signal, conn, recvObj, slot)))
      ensures found <==> exists r :: r in old(flat) && Matches(r, reg, sender, senderObj, signal, conn, recvObj, slot)
    {
      ghost var drop := Matching(reg, sender, senderObj, signal, conn, recvObj, slot);
      ghost var todo := At(connections, signal);
      ghost var goal := Filter(flat, Unless(drop));
      assert SignalShown(connections, flat, signal);
      SweepView(flat, BySignal(signal), drop, drop);
      found := false;
      var i := 0;
      while i < |At(connections, signal)|
        invariant Valid() && i <= |At(connections, signal)|
        invariant At(connections, signal)[i..] == todo
        invariant Sweep(flat, todo, drop) == goal
        invariant forall r :: r in todo ==> r.signal == signal
        invariant if found then |flat| < |old(flat)| else flat == old(flat)
        decreases |At(connections, signal)| - i
      {
        CursorMoves(At(connections, signal), i);
        SweepStep(flat, todo, drop);
        var matches := IsMatch(At(connections, signal)[i], reg, sender, senderObj, conn, recvObj, slot);
        if !matches {
          i := i + 1;
        } else {
          found := true;
          UnlinkInSignal(signal, i);
        }
        todo := todo[1..];
      }
      ShorterIffDropped(old(flat), drop);
    }

    /** `removeConnections`. */
    method RemoveConnections(conn: Id, obj: string)
      requires Valid()
      modifies this`connections, this`clientLists, this`flat
      ensures Valid()
      ensures flat == Filter(old(flat), Unless(Removing(conn, obj)))
      ensures obj == "" ==> forall r :: r in flat ==> !Involves(r, conn)
    {
      ghost var drop := Removing(conn, obj);
      ghost var todo := At(clientLists, conn);
      ghost var goal := Filter(flat, Unless(drop));
      assert ClientShown(clientLists, flat, conn);
      SweepView(flat, OfClient(conn), drop, drop);
      var i := 0;
      while i < |At(clientLists, conn)|
        invariant Valid() && i <= |At(clientLists, conn)|
        invariant At(clientLists, conn)[i..] == todo
        invariant Sweep(flat, todo, drop) == goal
        invariant forall r :: r in todo ==> Involves(r, conn)
        decreases |At(clientLists, conn)| - i
      {
        var current := At(clientLists, conn)[i];
        CursorMoves(At(clientLists, conn), i);
        SweepStep(flat, todo, drop);
        if obj != "" && ((current.senderConn == Just(conn) && current.senderObj != obj)
                         || (current.recvConn == conn && current.recvObj != obj)) {
          assert !drop(current);
          i := i + 1;
        } else {
          assert drop(current);
          UnlinkOfClient(conn, i);
        }
        todo := todo[1..];
      }
    }

    /** `emitSignal`: the messages sent, in order. */
    method EmitSignal(reg: Registry, emitter: Maybe<Id>, fun: string, excludeSelf: bool) returns (sent: seq<Delivery>)
      requires Valid()
      ensures forall senderObj, signal :: Names(fun, senderObj, signal) ==>
        sent == Deliveries(Filter(flat, Serving(reg, emitter, senderObj, signal, excludeSelf)))
    {
      NamesSplit(fun);
      var senderObj, signal := "", fun;
      var i := Find(fun, '#', 0);
      if i > -1 {
        senderObj, signal := fun[..i], fun[i + 1..];
      }
      assert SignalShown(connections, flat, signal);
      FilterTwice(flat, BySignal(signal), Served(reg, emitter, senderObj, excludeSelf),
                  Serving(reg, emitter, senderObj, signal, excludeSelf));
      sent := SendTo(At(connections, signal), reg, emitter, senderObj, excludeSelf);
    }
  }

  /** The test of the loop of `disconnectSignal` on one record of the signal's list. */
  method IsMatch(current: Record, reg: Registry, sender: string, senderObj: string,
                 conn: Id, recvObj: string, slot: string) returns (yes: bool)
    ensures yes == Matches(current, reg, sender, senderObj, current.signal, conn, recvObj, slot)
  {
    if current.recvConn != conn {
      return false;
    }
    if current.senderConn.Just? {
      if AppId(reg, current.senderConn.value) != sender {
        return false;
      }
    } else if current.sender != sender {
      return false;
    }
    if senderObj != "" && current.senderObj != senderObj {
      return false;
    }
    if recvObj != "" && current.recvObj != recvObj {
      return false;
    }
    return slot == "" || current.slot == slot;
  }

  /** The loop of `emitSignal` over the list of one signal. */
  method SendTo(list: seq<Record>, reg: Registry, emitter: Maybe<Id>, senderObj: string, excludeSelf: bool)
    returns (sent: seq<Delivery>)
    ensures sent == Deliveries(Filter(list, Served(reg, emitter, senderObj, excludeSelf)))
  {
    ghost var served := Served(reg, emitter, senderObj, excludeSelf);
    sent := [];
    for k := 0 to |list|
      invariant sent == Deliveries(Filter(list[..k], served))
    {
      var current := list[k];
      var doSend := Sends(current, reg, emitter, senderObj, excludeSelf);
      assert list[..k + 1] == list[..k] + [current];
      DeliveriesStep(list[..k], current, served);
      if doSend {
        sent := sent + [Delivery(current.recvConn, current.recvObj, current.slot)];
      }
    }
    assert list[..|list|] == list;
  }

  /** The decision of the loop on one record. */
  method Sends(current: Record, reg: Registry, emitter: Maybe<Id>, senderObj: string, excludeSelf: bool)
    returns (doSend: bool)
    ensures doSend == Delivers(current, reg, emitter, senderObj, excludeSelf)
  {
    doSend := false;
    if current.senderConn.Just? {
      if emitter == current.senderConn { doSend := true; }
    } else if current.sender != "" {
      if (emitter.Just? && current.sender == AppId(reg, emitter.value)) || current.sender == "DCOPServer" {
        doSend := true;
      }
    } else {
      doSend := true;
    }
    if current.senderObj != "" && current.senderObj != senderObj { doSend := false; }
    if excludeSelf && emitter == Just(current.recvConn) { doSend := false; }
  }

  lemma DeliveriesStep(done: seq<Record>, r: Record, served: Record -> bool)
    ensures Deliveries(Filter(done + [r], served))
         == Deliveries(Filter(done, served)) + (if served(r) then [Delivery(r.recvConn, r.recvObj, r.slot)] else [])
  {
    FilterAppend(done, r, served);
    DeliveriesAppend(Filter(done, served), r);
    assert Filter(done, served) + [] == Filter(done, served);
  }

  /** What a function text names: `object#signal`, or a signal of no object. */
  ghost predicate Names(fun: string, obj: string, signal: string) {
    Around(fun, obj, '#', signal) || ('#' !in fun && obj == "" && signal == fun)
  }

  /** Every text names exactly one object and signal. */
  lemma NamesSplit(fun: string)
    ensures forall obj, signal :: Names(fun, obj, signal) <==> (obj, signal) == SplitFun(fun)
  {
    forall obj, signal
      ensures Names(fun, obj, signal) <==> (obj, signal) == SplitFun(fun)
    {
      FindCuts(fun, obj, '#', signal);
    }
  }

  /** `object#signal` names the emitting object; without `#` there is none. */
  function SplitFun(fun: string): (string, string) {
    var i := Find(fun, '#', 0);
    if i < 0 then ("", fun) else (fun[..i], fun[i + 1..])
  }

  function Deliveries(rs: seq<Record>): seq<Delivery> {
    if rs == [] then [] else [Delivery(rs[0].recvConn, rs[0].recvObj, rs[0].slot)] + Deliveries(rs[1..])
  }

  lemma {:induction false} DeliveriesAppend(rs: seq<Record>, r: Record)
    ensures Deliveries(rs + [r]) == Deliveries(rs) + [Delivery(r.recvConn, r.recvObj, r.slot)]
  {
    if rs == [] {
      assert rs + [r] == [r];
    } else {
      assert (rs + [r])[1..] == rs[1..] + [r];
      DeliveriesAppend(rs[1..], r);
    }
  }

  // ---------- Tables on which code and documentation differ ----------

  /** A register of two clients, `a` and `b`. */
  function TwoClients(): Registry {
    Initial(false).(clients := map[1 := Client("a", false), 2 := Client("b", false)], names := map["a" := 1, "b" := 2])
  }

  lemma NoArguments()
    ensures Compatible("s()", "f()") && SplitFun("s()") == ("", "s()")
  {
    assert Find("s()", '(', 0) == 1 && Find("f()", '(', 0) == 1 && Find(")", ')', 0) == 0;
    assert "s()"[2..] == ")" && "f()"[2..] == ")";
    assert Find("s()", '#', 0) == -1;
  }

  const FOR_SERVER := Record(0, "DCOPServer", Nothing, "", "s()", 2, "o", "f()")

  lemma ServedByTheWrongOne()
    ensures Deliveries(Filter([FOR_SERVER], Serving(TwoClients(), Just(1), "", "s()", false)))
         == [Delivery(2, "o", "f()")]
    ensures Deliveries(Filter([FOR_SERVER], ServingAsDocumented(TwoClients(), Just(1), "", "s()", false))) == []
  {
    OneRecord(FOR_SERVER, Serving(TwoClients(), Just(1), "", "s()", false));
    OneRecord(FOR_SERVER, ServingAsDocumented(TwoClients(), Just(1), "", "s()", false));
    DeliveriesAppend([], FOR_SERVER);
    assert [] + [FOR_SERVER] == [FOR_SERVER] && Deliveries([]) == [];
  }

  /** `b` connects to a signal of the server; `a` emits a signal of that name, and `b` is served. */
  method ClientPosesAsServer() returns (table: Table, sent: seq<Delivery>)
    ensures fresh(table) && table.Valid()
    ensures sent == [Delivery(2, "o", "f()")]
    ensures Deliveries(Filter(table.flat, ServingAsDocumented(TwoClients(), Just(1), "", "s()", false))) == []
  {
    NoArguments();
    ServedByTheWrongOne();
    table := new Table();
    var ok := table.ConnectSignal(TwoClients(), "DCOPServer", "", "s()", 2, "o", "f()", false);
    assert table.flat == [FOR_SERVER];
    sent := table.EmitSignal(TwoClients(), Just(1), "s()", false);
  }

  lemma OneRecord(r: Record, p: Record -> bool)
    ensures Filter([r], p) == if p(r) then [r] else []
  {
  }

  /** `a` connects its object `o` to its own object `p`; removing what concerns `o` leaves that
      connection, which the documentation says goes. */
  method SelfConnectionStays() returns (table: Table)
    ensures fresh(table) && table.Valid()
    ensures |table.flat| == 1 && RemovesAsDocumented(table.flat[0], 1, "o")
  {
    NoArguments();
    table := new Table();
    var ok := table.ConnectSignal(TwoClients(), "a", "o", "s()", 1, "p", "f()", true);
    ghost var r := Record(0, "a", Just(1), "o", "s()", 1, "p", "f()");
    assert table.flat == [r];
    table.RemoveConnections(1, "o");
    OneRecord(r, Unless(Removing(1, "o")));
  }
}
