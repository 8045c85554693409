/** Conservation of calls: along a run, every call passed on from `a` to `b` has been resolved
    exactly once, or is still outstanding. */
module CallLedger {
  import opened Lists
  import opened CallBook
  import opened ClientRegistry
  import opened ServerRuns

  /** What one event, or a whole run, did to the calls of one client to another. `answered`
      and `aborted` count messages to the caller. */
  datatype Ledger = Ledger(placed: nat, answered: nat, aborted: nat, abandoned: nat) {
    function Plus(o: Ledger): Ledger {
      Ledger(placed + o.placed, answered + o.answered, aborted + o.aborted, abandoned + o.abandoned)
    }

    function Resolved(): nat { answered + aborted + abandoned }
  }

  /** Forwarded calls and finds of `a` to `b`; forwarded final replies of `b` to `a` (a
      delayed one counts when `b` had asked `a` to wait); failures the server made up for `a`
      because `b` died; and calls dropped because `a` itself died. */
  ghost function Entry(s: Server, e: Event, a: Id, b: Id): Ledger {
    var outs := Step(s, e).1;
    Ledger(
      Count(outs, Forward(Call, a, b)) + Count(outs, Forward(Find, a, b)),
      Count(outs, Forward(Reply, b, a)) + Count(outs, Forward(ReplyFailed, b, a))
        + (if b in s.book && a in s.book[b].forDelayed then Count(outs, Forward(ReplyDelayed, b, a)) else 0),
      if a != b then Count(outs, Abort(a, b)) else 0,
      if e == Closed(a) && Enabled(s, e) then Outstanding(s.book, a, b) else 0)
  }

  ghost function Total(suicide: bool, es: seq<Event>, a: Id, b: Id): Ledger {
    if es == [] then Ledger(0, 0, 0, 0)
    else
      var prefix := es[..|es| - 1];
      Total(suicide, prefix, a, b).Plus(Entry(After(suicide, prefix), es[|es| - 1], a, b))
  }

  /** The ledger entry `l` accounts for the change from `t` to `t'`. */
  ghost predicate Balanced(t: Book, t': Book, l: Ledger, a: Id, b: Id) {
    Outstanding(t', a, b) + l.Resolved() == Outstanding(t, a, b) + l.placed
  }

  /** One event changes the number of outstanding calls by what its ledger entry says. */
  ghost predicate StepBalanced(s: Server, e: Event, a: Id, b: Id) {
    Balanced(s.book, Step(s, e).0.book, Entry(s, e, a, b), a, b)
  }

  lemma {:induction false} CountConcat<T>(s: seq<T>, t: seq<T>, x: T)
    ensures Count(s + t, x) == Count(s, x) + Count(t, x)
  {
    if s == [] {
      assert s + t == t;
    } else {
      assert (s + t)[1..] == s[1..] + t;
      CountConcat(s[1..], t, x);
    }
  }

  /** The failures sent for a death: one to each caller per entry, and nothing else. */
  lemma {:induction false} AbortsCount(callers: seq<Id>, dead: Id, o: Out)
    ensures Count(Aborts(callers, dead), o)
         == if o.Abort? && o.dead == dead then Count(callers, o.to) else 0
  {
    if callers != [] {
      assert Aborts(callers, dead)[1..] == Aborts(callers[1..], dead);
      AbortsCount(callers[1..], dead, o);
    }
  }

  /** The ledger entry of the death of `id`. */
  function DeathLedger(t: Book, id: Id, a: Id, b: Id): Ledger {
    Ledger(0, 0, if a != b && b == id then Owed(t, id, a) else 0,
           if a == id then Outstanding(t, a, b) else 0)
  }

  lemma DropEntry(s: Server, id: Id, a: Id, b: Id)
    requires Linked(s) && Enabled(s, Closed(id))
    ensures Entry(s, Closed(id), a, b)
         == DeathLedger(s.book, id, a, b)
    ensures Step(s, Closed(id)).0.book == Close(s.book, id)
  {
    var l, d := s.book[id].forReply, s.book[id].forDelayed;
    assert Step(s, Closed(id)).1 == Aborts(l, id) + Aborts(d, id);
    forall o: Out
      ensures Count(Aborts(l, id) + Aborts(d, id), o)
           == if o.Abort? && o.dead == id then Count(l, o.to) + Count(d, o.to) else 0
    {
      CountConcat(Aborts(l, id), Aborts(d, id), o);
      AbortsCount(l, id, o);
      AbortsCount(d, id, o);
    }
  }

  lemma CountOne<T>(x: T, y: T)
    ensures Count([x], y) == if x == y then 1 else 0
  {
  }

  /** The ledger entry of a message of kind `op` from `from` for `target`. */
  function ClientLedger(t: Book, op: Opcode, from: Id, target: Id, a: Id, b: Id): Ledger
    requires from in t
  {
    Ledger(Bump((op.Call? || op.Find?) && a == from && b == target),
           Bump((op.Reply? || op.ReplyFailed? || (op.ReplyDelayed? && target in t[from].forDelayed))
                && b == from && a == target),
           0, 0)
  }

  lemma ClientEntry(s: Server, from: Id, m: Message, a: Id, b: Id)
    requires Linked(s) && !s.reg.exited && from in s.book && m.toApp in s.reg.names
    ensures Entry(s, Received(from, m), a, b)
         == ClientLedger(s.book, m.op, from, s.reg.names[m.toApp], a, b)
    ensures Step(s, Received(from, m)).0.book == UpdateBook(s.book, m.op, from, s.reg.names[m.toApp])
  {
    var o := Forward(m.op, from, s.reg.names[m.toApp]);
    assert Step(s, Received(from, m)).1 == [o];
    CountOne(o, Forward(Call, a, b));
    CountOne(o, Forward(Find, a, b));
    CountOne(o, Forward(Reply, b, a));
    CountOne(o, Forward(ReplyFailed, b, a));
    CountOne(o, Forward(ReplyDelayed, b, a));
    CountOne(o, Abort(a, b));
  }

  lemma ReplyConserves(t: Book, from: Id, target: Id, a: Id, b: Id)
    requires from in t && target in t && target in t[from].forReply
    requires Outstanding(t, a, b) == Owed(t, b, a)
    ensures Outstanding(TakeReply(t, from, target), a, b) + Bump(b == from && a == target)
         == Outstanding(t, a, b)
  {
    CountPositive(t[from].forReply, target);
    TakeReplyCounts(t, from, target, a, b);
  }

  lemma DelayedConserves(t: Book, from: Id, target: Id, a: Id, b: Id)
    requires from in t && target in t && Outstanding(t, a, b) == Owed(t, b, a)
    ensures Outstanding(TakeDelayed(t, from, target), a, b)
            + Bump(target in t[from].forDelayed && b == from && a == target)
         == Outstanding(t, a, b)
  {
    CountPositive(t[from].forDelayed, target);
    TakeDelayedCounts(t, from, target, a, b);
  }

  lemma BookConserves(t: Book, op: Opcode, from: Id, target: Id, a: Id, b: Id)
    requires from in t && target in t && Outstanding(t, a, b) == Owed(t, b, a)
    requires op.Reply? || op.ReplyFailed? || op.ReplyWait? ==> target in t[from].forReply
    ensures var entry := ClientLedger(t, op, from, target, a, b);
      Balanced(t, UpdateBook(t, op, from, target), entry, a, b)
  {
    var l := ClientLedger(t, op, from, target, a, b);
    if op.ReplyDelayed? {
      DelayedConserves(t, from, target, a, b);
      assert Balanced(t, TakeDelayed(t, from, target), l, a, b);
    } else if op.Call? || op.Find? {
      PlaceCallCounts(t, from, target, a, b);
      assert Balanced(t, PlaceCall(t, from, target), l, a, b);
    } else if op.Reply? || op.ReplyFailed? {
      ReplyConserves(t, from, target, a, b);
      assert Balanced(t, TakeReply(t, from, target), l, a, b);
    } else if op.ReplyWait? {
      DeferCounts(t, from, target, a, b);
      assert Balanced(t, Defer(t, from, target), l, a, b);
    }
  }

  lemma ServerConserves(s: Server, from: Id, m: Message, a: Id, b: Id)
    requires Linked(s) && !s.reg.exited && from in s.book && m.toApp !in s.reg.names
    ensures StepBalanced(s, Received(from, m), a, b)
  {
    var outs := Step(s, Received(from, m)).1;
    ServerOuts(s, from, m);
    assert Step(s, Received(from, m)) == HandleServer(s, from, m);
    forall o: Out | o.Forward? || o.Abort?
      ensures Count(outs, o) == 0
    {
      CountPositive(outs, o);
    }
  }

  lemma ServerOuts(s: Server, from: Id, m: Message)
    requires Linked(s) && from in s.book
    ensures HandleServer(s, from, m).0.book == s.book
    ensures forall o :: o in HandleServer(s, from, m).1 ==> o.Multicast? || o.ServerReply?
  {
    assert Receive(s, from, m.fun).book == s.book;
  }

  lemma ClientConserves(s: Server, from: Id, m: Message, a: Id, b: Id)
    requires Linked(s) && !s.reg.exited && from in s.book && m.toApp in s.reg.names
    requires m.op.Reply? || m.op.ReplyFailed? || m.op.ReplyWait? ==>
      s.reg.names[m.toApp] in s.book[from].forReply
    requires Outstanding(s.book, a, b) == Owed(s.book, b, a)
    ensures StepBalanced(s, Received(from, m), a, b)
  {
    ClientEntry(s, from, m, a, b);
    BookConserves(s.book, m.op, from, s.reg.names[m.toApp], a, b);
  }

  lemma DeathConserves(t: Book, id: Id, a: Id, b: Id)
    requires id in t && Outstanding(t, a, b) == Owed(t, b, a)
    ensures Balanced(t, Close(t, id), DeathLedger(t, id, a, b), a, b)
  {
    CloseCounts(t, id, a, b);
  }

  lemma ClosedConserves(s: Server, id: Id, a: Id, b: Id)
    requires Linked(s) && !s.reg.exited && id in s.book
    requires Outstanding(s.book, a, b) == Owed(s.book, b, a)
    ensures StepBalanced(s, Closed(id), a, b)
  {
    DropEntry(s, id, a, b);
    DeathConserves(s.book, id, a, b);
  }

  lemma QuietConserves(s: Server, e: Event, a: Id, b: Id)
    requires Step(s, e).1 == []
    requires Outstanding(Step(s, e).0.book, a, b) == Outstanding(s.book, a, b)
    requires e.Closed? ==> !Enabled(s, e)
    ensures StepBalanced(s, e, a, b)
  {
  }

  lemma StepConserves(s: Server, e: Event, a: Id, b: Id)
    requires Linked(s) && Disciplined(s, e)
    requires Outstanding(s.book, a, b) == Owed(s.book, b, a)
    ensures StepBalanced(s, e, a, b)
  {
    if !Enabled(s, e) || (!e.Received? && !e.Closed?) || (e.Received? && e.from !in s.book) {
      QuietConserves(s, e, a, b);
    } else if e.Closed? {
      ClosedConserves(s, e.id, a, b);
    } else if e.m.toApp in s.reg.names {
      ClientConserves(s, e.from, e.m, a, b);
    } else {
      ServerConserves(s, e.from, e.m, a, b);
    }
  }

  lemma Accumulates(total: Ledger, entry: Ledger, before: nat, after: nat)
    requires total.placed == total.Resolved() + before
    requires after + entry.Resolved() == before + entry.placed
    ensures total.Plus(entry).placed == total.Plus(entry).Resolved() + after
  {
  }

  lemma RunBalances(suicide: bool, es: seq<Event>, a: Id, b: Id)
    requires DisciplinedRun(suicide, es)
    ensures var s := After(suicide, es); Linked(s) && Outstanding(s.book, a, b) == Owed(s.book, b, a)
  {
    RunSound(suicide, es);
    DisciplinedIsHarmless(suicide, es);
    RunMirrors(suicide, es);
    assert MirrorsAt(After(suicide, es).book, a, b);
  }

  /** Calls passed on == calls resolved + calls still outstanding. */
  ghost predicate Conserved(total: Ledger, t: Book, a: Id, b: Id) {
    total.placed == total.Resolved() + Outstanding(t, a, b)
  }

  lemma EventConserves(s: Server, e: Event, total: Ledger, a: Id, b: Id)
    requires Linked(s) && Disciplined(s, e) && Outstanding(s.book, a, b) == Owed(s.book, b, a)
    requires Conserved(total, s.book, a, b)
    ensures Conserved(total.Plus(Entry(s, e, a, b)), Step(s, e).0.book, a, b)
  {
    StepConserves(s, e, a, b);
    Accumulates(total, Entry(s, e, a, b), Outstanding(s.book, a, b), Outstanding(Step(s, e).0.book, a, b));
  }

  lemma EventOfRun(suicide: bool, es: seq<Event>, e: Event, a: Id, b: Id)
    requires DisciplinedRun(suicide, es) && Disciplined(After(suicide, es), e)
    requires Conserved(Total(suicide, es, a, b), After(suicide, es).book, a, b)
    ensures
      var s := After(suicide, es);
      Conserved(Total(suicide, es, a, b).Plus(Entry(s, e, a, b)), Step(s, e).0.book, a, b)
  {
    RunBalances(suicide, es, a, b);
    EventConserves(After(suicide, es), e, Total(suicide, es, a, b), a, b);
  }

  lemma LastOfRun(suicide: bool, es: seq<Event>, a: Id, b: Id)
    requires es != []
    ensures
      var prefix, e := es[..|es| - 1], es[|es| - 1];
      var s := After(suicide, prefix);
      Total(suicide, es, a, b) == Total(suicide, prefix, a, b).Plus(Entry(s, e, a, b))
      && After(suicide, es).book == Step(s, e).0.book
      && (DisciplinedRun(suicide, es) ==> DisciplinedRun(suicide, prefix) && Disciplined(s, e))
  {
  }

  lemma NothingConserved(t: Book, a: Id, b: Id)
    requires t == map[]
    ensures Conserved(Ledger(0, 0, 0, 0), t, a, b)
  {
  }

  lemma LastEventConserves(suicide: bool, es: seq<Event>, a: Id, b: Id)
    requires es != [] && DisciplinedRun(suicide, es)
    requires var prefix := es[..|es| - 1]; Conserved(Total(suicide, prefix, a, b), After(suicide, prefix).book, a, b)
    ensures Conserved(Total(suicide, es, a, b), After(suicide, es).book, a, b)
  {
    LastOfRun(suicide, es, a, b);
    EventOfRun(suicide, es[..|es| - 1], es[|es| - 1], a, b);
  }

  /** In every disciplined run calls are conserved, for each caller and callee. */
  lemma {:induction false} CallsConserved(suicide: bool, es: seq<Event>, a: Id, b: Id)
    requires DisciplinedRun(suicide, es)
    ensures Conserved(Total(suicide, es, a, b), After(suicide, es).book, a, b)
  {
    if es == [] {
      NothingConserved(After(suicide, es).book, a, b);
    } else {
      CallsConserved(suicide, es[..|es| - 1], a, b);
      LastEventConserves(suicide, es, a, b);
    }
  }

  // ---------- Sums over callees and callers ----------

  /** The length of the list of those `a` waits on; a dead client waits on nobody. */
  function Waits(t: Book, a: Id): nat {
    if a in t then |t[a].onReply| else 0
  }

  /** The ledger of each caller and callee. */
  type Ledgers = (Id, Id) -> Ledger

  ghost function LedgersOf(suicide: bool, es: seq<Event>): Ledgers {
    (a: Id, b: Id) => Total(suicide, es, a, b)
  }

  ghost function TotalFrom(ledgers: Ledgers, a: Id, callees: seq<Id>): Ledger {
    if callees == [] then Ledger(0, 0, 0, 0)
    else ledgers(a, callees[0]).Plus(TotalFrom(ledgers, a, callees[1..]))
  }

  ghost function TotalAmong(ledgers: Ledgers, callers: seq<Id>, callees: seq<Id>): Ledger {
    if callers == [] then Ledger(0, 0, 0, 0)
    else TotalFrom(ledgers, callers[0], callees).Plus(TotalAmong(ledgers, callers[1..], callees))
  }

  function WaitsOfAll(t: Book, callers: seq<Id>): nat {
    if callers == [] then 0 else Waits(t, callers[0]) + WaitsOfAll(t, callers[1..])
  }

  function OutstandingTo(t: Book, a: Id, callees: seq<Id>): nat {
    if callees == [] then 0 else Outstanding(t, a, callees[0]) + OutstandingTo(t, a, callees[1..])
  }

  function CountsOf(s: seq<Id>, ids: seq<Id>): nat {
    if ids == [] then 0 else Count(s, ids[0]) + CountsOf(s, ids[1..])
  }

  lemma {:induction false} CountsOfFirst(s: seq<Id>, ids: seq<Id>)
    requires s != [] && Distinct(ids)
    ensures CountsOf(s, ids) == CountsOf(s[1..], ids) + Bump(s[0] in ids)
  {
    if ids != [] {
      CountsOfFirst(s, ids[1..]);
      assert ids == [ids[0]] + ids[1..];
    }
  }

  /** Counting each of some distinct ids once counts everything, if all are among them. */
  lemma {:induction false} CountsOfAll(s: seq<Id>, ids: seq<Id>)
    requires Distinct(ids) && forall x :: x in s ==> x in ids
    ensures CountsOf(s, ids) == |s|
  {
    if s == [] {
      CountsOfNothing(ids);
    } else {
      CountsOfAll(s[1..], ids);
      CountsOfFirst(s, ids);
    }
  }

  lemma {:induction false} CountsOfNothing(ids: seq<Id>)
    ensures CountsOf([], ids) == 0
  {
    if ids != [] { CountsOfNothing(ids[1..]); }
  }

  lemma {:induction false} OutstandingToCounts(t: Book, a: Id, callees: seq<Id>)
    ensures OutstandingTo(t, a, callees) == if a in t then CountsOf(t[a].onReply, callees) else 0
  {
    if callees != [] { OutstandingToCounts(t, a, callees[1..]); }
  }

  /** The calls `a` waits for are the ones outstanding to each live client. */
  lemma WaitsAreOutstanding(t: Book, a: Id, callees: seq<Id>)
    requires Mirrored(t) && Distinct(callees) && forall b :: b in t ==> b in callees
    ensures Waits(t, a) == OutstandingTo(t, a, callees)
  {
    OutstandingToCounts(t, a, callees);
    if a in t {
      forall x | x in t[a].onReply
        ensures x in callees
      {
        MirroredIsLive(t, a, x);
      }
      CountsOfAll(t[a].onReply, callees);
    }
  }

  ghost predicate EachConserved(ledgers: Ledgers, t: Book) {
    forall a: Id, b: Id :: PairConserved(ledgers, t, a, b)
  }

  ghost predicate PairConserved(ledgers: Ledgers, t: Book, a: Id, b: Id) {
    Conserved(ledgers(a, b), t, a, b)
  }

  lemma NothingYet(l: Ledger)
    requires l == Ledger(0, 0, 0, 0)
    ensures l.placed == 0 && l.Resolved() == 0
  {
  }

  lemma SumsAdd(l: Ledger, l': Ledger, o: nat, o': nat)
    requires l.placed == l.Resolved() + o && l'.placed == l'.Resolved() + o'
    ensures l.Plus(l').placed == l.Plus(l').Resolved() + (o + o')
  {
  }

  lemma {:induction false} CallerSums(ledgers: Ledgers, t: Book, a: Id, callees: seq<Id>)
    requires EachConserved(ledgers, t)
    ensures var total := TotalFrom(ledgers, a, callees);
      total.placed == total.Resolved() + OutstandingTo(t, a, callees)
  {
    if callees == [] {
      NothingYet(TotalFrom(ledgers, a, callees));
    } else {
      CallerSums(ledgers, t, a, callees[1..]);
      assert PairConserved(ledgers, t, a, callees[0]);
      SumsAdd(ledgers(a, callees[0]), TotalFrom(ledgers, a, callees[1..]),
        Outstanding(t, a, callees[0]), OutstandingTo(t, a, callees[1..]));
    }
  }

  lemma {:induction false} CallersSum(ledgers: Ledgers, t: Book, callers: seq<Id>, callees: seq<Id>)
    requires EachConserved(ledgers, t)
    requires Mirrored(t) && Distinct(callees) && forall b :: b in t ==> b in callees
    ensures var total := TotalAmong(ledgers, callers, callees);
      total.placed == total.Resolved() + WaitsOfAll(t, callers)
  {
    if callers == [] {
      NothingYet(TotalAmong(ledgers, callers, callees));
    } else {
      CallersSum(ledgers, t, callers[1..], callees);
      CallerSums(ledgers, t, callers[0], callees);
      WaitsAreOutstanding(t, callers[0], callees);
      SumsAdd(TotalFrom(ledgers, callers[0], callees), TotalAmong(ledgers, callers[1..], callees),
        Waits(t, callers[0]), WaitsOfAll(t, callers[1..]));
    }
  }

  lemma RunConservesEach(suicide: bool, es: seq<Event>)
    requires DisciplinedRun(suicide, es)
    ensures EachConserved(LedgersOf(suicide, es), After(suicide, es).book)
  {
    forall a, b
      ensures PairConserved(LedgersOf(suicide, es), After(suicide, es).book, a, b)
    {
      CallsConserved(suicide, es, a, b);
    }
  }

  /** Conservation as a whole: among any clients that include all live ones, the calls passed on
      are the calls resolved plus the lengths of all lists of awaited replies. */
  lemma AllCallsConserved(suicide: bool, es: seq<Event>, ids: seq<Id>)
    requires DisciplinedRun(suicide, es) && Distinct(ids)
    requires forall b :: b in After(suicide, es).book ==> b in ids
    ensures var total := TotalAmong(LedgersOf(suicide, es), ids, ids);
      total.placed == total.Resolved() + WaitsOfAll(After(suicide, es).book, ids)
  {
    RunConservesEach(suicide, es);
    DisciplinedIsHarmless(suicide, es);
    RunMirrors(suicide, es);
    CallersSum(LedgersOf(suicide, es), After(suicide, es).book, ids, ids);
  }
}
