/** When the daemon rebuilds its database: requests are queued, a one-shot timer starts a
    build, and a finished build answers the requests that it covers. */
module RebuildScheduler {

  import opened Lists
  import opened Optional

  /** A queue entry: a client's transaction, or nothing for a change seen on disk. `at` is the
      moment of arrival. */
  datatype Request = Request(at: nat, tx: Maybe<nat>)

  /** A transaction was ended by the build that started at `builtFrom`. */
  datatype End = End(tx: nat, at: nat, builtFrom: nat)

  /** The fields of the scheduler, then its history: the clock, the start of the latest build,
      all arrivals, and all ended transactions. */
  datatype State = State(
    busy: bool,
    count: nat,
    requests: seq<Request>,
    timer: bool,
    now: nat,
    buildStart: nat,
    arrived: seq<Request>,
    ended: seq<End>)

  const IDLE := State(false, 0, [], false, 0, 0, [], [])

  datatype Event = Update | Recreate(tx: nat) | TimerFires | BuildDone

  /** `update`: something changed on disk. */
  function OnUpdate(s: State): State {
    var r := Request(s.now, Nothing);
    var s1 := if !s.busy then s.(timer := true) else s.(requests := s.requests + [r]);
    s1.(now := s.now + 1, arrived := s.arrived + [r])
  }

  /** A client calls `recreate()`; its transaction is answered later. */
  function OnRecreate(s: State, tx: nat): State {
    var r := Request(s.now, Just(tx));
    var s1 :=
      if s.busy then s
      else if s.requests == [] then s.(timer := true, count := 1)
      else s.(count := s.count + 1);
    s1.(requests := s.requests + [r], now := s.now + 1, arrived := s.arrived + [r])
  }

  /** The timer is one-shot: it is off once it has fired, and the build has started. */
  function OnTimer(s: State): State {
    s.(timer := false, busy := true, buildStart := s.now, now := s.now + 1)
  }

  /** The transactions among some queue entries. */
  function Ends(rs: seq<Request>, builtFrom: nat): seq<End> {
    if rs == [] then []
    else (if rs[0].tx.Just? then [End(rs[0].tx.value, rs[0].at, builtFrom)] else []) + Ends(rs[1..], builtFrom)
  }

  /** `recreateDone`: answer the first `count` entries, and go on if more have come in. */
  function OnDone(s: State): State
    requires s.count <= |s.requests|
  {
    var rest := s.requests[s.count..];
    s.(ended := s.ended + Ends(s.requests[..s.count], s.buildStart),
       requests := rest, busy := false, now := s.now + 1,
       timer := s.timer || rest != [], count := |rest|)
  }

  /** One event; one that cannot happen now is skipped. */
  function Step(s: State, e: Event): State {
    match e
    case Update => OnUpdate(s)
    case Recreate(tx) => OnRecreate(s, tx)
    case TimerFires => if s.timer then OnTimer(s) else s
    case BuildDone => if s.busy && s.count <= |s.requests| then OnDone(s) else s
  }

  function After(es: seq<Event>): State {
    if es == [] then IDLE else Step(After(es[..|es| - 1]), es[|es| - 1])
  }

  // ---------- Invariants ----------

  /** No build that covers the arrival has started yet. */
  predicate Uncovered(s: State, r: Request) {
    r.at >= s.buildStart
  }

  function Transactions(rs: seq<Request>): seq<nat> {
    if rs == [] then []
    else (if rs[0].tx.Just? then [rs[0].tx.value] else []) + Transactions(rs[1..])
  }

  function EndedIds(es: seq<End>): seq<nat> {
    if es == [] then [] else [es[0].tx] + EndedIds(es[1..])
  }

  ghost predicate Queue(s: State) {
    && s.count <= |s.requests|
    && (!s.busy ==> s.count == |s.requests|)
    && (s.busy ==> !s.timer)
    && (!s.busy && s.requests != [] ==> s.timer)
    && s.buildStart <= s.now
    && (s.busy ==> forall i :: 0 <= i < s.count ==> s.requests[i].at < s.buildStart)
    && (forall i :: 0 <= i < |s.requests| ==> s.requests[i].at < s.now)
  }

  /** An arrival not yet covered keeps the machine going. */
  ghost predicate NoLostWakeUp(s: State) {
    && (forall r :: r in s.arrived ==> r.at < s.now)
    && forall r :: r in s.arrived && Uncovered(s, r) ==>
         s.timer || (s.busy && |s.requests| > s.count)
  }

  /** First come, first served, each transaction once: ended ones, then queued ones. */
  ghost predicate Fifo(s: State) {
    Transactions(s.arrived) == EndedIds(s.ended) + Transactions(s.requests)
  }

  /** No transaction is answered from a build that started before it arrived. */
  ghost predicate Fresh(s: State) {
    forall e :: e in s.ended ==> e.at < e.builtFrom
  }

  /** The transactions that arrived before a moment, in order. */
  function TransactionsBefore(rs: seq<Request>, t: nat): seq<nat> {
    if rs == [] then []
    else
      (if rs[0].tx.Just? && rs[0].at < t then [rs[0].tx.value] else []) + TransactionsBefore(rs[1..], t)
  }

  /** A running build will end exactly the transactions that arrived before it started and are not
      ended yet. */
  ghost predicate CoversEarlier(s: State) {
    s.busy && s.count <= |s.requests| ==>
      TransactionsBefore(s.arrived, s.buildStart) == EndedIds(s.ended) + Transactions(s.requests[..s.count])
  }

  /** What waits in the queue has arrived. */
  ghost predicate QueueArrived(s: State) {
    forall r :: r in s.requests ==> r in s.arrived
  }

  ghost predicate Inv(s: State) {
    Queue(s) && NoLostWakeUp(s) && Fifo(s) && Fresh(s) && CoversEarlier(s) && QueueArrived(s)
  }

  lemma {:induction false} BeforeConcat(a: seq<Request>, b: seq<Request>, t: nat)
    ensures TransactionsBefore(a + b, t) == TransactionsBefore(a, t) + TransactionsBefore(b, t)
  {
    if a == [] {
      assert a + b == b;
    } else {
      assert (a + b)[1..] == a[1..] + b;
      BeforeConcat(a[1..], b, t);
      Regroup(if a[0].tx.Just? && a[0].at < t then [a[0].tx.value] else [], TransactionsBefore(a[1..], t),
              TransactionsBefore(b, t));
    }
  }

  lemma {:induction false} AllBefore(rs: seq<Request>, t: nat)
    requires forall r :: r in rs ==> r.at < t
    ensures TransactionsBefore(rs, t) == Transactions(rs)
  {
    if rs != [] { AllBefore(rs[1..], t); }
  }

  /** An arrival during a build changes nothing about what the build will end. */
  lemma ArrivalKeepsCover(s: State, r: Request, s': State)
    requires Queue(s) && CoversEarlier(s) && s.busy && r.at == s.now
    requires s'.busy && s'.count == s.count && s'.buildStart == s.buildStart && s'.ended == s.ended
    requires s'.arrived == s.arrived + [r] && s'.requests == s.requests + [r]
    ensures CoversEarlier(s')
  {
    BeforeConcat(s.arrived, [r], s.buildStart);
    assert [r][1..] == [] && TransactionsBefore([r], s.buildStart) == [];
    assert s'.requests[..s.count] == s.requests[..s.count];
  }

  lemma {:induction false} TransactionsConcat(a: seq<Request>, b: seq<Request>)
    ensures Transactions(a + b) == Transactions(a) + Transactions(b)
  {
    if a == [] {
      assert a + b == b;
    } else {
      assert (a + b)[1..] == a[1..] + b;
      TransactionsConcat(a[1..], b);
      Regroup(if a[0].tx.Just? then [a[0].tx.value] else [], Transactions(a[1..]), Transactions(b));
    }
  }

  lemma {:induction false} EndedConcat(a: seq<End>, b: seq<End>)
    ensures EndedIds(a + b) == EndedIds(a) + EndedIds(b)
  {
    if a == [] {
      assert a + b == b;
    } else {
      assert (a + b)[1..] == a[1..] + b;
      EndedConcat(a[1..], b);
    }
  }

  lemma {:induction false} EndsOf(rs: seq<Request>, builtFrom: nat)
    requires forall i :: 0 <= i < |rs| ==> rs[i].at < builtFrom
    ensures EndedIds(Ends(rs, builtFrom)) == Transactions(rs)
    ensures forall e :: e in Ends(rs, builtFrom) ==> e.at < e.builtFrom
  {
    if rs != [] {
      EndsOf(rs[1..], builtFrom);
      if rs[0].tx.Just? {
        assert Ends(rs, builtFrom)[1..] == Ends(rs[1..], builtFrom);
      } else {
        assert Ends(rs, builtFrom) == Ends(rs[1..], builtFrom);
      }
    }
  }

  lemma UpdateKeeps(s: State)
    requires Inv(s)
    ensures Inv(OnUpdate(s))
  {
    UpdateKeepsOrder(s);
    if s.busy { ArrivalKeepsCover(s, Request(s.now, Nothing), OnUpdate(s)); }
    assert Queue(OnUpdate(s));
    assert NoLostWakeUp(OnUpdate(s));
  }

  lemma UpdateKeepsOrder(s: State)
    requires Fifo(s)
    ensures Fifo(OnUpdate(s))
  {
    var r := Request(s.now, Nothing);
    TransactionsConcat(s.arrived, [r]);
    TransactionsConcat(s.requests, [r]);
    assert Transactions([r]) == [];
  }

  lemma RecreateKeeps(s: State, tx: nat)
    requires Inv(s)
    ensures Inv(OnRecreate(s, tx))
  {
    RecreateKeepsOrder(s, tx);
    if s.busy { ArrivalKeepsCover(s, Request(s.now, Just(tx)), OnRecreate(s, tx)); }
    assert Queue(OnRecreate(s, tx));
    assert NoLostWakeUp(OnRecreate(s, tx));
  }

  lemma RecreateKeepsOrder(s: State, tx: nat)
    requires Fifo(s)
    ensures Fifo(OnRecreate(s, tx))
  {
    var r := Request(s.now, Just(tx));
    TransactionsConcat(s.arrived, [r]);
    TransactionsConcat(s.requests, [r]);
    assert Transactions([r]) == [tx] + Transactions([]);
  }

  lemma TimerKeeps(s: State)
    requires Inv(s) && s.timer
    ensures Inv(OnTimer(s))
  {
    AllBefore(s.arrived, s.now);
    assert s.requests[..s.count] == s.requests;
  }

  lemma DoneKeeps(s: State)
    requires Inv(s) && s.busy
    ensures Inv(OnDone(s))
  {
    DoneKeepsOrder(s);
    assert Queue(OnDone(s));
    assert NoLostWakeUp(OnDone(s));
    assert QueueArrived(OnDone(s));
  }

  lemma DoneKeepsOrder(s: State)
    requires Queue(s) && Fifo(s) && Fresh(s) && s.busy
    ensures Fifo(OnDone(s)) && Fresh(OnDone(s))
  {
    var first, rest := s.requests[..s.count], s.requests[s.count..];
    assert s.requests == first + rest;
    TransactionsConcat(first, rest);
    EndsOf(first, s.buildStart);
    EndedConcat(s.ended, Ends(first, s.buildStart));
  }

  /** In every run: each transaction is ended once and in order, only by a build that started
      after it arrived, and an arrival not yet covered by a build has the timer running or a
      second build in store. */
  lemma {:induction false} RunKeeps(es: seq<Event>)
    ensures Inv(After(es))
  {
    if es != [] {
      var s, e := After(es[..|es| - 1]), es[|es| - 1];
      RunKeeps(es[..|es| - 1]);
      match e
      case Update => UpdateKeeps(s);
      case Recreate(tx) => RecreateKeeps(s, tx);
      case TimerFires => if s.timer { TimerKeeps(s); }
      case BuildDone => if s.busy { DoneKeeps(s); }
    }
  }

  /** When a build ends, exactly the transactions that arrived before it started have been ended, in
      order of arrival; the new ones are recorded with its start, and each of them was asked for. */
  lemma DoneAnswers(es: seq<Event>)
    requires After(es).busy
    ensures var s, s' := After(es), After(es + [BuildDone]);
      && EndedIds(s'.ended) == TransactionsBefore(s.arrived, s.buildStart)
      && s.ended <= s'.ended
      && forall k :: |s.ended| <= k < |s'.ended| ==>
           var e := s'.ended[k];
           e.builtFrom == s.buildStart && e.at < s.buildStart && Request(e.at, Just(e.tx)) in s.arrived
  {
    var s := After(es);
    RunKeeps(es);
    assert (es + [BuildDone])[..|es|] == es;
    EndsOf(s.requests[..s.count], s.buildStart);
    EndsAsked(s.requests[..s.count], s.buildStart);
    EndedConcat(s.ended, Ends(s.requests[..s.count], s.buildStart));
  }

  lemma {:induction false} EndsAsked(rs: seq<Request>, builtFrom: nat)
    ensures forall e :: e in Ends(rs, builtFrom) ==> e.builtFrom == builtFrom && Request(e.at, Just(e.tx)) in rs
  {
    if rs != [] { EndsAsked(rs[1..], builtFrom); }
  }

  /** The timer fires as event `k` of the run, and a build starts. */
  ghost predicate StartsAt(es: seq<Event>, k: nat) {
    k < |es| && es[k] == TimerFires && After(es[..k]).timer
  }

  /** The start of the latest build is the time of the latest timer event that took effect. */
  lemma {:induction false} BuildStartIsLatest(es: seq<Event>, k: nat)
    requires StartsAt(es, k) && forall j :: k < j < |es| ==> !StartsAt(es, j)
    ensures After(es).buildStart == After(es[..k]).now
  {
    var front := es[..|es| - 1];
    if k < |es| - 1 {
      assert front[..k] == es[..k];
      forall j | k < j < |front|
        ensures !StartsAt(front, j)
      {
        assert front[..j] == es[..j] && !StartsAt(es, j);
      }
      BuildStartIsLatest(front, k);
      assert !StartsAt(es, |es| - 1);
    }
  }

  /** An event that can happen now. */
  ghost predicate Happens(s: State, e: Event) {
    (e.TimerFires? ==> s.timer) && (e.BuildDone? ==> s.busy)
  }

  /** The clock goes on with every event that happens, and each arrival is recorded with its time. */
  lemma ArrivalsAreTimed(es: seq<Event>, e: Event)
    ensures var s, s' := After(es), After(es + [e]);
      && s'.now == (if Happens(s, e) then s.now + 1 else s.now)
      && (e.Update? ==> s'.arrived == s.arrived + [Request(s.now, Nothing)])
      && (e.Recreate? ==> s'.arrived == s.arrived + [Request(s.now, Just(e.tx))])
      && (!e.Update? && !e.Recreate? ==> s'.arrived == s.arrived)
      && (!Happens(s, e) ==> s' == s)
  {
    RunKeeps(es);
    assert (es + [e])[..|es|] == es;
  }

  /** When the daemon rests, everything has been answered and every change is in the database. */
  lemma RestMeansDone(es: seq<Event>)
    requires !After(es).busy && !After(es).timer
    ensures EndedIds(After(es).ended) == Transactions(After(es).arrived)
    ensures forall r :: r in After(es).arrived ==> r.at < After(es).buildStart
  {
    RunKeeps(es);
    var s := After(es);
    assert s.requests == [];
    assert EndedIds(s.ended) + [] == EndedIds(s.ended);
    forall r | r in s.arrived
      ensures r.at < s.buildStart
    {
      if Uncovered(s, r) { assert false; }
    }
  }

  /** Left alone, the daemon comes to rest after at most three of its own steps. */
  lemma ComesToRest(es: seq<Event>)
    ensures var s := After(es + [BuildDone] + [TimerFires] + [BuildDone]);
      !s.busy && !s.timer && s.requests == []
  {
    RunKeeps(es);
    var es1, es2 := es + [BuildDone], es + [BuildDone] + [TimerFires];
    var es3 := es2 + [BuildDone];
    assert es1[..|es|] == es && es2[..|es1|] == es1 && es3[..|es2|] == es2;
    RunKeeps(es1);
    RunKeeps(es2);
    var s1, s2 := After(es1), After(es2);
    assert !s1.busy;
    assert s2.count == |s2.requests|;
  }

  // ---------- The daemon object ----------

  class Kded {
    var recreateBusy: bool
    var recreateCount: nat
    var recreateRequests: seq<Maybe<nat>>
    var timerActive: bool
    /** The history, and the queue with its arrival times. */
    ghost var history: State

    ghost predicate Valid()
      reads this
    {
      && Inv(history)
      && recreateBusy == history.busy && recreateCount == history.count && timerActive == history.timer
      && recreateRequests == Queued(history.requests)
    }

    constructor ()
      ensures Valid() && history == IDLE
    {
      recreateBusy, recreateCount, recreateRequests, timerActive := false, 0, [], false;
      history := IDLE;
      new;
      RunKeeps([]);
    }

    method Update()
      requires Valid()
      modifies this
      ensures Valid() && history == OnUpdate(old(history))
    {
      UpdateKeeps(history);
      QueuedAppend(history.requests, Request(history.now, Nothing));
      if !recreateBusy {
        timerActive := true;
      } else {
        recreateRequests := recreateRequests + [Nothing];
      }
      history := OnUpdate(history);
    }

    /** `process("recreate()")`. */
    method ProcessRecreate(tx: nat)
      requires Valid()
      modifies this
      ensures Valid() && history == OnRecreate(old(history), tx)
    {
      RecreateKeeps(history, tx);
      QueuedAppend(history.requests, Request(history.now, Just(tx)));
      if !recreateBusy {
        if recreateRequests == [] {
          timerActive := true;
          recreateCount := 0;
        }
        recreateCount := recreateCount + 1;
      }
      recreateRequests := recreateRequests + [Just(tx)];
      history := OnRecreate(history, tx);
    }

    /** `recreate`, from the timer. */
    method TimerRecreate()
      requires Valid() && timerActive
      modifies this
      ensures Valid() && history == OnTimer(old(history))
    {
      TimerKeeps(history);
      timerActive := false;
      recreateBusy := true;
      history := OnTimer(history);
    }

    /** `recreateDone`; returns the transactions ended, in order. */
    method RecreateDone() returns (ended: seq<nat>)
      requires Valid() && recreateBusy
      modifies this
      ensures Valid() && history == OnDone(old(history))
      ensures EndedIds(history.ended) == EndedIds(old(history).ended) + ended
      ensures EndedIds(old(history).ended) + ended
           == TransactionsBefore(old(history).arrived, old(history).buildStart)
    {
      DoneKeeps(history);
      ghost var n, all := recreateCount, history.requests;
      EndsOf(all[..n], history.buildStart);
      EndedConcat(history.ended, Ends(all[..n], history.buildStart));
      ended := EndTransactions(all);
      recreateBusy := false;
      if recreateRequests != [] {
        timerActive := true;
        recreateCount := |recreateRequests|;
      }
      history := OnDone(history);
    }

    /** The loop of `recreateDone`. */
    method EndTransactions(ghost all: seq<Request>) returns (ended: seq<nat>)
      requires recreateCount <= |all| && recreateRequests == Queued(all)
      modifies this`recreateCount, this`recreateRequests
      ensures recreateCount == 0
      ensures recreateRequests == Queued(all[old(recreateCount)..])
      ensures ended == Transactions(all[..old(recreateCount)])
    {
      ghost var rest := all;
      ghost var n := recreateCount;
      ended := [];
      while recreateCount > 0
        invariant recreateCount <= n && rest == all[n - recreateCount..]
        invariant recreateRequests == Queued(rest)
        invariant ended == Transactions(all[..n - recreateCount])
      {
        TransactionsSnoc(all, n - recreateCount);
        var transaction := recreateRequests[0];
        if transaction.Just? {
          ended := ended + [transaction.value];
        }
        recreateRequests := recreateRequests[1..];
        recreateCount := recreateCount - 1;
        rest := rest[1..];
      }
    }
  }

  lemma TransactionsSnoc(all: seq<Request>, k: nat)
    requires k < |all|
    ensures Transactions(all[..k + 1])
         == Transactions(all[..k]) + (if all[k].tx.Just? then [all[k].tx.value] else [])
  {
    assert all[..k + 1] == all[..k] + [all[k]];
    TransactionsConcat(all[..k], [all[k]]);
    assert Transactions([all[k]]) == (if all[k].tx.Just? then [all[k].tx.value] else []) + Transactions([]);
  }

  function Queued(rs: seq<Request>): (q: seq<Maybe<nat>>)
    ensures |q| == |rs|
  {
    if rs == [] then [] else [rs[0].tx] + Queued(rs[1..])
  }

  lemma {:induction false} QueuedAppend(rs: seq<Request>, r: Request)
    ensures Queued(rs + [r]) == Queued(rs) + [r.tx]
  {
    if rs == [] {
      assert rs + [r] == [r];
    } else {
      assert (rs + [r])[1..] == rs[1..] + [r];
      QueuedAppend(rs[1..], r);
    }
  }
}
