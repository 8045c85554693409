/** The broker's record of calls in flight: for each connection, whom it waits on, who waits
    on it, and who was told to wait for a delayed reply. The functions are the list updates
    of the message handlers; the lemmas say which of them keep both sides' books equal. */
module CallBook {
  import opened Lists

  /** A connection's identity (the address of its ICE connection). */
  type Id = nat

  datatype Calls = Calls(onReply: seq<Id>, forReply: seq<Id>, forDelayed: seq<Id>)

  const NO_CALLS := Calls([], [], [])

  type Book = map<Id, Calls>

  // ---------- The list updates of each message ----------

  /** DCOPCall and DCOPFind to a connected client. */
  function PlaceCall(t: Book, caller: Id, callee: Id): Book
    requires caller in t && callee in t
  {
    var t1 := t[callee := t[callee].(forReply := t[callee].forReply + [caller])];
    t1[caller := t1[caller].(onReply := t1[caller].onReply + [callee])]
  }

  /** DCOPReply and DCOPReplyFailed. */
  function TakeReply(t: Book, replier: Id, caller: Id): Book
    requires replier in t && caller in t
  {
    var t1 := t[replier := t[replier].(forReply := RemoveFirst(t[replier].forReply, caller))];
    t1[caller := t1[caller].(onReply := RemoveFirst(t1[caller].onReply, replier))]
  }

  /** DCOPReplyWait: the answer will come later, as a DCOPReplyDelayed. */
  function Defer(t: Book, replier: Id, caller: Id): Book
    requires replier in t && caller in t
  {
    t[replier := t[replier].(forReply := RemoveFirst(t[replier].forReply, caller),
                             forDelayed := t[replier].forDelayed + [caller])]
  }

  /** DCOPReplyDelayed. */
  function TakeDelayed(t: Book, replier: Id, caller: Id): Book
    requires replier in t && caller in t
  {
    if caller !in t[replier].forDelayed then t
    else
      var t1 := t[replier := t[replier].(forDelayed := RemoveFirst(t[replier].forDelayed, caller))];
      t1[caller := t1[caller].(onReply := RemoveFirst(t1[caller].onReply, replier))]
  }

  /** A callee died: the caller `c`, if still connected, stops waiting for it. */
  function AbortOne(t: Book, c: Id, dead: Id): Book {
    if c in t then t[c := t[c].(onReply := RemoveFirst(t[c].onReply, dead))] else t
  }

  function AbortAll(t: Book, callers: seq<Id>, dead: Id): Book {
    if callers == [] then t else AbortAll(AbortOne(t, callers[0], dead), callers[1..], dead)
  }

  /** A caller died: the callee `c`, if still connected, drops one call it owed. */
  function ForgetOne(t: Book, c: Id, dead: Id): Book {
    if c !in t then t
    else if dead in t[c].forReply then
      t[c := t[c].(forReply := RemoveFirst(t[c].forReply, dead))]
    else
      t[c := t[c].(forDelayed := RemoveFirst(t[c].forDelayed, dead))]
  }

  function ForgetAll(t: Book, callees: seq<Id>, dead: Id): Book {
    if callees == [] then t else ForgetAll(ForgetOne(t, callees[0], dead), callees[1..], dead)
  }

  /** A connection closes. */
  function Close(t: Book, dead: Id): Book
    requires dead in t
  {
    var me := t[dead];
    ForgetAll(AbortAll(AbortAll(t - {dead}, me.forReply, dead), me.forDelayed, dead),
              me.onReply, dead)
  }

  // ---------- What the two sides record about the calls of `a` to `b` ----------

  /** How many answers `a` expects from `b`. */
  function Outstanding(t: Book, a: Id, b: Id): nat {
    if a in t then Count(t[a].onReply, b) else 0
  }

  /** How many answers `b` owes `a`, promptly or delayed. */
  function Owed(t: Book, b: Id, a: Id): nat {
    if b in t then Count(t[b].forReply, a) + Count(t[b].forDelayed, a) else 0
  }

  /** The bookkeeping rule of the connection class: both sides record the same calls. A
      connection that is gone counts as recording nothing, so no list names a dead one. */
  ghost predicate Mirrored(t: Book) {
    forall a: Id, b: Id :: MirrorsAt(t, a, b)
  }

  ghost predicate MirrorsAt(t: Book, a: Id, b: Id) {
    Outstanding(t, a, b) == Owed(t, b, a)
  }

  /** What survives clients that send replies nobody asked for. */
  ghost predicate Covered(t: Book) {
    forall a: Id, b: Id :: CoversAt(t, a, b)
  }

  ghost predicate CoversAt(t: Book, a: Id, b: Id) {
    Outstanding(t, a, b) <= Owed(t, b, a)
  }

  /** Every reference in every list names a live connection. */
  lemma MirroredIsLive(t: Book, a: Id, x: Id)
    requires Mirrored(t) && a in t
    requires x in t[a].onReply || x in t[a].forReply || x in t[a].forDelayed
    ensures x in t
  {
    assert MirrorsAt(t, a, x) && MirrorsAt(t, x, a);
    CountPositive(t[a].onReply, x);
    CountPositive(t[a].forReply, x);
    CountPositive(t[a].forDelayed, x);
  }

  lemma CoveredIsLive(t: Book, a: Id, x: Id)
    requires Covered(t) && a in t && x in t[a].onReply
    ensures x in t
  {
    CountPositive(t[a].onReply, x);
    assert CoversAt(t, a, x);
  }

  /** Every reference in every list of `a` names a live connection. */
  ghost predicate LiveAt(t: Book, a: Id) {
    a in t ==> forall x :: x in t[a].onReply || x in t[a].forReply || x in t[a].forDelayed ==> x in t
  }

  ghost predicate AllLive(t: Book) {
    forall a: Id :: LiveAt(t, a)
  }

  /** In counts: nothing is recorded about a connection that is gone. */
  ghost predicate NothingAbout(t: Book, x: Id) {
    forall a: Id :: Outstanding(t, a, x) == 0 && Owed(t, a, x) == 0
  }

  lemma AllLiveCounts(t: Book)
    ensures AllLive(t) <==> forall x: Id :: x !in t ==> NothingAbout(t, x)
  {
    forall a: Id, x: Id
      ensures a in t ==> (Outstanding(t, a, x) == 0 && Owed(t, a, x) == 0
        <==> x !in t[a].onReply && x !in t[a].forReply && x !in t[a].forDelayed)
    {
      if a in t {
        CountPositive(t[a].onReply, x);
        CountPositive(t[a].forReply, x);
        CountPositive(t[a].forDelayed, x);
      }
    }
    if AllLive(t) {
      forall x: Id | x !in t
        ensures NothingAbout(t, x)
      {
        forall a: Id
          ensures Outstanding(t, a, x) == 0 && Owed(t, a, x) == 0
        {
          assert LiveAt(t, a);
        }
      }
    }
    if forall x: Id :: x !in t ==> NothingAbout(t, x) {
      forall a: Id
        ensures LiveAt(t, a)
      {
      }
    }
  }

  // ---------- Effect of each update on the two counts ----------

  function Bump(hit: bool): nat { if hit then 1 else 0 }

  function Less1(n: nat, hit: bool): nat { if hit && n > 0 then n - 1 else n }

  function Minus(m: nat, n: nat): nat { if m < n then 0 else m - n }

  lemma PlaceCallCounts(t: Book, caller: Id, callee: Id, a: Id, b: Id)
    requires caller in t && callee in t
    ensures Outstanding(PlaceCall(t, caller, callee), a, b)
         == Outstanding(t, a, b) + Bump(a == caller && b == callee)
    ensures Owed(PlaceCall(t, caller, callee), b, a)
         == Owed(t, b, a) + Bump(a == caller && b == callee)
  {
    CountAppend(t[callee].forReply, caller, a);
    CountAppend(t[caller].onReply, callee, b);
  }

  lemma TakeReplyCounts(t: Book, replier: Id, caller: Id, a: Id, b: Id)
    requires replier in t && caller in t
    ensures var t' := TakeReply(t, replier, caller);
      && Outstanding(t', a, b) == Less1(Outstanding(t, a, b), a == caller && b == replier)
      && Owed(t', b, a) == Less1(Owed(t, b, a), a == caller && b == replier && caller in t[replier].forReply)
  {
    CountPositive(t[replier].forReply, caller);
    CountRemove(t[replier].forReply, caller, a);
    CountRemove(t[caller].onReply, replier, b);
  }

  lemma DeferCounts(t: Book, replier: Id, caller: Id, a: Id, b: Id)
    requires replier in t && caller in t
    ensures var t' := Defer(t, replier, caller);
      && Outstanding(t', a, b) == Outstanding(t, a, b)
      && Owed(t', b, a) == Owed(t, b, a) + Bump(a == caller && b == replier && caller !in t[replier].forReply)
  {
    CountPositive(t[replier].forReply, caller);
    CountRemove(t[replier].forReply, caller, a);
    CountAppend(t[replier].forDelayed, caller, a);
  }

  lemma TakeDelayedCounts(t: Book, replier: Id, caller: Id, a: Id, b: Id)
    requires replier in t && caller in t
    ensures var t' := TakeDelayed(t, replier, caller);
      var hit := a == caller && b == replier && caller in t[replier].forDelayed;
      && Outstanding(t', a, b) == Less1(Outstanding(t, a, b), hit)
      && Owed(t', b, a) == Less1(Owed(t, b, a), hit)
  {
    CountPositive(t[replier].forDelayed, caller);
    CountRemove(t[replier].forDelayed, caller, a);
    CountRemove(t[caller].onReply, replier, b);
  }

  lemma AbortOneCounts(t: Book, c: Id, dead: Id, a: Id, b: Id)
    ensures var t' := AbortOne(t, c, dead);
      && t'.Keys == t.Keys
      && Owed(t', b, a) == Owed(t, b, a)
      && Outstanding(t', a, b) == Less1(Outstanding(t, a, b), a == c && b == dead)
  {
    if c in t {
      CountRemove(t[c].onReply, dead, b);
    }
  }

  lemma {:induction false} AbortAllCounts(t: Book, callers: seq<Id>, dead: Id, a: Id, b: Id)
    requires dead !in t
    ensures var t' := AbortAll(t, callers, dead);
      && t'.Keys == t.Keys
      && Owed(t', b, a) == Owed(t, b, a)
      && Outstanding(t', a, b)
         == (if b == dead then Minus(Outstanding(t, a, b), Count(callers, a)) else Outstanding(t, a, b))
  {
    if callers != [] {
      assert callers == [callers[0]] + callers[1..];
      AbortOneCounts(t, callers[0], dead, a, b);
      AbortAllCounts(AbortOne(t, callers[0], dead), callers[1..], dead, a, b);
    }
  }

  lemma ForgetOneCounts(t: Book, c: Id, dead: Id, a: Id, b: Id)
    ensures var t' := ForgetOne(t, c, dead);
      && t'.Keys == t.Keys
      && Outstanding(t', a, b) == Outstanding(t, a, b)
      && Owed(t', b, a) == Less1(Owed(t, b, a), a == dead && b == c)
  {
    if c in t {
      CountPositive(t[c].forReply, dead);
      CountRemove(t[c].forReply, dead, a);
      CountRemove(t[c].forDelayed, dead, a);
    }
  }

  lemma {:induction false} ForgetAllCounts(t: Book, callees: seq<Id>, dead: Id, a: Id, b: Id)
    requires dead !in t
    ensures var t' := ForgetAll(t, callees, dead);
      && t'.Keys == t.Keys
      && Outstanding(t', a, b) == Outstanding(t, a, b)
      && Owed(t', b, a)
         == (if a == dead then Minus(Owed(t, b, a), Count(callees, b)) else Owed(t, b, a))
  {
    if callees != [] {
      var c := callees[0];
      assert callees == [c] + callees[1..];
      ForgetOneCounts(t, c, dead, a, b);
      ForgetAllCounts(ForgetOne(t, c, dead), callees[1..], dead, a, b);
    }
  }

  /** Closing touches only the calls from and to the dead connection. */
  lemma CloseCounts(t: Book, dead: Id, a: Id, b: Id)
    requires dead in t
    ensures var t' := Close(t, dead);
      && t'.Keys == t.Keys - {dead}
      && Outstanding(t', a, b)
         == (if a == dead then 0
             else if b == dead then Minus(Outstanding(t, a, dead), Owed(t, dead, a))
             else Outstanding(t, a, b))
      && Owed(t', b, a)
         == (if b == dead then 0
             else if a == dead then Minus(Owed(t, b, dead), Outstanding(t, dead, b))
             else Owed(t, b, a))
  {
    var me := t[dead];
    var t0 := t - {dead};
    var t1 := AbortAll(t0, me.forReply, dead);
    var t2 := AbortAll(t1, me.forDelayed, dead);
    AbortAllCounts(t0, me.forReply, dead, a, b);
    AbortAllCounts(t1, me.forDelayed, dead, a, b);
    ForgetAllCounts(t2, me.onReply, dead, a, b);
  }

  // ---------- Which updates keep the books equal ----------

  lemma PlaceCallKeeps(t: Book, caller: Id, callee: Id)
    requires caller in t && callee in t
    ensures Mirrored(t) ==> Mirrored(PlaceCall(t, caller, callee))
    ensures Covered(t) ==> Covered(PlaceCall(t, caller, callee))
  {
    var t' := PlaceCall(t, caller, callee);
    forall a, b
      ensures (Covered(t) ==> CoversAt(t', a, b)) && (Mirrored(t) ==> MirrorsAt(t', a, b))
    {
      PlaceCallCounts(t, caller, callee, a, b);
      assert Covered(t) ==> CoversAt(t, a, b);
      assert Mirrored(t) ==> MirrorsAt(t, a, b);
    }
  }

  /** A reply keeps the books equal exactly when it answers a prompt entry of the replier,
      or the replier owes that caller nothing at all. */
  lemma TakeReplyKeeps(t: Book, replier: Id, caller: Id)
    requires replier in t && caller in t
    ensures Covered(t) ==> Covered(TakeReply(t, replier, caller))
    ensures Mirrored(t) ==>
      (Mirrored(TakeReply(t, replier, caller))
       <==> caller in t[replier].forReply || caller !in t[replier].forDelayed)
  {
    var t' := TakeReply(t, replier, caller);
    var harmless := caller in t[replier].forReply || caller !in t[replier].forDelayed;
    forall a, b
      ensures Covered(t) ==> CoversAt(t', a, b)
      ensures Mirrored(t) && (harmless || a != caller || b != replier) ==> MirrorsAt(t', a, b)
      ensures Mirrored(t) && !harmless && a == caller && b == replier ==> !MirrorsAt(t', a, b)
    {
      TakeReplyCounts(t, replier, caller, a, b);
      CountPositive(t[replier].forReply, caller);
      CountPositive(t[replier].forDelayed, caller);
      assert Covered(t) ==> CoversAt(t, a, b);
      assert Mirrored(t) ==> MirrorsAt(t, a, b);
    }
    assert Mirrored(t) && !harmless ==> !MirrorsAt(t', caller, replier);
  }

  /** A request to wait keeps the books equal exactly when it answers a prompt entry. */
  lemma DeferKeeps(t: Book, replier: Id, caller: Id)
    requires replier in t && caller in t
    ensures Covered(t) ==> Covered(Defer(t, replier, caller))
    ensures Mirrored(t) ==>
      (Mirrored(Defer(t, replier, caller)) <==> caller in t[replier].forReply)
  {
    var t' := Defer(t, replier, caller);
    var prompt := caller in t[replier].forReply;
    forall a, b
      ensures Covered(t) ==> CoversAt(t', a, b)
      ensures Mirrored(t) && (prompt || a != caller || b != replier) ==> MirrorsAt(t', a, b)
      ensures Mirrored(t) && !prompt && a == caller && b == replier ==> !MirrorsAt(t', a, b)
    {
      DeferCounts(t, replier, caller, a, b);
      assert Covered(t) ==> CoversAt(t, a, b);
      assert Mirrored(t) ==> MirrorsAt(t, a, b);
    }
    assert Mirrored(t) && !prompt ==> !MirrorsAt(t', caller, replier);
  }

  lemma TakeDelayedKeeps(t: Book, replier: Id, caller: Id)
    requires replier in t && caller in t
    ensures Covered(t) ==> Covered(TakeDelayed(t, replier, caller))
    ensures Mirrored(t) ==> Mirrored(TakeDelayed(t, replier, caller))
  {
    var t' := TakeDelayed(t, replier, caller);
    forall a, b
      ensures (Covered(t) ==> CoversAt(t', a, b)) && (Mirrored(t) ==> MirrorsAt(t', a, b))
    {
      TakeDelayedCounts(t, replier, caller, a, b);
      assert Covered(t) ==> CoversAt(t, a, b);
      assert Mirrored(t) ==> MirrorsAt(t, a, b);
    }
  }

  /** Closing a connection keeps the books, and afterwards nobody waits on it. */
  lemma CloseKeeps(t: Book, dead: Id)
    requires dead in t
    ensures Covered(t) ==> Covered(Close(t, dead))
    ensures Mirrored(t) ==> Mirrored(Close(t, dead))
    ensures Covered(t) ==> forall a :: a in Close(t, dead) ==> dead !in Close(t, dead)[a].onReply
  {
    var t' := Close(t, dead);
    forall a, b
      ensures (Covered(t) ==> CoversAt(t', a, b)) && (Mirrored(t) ==> MirrorsAt(t', a, b))
    {
      CloseCounts(t, dead, a, b);
      assert Covered(t) ==> CoversAt(t, a, b);
      assert Mirrored(t) ==> MirrorsAt(t, a, b);
    }
    if Covered(t) {
      forall a | a in t'
        ensures dead !in t'[a].onReply
      {
        CloseCounts(t, dead, a, dead);
        assert CoversAt(t, a, dead);
        CountPositive(t'[a].onReply, dead);
      }
    }
  }

  /** Nobody else's record of its calls with `id` differs from what `id` recorded of the calls it made
      itself: everybody owes `id` what `id` expects. */
  ghost predicate OwedAsExpected(t: Book, id: Id) {
    forall b: Id :: b in t && b != id ==> MirrorsAt(t, id, b)
  }

  /** Closing a connection leaves no reference to it exactly when everybody else owed it what it
      expected. */
  lemma CloseLivesIff(t: Book, dead: Id)
    requires Covered(t) && AllLive(t) && dead in t
    ensures AllLive(Close(t, dead)) <==> OwedAsExpected(t, dead)
  {
    var t' := Close(t, dead);
    AllLiveCounts(t);
    AllLiveCounts(t');
    forall a: Id, x: Id
      ensures x !in t ==> Outstanding(t', a, x) == 0 && Owed(t', a, x) == 0
      ensures x == dead ==> Outstanding(t', a, x) == 0
      ensures x == dead ==> (Owed(t', a, x) == 0 <==> a == dead || a !in t || MirrorsAt(t, dead, a))
    {
      CloseCounts(t, dead, a, x);
      CloseCounts(t, dead, x, a);
      assert CoversAt(t, a, dead) && CoversAt(t, dead, a);
      if x !in t { assert NothingAbout(t, x); }
    }
    assert t'.Keys == t.Keys - {dead} by { CloseCounts(t, dead, dead, dead); }
    if OwedAsExpected(t, dead) {
      forall x: Id | x !in t'
        ensures NothingAbout(t', x)
      {
      }
    }
    if AllLive(t') {
      assert NothingAbout(t', dead);
    }
  }

  lemma OpenLives(t: Book, id: Id)
    requires AllLive(t)
    ensures AllLive(t[id := NO_CALLS])
  {
    var t' := t[id := NO_CALLS];
    forall a: Id
      ensures LiveAt(t', a)
    {
      assert LiveAt(t, a);
    }
  }

  /** A new connection starts with empty lists; its identity may be one used before. */
  lemma OpenKeeps(t: Book, id: Id)
    requires id !in t
    ensures Covered(t) ==> Covered(t[id := NO_CALLS])
    ensures Mirrored(t) ==> Mirrored(t[id := NO_CALLS])
  {
    var t' := t[id := NO_CALLS];
    forall a, b
      ensures (Covered(t) ==> CoversAt(t', a, b)) && (Mirrored(t) ==> MirrorsAt(t', a, b))
    {
      assert Outstanding(t', a, b) == Outstanding(t, a, b) && Owed(t', b, a) == Owed(t, b, a);
      assert Covered(t) ==> CoversAt(t, a, b);
      assert Mirrored(t) ==> MirrorsAt(t, a, b);
    }
  }
}
