/** What the passes put into each menu: the last rule that fits an application decides, in the pass that
    the element's rules belong to; everything else stays, but for legacy merges and moves. */
module MenuContents {
  import opened Lists
  import opened MenuConditions
  import opened MenuTrees
  import opened MenuPasses
  import opened MenuAllocation

  // ---------- The rules of one element ----------

  /** A rule, and whether it stands in an `<Include>` or an `<Exclude>`. */
  datatype Ruling = Ruling(adding: bool, rule: Condition)

  function Tagged(rules: seq<Condition>, adding: bool): (rs: seq<Ruling>)
    ensures |rs| == |rules|
    ensures forall k :: 0 <= k < |rules| ==> rs[k] == Ruling(adding, rules[k])
  {
    if rules == [] then [] else [Ruling(adding, rules[0])] + Tagged(rules[1..], adding)
  }

  /** All rules of an element, in order. */
  function RulesOf(nodes: seq<Node>): seq<Ruling> {
    if nodes == [] then []
    else
      (match nodes[0]
       case Include(rules) => Tagged(rules, true)
       case Exclude(rules) => Tagged(rules, false)
       case _ => []) + RulesOf(nodes[1..])
  }

  /** The application is in scope and fits rule `k`. */
  ghost predicate FitsRule(rs: seq<Ruling>, k: int, scope: seq<Apps>, id: string) {
    0 <= k < |rs| && InScope(scope, id) && Fits(rs[k].rule, scope, id, Coded)
  }

  /** Rule `k` is the last that fits. */
  ghost predicate Decides(rs: seq<Ruling>, k: int, scope: seq<Apps>, id: string) {
    FitsRule(rs, k, scope, id) && forall j :: k < j < |rs| ==> !FitsRule(rs, j, scope, id)
  }

  ghost predicate SameEntry(m: Apps, m': Apps, id: string) {
    (id in m' <==> id in m) && (id in m ==> m'[id] == m[id])
  }

  /** From menu `a` to menu `b`: an application goes to where the last rule that fits it says, with the
      service which that rule selects; without such a rule it stays where it was. */
  ghost predicate FilledAt(rs: seq<Ruling>, scope: seq<Apps>, a: Menu, b: Menu, id: string) {
    && (forall k :: Decides(rs, k, scope, id) ==>
          if rs[k].adding then ServedBy(b.items, rs[k].rule, scope, id) && id !in b.excludes
          else ServedBy(b.excludes, rs[k].rule, scope, id) && id !in b.items)
    && ((forall k :: !FitsRule(rs, k, scope, id)) ==>
          SameEntry(a.items, b.items, id) && SameEntry(a.excludes, b.excludes, id))
  }

  ghost predicate FilledBy(rs: seq<Ruling>, scope: seq<Apps>, a: Menu, b: Menu) {
    forall id: string :: FilledAt(rs, scope, a, b, id)
  }

  /** Some `<Include>` rule fits. */
  ghost predicate IncludedAt(rs: seq<Ruling>, scope: seq<Apps>, id: string) {
    exists k :: FitsRule(rs, k, scope, id) && rs[k].adding
  }

  /** From progress `p` to `q` the rules `rs` have been applied, and nothing else has changed. */
  ghost predicate Ruled(rs: seq<Ruling>, scope: seq<Apps>, p: Progress, q: Progress) {
    && FilledBy(rs, scope, p.menu, q.menu)
    && q.menu == p.menu.(items := q.menu.items, excludes := q.menu.excludes)
    && (forall id: string :: id in q.books.included <==> id in p.books.included || IncludedAt(rs, scope, id))
  }

  lemma NoRules(scope: seq<Apps>, p: Progress)
    ensures Ruled([], scope, p, p)
  {
  }

  lemma OneRule(c: Condition, adding: bool, scope: seq<Apps>, p: Progress)
    ensures var picked := Eval(c, scope, map[]);
      Ruled([Ruling(adding, c)], scope, p, if adding then IncludeItems(p, picked) else ExcludeItems(p, picked))
  {
    var picked := Eval(c, scope, map[]);
    var rs := [Ruling(adding, c)];
    var q := if adding then IncludeItems(p, picked) else ExcludeItems(p, picked);
    forall id: string
      ensures FilledAt(rs, scope, p.menu, q.menu, id)
    {
      EvalCodes(c, scope, id);
      assert FitsRule(rs, 0, scope, id) <==> id in picked;
      if id in picked {
        EvalServes(c, scope, id);
        assert forall k :: Decides(rs, k, scope, id) ==> k == 0;
      }
    }
    forall id: string
      ensures IncludedAt(rs, scope, id) <==> adding && id in picked
    {
      EvalCodes(c, scope, id);
      assert FitsRule(rs, 0, scope, id) <==> id in picked;
    }
  }

  lemma FitsConcat(rs: seq<Ruling>, rs': seq<Ruling>, scope: seq<Apps>, id: string)
    ensures forall k :: 0 <= k < |rs| ==> (FitsRule(rs + rs', k, scope, id) <==> FitsRule(rs, k, scope, id))
    ensures forall k :: 0 <= k < |rs'| ==>
      (FitsRule(rs + rs', |rs| + k, scope, id) <==> FitsRule(rs', k, scope, id))
  {
  }

  lemma FilledConcat(rs: seq<Ruling>, rs': seq<Ruling>, scope: seq<Apps>, a: Menu, b: Menu, c: Menu, id: string)
    requires FilledAt(rs, scope, a, b, id) && FilledAt(rs', scope, b, c, id)
    ensures FilledAt(rs + rs', scope, a, c, id)
    ensures IncludedAt(rs + rs', scope, id) <==> IncludedAt(rs, scope, id) || IncludedAt(rs', scope, id)
  {
    IncludedConcat(rs, rs', scope, id);
    if exists k :: FitsRule(rs', k, scope, id) {
      FilledLate(rs, rs', scope, a, b, c, id);
    } else {
      FilledEarly(rs, rs', scope, a, b, c, id);
    }
  }

  lemma FilledLate(rs: seq<Ruling>, rs': seq<Ruling>, scope: seq<Apps>, a: Menu, b: Menu, c: Menu, id: string)
    requires FilledAt(rs', scope, b, c, id) && exists k :: FitsRule(rs', k, scope, id)
    ensures FilledAt(rs + rs', scope, a, c, id)
  {
    FitsConcat(rs, rs', scope, id);
    var k :| FitsRule(rs', k, scope, id);
    assert FitsRule(rs + rs', |rs| + k, scope, id);
    forall k | Decides(rs + rs', k, scope, id)
      ensures Decides(rs', k - |rs|, scope, id) && rs'[k - |rs|] == (rs + rs')[k]
    {
      DecidesLate(rs, rs', k, scope, id);
    }
  }

  lemma FilledEarly(rs: seq<Ruling>, rs': seq<Ruling>, scope: seq<Apps>, a: Menu, b: Menu, c: Menu, id: string)
    requires FilledAt(rs, scope, a, b, id) && FilledAt(rs', scope, b, c, id)
    requires forall k :: !FitsRule(rs', k, scope, id)
    ensures FilledAt(rs + rs', scope, a, c, id)
  {
    FitsConcat(rs, rs', scope, id);
    forall k | Decides(rs + rs', k, scope, id)
      ensures Decides(rs, k, scope, id) && rs[k] == (rs + rs')[k]
    {
      DecidesEarly(rs, rs', k, scope, id);
    }
    if forall k :: !FitsRule(rs + rs', k, scope, id) {
      forall k
        ensures !FitsRule(rs, k, scope, id)
      {
        assert !FitsRule(rs + rs', k, scope, id);
      }
    }
  }

  lemma DecidesLate(rs: seq<Ruling>, rs': seq<Ruling>, k: int, scope: seq<Apps>, id: string)
    requires Decides(rs + rs', k, scope, id) && exists j :: FitsRule(rs', j, scope, id)
    ensures Decides(rs', k - |rs|, scope, id)
  {
    FitsConcat(rs, rs', scope, id);
    var j :| FitsRule(rs', j, scope, id);
    assert FitsRule(rs + rs', |rs| + j, scope, id);
    forall i | k - |rs| < i < |rs'|
      ensures !FitsRule(rs', i, scope, id)
    {
      assert !FitsRule(rs + rs', |rs| + i, scope, id);
    }
  }

  lemma DecidesEarly(rs: seq<Ruling>, rs': seq<Ruling>, k: int, scope: seq<Apps>, id: string)
    requires Decides(rs + rs', k, scope, id) && forall j :: !FitsRule(rs', j, scope, id)
    ensures Decides(rs, k, scope, id)
  {
    FitsConcat(rs, rs', scope, id);
    assert k >= |rs| ==> FitsRule(rs', k - |rs|, scope, id);
    forall i | k < i < |rs|
      ensures !FitsRule(rs, i, scope, id)
    {
      assert !FitsRule(rs + rs', i, scope, id);
    }
  }

  lemma IncludedConcat(rs: seq<Ruling>, rs': seq<Ruling>, scope: seq<Apps>, id: string)
    ensures IncludedAt(rs + rs', scope, id) <==> IncludedAt(rs, scope, id) || IncludedAt(rs', scope, id)
  {
    var all := rs + rs';
    FitsConcat(rs, rs', scope, id);
    if k :| FitsRule(rs, k, scope, id) && rs[k].adding {
      assert FitsRule(all, k, scope, id) && all[k].adding;
    }
    if k :| FitsRule(rs', k, scope, id) && rs'[k].adding {
      assert FitsRule(all, |rs| + k, scope, id) && all[|rs| + k].adding;
    }
    if k :| FitsRule(all, k, scope, id) && all[k].adding {
      assert if k < |rs| then FitsRule(rs, k, scope, id) && rs[k].adding
             else FitsRule(rs', k - |rs|, scope, id) && rs'[k - |rs|].adding;
    }
  }

  lemma RuledConcat(rs: seq<Ruling>, rs': seq<Ruling>, scope: seq<Apps>, p: Progress, q: Progress, r: Progress)
    requires Ruled(rs, scope, p, q) && Ruled(rs', scope, q, r)
    ensures Ruled(rs + rs', scope, p, r)
  {
    forall id: string
      ensures FilledAt(rs + rs', scope, p.menu, r.menu, id)
      ensures IncludedAt(rs + rs', scope, id) <==> IncludedAt(rs, scope, id) || IncludedAt(rs', scope, id)
    {
      assert FilledAt(rs, scope, p.menu, q.menu, id) && FilledAt(rs', scope, q.menu, r.menu, id);
      FilledConcat(rs, rs', scope, p.menu, q.menu, r.menu, id);
    }
  }

  lemma {:induction false} RulesRule(rules: seq<Condition>, adding: bool, scope: seq<Apps>, p: Progress)
    ensures Ruled(Tagged(rules, adding), scope, p, ApplyRules(rules, adding, scope, p))
    decreases |rules|
  {
    if rules == [] {
      NoRules(scope, p);
    } else {
      var picked := Eval(rules[0], scope, map[]);
      var next := if adding then IncludeItems(p, picked) else ExcludeItems(p, picked);
      OneRule(rules[0], adding, scope, p);
      RulesRule(rules[1..], adding, scope, next);
      RuledConcat([Ruling(adding, rules[0])], Tagged(rules[1..], adding), scope, p, next,
                  ApplyRules(rules, adding, scope, p));
    }
  }

  /** The rules of an element, applied. */
  lemma {:induction false} NodesRule(nodes: seq<Node>, scope: seq<Apps>, p: Progress)
    ensures Ruled(RulesOf(nodes), scope, p, Allocate(nodes, scope, p))
    decreases |nodes|
  {
    if nodes == [] {
      NoRules(scope, p);
    } else {
      var next := AllocateOne(nodes[0], scope, p);
      var first :=
        match nodes[0]
        case Include(rules) => Tagged(rules, true)
        case Exclude(rules) => Tagged(rules, false)
        case _ => [];
      match nodes[0] {
        case Include(rules) => RulesRule(rules, true, scope, p);
        case Exclude(rules) => RulesRule(rules, false, scope, p);
        case _ => NoRules(scope, p);
      }
      NodesRule(nodes[1..], scope, next);
      RuledConcat(first, RulesOf(nodes[1..]), scope, p, next, Allocate(nodes, scope, p));
    }
  }

  // ---------- Passes 1 and 2 ----------

  /** The pass in which the rules of an element are applied. */
  predicate InPass(doc: Doc, pass: nat) {
    (pass == 1 && !doc.onlyUnallocated) || (pass == 2 && doc.onlyUnallocated)
  }

  /** What a pass makes of the element's own menu. */
  ghost predicate Filled(doc: Doc, pools: seq<Apps>, pass: nat, a: Menu, b: Menu) {
    && b.name == a.name && b.isDeleted == a.isDeleted && b.look == a.look
    && (if InPass(doc, pass) then FilledBy(RulesOf(doc.nodes), ScopeOf(pools, doc.scope), a, b)
        else b.items == a.items && b.excludes == a.excludes)
  }

  /** The moves of an element, made one after the other. */
  ghost predicate Moved(nodes: seq<Node>, m: Menu, r: Menu) {
    exists steps: seq<Menu> :: MoveSteps(nodes, steps) && steps[0] == m && steps[|nodes|] == r
  }

  ghost predicate MoveSteps(nodes: seq<Node>, steps: seq<Menu>) {
    && |steps| == |nodes| + 1
    && forall k :: 0 <= k < |nodes| ==>
         steps[k + 1] == if nodes[k].MoveRule? then Move(steps[k], nodes[k].orig, nodes[k].dest) else steps[k]
  }

  /** What a later pass makes of a tree: each element fills its own menu, then come the elements below
      it, in pass 2 then its moves; a menu that no element names stays as it is. */
  ghost predicate Passed(doc: Doc, pools: seq<Apps>, pass: nat, m: Menu, r: Menu)
    decreases doc, 2
  {
    exists mid: Menu ::
      FilledBelow(doc, pools, pass, m, mid) && if pass == 2 then Moved(doc.nodes, mid, r) else r == mid
  }

  ghost predicate FilledBelow(doc: Doc, pools: seq<Apps>, pass: nat, m: Menu, mid: Menu)
    decreases doc, 1
  {
    Filled(doc, pools, pass, m, mid) && SubsPassed(doc.nodes, pools, pass, m, mid)
  }

  ghost predicate SubsPassed(nodes: seq<Node>, pools: seq<Apps>, pass: nat, m: Menu, r: Menu)
    decreases nodes, 1
  {
    |r.subs| == |m.subs| && forall k :: 0 <= k < |m.subs| ==> SubPassed(nodes, pools, pass, m, r, k)
  }

  /** Submenu `k` is passed by the element of its name, if it is the first of that name. */
  ghost predicate SubPassed(nodes: seq<Node>, pools: seq<Apps>, pass: nat, m: Menu, r: Menu, k: nat)
    requires k < |m.subs| && |r.subs| == |m.subs|
    decreases nodes, 0
  {
    && (forall j :: 0 <= j < |nodes| && Names(nodes[j], m, k) ==>
          assert nodes[j].doc < nodes[j]; Passed(nodes[j].doc, pools, pass, m.subs[k], r.subs[k]))
    && ((forall j :: 0 <= j < |nodes| ==> !Names(nodes[j], m, k)) ==> r.subs[k] == m.subs[k])
    && r.subs[k].name == m.subs[k].name
  }

  ghost predicate Names(node: Node, m: Menu, k: nat)
    requires k < |m.subs|
  {
    node.SubDoc? && node.doc.name == m.subs[k].name && forall i :: 0 <= i < k ==> m.subs[i].name != node.doc.name
  }

  lemma {:induction false} MovesAreMade(nodes: seq<Node>, m: Menu)
    ensures Moved(nodes, m, MoveAll(nodes, m))
    decreases |nodes|
  {
    if nodes == [] {
      assert MoveSteps(nodes, [m]);
    } else {
      var next := if nodes[0].MoveRule? then Move(m, nodes[0].orig, nodes[0].dest) else m;
      MovesAreMade(nodes[1..], next);
      var steps :| MoveSteps(nodes[1..], steps) && steps[0] == next && steps[|nodes| - 1] == MoveAll(nodes, m);
      StepBefore(nodes, m, steps);
    }
  }

  lemma StepBefore(nodes: seq<Node>, m: Menu, steps: seq<Menu>)
    requires nodes != [] && MoveSteps(nodes[1..], steps)
    requires steps[0] == if nodes[0].MoveRule? then Move(m, nodes[0].orig, nodes[0].dest) else m
    ensures Moved(nodes, m, steps[|nodes| - 1])
  {
    var all := [m] + steps;
    forall k | 0 <= k < |nodes|
      ensures all[k + 1] == if nodes[k].MoveRule? then Move(all[k], nodes[k].orig, nodes[k].dest) else all[k]
    {
      if k > 0 { assert nodes[1..][k - 1] == nodes[k] && steps[k - 1 + 1] == all[k + 1]; }
    }
    assert MoveSteps(nodes, all);
  }

  /** A later pass does this, when elements next to each other have different names and every element
      has its menu. */
  lemma {:induction false} LaterPassPasses(doc: Doc, pools: seq<Apps>, pass: nat, p: Progress)
    requires pass > 0 && DistinctDocs(doc.nodes) && HasMenus(p.menu, doc.nodes)
    ensures Passed(doc, pools, pass, p.menu, Process(doc, pools, pass, p).menu)
    decreases doc, 1
  {
    var q := Allocated(doc, pools, pass, p);
    var mid := Descend(doc.nodes, pools, pass, q).menu;
    NodesRule(doc.nodes, ScopeOf(pools, doc.scope), p);
    AllocatedKeepsTree(doc, pools, pass, p);
    ExtendsOwn(p.menu, q.menu);
    HasMenusExtends(p.menu, q.menu, doc.nodes);
    LaterDescendPasses(doc.nodes, pools, pass, q);
    SameSubsPassed(doc.nodes, pools, pass, p.menu, q.menu, mid);
    assert Filled(doc, pools, pass, p.menu, mid) by {
      assert mid.items == q.menu.items && mid.excludes == q.menu.excludes;
      SameFilled(RulesOf(doc.nodes), ScopeOf(pools, doc.scope), p.menu, q.menu, mid);
    }
    MovesAreMade(doc.nodes, mid);
    assert FilledBelow(doc, pools, pass, p.menu, mid);
  }

  lemma SameFilled(rs: seq<Ruling>, scope: seq<Apps>, a: Menu, b: Menu, b': Menu)
    requires b'.items == b.items && b'.excludes == b.excludes
    ensures FilledBy(rs, scope, a, b) ==> FilledBy(rs, scope, a, b')
  {
    if FilledBy(rs, scope, a, b) {
      forall id: string
        ensures FilledAt(rs, scope, a, b', id)
      {
        assert FilledAt(rs, scope, a, b, id);
      }
    }
  }

  lemma SameSubsPassed(nodes: seq<Node>, pools: seq<Apps>, pass: nat, a: Menu, b: Menu, r: Menu)
    requires a.subs == b.subs && SubsPassed(nodes, pools, pass, b, r)
    ensures SubsPassed(nodes, pools, pass, a, r)
  {
    forall k | 0 <= k < |a.subs|
      ensures SubPassed(nodes, pools, pass, a, r, k)
    {
      assert SubPassed(nodes, pools, pass, b, r, k);
      forall j | 0 <= j < |nodes|
        ensures Names(nodes[j], a, k) <==> Names(nodes[j], b, k)
      {
      }
    }
  }

  lemma {:induction false} LaterDescendPasses(nodes: seq<Node>, pools: seq<Apps>, pass: nat, p: Progress)
    requires pass > 0 && DistinctDocs(nodes) && HasMenus(p.menu, nodes)
    ensures var r := Descend(nodes, pools, pass, p).menu;
      Own(r) == Own(p.menu) && SubsPassed(nodes, pools, pass, p.menu, r)
    decreases nodes, 0
  {
    if nodes == [] {
    } else {
      DistinctTail(nodes);
      HasMenusCons(p.menu, nodes);
      var r := Descend(nodes, pools, pass, p).menu;
      if nodes[0].SubDoc? {
        var doc := nodes[0].doc;
        assert doc < nodes[0];
        var at := Progress(Child(p.menu, doc.name).menu, p.books);
        var sub := Process(doc, pools, pass, at).menu;
        LaterPassPasses(doc, pools, pass, at);
        ProcessKeepsName(doc, pools, pass, at);
        OthersUntouched(nodes, p.menu, sub);
        LaterDescendPasses(nodes[1..], pools, pass, ProcessBelow(doc, pools, pass, p));
        FirstPassed(nodes, pools, pass, p.menu, sub, r);
      } else {
        LaterDescendPasses(nodes[1..], pools, pass, p);
        SkipPassed(nodes, pools, pass, p.menu, r);
      }
    }
  }

  lemma SkipPassed(nodes: seq<Node>, pools: seq<Apps>, pass: nat, m: Menu, r: Menu)
    requires nodes != [] && !nodes[0].SubDoc? && SubsPassed(nodes[1..], pools, pass, m, r)
    ensures SubsPassed(nodes, pools, pass, m, r)
  {
    forall k | 0 <= k < |m.subs|
      ensures SubPassed(nodes, pools, pass, m, r, k)
    {
      assert SubPassed(nodes[1..], pools, pass, m, r, k);
      forall j | 0 <= j < |nodes| && Names(nodes[j], m, k)
        ensures nodes[1..][j - 1] == nodes[j]
      {
      }
      forall j | 0 <= j < |nodes[1..]| && Names(nodes[1..][j], m, k)
        ensures Names(nodes[j + 1], m, k)
      {
      }
    }
  }

  /** One element replaces its menu, the others then leave that alone. */
  lemma FirstPassed(nodes: seq<Node>, pools: seq<Apps>, pass: nat, m: Menu, sub: Menu, r: Menu)
    requires nodes != [] && nodes[0].SubDoc? && DistinctDocs(nodes)
    requires var k := Position(m.subs, nodes[0].doc.name);
      && k < |m.subs| && sub.name == m.subs[k].name
      && Passed(nodes[0].doc, pools, pass, m.subs[k], sub)
      && SubsPassed(nodes[1..], pools, pass, m.(subs := m.subs[k := sub]), r)
    ensures SubsPassed(nodes, pools, pass, m, r)
  {
    var k := Position(m.subs, nodes[0].doc.name);
    var m' := m.(subs := m.subs[k := sub]);
    forall i | 0 <= i < |m.subs|
      ensures SubPassed(nodes, pools, pass, m, r, i)
    {
      assert SubPassed(nodes[1..], pools, pass, m', r, i);
      assert forall j :: 0 <= j < |m.subs| ==> m'.subs[j].name == m.subs[j].name;
      forall j | 1 <= j < |nodes|
        ensures Names(nodes[j], m, i) <==> Names(nodes[1..][j - 1], m', i)
      {
      }
      assert Names(nodes[0], m, i) <==> i == k;
      if i == k {
        forall j | 0 <= j < |nodes[1..]|
          ensures !Names(nodes[1..][j], m', i)
        {
          assert nodes[1..][j] == nodes[j + 1];
        }
        assert r.subs[i] == sub;
      }
    }
  }

  /** In a later pass an element whose menu is missing fills the menu of its parent instead. */
  lemma MissingFillsParent(doc: Doc, pools: seq<Apps>, pass: nat, p: Progress)
    requires pass > 0 && Child(p.menu, doc.name) == Missing
    requires forall k :: 0 <= k < |doc.nodes| ==> !doc.nodes[k].SubDoc? && !doc.nodes[k].MoveRule?
    ensures var q := ProcessBelow(doc, pools, pass, p);
      Filled(doc, pools, pass, p.menu, q.menu) && q.menu.subs == p.menu.subs && q.books.lost
  {
    var p' := p.(books := p.books.(lost := true));
    NodesRule(doc.nodes, ScopeOf(pools, doc.scope), p');
    AllocatedKeepsTree(doc, pools, pass, p');
    NothingBelow(doc.nodes, pools, pass, Allocated(doc, pools, pass, p'));
  }

  lemma {:induction false} NothingBelow(nodes: seq<Node>, pools: seq<Apps>, pass: nat, p: Progress)
    requires pass > 0 && forall k :: 0 <= k < |nodes| ==> !nodes[k].SubDoc? && !nodes[k].MoveRule?
    ensures Descend(nodes, pools, pass, p) == p && MoveAll(nodes, p.menu) == p.menu
    decreases |nodes|
  {
    if nodes != [] { NothingBelow(nodes[1..], pools, pass, p); }
  }

  // ---------- What a pass includes ----------

  /** An `<Include>` rule of the element, or of one below it, takes the application in this pass. */
  ghost predicate IncludedBy(doc: Doc, pools: seq<Apps>, pass: nat, id: string)
    decreases doc, 1
  {
    || (InPass(doc, pass) && IncludedAt(RulesOf(doc.nodes), ScopeOf(pools, doc.scope), id))
    || IncludedBelow(doc.nodes, pools, pass, id)
  }

  ghost predicate IncludedBelow(nodes: seq<Node>, pools: seq<Apps>, pass: nat, id: string)
    decreases nodes, 0
  {
    exists k :: 0 <= k < |nodes| && nodes[k].SubDoc?
      && (assert nodes[k].doc < nodes[k]; IncludedBy(nodes[k].doc, pools, pass, id))
  }

  lemma {:induction false} IncludedExactly(doc: Doc, pools: seq<Apps>, pass: nat, p: Progress, id: string)
    ensures id in Process(doc, pools, pass, p).books.included
       <==> id in p.books.included || IncludedBy(doc, pools, pass, id)
    decreases doc, 1
  {
    var p0 := if pass == 0 then p.(menu := SetUp(p.menu, doc)) else p;
    NodesRule(doc.nodes, ScopeOf(pools, doc.scope), p0);
    IncludedBelowExactly(doc.nodes, pools, pass, Allocated(doc, pools, pass, p), id);
  }

  lemma {:induction false} IncludedBelowExactly(nodes: seq<Node>, pools: seq<Apps>, pass: nat, p: Progress,
                                                id: string)
    ensures id in Descend(nodes, pools, pass, p).books.included
       <==> id in p.books.included || IncludedBelow(nodes, pools, pass, id)
    decreases nodes, 0
  {
    if nodes != [] {
      IncludedBelowCons(nodes, pools, pass, id);
      if nodes[0].SubDoc? {
        var doc := nodes[0].doc;
        assert doc < nodes[0];
        var k := Position(p.menu.subs, doc.name);
        if k < |p.menu.subs| {
          IncludedExactly(doc, pools, pass, Progress(p.menu.subs[k], p.books), id);
        } else if pass == 0 {
          IncludedExactly(doc, pools, pass, Progress(Fresh(doc.name), p.books), id);
        } else {
          IncludedExactly(doc, pools, pass, p.(books := p.books.(lost := true)), id);
        }
        IncludedBelowExactly(nodes[1..], pools, pass, ProcessBelow(doc, pools, pass, p), id);
      } else if nodes[0].Legacy? && pass == 0 {
        IncludedBelowExactly(nodes[1..], pools, pass, p.(menu := Merge(p.menu, nodes[0].tree, false)), id);
      } else {
        IncludedBelowExactly(nodes[1..], pools, pass, p, id);
      }
    }
  }

  lemma IncludedBelowCons(nodes: seq<Node>, pools: seq<Apps>, pass: nat, id: string)
    requires nodes != []
    ensures IncludedBelow(nodes, pools, pass, id)
       <==> (nodes[0].SubDoc? && IncludedBy(nodes[0].doc, pools, pass, id))
            || IncludedBelow(nodes[1..], pools, pass, id)
  {
  }

  // ---------- Pass 0 ----------

  /** What pass 0 makes of the element's own menu: a directory file is kept when the element gives none. */
  ghost predicate OwnSet(doc: Doc, a: Menu, b: Menu) {
    && b == a.(isDeleted := b.isDeleted, look := b.look)
    && b.isDeleted == doc.isDeleted
    && b.look.defaultLayout == doc.look.defaultLayout && b.look.layout == doc.look.layout
    && FirstGiven(doc.look.directoryFile, a.look.directoryFile, b.look.directoryFile)
  }

  /** What pass 0 makes of a tree: the element sets its own menu, then come its children in order, each
      legacy menu merged with priority, each element into the menu of its name, a new one if there is
      none. */
  ghost predicate Built(doc: Doc, m: Menu, r: Menu)
    decreases doc, 1
  {
    exists steps: seq<Menu> ::
      && |steps| == |doc.nodes| + 1 && OwnSet(doc, m, steps[0])
      && BuildSteps(doc.nodes, steps) && steps[|doc.nodes|] == r
  }

  ghost predicate BuildSteps(nodes: seq<Node>, steps: seq<Menu>)
    requires |steps| == |nodes| + 1
    decreases nodes, 1
  {
    forall k :: 0 <= k < |nodes| ==> BuildStep(nodes, k, steps[k], steps[k + 1])
  }

  ghost predicate BuildStep(nodes: seq<Node>, k: nat, a: Menu, b: Menu)
    requires k < |nodes|
    decreases nodes, 0
  {
    match nodes[k]
    case SubDoc(doc) =>
      assert doc < nodes[k];
      var i := Position(a.subs, doc.name);
      exists sub: Menu ::
        if i < |a.subs| then Built(doc, a.subs[i], sub) && b == a.(subs := a.subs[i := sub])
        else Built(doc, Fresh(doc.name), sub) && b == a.(subs := a.subs + [sub])
    case Legacy(tree) => b == Merge(a, tree, false)
    case _ => b == a
  }

  lemma {:induction false} FirstPassBuilds(doc: Doc, pools: seq<Apps>, p: Progress)
    ensures Built(doc, p.menu, Process(doc, pools, 0, p).menu)
    decreases doc, 1
  {
    var p0 := p.(menu := SetUp(p.menu, doc));
    var steps := FirstDescendBuilds(doc.nodes, pools, p0);
    assert OwnSet(doc, p.menu, steps[0]);
  }

  lemma {:induction false} FirstDescendBuilds(nodes: seq<Node>, pools: seq<Apps>, p: Progress)
      returns (steps: seq<Menu>)
    ensures |steps| == |nodes| + 1 && BuildSteps(nodes, steps)
    ensures steps[0] == p.menu && steps[|nodes|] == Descend(nodes, pools, 0, p).menu
    decreases nodes, 1
  {
    if nodes == [] {
      steps := [p.menu];
    } else {
      var next := FirstNode(nodes, pools, p);
      var rest := FirstDescendBuilds(nodes[1..], pools, next);
      steps := [p.menu] + rest;
      forall k | 0 <= k < |nodes|
        ensures BuildStep(nodes, k, steps[k], steps[k + 1])
      {
        if k > 0 {
          assert BuildStep(nodes[1..], k - 1, rest[k - 1], rest[k - 1 + 1]);
          assert nodes[1..][k - 1] == nodes[k];
        }
      }
    }
  }

  lemma {:induction false} FirstNode(nodes: seq<Node>, pools: seq<Apps>, p: Progress) returns (next: Progress)
    requires nodes != []
    ensures Descend(nodes, pools, 0, p) == Descend(nodes[1..], pools, 0, next)
    ensures BuildStep(nodes, 0, p.menu, next.menu)
    decreases nodes, 0
  {
    match nodes[0]
    case SubDoc(doc) =>
      assert doc < nodes[0];
      var i := Position(p.menu.subs, doc.name);
      var at := Progress(if i < |p.menu.subs| then p.menu.subs[i] else Fresh(doc.name), p.books);
      FirstPassBuilds(doc, pools, at);
      next := ProcessBelow(doc, pools, 0, p);
    case Legacy(tree) =>
      next := p.(menu := Merge(p.menu, tree, false));
    case _ =>
      next := p;
  }

  /** The directory files of the legacy menus among the children, in order. */
  function LegacyDirs(nodes: seq<Node>): seq<string> {
    if nodes == [] then []
    else (if nodes[0].Legacy? then [nodes[0].tree.look.directoryFile] else []) + LegacyDirs(nodes[1..])
  }

  /** The last of the values that is given. */
  ghost predicate LastGiven(values: seq<string>, v: string) {
    || (v == "" && forall k :: 0 <= k < |values| ==> values[k] == "")
    || (v != "" && exists k :: LastGivenAt(values, k, v))
  }

  ghost predicate LastGivenAt(values: seq<string>, k: nat, v: string) {
    k < |values| && values[k] == v && forall j :: k < j < |values| ==> values[j] == ""
  }

  lemma OneMoreValue(values: seq<string>, v: string, value: string, v': string)
    requires LastGiven(values, v) && FirstGiven(value, v, v')
    ensures LastGiven(values + [value], v')
  {
    if value != "" {
      assert LastGivenAt(values + [value], |values|, v');
    } else if v != "" {
      var k: nat :| LastGivenAt(values, k, v);
      assert LastGivenAt(values + [value], k, v');
    }
  }

  /** After pass 0 the directory file of a menu is the last one given: by what was there, by its element,
      by the legacy menus of the element in order. */
  lemma DirectoryFileAfterPass0(doc: Doc, pools: seq<Apps>, p: Progress)
    ensures LastGiven([p.menu.look.directoryFile, doc.look.directoryFile] + LegacyDirs(doc.nodes),
                      Process(doc, pools, 0, p).menu.look.directoryFile)
  {
    var before := p.menu.look.directoryFile;
    var p0 := p.(menu := SetUp(p.menu, doc));
    assert before != "" ==> LastGivenAt([before], 0, before);
    OneMoreValue([before], before, doc.look.directoryFile, p0.menu.look.directoryFile);
    assert [before] + [doc.look.directoryFile] == [before, doc.look.directoryFile];
    DirectoryFileBelow(doc.nodes, pools, p0, [before, doc.look.directoryFile]);
  }

  lemma {:induction false} DirectoryFileBelow(nodes: seq<Node>, pools: seq<Apps>, p: Progress, values: seq<string>)
    requires LastGiven(values, p.menu.look.directoryFile)
    ensures LastGiven(values + LegacyDirs(nodes), Descend(nodes, pools, 0, p).menu.look.directoryFile)
    decreases nodes
  {
    if nodes == [] {
      assert values + [] == values;
    } else if nodes[0].Legacy? {
      var tree := nodes[0].tree;
      LegacyGives(p.menu, tree, values);
      var next := p.(menu := Merge(p.menu, tree, false));
      DirectoryFileBelow(nodes[1..], pools, next, values + [tree.look.directoryFile]);
      Regroup(values, [tree.look.directoryFile], LegacyDirs(nodes[1..]));
    } else {
      assert LegacyDirs(nodes) == LegacyDirs(nodes[1..]);
      DirectoryFileBelow(nodes[1..], pools,
        if nodes[0].SubDoc? then ProcessBelow(nodes[0].doc, pools, 0, p) else p, values);
    }
  }

  lemma LegacyGives(m: Menu, tree: Menu, values: seq<string>)
    requires LastGiven(values, m.look.directoryFile)
    ensures LastGiven(values + [tree.look.directoryFile], Merge(m, tree, false).look.directoryFile)
  {
    var own := MergeOwn(m, tree, false);
    OwnIsMerged(m, tree, false);
    InsertAllKeepsOwn(own, tree.subs, false);
    OneMoreValue(values, m.look.directoryFile, tree.look.directoryFile, own.look.directoryFile);
  }

  // ---------- The three passes ----------

  /** The pools that are left when pass 1 has taken what it includes. */
  ghost predicate Left(doc: Doc, pools: seq<Apps>, used: set<string>, left: seq<Apps>) {
    && |left| == |pools|
    && forall i, id :: 0 <= i < |pools| ==>
         if id in used || IncludedBy(doc, pools, 1, id) then id !in left[i] else SameEntry(pools[i], left[i], id)
  }

  /** A finished menu: pass 0 has built its tree, pass 1 has filled it from all applications, pass 2 from
      what was left, and `included` is what pass 2 took. */
  ghost predicate Finished(doc: Doc, pools: seq<Apps>, used: set<string>, root: Menu, included: set<string>) {
    exists m0: Menu, m1: Menu, left: seq<Apps> ::
      && Built(doc, Fresh(doc.name), m0) && Passed(doc, pools, 1, m0, m1)
      && Left(doc, pools, used, left) && Passed(doc, left, 2, m1, root)
      && (forall id :: id in included <==> IncludedBy(doc, left, 2, id))
  }

  lemma PassesFinish(doc: Doc, pools: seq<Apps>, used: set<string>)
    requires DistinctDocs(doc.nodes)
    ensures var p := ParseMenu(doc, pools, used); Finished(doc, pools, used, p.menu, p.books.included)
  {
    var start := Progress(Fresh(doc.name), Books(used, {}, false));
    var p0, p1, left := AfterPass0(doc, pools, used), AfterPass1(doc, pools, used), LeftPools(doc, pools, used);
    FirstPassBuilds(doc, pools, start);
    EarlyPassExtends(doc, pools, 0, start);
    LaterPassPasses(doc, pools, 1, NextPass(p0));
    EarlyPassExtends(doc, pools, 1, NextPass(p0));
    HasMenusExtends(p0.menu, p1.menu, doc.nodes);
    LaterPassPasses(doc, left, 2, NextPass(p1));
    PoolsLeft(doc, pools, used);
    forall id
      ensures id in ParseMenu(doc, pools, used).books.included <==> IncludedBy(doc, left, 2, id)
    {
      IncludedExactly(doc, left, 2, NextPass(p1), id);
    }
  }

  lemma PoolsLeft(doc: Doc, pools: seq<Apps>, used: set<string>)
    ensures Left(doc, pools, used, LeftPools(doc, pools, used))
  {
    var start := Progress(Fresh(doc.name), Books(used, {}, false));
    var p0, p1 := AfterPass0(doc, pools, used), AfterPass1(doc, pools, used);
    ProcessGrows(doc, pools, 0, start);
    ProcessGrows(doc, pools, 1, NextPass(p0));
    forall id
      ensures id in p1.books.used <==> id in used || IncludedBy(doc, pools, 1, id)
    {
      IncludedExactly(doc, pools, 0, start, id);
      IncludedExactly(doc, pools, 1, NextPass(p0), id);
      NoRulesInPass0(doc, pools, id);
    }
  }

  lemma {:induction false} NoRulesInPass0(doc: Doc, pools: seq<Apps>, id: string)
    ensures !IncludedBy(doc, pools, 0, id)
    decreases doc
  {
    forall k | 0 <= k < |doc.nodes| && doc.nodes[k].SubDoc?
      ensures !IncludedBy(doc.nodes[k].doc, pools, 0, id)
    {
      assert doc.nodes[k].doc < doc.nodes[k];
      NoRulesInPass0(doc.nodes[k].doc, pools, id);
    }
  }

  // ---------- At every path ----------

  /** The element of that name. */
  function DocNamed(nodes: seq<Node>, name: string): (k: nat)
    ensures k <= |nodes|
    ensures k < |nodes| ==> nodes[k].SubDoc? && nodes[k].doc.name == name
    ensures forall j :: 0 <= j < k ==> !(nodes[j].SubDoc? && nodes[j].doc.name == name)
  {
    if nodes == [] || (nodes[0].SubDoc? && nodes[0].doc.name == name) then 0 else 1 + DocNamed(nodes[1..], name)
  }

  /** `d` is the element at a path of names below `doc`. */
  ghost predicate ElementAt(doc: Doc, path: seq<string>, d: Doc)
    decreases |path|
  {
    if path == [] then d == doc
    else
      var k := DocNamed(doc.nodes, path[0]);
      k < |doc.nodes| && ElementAt(doc.nodes[k].doc, path[1..], d)
  }

  /** No element of the file moves a menu. */
  ghost predicate MovesFree(doc: Doc)
    decreases doc
  {
    forall k :: 0 <= k < |doc.nodes| ==>
      !doc.nodes[k].MoveRule?
      && (doc.nodes[k].SubDoc? ==> assert doc.nodes[k].doc < doc.nodes[k]; MovesFree(doc.nodes[k].doc))
  }

  lemma {:induction false} NoMoves(nodes: seq<Node>, m: Menu, r: Menu)
    requires Moved(nodes, m, r) && forall k :: 0 <= k < |nodes| ==> !nodes[k].MoveRule?
    ensures r == m
  {
    var steps :| MoveSteps(nodes, steps) && steps[0] == m && steps[|nodes|] == r;
    for k := 0 to |nodes|
      invariant steps[k] == m
    {
    }
  }

  /** Where nothing moves, the menu at every path is filled by the element at that path, and stays as it
      is if there is none. */
  lemma {:induction false} FilledAtPath(doc: Doc, pools: seq<Apps>, pass: nat, m: Menu, r: Menu, path: seq<string>)
    requires Passed(doc, pools, pass, m, r) && (pass == 2 ==> MovesFree(doc)) && At(m, path).Found?
    ensures At(r, path).Found?
    ensures forall d :: ElementAt(doc, path, d) ==> Filled(d, pools, pass, At(m, path).menu, At(r, path).menu)
    ensures (forall d :: !ElementAt(doc, path, d)) ==> Own(At(r, path).menu) == Own(At(m, path).menu)
    decreases |path|
  {
    var mid :| FilledBelow(doc, pools, pass, m, mid) && if pass == 2 then Moved(doc.nodes, mid, r) else r == mid;
    if pass == 2 { NoMoves(doc.nodes, mid, r); }
    if path == [] {
      assert ElementAt(doc, path, doc);
    } else {
      var k := DocNamed(doc.nodes, path[0]);
      ChildPassed(doc.nodes, pools, pass, m, r, path[0]);
      if k < |doc.nodes| {
        var a, b := Child(m, path[0]).menu, Child(r, path[0]).menu;
        FilledAtPath(doc.nodes[k].doc, pools, pass, a, b, path[1..]);
        assert forall d :: ElementAt(doc, path, d) <==> ElementAt(doc.nodes[k].doc, path[1..], d);
      }
    }
  }

  lemma ChildPassed(nodes: seq<Node>, pools: seq<Apps>, pass: nat, m: Menu, r: Menu, name: string)
    requires SubsPassed(nodes, pools, pass, m, r) && Child(m, name).Found?
    ensures Child(r, name).Found?
    ensures var k := DocNamed(nodes, name);
      if k < |nodes| then Passed(nodes[k].doc, pools, pass, Child(m, name).menu, Child(r, name).menu)
      else Child(r, name) == Child(m, name)
  {
    var i, k := Position(m.subs, name), DocNamed(nodes, name);
    forall j | 0 <= j < |m.subs|
      ensures r.subs[j].name == m.subs[j].name
    {
      assert SubPassed(nodes, pools, pass, m, r, j);
    }
    SameNamesSamePosition(m.subs, r.subs, name);
    assert SubPassed(nodes, pools, pass, m, r, i);
    if k < |nodes| { assert Names(nodes[k], m, i); }
  }

  lemma SameNamesSamePosition(a: seq<Menu>, b: seq<Menu>, name: string)
    requires |a| == |b| && forall k :: 0 <= k < |a| ==> a[k].name == b[k].name
    ensures Position(a, name) == Position(b, name)
  {
  }
}
