/** What the passes promise about allocation: menus marked `OnlyUnallocated` take only what is left
    after pass 1, and all of it that fits; and every `<Menu>` finds its menu. */
module MenuAllocation {
  import Text
  import opened MenuConditions
  import opened MenuTrees
  import opened MenuPasses

  // ---------- The books ----------

  ghost predicate Offered(pools: seq<Apps>, id: string) {
    exists i :: 0 <= i < |pools| && id in pools[i]
  }

  /** From `b` to `b'`, only offered applications were included, and all of them marked used. */
  ghost predicate Grown(b: Books, b': Books, pools: seq<Apps>) {
    && b.included <= b'.included && b'.used == b.used + b'.included
    && forall id :: id in b'.included ==> id in b.included || Offered(pools, id)
  }

  lemma ScopeOffers(pools: seq<Apps>, scope: seq<nat>, id: string)
    requires InScope(ScopeOf(pools, scope), id)
    ensures Offered(pools, id)
  {
  }

  lemma {:induction false} RulesGrow(rules: seq<Condition>, adding: bool, pools: seq<Apps>, scope: seq<nat>,
                                     p: Progress)
    requires p.books.included <= p.books.used
    ensures Grown(p.books, ApplyRules(rules, adding, ScopeOf(pools, scope), p).books, pools)
    decreases |rules|
  {
    if rules != [] {
      var frames := ScopeOf(pools, scope);
      var picked := Eval(rules[0], frames, map[]);
      var next := if adding then IncludeItems(p, picked) else ExcludeItems(p, picked);
      forall id | id in picked
        ensures Offered(pools, id)
      {
        EvalWithin(rules[0], frames, map[], id);
        ScopeOffers(pools, scope, id);
      }
      RulesGrow(rules[1..], adding, pools, scope, next);
    }
  }

  lemma {:induction false} AllocateGrows(nodes: seq<Node>, pools: seq<Apps>, scope: seq<nat>, p: Progress)
    requires p.books.included <= p.books.used
    ensures Grown(p.books, Allocate(nodes, ScopeOf(pools, scope), p).books, pools)
    decreases |nodes|
  {
    if nodes != [] {
      var frames := ScopeOf(pools, scope);
      match nodes[0]
      case Include(rules) =>
        RulesGrow(rules, true, pools, scope, p);
        AllocateGrows(nodes[1..], pools, scope, ApplyRules(rules, true, frames, p));
      case Exclude(rules) =>
        RulesGrow(rules, false, pools, scope, p);
        AllocateGrows(nodes[1..], pools, scope, ApplyRules(rules, false, frames, p));
      case _ =>
        AllocateGrows(nodes[1..], pools, scope, p);
    }
  }

  lemma {:induction false} ProcessGrows(doc: Doc, pools: seq<Apps>, pass: nat, p: Progress)
    requires p.books.included <= p.books.used
    ensures Grown(p.books, Process(doc, pools, pass, p).books, pools)
    decreases doc, 1
  {
    var p0 := if pass == 0 then p.(menu := SetUp(p.menu, doc)) else p;
    AllocateGrows(doc.nodes, pools, doc.scope, p0);
    var p1 := if Active(doc, pass) then Allocate(doc.nodes, ScopeOf(pools, doc.scope), p0) else p0;
    DescendGrows(doc.nodes, pools, pass, p1);
  }

  lemma {:induction false} DescendGrows(nodes: seq<Node>, pools: seq<Apps>, pass: nat, p: Progress)
    requires p.books.included <= p.books.used
    ensures Grown(p.books, Descend(nodes, pools, pass, p).books, pools)
    decreases nodes, 0
  {
    if nodes != [] {
      if nodes[0].SubDoc? {
        assert nodes[0].doc < nodes[0];
        BelowGrows(nodes[0].doc, pools, pass, p);
        DescendGrows(nodes[1..], pools, pass, ProcessBelow(nodes[0].doc, pools, pass, p));
      } else if nodes[0].Legacy? && pass == 0 {
        DescendGrows(nodes[1..], pools, pass, p.(menu := Merge(p.menu, nodes[0].tree, false)));
      } else {
        DescendGrows(nodes[1..], pools, pass, p);
      }
    }
  }

  lemma {:induction false} BelowGrows(doc: Doc, pools: seq<Apps>, pass: nat, p: Progress)
    requires p.books.included <= p.books.used
    ensures Grown(p.books, ProcessBelow(doc, pools, pass, p).books, pools)
    decreases doc, 2
  {
    var k := Position(p.menu.subs, doc.name);
    if k < |p.menu.subs| {
      ProcessGrows(doc, pools, pass, Progress(p.menu.subs[k], p.books));
    } else if pass == 0 {
      ProcessGrows(doc, pools, pass, Progress(Fresh(doc.name), p.books));
    } else {
      ProcessGrows(doc, pools, pass, p.(books := p.books.(lost := true)));
    }
  }

  /** Nothing that a rule includes in pass 2 was marked used before pass 2. */
  lemma OnlyUnallocatedIncluded(doc: Doc, pools: seq<Apps>, used: set<string>)
    ensures ParseMenu(doc, pools, used).books.included !! AfterPass1(doc, pools, used).books.used
    ensures ParseMenu(doc, pools, used).books.used
         == AfterPass1(doc, pools, used).books.used + ParseMenu(doc, pools, used).books.included
  {
    var before := AfterPass1(doc, pools, used);
    var left := LeftPools(doc, pools, used);
    ProcessGrows(doc, left, 2, NextPass(before));
    forall id | Offered(left, id)
      ensures id !in before.books.used
    {
      var i :| 0 <= i < |left| && id in left[i];
    }
  }

  // ---------- Selection from what is left ----------

  ghost predicate PrunedFrom(scope: seq<Apps>, pruned: seq<Apps>, used: set<string>) {
    |pruned| == |scope| && forall i :: 0 <= i < |scope| ==> pruned[i] == scope[i] - used
  }

  /** An application that is left fits a condition over the pruned pools just when it fits over the
      full ones. */
  lemma {:induction false} FitsPruned(c: Condition, scope: seq<Apps>, pruned: seq<Apps>, used: set<string>,
                                         id: string)
    requires PrunedFrom(scope, pruned, used) && id !in used
    ensures Fits(c, pruned, id, Coded) <==> Fits(c, scope, id, Coded)
    decreases c
  {
    match c
    case And(args) => AllFitPruned(args, scope, pruned, used, id);
    case Or(args) => AllFitPruned(args, scope, pruned, used, id);
    case Not(args) => AllFitPruned(args, scope, pruned, used, id);
    case Category(name) =>
      assert forall i :: 0 <= i < |scope| ==> (HasCategory(pruned[i], id, name) <==> HasCategory(scope[i], id, name));
    case All =>
    case Filename(file) =>
    case Unknown =>
    case Comment =>
  }

  lemma {:induction false} AllFitPruned(args: seq<Condition>, scope: seq<Apps>, pruned: seq<Apps>,
                                          used: set<string>, id: string)
    requires PrunedFrom(scope, pruned, used) && id !in used
    ensures forall k :: 0 <= k < |args| ==> (Fits(args[k], pruned, id, Coded) <==> Fits(args[k], scope, id, Coded))
    decreases args
  {
    forall k | 0 <= k < |args|
      ensures Fits(args[k], pruned, id, Coded) <==> Fits(args[k], scope, id, Coded)
    {
      FitsPruned(args[k], scope, pruned, used, id);
    }
  }

  /** Selecting from the pruned pools is selecting from all and leaving out what is used, for every
      condition, `Not` included. */
  lemma PrunedSelection(c: Condition, scope: seq<Apps>, pruned: seq<Apps>, used: set<string>)
    requires PrunedFrom(scope, pruned, used)
    ensures Eval(c, pruned, map[]).Keys == Eval(c, scope, map[]).Keys - used
  {
    forall id
      ensures id in Eval(c, pruned, map[]) <==> id in Eval(c, scope, map[]) && id !in used
    {
      EvalCodes(c, pruned, id);
      EvalCodes(c, scope, id);
      if id !in used {
        FitsPruned(c, scope, pruned, used, id);
        if InScope(scope, id) {
          var i :| 0 <= i < |scope| && id in scope[i];
          assert id in pruned[i];
        }
        if InScope(pruned, id) {
          var i :| 0 <= i < |pruned| && id in pruned[i];
          assert id in scope[i];
        }
      }
    }
  }

  /** What a rule of any menu picks in pass 2: the fitting applications of its scope that were not
      marked used before. */
  lemma Pass2Selection(doc: Doc, pools: seq<Apps>, used: set<string>, scope: seq<nat>, c: Condition)
    ensures Eval(c, ScopeOf(LeftPools(doc, pools, used), scope), map[]).Keys
         == Eval(c, ScopeOf(pools, scope), map[]).Keys - AfterPass1(doc, pools, used).books.used
  {
    var before := AfterPass1(doc, pools, used).books.used;
    var none: Apps := map[];
    assert none - before == none;
    PrunedSelection(c, ScopeOf(pools, scope), ScopeOf(LeftPools(doc, pools, used), scope), before);
  }

  // ---------- Every menu is found ----------

  /** `<Menu>` elements next to each other have different names. */
  ghost predicate DistinctDocs(nodes: seq<Node>) {
    && (forall j, k :: 0 <= j < k < |nodes| && nodes[j].SubDoc? && nodes[k].SubDoc? ==>
          nodes[j].doc.name != nodes[k].doc.name)
    && (forall k :: 0 <= k < |nodes| && nodes[k].SubDoc? ==>
          assert nodes[k].doc < nodes[k]; DistinctDocs(nodes[k].doc.nodes))
  }

  /** There is a menu for every `<Menu>` element. */
  ghost predicate HasMenus(m: Menu, nodes: seq<Node>)
    decreases nodes, 0
  {
    forall k :: 0 <= k < |nodes| && nodes[k].SubDoc? ==>
      assert nodes[k].doc < nodes[k]; HasMenu(m, nodes[k].doc)
  }

  ghost predicate HasMenu(m: Menu, doc: Doc)
    decreases doc, 1
  {
    Child(m, doc.name).Found? && HasMenus(Child(m, doc.name).menu, doc.nodes)
  }

  /** Every path of `m` is a path of `m'`. */
  ghost predicate Extends(m: Menu, m': Menu) {
    forall path :: At(m, path).Found? ==> At(m', path).Found?
  }

  lemma ExtendsChild(m: Menu, m': Menu, name: string)
    requires Extends(m, m') && Child(m, name).Found?
    ensures Child(m', name).Found? && Extends(Child(m, name).menu, Child(m', name).menu)
  {
    assert At(m, [name]).Found? by { assert [name][1..] == []; }
    assert At(m', [name]).Found?;
    forall path | At(Child(m, name).menu, path).Found?
      ensures At(Child(m', name).menu, path).Found?
    {
      var longer := [name] + path;
      assert longer[1..] == path;
      assert At(m, longer).Found?;
      assert At(m', longer).Found?;
    }
  }

  lemma {:induction false} HasMenusExtends(m: Menu, m': Menu, nodes: seq<Node>)
    requires Extends(m, m') && HasMenus(m, nodes)
    ensures HasMenus(m', nodes)
    decreases nodes
  {
    forall k | 0 <= k < |nodes| && nodes[k].SubDoc?
      ensures HasMenu(m', nodes[k].doc)
    {
      var doc := nodes[k].doc;
      assert doc < nodes[k];
      assert HasMenu(m, doc);
      ExtendsChild(m, m', doc.name);
      HasMenusExtends(Child(m, doc.name).menu, Child(m', doc.name).menu, doc.nodes);
    }
  }

  lemma ExtendsReplace(m: Menu, k: nat, sub: Menu)
    requires k < |m.subs| && sub.name == m.subs[k].name && Extends(m.subs[k], sub)
    ensures Extends(m, m.(subs := m.subs[k := sub]))
  {
    var r := m.(subs := m.subs[k := sub]);
    forall path | At(m, path).Found?
      ensures At(r, path).Found?
    {
      if path != [] {
        SamePosition(m.subs, k, sub, path[0]);
        assert Child(m, path[0]).Found?;
        assert Position(m.subs, path[0]) == k ==> At(m.subs[k], path[1..]).Found?;
      }
    }
  }

  lemma ExtendsAppend(m: Menu, sub: Menu)
    ensures Extends(m, m.(subs := m.subs + [sub]))
  {
    forall path | At(m, path).Found?
      ensures At(m.(subs := m.subs + [sub]), path).Found?
    {
      if path != [] { LastPosition(m.subs, sub, path[0]); }
    }
  }

  lemma ExtendsOwn(m: Menu, m': Menu)
    requires m'.subs == m.subs
    ensures Extends(m, m')
  {
  }

  // Passes 0 and 1 only add menus.

  lemma {:induction false} MergeExtends(m1: Menu, m2: Menu, reverse: bool)
    ensures Extends(m1, Merge(m1, m2, reverse))
    decreases m2, 0
  {
    ExtendsOwn(m1, MergeOwn(m1, m2, reverse));
    InsertAllExtends(MergeOwn(m1, m2, reverse), m2.subs, reverse);
  }

  lemma {:induction false} InsertAllExtends(parent: Menu, subs: seq<Menu>, reverse: bool)
    ensures Extends(parent, InsertAll(parent, subs, reverse))
    decreases subs, 0
  {
    if subs != [] {
      InsertExtends(parent, subs[0].name, subs[0], reverse);
      InsertAllExtends(Insert(parent, subs[0].name, subs[0], reverse), subs[1..], reverse);
    }
  }

  lemma {:induction false} InsertExtends(parent: Menu, path: string, menu: Menu, reverse: bool)
    ensures Extends(parent, Insert(parent, path, menu, reverse))
    decreases menu, 1 + |path|
  {
    var i := Text.Find(path, '/', 0);
    var k := Position(parent.subs, HeadToInsert(path));
    if k == |parent.subs| {
      InsertMissingExtends(parent, path, menu, reverse);
    } else if i == -1 {
      InsertMerges(parent, path, menu, reverse, k);
      MergeKeepsName(parent.subs[k], menu, reverse);
      MergeExtends(parent.subs[k], menu, reverse);
      ExtendsReplace(parent, k, Merge(parent.subs[k], menu, reverse));
    } else {
      InsertDescends(parent, path, menu, reverse, k);
      InsertKeepsOwn(parent.subs[k], path[i + 1..], menu, reverse);
      InsertExtends(parent.subs[k], path[i + 1..], menu, reverse);
      ExtendsReplace(parent, k, Insert(parent.subs[k], path[i + 1..], menu, reverse));
    }
  }

  lemma InsertMissingExtends(parent: Menu, path: string, menu: Menu, reverse: bool)
    requires Position(parent.subs, HeadToInsert(path)) == |parent.subs|
    ensures Extends(parent, Insert(parent, path, menu, reverse))
  {
    var i := Text.Find(path, '/', 0);
    if i == -1 {
      InsertAppends(parent, path, menu, reverse);
      ExtendsAppend(parent, menu.(name := path));
    } else {
      InsertCreates(parent, path, menu, reverse);
      ExtendsAppend(parent, Insert(Fresh(HeadToInsert(path)), path[i + 1..], menu, false));
    }
  }

  /** In passes 0 and 1 the tree only grows, and then has a menu for every element. */
  lemma {:induction false} EarlyPassExtends(doc: Doc, pools: seq<Apps>, pass: nat, p: Progress)
    requires pass <= 1
    ensures Extends(p.menu, Process(doc, pools, pass, p).menu)
    ensures pass == 0 ==> HasMenus(Process(doc, pools, pass, p).menu, doc.nodes)
    decreases doc, 1
  {
    var q := Allocated(doc, pools, pass, p);
    AllocatedKeepsTree(doc, pools, pass, p);
    ExtendsOwn(p.menu, q.menu);
    EarlyDescendExtends(doc.nodes, pools, pass, q);
  }

  lemma {:induction false} EarlyDescendExtends(nodes: seq<Node>, pools: seq<Apps>, pass: nat, p: Progress)
    requires pass <= 1
    ensures Extends(p.menu, Descend(nodes, pools, pass, p).menu)
    ensures pass == 0 ==> HasMenus(Descend(nodes, pools, pass, p).menu, nodes)
    decreases nodes, 0
  {
    if nodes != [] {
      var done := Descend(nodes, pools, pass, p);
      if nodes[0].SubDoc? {
        assert nodes[0].doc < nodes[0];
        EarlyBelowExtends(nodes[0].doc, pools, pass, p);
        var next := ProcessBelow(nodes[0].doc, pools, pass, p);
        EarlyDescendExtends(nodes[1..], pools, pass, next);
        if pass == 0 {
          HasMenusExtends(next.menu, done.menu, [nodes[0]]);
          assert HasMenu(done.menu, [nodes[0]][0].doc);
        }
      } else if nodes[0].Legacy? && pass == 0 {
        MergeExtends(p.menu, nodes[0].tree, false);
        EarlyDescendExtends(nodes[1..], pools, pass, p.(menu := Merge(p.menu, nodes[0].tree, false)));
      } else {
        EarlyDescendExtends(nodes[1..], pools, pass, p);
      }
      HasMenusCons(done.menu, nodes);
    }
  }

  lemma HasMenusCons(m: Menu, nodes: seq<Node>)
    requires nodes != []
    ensures HasMenus(m, nodes) <==> HasMenus(m, nodes[1..]) && (nodes[0].SubDoc? ==> HasMenu(m, nodes[0].doc))
  {
  }

  lemma {:induction false} EarlyBelowExtends(doc: Doc, pools: seq<Apps>, pass: nat, p: Progress)
    requires pass <= 1
    ensures Extends(p.menu, ProcessBelow(doc, pools, pass, p).menu)
    ensures pass == 0 ==> HasMenus(ProcessBelow(doc, pools, pass, p).menu, [SubDoc(doc)])
    decreases doc, 2
  {
    var k := Position(p.menu.subs, doc.name);
    if k < |p.menu.subs| {
      var at := Progress(p.menu.subs[k], p.books);
      var sub := Process(doc, pools, pass, at).menu;
      EarlyPassExtends(doc, pools, pass, at);
      ProcessKeepsName(doc, pools, pass, at);
      ExtendsReplace(p.menu, k, sub);
      SamePosition(p.menu.subs, k, sub, doc.name);
    } else if pass == 0 {
      var at := Progress(Fresh(doc.name), p.books);
      var sub := Process(doc, pools, pass, at).menu;
      EarlyPassExtends(doc, pools, pass, at);
      ProcessKeepsName(doc, pools, pass, at);
      ExtendsAppend(p.menu, sub);
      LastPosition(p.menu.subs, sub, doc.name);
    } else {
      EarlyPassExtends(doc, pools, pass, p.(books := p.books.(lost := true)));
    }
  }

  // In passes 1 and 2 every element then finds its menu: moves come after the children.

  lemma {:induction false} LaterPassFinds(doc: Doc, pools: seq<Apps>, pass: nat, p: Progress)
    requires pass > 0 && DistinctDocs(doc.nodes) && HasMenus(p.menu, doc.nodes) && !p.books.lost
    ensures !Process(doc, pools, pass, p).books.lost
    decreases doc, 1
  {
    var q := Allocated(doc, pools, pass, p);
    AllocatedKeepsTree(doc, pools, pass, p);
    ExtendsOwn(p.menu, q.menu);
    HasMenusExtends(p.menu, q.menu, doc.nodes);
    LaterDescendFinds(doc.nodes, pools, pass, q);
  }

  lemma {:induction false} LaterDescendFinds(nodes: seq<Node>, pools: seq<Apps>, pass: nat, p: Progress)
    requires pass > 0 && DistinctDocs(nodes) && HasMenus(p.menu, nodes) && !p.books.lost
    ensures !Descend(nodes, pools, pass, p).books.lost
    decreases nodes, 0
  {
    if nodes != [] {
      DistinctTail(nodes);
      HasMenusCons(p.menu, nodes);
      if nodes[0].SubDoc? {
        var doc := nodes[0].doc;
        assert doc < nodes[0];
        var at := Progress(Child(p.menu, doc.name).menu, p.books);
        LaterPassFinds(doc, pools, pass, at);
        ProcessKeepsName(doc, pools, pass, at);
        OthersUntouched(nodes, p.menu, Process(doc, pools, pass, at).menu);
        LaterDescendFinds(nodes[1..], pools, pass, ProcessBelow(doc, pools, pass, p));
      } else {
        LaterDescendFinds(nodes[1..], pools, pass, p);
      }
    }
  }

  lemma DistinctTail(nodes: seq<Node>)
    requires nodes != [] && DistinctDocs(nodes)
    ensures DistinctDocs(nodes[1..]) && (nodes[0].SubDoc? ==> DistinctDocs(nodes[0].doc.nodes))
  {
  }

  /** Replacing the menu of the first element leaves those of the others. */
  lemma OthersUntouched(nodes: seq<Node>, m: Menu, sub: Menu)
    requires nodes != [] && nodes[0].SubDoc? && DistinctDocs(nodes) && HasMenus(m, nodes)
    requires HasMenu(m, nodes[0].doc) && sub.name == nodes[0].doc.name
    ensures var k := Position(m.subs, nodes[0].doc.name);
      k < |m.subs| && HasMenus(m.(subs := m.subs[k := sub]), nodes[1..])
  {
    var k := Position(m.subs, nodes[0].doc.name);
    var r := m.(subs := m.subs[k := sub]);
    forall j | 0 <= j < |nodes[1..]| && nodes[1..][j].SubDoc?
      ensures HasMenu(r, nodes[1..][j].doc)
    {
      var doc := nodes[j + 1].doc;
      assert nodes[1..][j] == nodes[j + 1];
      assert HasMenu(m, doc);
      assert doc.name != nodes[0].doc.name;
      SamePosition(m.subs, k, sub, doc.name);
      assert Child(r, doc.name) == Child(m, doc.name);
    }
  }

  /** When `<Menu>` elements next to each other have different names, no pass falls back to a
      parent menu. */
  lemma EveryMenuFound(doc: Doc, pools: seq<Apps>, used: set<string>)
    requires DistinctDocs(doc.nodes)
    ensures !ParseMenu(doc, pools, used).books.lost
  {
    var start := Progress(Fresh(doc.name), Books(used, {}, false));
    var p0 := AfterPass0(doc, pools, used);
    var p1 := AfterPass1(doc, pools, used);
    EarlyPassExtends(doc, pools, 0, start);
    Pass0NotLost(doc, pools, start);
    EarlyPassExtends(doc, pools, 1, NextPass(p0));
    LaterPassFinds(doc, pools, 1, NextPass(p0));
    HasMenusExtends(p0.menu, p1.menu, doc.nodes);
    LaterPassFinds(doc, LeftPools(doc, pools, used), 2, NextPass(p1));
  }

  lemma {:induction false} Pass0NotLost(doc: Doc, pools: seq<Apps>, p: Progress)
    ensures Process(doc, pools, 0, p).books.lost == p.books.lost
    decreases doc, 1
  {
    AllocatedKeepsTree(doc, pools, 0, p);
    Descend0NotLost(doc.nodes, pools, Allocated(doc, pools, 0, p));
  }

  lemma {:induction false} Descend0NotLost(nodes: seq<Node>, pools: seq<Apps>, p: Progress)
    ensures Descend(nodes, pools, 0, p).books.lost == p.books.lost
    decreases nodes, 0
  {
    if nodes != [] {
      if nodes[0].SubDoc? {
        var doc := nodes[0].doc;
        assert doc < nodes[0];
        var k := Position(p.menu.subs, doc.name);
        Pass0NotLost(doc, pools, Progress(if k < |p.menu.subs| then p.menu.subs[k] else Fresh(doc.name), p.books));
        Descend0NotLost(nodes[1..], pools, ProcessBelow(doc, pools, 0, p));
      } else if nodes[0].Legacy? {
        Descend0NotLost(nodes[1..], pools, p.(menu := Merge(p.menu, nodes[0].tree, false)));
      } else {
        Descend0NotLost(nodes[1..], pools, p);
      }
    }
  }
}
