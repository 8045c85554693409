/** The three passes that turn a menu file into a menu tree: pass 0 builds the tree and merges
    legacy menus, pass 1 allocates applications, pass 2 allocates what is left and moves menus. */
module MenuPasses {
  import Text
  import opened MenuConditions
  import opened MenuTrees

  /** A `<Menu>` element; `scope` lists the application pools it sees, innermost first. */
  datatype Doc = Doc(
    name: string,
    look: Look,
    onlyUnallocated: bool,
    isDeleted: bool,
    scope: seq<nat>,
    nodes: seq<Node>)

  datatype Node =
    | Include(rules: seq<Condition>)
    | Exclude(rules: seq<Condition>)
    | SubDoc(doc: Doc)
    | Legacy(tree: Menu)
    | MoveRule(orig: string, dest: string)

  /** The applications marked used; of these, the ones included in the current pass; and whether
      some `<Menu>` found no menu of its name. */
  datatype Books = Books(used: set<string>, included: set<string>, lost: bool)

  datatype Progress = Progress(menu: Menu, books: Books)

  // ---------- The passes ----------

  function ScopeOf(pools: seq<Apps>, scope: seq<nat>): (frames: seq<Apps>)
    ensures |frames| == |scope|
    ensures forall i :: 0 <= i < |scope| ==> frames[i] == if scope[i] < |pools| then pools[scope[i]] else map[]
  {
    seq(|scope|, i requires 0 <= i < |scope| => if scope[i] < |pools| then pools[scope[i]] else map[])
  }

  /** Set up the menu of a `<Menu>` element, in pass 0. */
  function SetUp(m: Menu, doc: Doc): Menu {
    m.(isDeleted := doc.isDeleted,
       look := doc.look.(directoryFile := Prefer(doc.look.directoryFile, m.look.directoryFile)))
  }

  /** Rules apply in pass 1, and with `OnlyUnallocated` in pass 2. */
  predicate Active(doc: Doc, pass: nat) {
    pass == if doc.onlyUnallocated then 2 else 1
  }

  function IncludeItems(p: Progress, picked: Apps): Progress {
    Progress(
      p.menu.(items := p.menu.items + picked, excludes := p.menu.excludes - picked.Keys),
      p.books.(used := p.books.used + picked.Keys, included := p.books.included + picked.Keys))
  }

  function ExcludeItems(p: Progress, picked: Apps): Progress {
    p.(menu := p.menu.(items := p.menu.items - picked.Keys, excludes := p.menu.excludes + picked))
  }

  function ApplyRules(rules: seq<Condition>, adding: bool, scope: seq<Apps>, p: Progress): Progress {
    if rules == [] then p
    else
      var picked := Eval(rules[0], scope, map[]);
      ApplyRules(rules[1..], adding, scope, if adding then IncludeItems(p, picked) else ExcludeItems(p, picked))
  }

  function AllocateOne(node: Node, scope: seq<Apps>, p: Progress): Progress {
    match node
    case Include(rules) => ApplyRules(rules, true, scope, p)
    case Exclude(rules) => ApplyRules(rules, false, scope, p)
    case _ => p
  }

  /** The includes and excludes among the children, in order. */
  function Allocate(nodes: seq<Node>, scope: seq<Apps>, p: Progress): Progress {
    if nodes == [] then p
    else
      Allocate(nodes[1..], scope, AllocateOne(nodes[0], scope, p))
  }

  /** The moves among the children, in order. */
  function MoveAll(nodes: seq<Node>, m: Menu): Menu {
    if nodes == [] then m
    else MoveAll(nodes[1..], if nodes[0].MoveRule? then Move(m, nodes[0].orig, nodes[0].dest) else m)
  }

  /** `processMenu`, once the current menu is known. */
  function Process(doc: Doc, pools: seq<Apps>, pass: nat, p: Progress): Progress
    decreases doc, 1
  {
    var p0 := if pass == 0 then p.(menu := SetUp(p.menu, doc)) else p;
    var p1 := if Active(doc, pass) then Allocate(doc.nodes, ScopeOf(pools, doc.scope), p0) else p0;
    var p2 := Descend(doc.nodes, pools, pass, p1);
    if pass == 2 then p2.(menu := MoveAll(doc.nodes, p2.menu)) else p2
  }

  /** The menus among the children, and in pass 0 the legacy menus. */
  function Descend(nodes: seq<Node>, pools: seq<Apps>, pass: nat, p: Progress): Progress
    decreases nodes, 0
  {
    if nodes == [] then p
    else
      Descend(nodes[1..], pools, pass,
        if nodes[0].SubDoc? then assert nodes[0].doc < nodes[0]; ProcessBelow(nodes[0].doc, pools, pass, p)
        else if nodes[0].Legacy? && pass == 0 then p.(menu := Merge(p.menu, nodes[0].tree, false))
        else p)
  }

  /** `processMenu` with a parent: its submenu of the name, created in pass 0; in later passes a
      menu that is not found is replaced by the parent itself. */
  function ProcessBelow(doc: Doc, pools: seq<Apps>, pass: nat, p: Progress): Progress
    decreases doc, 2
  {
    var k := Position(p.menu.subs, doc.name);
    if k < |p.menu.subs| then
      var below := Process(doc, pools, pass, Progress(p.menu.subs[k], p.books));
      Progress(p.menu.(subs := p.menu.subs[k := below.menu]), below.books)
    else if pass == 0 then
      var below := Process(doc, pools, pass, Progress(Fresh(doc.name), p.books));
      Progress(p.menu.(subs := p.menu.subs + [below.menu]), below.books)
    else
      Process(doc, pools, pass, p.(books := p.books.(lost := true)))
  }

  /** `buildApplicationIndex(true)`, as far as the pools go. */
  function Prune(pools: seq<Apps>, used: set<string>): (pruned: seq<Apps>)
    ensures |pruned| == |pools|
    ensures forall i :: 0 <= i < |pools| ==> pruned[i] == pools[i] - used
  {
    seq(|pools|, i requires 0 <= i < |pools| => pools[i] - used)
  }

  function NextPass(p: Progress): Progress {
    p.(books := p.books.(included := {}))
  }

  /** The states after the three passes. `used` are the applications of legacy menus. */
  function AfterPass0(doc: Doc, pools: seq<Apps>, used: set<string>): Progress {
    Process(doc, pools, 0, Progress(Fresh(doc.name), Books(used, {}, false)))
  }

  function AfterPass1(doc: Doc, pools: seq<Apps>, used: set<string>): Progress {
    Process(doc, pools, 1, NextPass(AfterPass0(doc, pools, used)))
  }

  function LeftPools(doc: Doc, pools: seq<Apps>, used: set<string>): seq<Apps> {
    Prune(pools, AfterPass1(doc, pools, used).books.used)
  }

  function ParseMenu(doc: Doc, pools: seq<Apps>, used: set<string>): Progress {
    Process(doc, LeftPools(doc, pools, used), 2, NextPass(AfterPass1(doc, pools, used)))
  }

  // ---------- Items and excludes stay apart ----------

  /** A property of the items and the excludes of a menu. */
  type Rule = (Apps, Apps) -> bool

  /** Every menu of the tree has the property. */
  ghost predicate Every(m: Menu, ok: Rule) {
    ok(m.items, m.excludes) && forall k :: 0 <= k < |m.subs| ==> Every(m.subs[k], ok)
  }

  ghost predicate EveryOf(subs: seq<Menu>, ok: Rule) {
    forall k :: 0 <= k < |subs| ==> Every(subs[k], ok)
  }

  predicate KeepApart(items: Apps, excludes: Apps) {
    items.Keys !! excludes.Keys
  }

  predicate ExcludesNone(items: Apps, excludes: Apps) {
    excludes == map[]
  }

  ghost predicate Apart(m: Menu) {
    KeepApart(m.items, m.excludes)
  }

  /** In every menu of the tree, no application is both shown and excluded. */
  ghost predicate Disjoint(m: Menu) {
    Every(m, KeepApart)
  }

  /** No menu of the tree excludes anything. */
  ghost predicate NoExcludes(m: Menu) {
    Every(m, ExcludesNone)
  }

  lemma {:induction false} NoExcludesDisjoint(m: Menu)
    requires NoExcludes(m)
    ensures Disjoint(m)
  {
    forall k | 0 <= k < |m.subs|
      ensures Every(m.subs[k], KeepApart)
    {
      NoExcludesDisjoint(m.subs[k]);
    }
  }

  // A property that one merge keeps is kept by the operations on trees.

  ghost predicate MergeKeepsAt(ok: Rule, reverse: bool, m1: Menu, m2: Menu) {
    var r := MergeOwn(m1, m2, reverse);
    ok(m1.items, m1.excludes) && ok(m2.items, m2.excludes) ==> ok(r.items, r.excludes)
  }

  ghost predicate MergeKeeps(ok: Rule, reverse: bool) {
    forall m1, m2 :: MergeKeepsAt(ok, reverse, m1, m2)
  }

  lemma EveryReplace(m: Menu, k: nat, sub: Menu, ok: Rule)
    requires Every(m, ok) && k < |m.subs| && Every(sub, ok)
    ensures Every(m.(subs := m.subs[k := sub]), ok)
  {
  }

  lemma EveryAppend(m: Menu, sub: Menu, ok: Rule)
    requires Every(m, ok) && Every(sub, ok)
    ensures Every(m.(subs := m.subs + [sub]), ok)
  {
  }

  lemma EveryRemove(m: Menu, k: nat, ok: Rule)
    requires Every(m, ok) && k < |m.subs|
    ensures Every(m.(subs := m.subs[..k] + m.subs[k + 1..]), ok)
  {
  }

  lemma EveryOwn(m: Menu, m': Menu, ok: Rule)
    requires Every(m, ok) && m'.subs == m.subs && ok(m'.items, m'.excludes)
    ensures Every(m', ok)
  {
  }

  lemma {:induction false} MergeEvery(m1: Menu, m2: Menu, reverse: bool, ok: Rule)
    requires MergeKeeps(ok, reverse) && ok(map[], map[]) && Every(m1, ok) && Every(m2, ok)
    ensures Every(Merge(m1, m2, reverse), ok)
    decreases m2, 0
  {
    assert MergeKeepsAt(ok, reverse, m1, m2);
    EveryOwn(m1, MergeOwn(m1, m2, reverse), ok);
    InsertAllEvery(MergeOwn(m1, m2, reverse), m2.subs, reverse, ok);
  }

  lemma {:induction false} InsertAllEvery(parent: Menu, subs: seq<Menu>, reverse: bool, ok: Rule)
    requires MergeKeeps(ok, reverse) && ok(map[], map[]) && Every(parent, ok) && EveryOf(subs, ok)
    ensures Every(InsertAll(parent, subs, reverse), ok)
    decreases subs, 0
  {
    if subs != [] {
      InsertEvery(parent, subs[0].name, subs[0], reverse, ok);
      InsertAllEvery(Insert(parent, subs[0].name, subs[0], reverse), subs[1..], reverse, ok);
    }
  }

  lemma {:induction false} InsertEvery(parent: Menu, path: string, menu: Menu, reverse: bool, ok: Rule)
    requires MergeKeeps(ok, reverse) && ok(map[], map[]) && Every(parent, ok) && Every(menu, ok)
    ensures Every(Insert(parent, path, menu, reverse), ok)
    decreases menu, 1 + |path|
  {
    var k := Position(parent.subs, HeadToInsert(path));
    if k == |parent.subs| {
      InsertMissingEvery(parent, path, menu, reverse, ok);
    } else if Text.Find(path, '/', 0) == -1 {
      InsertMerges(parent, path, menu, reverse, k);
      MergeEvery(parent.subs[k], menu, reverse, ok);
      EveryReplace(parent, k, Merge(parent.subs[k], menu, reverse), ok);
    } else {
      var rest := path[Text.Find(path, '/', 0) + 1..];
      InsertDescends(parent, path, menu, reverse, k);
      InsertEvery(parent.subs[k], rest, menu, reverse, ok);
      EveryReplace(parent, k, Insert(parent.subs[k], rest, menu, reverse), ok);
    }
  }

  lemma {:induction false} InsertMissingEvery(parent: Menu, path: string, menu: Menu, reverse: bool, ok: Rule)
    requires ok(map[], map[]) && Every(parent, ok) && Every(menu, ok)
    requires Position(parent.subs, HeadToInsert(path)) == |parent.subs|
    ensures Every(Insert(parent, path, menu, reverse), ok)
    decreases |path|
  {
    var i := Text.Find(path, '/', 0);
    if i == -1 {
      EveryOwn(menu, menu.(name := path), ok);
      EveryAppend(parent, menu.(name := path), ok);
      InsertAppends(parent, path, menu, reverse);
    } else {
      var step := Fresh(HeadToInsert(path));
      assert Every(step, ok);
      InsertMissingEvery(step, path[i + 1..], menu, false, ok);
      EveryAppend(parent, Insert(step, path[i + 1..], menu, false), ok);
      InsertCreates(parent, path, menu, reverse);
    }
  }

  lemma {:induction false} TakeEvery(parent: Menu, path: string, ok: Rule)
    requires Every(parent, ok)
    ensures Every(Take(parent, path).0, ok)
    ensures Take(parent, path).1.Found? ==> Every(Take(parent, path).1.menu, ok)
    decreases |path|
  {
    var i := Text.Find(path, '/', 0);
    var k := Position(parent.subs, if i > 0 then path[..i] else path);
    if k < |parent.subs| {
      if i == -1 {
        EveryRemove(parent, k, ok);
      } else {
        TakeEvery(parent.subs[k], path[i + 1..], ok);
        EveryReplace(parent, k, Take(parent.subs[k], path[i + 1..]).0, ok);
      }
    }
  }

  /** When a merge keeps one menu's items and excludes apart: with the first menu in front always,
      with the second in front exactly when it shows nothing that the first excludes. */
  lemma MergeApartIff(m1: Menu, m2: Menu, reverse: bool)
    requires Apart(m1) && Apart(m2)
    ensures Apart(MergeOwn(m1, m2, reverse)) <==> reverse || m2.items.Keys !! m1.excludes.Keys
  {
  }

  /** A merge with the second menu in front can break the separation. */
  lemma ForwardMergeBreaks()
    ensures
      var app := Service("app", []);
      var m1, m2 := Fresh("m").(excludes := map["app" := app]), Fresh("m").(items := map["app" := app]);
      Disjoint(m1) && Disjoint(m2) && !Disjoint(Merge(m1, m2, false))
  {
    var app := Service("app", []);
    var m1, m2 := Fresh("m").(excludes := map["app" := app]), Fresh("m").(items := map["app" := app]);
    assert Apart(m1) && Apart(m2);
    MergeApartIff(m1, m2, false);
    assert "app" in m2.items && "app" in m1.excludes;
    assert Merge(m1, m2, false) == MergeOwn(m1, m2, false);
  }

  lemma ReverseKeepsApart()
    ensures MergeKeeps(KeepApart, true)
  {
  }

  lemma {:induction false} MoveAllDisjoint(nodes: seq<Node>, m: Menu)
    requires Disjoint(m)
    ensures Disjoint(MoveAll(nodes, m))
    decreases |nodes|
  {
    if nodes != [] {
      if nodes[0].MoveRule? {
        MoveDisjoint(m, nodes[0].orig, nodes[0].dest);
        MoveAllDisjoint(nodes[1..], Move(m, nodes[0].orig, nodes[0].dest));
      } else {
        MoveAllDisjoint(nodes[1..], m);
      }
    }
  }

  lemma MoveDisjoint(m: Menu, orig: string, dest: string)
    requires Disjoint(m)
    ensures Disjoint(Move(m, orig, dest))
  {
    TakeEvery(m, orig, KeepApart);
    ReverseKeepsApart();
    var taken := Take(m, orig);
    if taken.1.Found? { InsertEvery(taken.0, dest, taken.1.menu, true, KeepApart); }
  }

  /** Legacy menus list applications and never exclude any. */
  ghost predicate LegacyClean(doc: Doc)
    decreases doc, 1
  {
    NodesClean(doc.nodes)
  }

  ghost predicate NodesClean(nodes: seq<Node>)
    decreases nodes, 0
  {
    forall k :: 0 <= k < |nodes| ==>
      && (nodes[k].SubDoc? ==> assert nodes[k].doc < nodes[k]; LegacyClean(nodes[k].doc))
      && (nodes[k].Legacy? ==> NoExcludes(nodes[k].tree))
  }

  lemma {:induction false} Pass0NoExcludes(doc: Doc, pools: seq<Apps>, p: Progress)
    requires LegacyClean(doc) && NoExcludes(p.menu)
    ensures NoExcludes(Process(doc, pools, 0, p).menu)
    decreases doc, 1
  {
    var p0 := p.(menu := SetUp(p.menu, doc));
    EveryOwn(p.menu, p0.menu, ExcludesNone);
    Descend0NoExcludes(doc.nodes, pools, p0);
  }

  lemma {:induction false} Descend0NoExcludes(nodes: seq<Node>, pools: seq<Apps>, p: Progress)
    requires NodesClean(nodes) && NoExcludes(p.menu)
    ensures NoExcludes(Descend(nodes, pools, 0, p).menu)
    decreases nodes, 0
  {
    if nodes != [] {
      if nodes[0].SubDoc? {
        assert nodes[0].doc < nodes[0];
        Below0NoExcludes(nodes[0].doc, pools, p);
        Descend0NoExcludes(nodes[1..], pools, ProcessBelow(nodes[0].doc, pools, 0, p));
      } else if nodes[0].Legacy? {
        MergeEvery(p.menu, nodes[0].tree, false, ExcludesNone);
        Descend0NoExcludes(nodes[1..], pools, p.(menu := Merge(p.menu, nodes[0].tree, false)));
      } else {
        Descend0NoExcludes(nodes[1..], pools, p);
      }
    }
  }

  lemma {:induction false} Below0NoExcludes(doc: Doc, pools: seq<Apps>, p: Progress)
    requires LegacyClean(doc) && NoExcludes(p.menu)
    ensures NoExcludes(ProcessBelow(doc, pools, 0, p).menu)
    decreases doc, 2
  {
    var k := Position(p.menu.subs, doc.name);
    if k < |p.menu.subs| {
      Pass0NoExcludes(doc, pools, Progress(p.menu.subs[k], p.books));
      EveryReplace(p.menu, k, Process(doc, pools, 0, Progress(p.menu.subs[k], p.books)).menu, ExcludesNone);
    } else {
      Pass0NoExcludes(doc, pools, Progress(Fresh(doc.name), p.books));
      EveryAppend(p.menu, Process(doc, pools, 0, Progress(Fresh(doc.name), p.books)).menu, ExcludesNone);
    }
  }

  // Passes 1 and 2: rules keep items and excludes apart, and moves merge with the first in front.

  lemma {:induction false} RulesDisjoint(rules: seq<Condition>, adding: bool, scope: seq<Apps>, p: Progress)
    requires Disjoint(p.menu)
    ensures Disjoint(ApplyRules(rules, adding, scope, p).menu)
    decreases |rules|
  {
    if rules != [] {
      var picked := Eval(rules[0], scope, map[]);
      var next := if adding then IncludeItems(p, picked) else ExcludeItems(p, picked);
      EveryOwn(p.menu, next.menu, KeepApart);
      RulesDisjoint(rules[1..], adding, scope, next);
    }
  }

  lemma {:induction false} AllocateDisjoint(nodes: seq<Node>, scope: seq<Apps>, p: Progress)
    requires Disjoint(p.menu)
    ensures Disjoint(Allocate(nodes, scope, p).menu)
    decreases |nodes|
  {
    if nodes != [] {
      match nodes[0]
      case Include(rules) =>
        RulesDisjoint(rules, true, scope, p);
        AllocateDisjoint(nodes[1..], scope, ApplyRules(rules, true, scope, p));
      case Exclude(rules) =>
        RulesDisjoint(rules, false, scope, p);
        AllocateDisjoint(nodes[1..], scope, ApplyRules(rules, false, scope, p));
      case _ =>
        AllocateDisjoint(nodes[1..], scope, p);
    }
  }

  lemma {:induction false} LaterPassDisjoint(doc: Doc, pools: seq<Apps>, pass: nat, p: Progress)
    requires pass > 0 && Disjoint(p.menu)
    ensures Disjoint(Process(doc, pools, pass, p).menu)
    decreases doc, 1
  {
    var scope := ScopeOf(pools, doc.scope);
    AllocateDisjoint(doc.nodes, scope, p);
    var p1 := if Active(doc, pass) then Allocate(doc.nodes, scope, p) else p;
    LaterDescendDisjoint(doc.nodes, pools, pass, p1);
    MoveAllDisjoint(doc.nodes, Descend(doc.nodes, pools, pass, p1).menu);
  }

  lemma {:induction false} LaterDescendDisjoint(nodes: seq<Node>, pools: seq<Apps>, pass: nat, p: Progress)
    requires pass > 0 && Disjoint(p.menu)
    ensures Disjoint(Descend(nodes, pools, pass, p).menu)
    decreases nodes, 0
  {
    if nodes != [] {
      if nodes[0].SubDoc? {
        assert nodes[0].doc < nodes[0];
        LaterBelowDisjoint(nodes[0].doc, pools, pass, p);
        LaterDescendDisjoint(nodes[1..], pools, pass, ProcessBelow(nodes[0].doc, pools, pass, p));
      } else {
        LaterDescendDisjoint(nodes[1..], pools, pass, p);
      }
    }
  }

  lemma {:induction false} LaterBelowDisjoint(doc: Doc, pools: seq<Apps>, pass: nat, p: Progress)
    requires pass > 0 && Disjoint(p.menu)
    ensures Disjoint(ProcessBelow(doc, pools, pass, p).menu)
    decreases doc, 2
  {
    var k := Position(p.menu.subs, doc.name);
    if k < |p.menu.subs| {
      LaterPassDisjoint(doc, pools, pass, Progress(p.menu.subs[k], p.books));
      EveryReplace(p.menu, k, Process(doc, pools, pass, Progress(p.menu.subs[k], p.books)).menu, KeepApart);
    } else {
      LaterPassDisjoint(doc, pools, pass, p.(books := p.books.(lost := true)));
    }
  }

  /** After every pass, no menu both shows and excludes an application. */
  lemma PassesDisjoint(doc: Doc, pools: seq<Apps>, used: set<string>)
    requires LegacyClean(doc)
    ensures NoExcludes(AfterPass0(doc, pools, used).menu)
    ensures Disjoint(AfterPass1(doc, pools, used).menu)
    ensures Disjoint(ParseMenu(doc, pools, used).menu)
  {
    var p0 := AfterPass0(doc, pools, used);
    Pass0NoExcludes(doc, pools, Progress(Fresh(doc.name), Books(used, {}, false)));
    NoExcludesDisjoint(p0.menu);
    LaterPassDisjoint(doc, pools, 1, NextPass(p0));
    LaterPassDisjoint(doc, LeftPools(doc, pools, used), 2, NextPass(AfterPass1(doc, pools, used)));
  }

  // ---------- Sibling names stay distinct ----------

  /** No name of the file contains a slash, and legacy menus have distinct names without slashes. */
  ghost predicate NamesPlain(doc: Doc)
    decreases doc, 1
  {
    PlainName(doc.name) && NodesPlain(doc.nodes)
  }

  ghost predicate NodesPlain(nodes: seq<Node>)
    decreases nodes, 0
  {
    forall k :: 0 <= k < |nodes| ==>
      && (nodes[k].SubDoc? ==> assert nodes[k].doc < nodes[k]; NamesPlain(nodes[k].doc))
      && (nodes[k].Legacy? ==> Plain(nodes[k].tree))
  }

  lemma {:induction false} MoveAllPlain(nodes: seq<Node>, m: Menu)
    requires Plain(m)
    ensures Plain(MoveAll(nodes, m))
    decreases |nodes|
  {
    if nodes != [] {
      if nodes[0].MoveRule? {
        MovePlain(m, nodes[0].orig, nodes[0].dest);
        MoveAllPlain(nodes[1..], Move(m, nodes[0].orig, nodes[0].dest));
      } else {
        MoveAllPlain(nodes[1..], m);
      }
    }
  }

  /** Rules leave the tree alone. */
  lemma {:induction false} RulesKeepTree(rules: seq<Condition>, adding: bool, scope: seq<Apps>, p: Progress)
    ensures var m := ApplyRules(rules, adding, scope, p).menu; m.subs == p.menu.subs && m.name == p.menu.name
    ensures ApplyRules(rules, adding, scope, p).books.lost == p.books.lost
    decreases |rules|
  {
    if rules != [] {
      var picked := Eval(rules[0], scope, map[]);
      RulesKeepTree(rules[1..], adding, scope, if adding then IncludeItems(p, picked) else ExcludeItems(p, picked));
    }
  }

  lemma {:induction false} AllocateKeepsTree(nodes: seq<Node>, scope: seq<Apps>, p: Progress)
    ensures var m := Allocate(nodes, scope, p).menu; m.subs == p.menu.subs && m.name == p.menu.name
    ensures Allocate(nodes, scope, p).books.lost == p.books.lost
    decreases |nodes|
  {
    if nodes != [] {
      match nodes[0]
      case Include(rules) =>
        RulesKeepTree(rules, true, scope, p);
        AllocateKeepsTree(nodes[1..], scope, ApplyRules(rules, true, scope, p));
      case Exclude(rules) =>
        RulesKeepTree(rules, false, scope, p);
        AllocateKeepsTree(nodes[1..], scope, ApplyRules(rules, false, scope, p));
      case _ =>
        AllocateKeepsTree(nodes[1..], scope, p);
    }
  }

  /** The state when the children are processed. */
  function Allocated(doc: Doc, pools: seq<Apps>, pass: nat, p: Progress): Progress {
    var p0 := if pass == 0 then p.(menu := SetUp(p.menu, doc)) else p;
    if Active(doc, pass) then Allocate(doc.nodes, ScopeOf(pools, doc.scope), p0) else p0
  }

  lemma AllocatedKeepsTree(doc: Doc, pools: seq<Apps>, pass: nat, p: Progress)
    ensures var q := Allocated(doc, pools, pass, p);
      q.menu.subs == p.menu.subs && q.menu.name == p.menu.name && q.books.lost == p.books.lost
  {
    var p0 := if pass == 0 then p.(menu := SetUp(p.menu, doc)) else p;
    AllocateKeepsTree(doc.nodes, ScopeOf(pools, doc.scope), p0);
  }

  lemma {:induction false} ProcessKeepsName(doc: Doc, pools: seq<Apps>, pass: nat, p: Progress)
    ensures Process(doc, pools, pass, p).menu.name == p.menu.name
    decreases doc, 1
  {
    var q := Allocated(doc, pools, pass, p);
    AllocatedKeepsTree(doc, pools, pass, p);
    DescendKeepsName(doc.nodes, pools, pass, q);
    MovesKeepName(doc.nodes, Descend(doc.nodes, pools, pass, q).menu);
  }

  lemma {:induction false} DescendKeepsName(nodes: seq<Node>, pools: seq<Apps>, pass: nat, p: Progress)
    ensures Descend(nodes, pools, pass, p).menu.name == p.menu.name
    decreases nodes, 0
  {
    if nodes != [] {
      if nodes[0].SubDoc? {
        var doc := nodes[0].doc;
        assert doc < nodes[0];
        if Position(p.menu.subs, doc.name) == |p.menu.subs| && pass > 0 {
          ProcessKeepsName(doc, pools, pass, p.(books := p.books.(lost := true)));
        }
        DescendKeepsName(nodes[1..], pools, pass, ProcessBelow(doc, pools, pass, p));
      } else if nodes[0].Legacy? && pass == 0 {
        MergeKeepsName(p.menu, nodes[0].tree, false);
        DescendKeepsName(nodes[1..], pools, pass, p.(menu := Merge(p.menu, nodes[0].tree, false)));
      } else {
        DescendKeepsName(nodes[1..], pools, pass, p);
      }
    }
  }

  lemma {:induction false} MovesKeepName(nodes: seq<Node>, m: Menu)
    ensures MoveAll(nodes, m).name == m.name
    decreases |nodes|
  {
    if nodes != [] {
      if nodes[0].MoveRule? {
        MoveKeepsName(m, nodes[0].orig, nodes[0].dest);
        MovesKeepName(nodes[1..], Move(m, nodes[0].orig, nodes[0].dest));
      } else {
        MovesKeepName(nodes[1..], m);
      }
    }
  }

  lemma MoveKeepsName(m: Menu, orig: string, dest: string)
    ensures Move(m, orig, dest).name == m.name
  {
    TakeKeepsOwn(m, orig);
    var taken := Take(m, orig);
    if taken.1.Found? { InsertKeepsOwn(taken.0, dest, taken.1.menu, true); }
  }

  lemma {:induction false} ProcessPlain(doc: Doc, pools: seq<Apps>, pass: nat, p: Progress)
    requires NamesPlain(doc) && Plain(p.menu)
    ensures Plain(Process(doc, pools, pass, p).menu)
    decreases doc, 1
  {
    var q := Allocated(doc, pools, pass, p);
    AllocatedKeepsTree(doc, pools, pass, p);
    assert PlainSubs(q.menu.subs);
    DescendPlain(doc.nodes, pools, pass, q);
    MoveAllPlain(doc.nodes, Descend(doc.nodes, pools, pass, q).menu);
  }

  lemma {:induction false} DescendPlain(nodes: seq<Node>, pools: seq<Apps>, pass: nat, p: Progress)
    requires NodesPlain(nodes) && Plain(p.menu)
    ensures Plain(Descend(nodes, pools, pass, p).menu)
    decreases nodes, 0
  {
    if nodes != [] {
      if nodes[0].SubDoc? {
        assert nodes[0].doc < nodes[0];
        BelowPlain(nodes[0].doc, pools, pass, p);
        DescendPlain(nodes[1..], pools, pass, ProcessBelow(nodes[0].doc, pools, pass, p));
      } else if nodes[0].Legacy? && pass == 0 {
        MergePlain(p.menu, nodes[0].tree, false);
        DescendPlain(nodes[1..], pools, pass, p.(menu := Merge(p.menu, nodes[0].tree, false)));
      } else {
        DescendPlain(nodes[1..], pools, pass, p);
      }
    }
  }

  lemma {:induction false} BelowPlain(doc: Doc, pools: seq<Apps>, pass: nat, p: Progress)
    requires NamesPlain(doc) && Plain(p.menu)
    ensures Plain(ProcessBelow(doc, pools, pass, p).menu)
    decreases doc, 2
  {
    var k := Position(p.menu.subs, doc.name);
    if k < |p.menu.subs| {
      var at := Progress(p.menu.subs[k], p.books);
      assert PlainSubs(p.menu.subs);
      ProcessPlain(doc, pools, pass, at);
      ProcessKeepsName(doc, pools, pass, at);
      ReplacePlain(p.menu, k, Process(doc, pools, pass, at).menu);
    } else if pass == 0 {
      var at := Progress(Fresh(doc.name), p.books);
      ProcessPlain(doc, pools, pass, at);
      ProcessKeepsName(doc, pools, pass, at);
      AppendPlain(p.menu, Process(doc, pools, pass, at).menu);
    } else {
      ProcessPlain(doc, pools, pass, p.(books := p.books.(lost := true)));
    }
  }

  /** After every pass the tree has distinct sibling names without slashes, as the statements about
      merging and moving at every path ask for. */
  lemma PassesPlain(doc: Doc, pools: seq<Apps>, used: set<string>)
    requires NamesPlain(doc)
    ensures Plain(AfterPass0(doc, pools, used).menu)
    ensures Plain(AfterPass1(doc, pools, used).menu)
    ensures Plain(ParseMenu(doc, pools, used).menu)
  {
    ProcessPlain(doc, pools, 0, Progress(Fresh(doc.name), Books(used, {}, false)));
    ProcessPlain(doc, pools, 1, NextPass(AfterPass0(doc, pools, used)));
    ProcessPlain(doc, LeftPools(doc, pools, used), 2, NextPass(AfterPass1(doc, pools, used)));
  }
}
