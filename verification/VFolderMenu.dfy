/** The menu engine in place: the three passes over submenu objects, the dictionary of used
    applications and the application pools. */
module VFolderMenu {
  import opened Lists
  import opened MenuConditions
  import opened MenuTrees
  import opened MenuPasses
  import MenuAllocation
  import MenuContents
  import opened SubMenus

  /** Every scope of the file refers to existing pools. */
  ghost predicate ScopesIn(doc: Doc, n: nat)
    decreases doc, 1
  {
    (forall i :: 0 <= i < |doc.scope| ==> doc.scope[i] < n) && NodesIn(doc.nodes, n)
  }

  ghost predicate NodesIn(nodes: seq<Node>, n: nat)
    decreases nodes, 0
  {
    forall k :: 0 <= k < |nodes| && nodes[k].SubDoc? ==>
      assert nodes[k].doc < nodes[k]; ScopesIn(nodes[k].doc, n)
  }

  method OwnLegacy(tree: Menu) returns (menu: SubMenu)
    ensures menu.Valid() && fresh(menu.Repr) && menu.Tree == Own(tree)
  {
    menu := new SubMenu(tree.name);
    menu.SetItems(tree.items);
    menu.SetExcludes(tree.excludes);
    menu.SetDeleted(tree.isDeleted);
    menu.SetLook(tree.look);
  }

  /** A legacy menu as the directory scan builds it. */
  method BuildLegacy(tree: Menu) returns (menu: SubMenu)
    ensures menu.Valid() && fresh(menu.Repr) && menu.Tree == tree
    decreases tree
  {
    menu := OwnLegacy(tree);
    for k := 0 to |tree.subs|
      invariant menu.Valid() && fresh(menu.Repr)
      invariant menu.Tree == tree.(subs := tree.subs[..k])
    {
      var sub := BuildLegacy(tree.subs[k]);
      menu.Append(sub);
      assert tree.subs[..k] + [tree.subs[k]] == tree.subs[..k + 1];
    }
    assert tree.subs[..|tree.subs|] == tree.subs;
  }

  class Engine {
    var usedApps: set<string>
    const appsInfoList: seq<AppsInfo>
    ghost var included: set<string>
    ghost var lost: bool

    constructor (pools: seq<AppsInfo>, legacyApps: set<string>)
      ensures appsInfoList == pools && Account() == Books(legacyApps, {}, false)
    {
      appsInfoList, usedApps, included, lost := pools, legacyApps, {}, false;
    }

    ghost function Account(): Books
      reads this
    {
      Books(usedApps, included, lost)
    }

    ghost function Pools(): seq<Apps>
      reads appsInfoList
    {
      Scope(appsInfoList)
    }

    /** The stack of pools that an element sees. */
    method StackOf(scope: seq<nat>) returns (stack: seq<AppsInfo>)
      requires forall i :: 0 <= i < |scope| ==> scope[i] < |appsInfoList|
      ensures |stack| == |scope| && forall i :: 0 <= i < |scope| ==> stack[i] == appsInfoList[scope[i]]
      ensures Scope(stack) == ScopeOf(Pools(), scope)
    {
      stack := seq(|scope|, i requires 0 <= i < |scope| => appsInfoList[scope[i]]);
    }

    /** Enter what a rule picked into the current menu and the dictionary of used applications. */
    method Enter(picked: Apps, adding: bool, menu: SubMenu)
      requires menu.Valid()
      modifies this`usedApps, this`included, menu
      ensures menu.Valid() && menu.Repr == old(menu.Repr)
      ensures var before := Progress(old(menu.Tree), old(Account()));
        Progress(menu.Tree, Account()) == if adding then IncludeItems(before, picked) else ExcludeItems(before, picked)
    {
      if adding {
        menu.SetItems(menu.items + picked);
        menu.SetExcludes(menu.excludeItems - picked.Keys);
        usedApps := usedApps + picked.Keys;
        included := included + picked.Keys;
      } else {
        menu.SetItems(menu.items - picked.Keys);
        menu.SetExcludes(menu.excludeItems + picked);
      }
    }

    /** The loop body: one rule. */
    method ApplyRule(rule: Condition, adding: bool, stack: seq<AppsInfo>, menu: SubMenu)
      requires menu.Valid() && StackIndexed(stack)
      modifies this`usedApps, this`included, menu
      ensures menu.Valid() && menu.Repr == old(menu.Repr)
      ensures var before := Progress(old(menu.Tree), old(Account()));
        var picked := Eval(rule, Scope(stack), map[]);
        Progress(menu.Tree, Account()) == if adding then IncludeItems(before, picked) else ExcludeItems(before, picked)
    {
      var picked := Select(rule, stack);
      Enter(picked, adding, menu);
    }

    /** Apply the rules of one `<Include>` or `<Exclude>` to the current menu. */
    method ApplyRulesTo(rules: seq<Condition>, adding: bool, stack: seq<AppsInfo>, menu: SubMenu)
      requires menu.Valid() && StackIndexed(stack)
      modifies this`usedApps, this`included, menu
      ensures menu.Valid() && menu.Repr == old(menu.Repr)
      ensures Progress(menu.Tree, Account())
           == ApplyRules(rules, adding, Scope(stack), Progress(old(menu.Tree), old(Account())))
    {
      ghost var scope := Scope(stack);
      ghost var start := Progress(menu.Tree, Account());
      for n := 0 to |rules|
        invariant menu.Valid() && menu.Repr == old(menu.Repr)
        invariant Scope(stack) == scope && StackIndexed(stack)
        invariant RulesRemain(rules, n, adding, scope, Progress(menu.Tree, Account()), start)
      {
        RulesNext(rules, n, adding, scope, Progress(menu.Tree, Account()), start);
        ApplyRule(rules[n], adding, stack, menu);
      }
    }

    /** The loop over includes and excludes. */
    method AllocateTo(nodes: seq<Node>, stack: seq<AppsInfo>, menu: SubMenu)
      requires menu.Valid() && StackIndexed(stack)
      modifies this`usedApps, this`included, menu
      ensures menu.Valid() && menu.Repr == old(menu.Repr)
      ensures Progress(menu.Tree, Account())
           == Allocate(nodes, Scope(stack), Progress(old(menu.Tree), old(Account())))
    {
      ghost var scope := Scope(stack);
      ghost var start := Progress(menu.Tree, Account());
      for n := 0 to |nodes|
        invariant menu.Valid() && menu.Repr == old(menu.Repr)
        invariant Scope(stack) == scope && StackIndexed(stack)
        invariant NodesRemain(nodes, n, scope, Progress(menu.Tree, Account()), start)
      {
        NodesNext(nodes, n, scope, Progress(menu.Tree, Account()), start);
        match nodes[n]
        case Include(rules) => ApplyRulesTo(rules, true, stack, menu);
        case Exclude(rules) => ApplyRulesTo(rules, false, stack, menu);
        case _ =>
      }
    }

    /** The pools are indexed, as passes 1 and 2 need them. */
    ghost predicate Ready(pass: nat)
      reads appsInfoList
    {
      pass > 0 ==> StackIndexed(appsInfoList)
    }

    /** `processMenu` with the current menu found. */
    method ProcessCurrent(doc: Doc, pass: nat, menu: SubMenu)
      requires menu.Valid() && Ready(pass) && ScopesIn(doc, |appsInfoList|)
      modifies this, menu.Repr
      ensures menu.Valid() && fresh(menu.Repr - old(menu.Repr))
      ensures Progress(menu.Tree, Account()) == Process(doc, Pools(), pass, Progress(old(menu.Tree), old(Account())))
      decreases doc, 1
    {
      AllocateCurrent(doc, pass, menu);
      DescendFrom(doc.nodes, pass, menu);
      if pass == 2 {
        MoveAllIn(doc.nodes, menu);
      }
    }

    /** The part of `processMenu` before the children. */
    method AllocateCurrent(doc: Doc, pass: nat, menu: SubMenu)
      requires menu.Valid() && Ready(pass) && ScopesIn(doc, |appsInfoList|)
      modifies this, menu
      ensures menu.Valid() && menu.Repr == old(menu.Repr)
      ensures Progress(menu.Tree, Account())
           == Allocated(doc, Pools(), pass, Progress(old(menu.Tree), old(Account())))
    {
      if pass == 0 {
        menu.SetDeleted(doc.isDeleted);
        menu.SetLook(doc.look.(directoryFile := Prefer(doc.look.directoryFile, menu.look.directoryFile)));
      }
      if Active(doc, pass) {
        var stack := StackOf(doc.scope);
        AllocateTo(doc.nodes, stack, menu);
      }
    }

    /** The loop over the children: menus, and in pass 0 legacy menus. */
    method DescendFrom(nodes: seq<Node>, pass: nat, menu: SubMenu)
      requires menu.Valid() && Ready(pass) && NodesIn(nodes, |appsInfoList|)
      modifies this, menu.Repr
      ensures menu.Valid() && fresh(menu.Repr - old(menu.Repr))
      ensures Progress(menu.Tree, Account()) == Descend(nodes, Pools(), pass, Progress(old(menu.Tree), old(Account())))
      decreases nodes, 0
    {
      ghost var pools := Pools();
      ghost var start := Progress(menu.Tree, Account());
      for n := 0 to |nodes|
        invariant menu.Valid() && fresh(menu.Repr - old(menu.Repr))
        invariant Pools() == pools && Ready(pass)
        invariant DescentRemains(nodes, n, pools, pass, Progress(menu.Tree, Account()), start)
      {
        DescentNext(nodes, n, pools, pass, Progress(menu.Tree, Account()), start);
        if nodes[n].SubDoc? {
          assert nodes[n].doc < nodes[n];
          ProcessMenu(nodes[n].doc, pass, menu);
        } else if nodes[n].Legacy? && pass == 0 {
          MergeLegacy(nodes[n].tree, menu);
        }
      }
    }

    method MergeLegacy(tree: Menu, menu: SubMenu)
      requires menu.Valid()
      modifies menu.Repr
      ensures menu.Valid() && fresh(menu.Repr - old(menu.Repr))
      ensures menu.Tree == Merge(old(menu.Tree), tree, false)
    {
      var legacyMenu := BuildLegacy(tree);
      menu.MergeMenu(legacyMenu, false);
    }

    /** `processMenu` below a parent menu. */
    method ProcessMenu(doc: Doc, pass: nat, parent: SubMenu)
      requires parent.Valid() && Ready(pass) && ScopesIn(doc, |appsInfoList|)
      modifies this, parent.Repr
      ensures parent.Valid() && fresh(parent.Repr - old(parent.Repr))
      ensures Progress(parent.Tree, Account())
           == ProcessBelow(doc, Pools(), pass, Progress(old(parent.Tree), old(Account())))
      decreases doc, 3
    {
      var k := parent.LookUp(doc.name);
      if k < |parent.subMenus| {
        ProcessChild(doc, pass, parent, k);
      } else if pass == 0 {
        CreateChild(doc, parent);
      } else {
        lost := true;
        ProcessCurrent(doc, pass, parent);
      }
    }

    method ProcessChild(doc: Doc, pass: nat, parent: SubMenu, k: nat)
      requires parent.Valid() && Ready(pass) && ScopesIn(doc, |appsInfoList|) && k < |parent.subMenus|
      modifies this, parent.Repr
      ensures parent.Valid() && fresh(parent.Repr - old(parent.Repr))
      ensures var below := Process(doc, Pools(), pass, Progress(old(parent.Tree).subs[k], old(Account())));
        && parent.Tree == old(parent.Tree).(subs := old(parent.Tree).subs[k := below.menu])
        && Account() == below.books
      decreases doc, 2, 0
    {
      ProcessCurrent(doc, pass, parent.subMenus[k]);
      parent.ChildChanged(k);
      parent.Refresh(k);
    }

    method CreateChild(doc: Doc, parent: SubMenu)
      requires parent.Valid() && ScopesIn(doc, |appsInfoList|)
      modifies this, parent.Repr
      ensures parent.Valid() && fresh(parent.Repr - old(parent.Repr))
      ensures var below := Process(doc, Pools(), 0, Progress(Fresh(doc.name), old(Account())));
        && parent.Tree == old(parent.Tree).(subs := old(parent.Tree).subs + [below.menu])
        && Account() == below.books
      decreases doc, 2, 1
    {
      var menu := new SubMenu(doc.name);
      parent.Append(menu);
      ProcessChild(doc, 0, parent, |parent.subMenus| - 1);
    }

    ghost predicate PoolsKeyed()
      reads appsInfoList
    {
      Distinct(appsInfoList) && forall i :: 0 <= i < |appsInfoList| ==> Keyed(appsInfoList[i].applications)
    }

    /** `buildApplicationIndex`, for the pools as a whole. */
    method Reindex(unusedOnly: bool)
      requires PoolsKeyed()
      modifies appsInfoList
      ensures PoolsKeyed() && StackIndexed(appsInfoList)
      ensures Pools() == if unusedOnly then Prune(old(Pools()), usedApps) else old(Pools())
    {
      BuildApplicationIndex(appsInfoList, usedApps, unusedOnly);
      forall i | 0 <= i < |appsInfoList|
        ensures appsInfoList[i].Indexed()
      {
      }
    }

    /** One pass over the whole file. */
    method RunPass(doc: Doc, pass: nat, root: SubMenu)
      requires root.Valid() && Ready(pass) && ScopesIn(doc, |appsInfoList|)
      modifies this, root.Repr
      ensures root.Valid() && fresh(root.Repr - old(root.Repr))
      ensures Progress(root.Tree, Account())
           == Process(doc, Pools(), pass, NextPass(Progress(old(root.Tree), old(Account()))))
    {
      included := {};
      ProcessCurrent(doc, pass, root);
    }

    /** `parseMenu`: three passes, and an index of the pools after the first two. */
    method ParseMenu(doc: Doc) returns (root: SubMenu)
      requires PoolsKeyed() && ScopesIn(doc, |appsInfoList|) && included == {} && !lost
      modifies this, appsInfoList
      ensures root.Valid() && fresh(root.Repr)
      ensures Progress(root.Tree, Account()) == MenuPasses.ParseMenu(doc, old(Pools()), old(usedApps))
    {
      ghost var pools, legacyApps := Pools(), usedApps;
      root := FirstTwoPasses(doc);
      Reindex(true);
      assert Pools() == LeftPools(doc, pools, legacyApps);
      RunPass(doc, 2, root);
    }

    method FirstTwoPasses(doc: Doc) returns (root: SubMenu)
      requires PoolsKeyed() && ScopesIn(doc, |appsInfoList|) && included == {} && !lost
      modifies this, appsInfoList
      ensures root.Valid() && fresh(root.Repr) && PoolsKeyed() && Pools() == old(Pools())
      ensures Progress(root.Tree, Account()) == AfterPass1(doc, Pools(), old(usedApps))
    {
      root := FirstPass(doc);
      Reindex(false);
      RunPass(doc, 1, root);
    }

    method FirstPass(doc: Doc) returns (root: SubMenu)
      requires ScopesIn(doc, |appsInfoList|) && included == {} && !lost
      modifies this
      ensures root.Valid() && fresh(root.Repr)
      ensures Progress(root.Tree, Account()) == AfterPass0(doc, Pools(), old(usedApps))
    {
      root := new SubMenu(doc.name);
      RunPass(doc, 0, root);
    }

    /** What the finished menu promises: no menu shows what it excludes, nothing that was used
        before pass 2 was included in it, every element of the file found its menu, and every menu holds
        what the last rule that fits puts there. */
    method BuildMenus(doc: Doc) returns (root: SubMenu)
      requires PoolsKeyed() && ScopesIn(doc, |appsInfoList|) && included == {} && !lost
      modifies this, appsInfoList
      ensures root.Valid() && fresh(root.Repr)
      ensures LegacyClean(doc) ==> Disjoint(root.Tree)
      ensures NamesPlain(doc) ==> Plain(root.Tree)
      ensures included !! AfterPass1(doc, old(Pools()), old(usedApps)).books.used
      ensures MenuAllocation.DistinctDocs(doc.nodes) ==>
        !lost && MenuContents.Finished(doc, old(Pools()), old(usedApps), root.Tree, included)
    {
      ghost var pools, legacyApps := Pools(), usedApps;
      root := ParseMenu(doc);
      MenuAllocation.OnlyUnallocatedIncluded(doc, pools, legacyApps);
      if LegacyClean(doc) { PassesDisjoint(doc, pools, legacyApps); }
      if NamesPlain(doc) { PassesPlain(doc, pools, legacyApps); }
      if MenuAllocation.DistinctDocs(doc.nodes) {
        MenuAllocation.EveryMenuFound(doc, pools, legacyApps);
        MenuContents.PassesFinish(doc, pools, legacyApps);
      }
    }

    /** The loop over the moves. */
    method MoveAllIn(nodes: seq<Node>, menu: SubMenu)
      requires menu.Valid()
      modifies menu.Repr
      ensures menu.Valid() && fresh(menu.Repr - old(menu.Repr))
      ensures menu.Tree == MoveAll(nodes, old(menu.Tree))
    {
      for n := 0 to |nodes|
        invariant menu.Valid() && fresh(menu.Repr - old(menu.Repr))
        invariant MoveAll(nodes[n..], menu.Tree) == MoveAll(nodes, old(menu.Tree))
      {
        assert nodes[n..][0] == nodes[n] && nodes[n..][1..] == nodes[n + 1..];
        if nodes[n].MoveRule? {
          menu.MoveSubMenu(nodes[n].orig, nodes[n].dest);
        }
      }
    }
  }

  /** Evaluate a rule from an empty dictionary. */
  method Select(rule: Condition, stack: seq<AppsInfo>) returns (picked: Apps)
    requires StackIndexed(stack)
    ensures picked == Eval(rule, Scope(stack), map[])
  {
    var items := new Dict();
    ProcessCondition(rule, stack, items);
    picked := items.items;
  }

  /** The rules from `n` on, applied to `now`, give what all rules give from `start`. */
  ghost predicate RulesRemain(rules: seq<Condition>, n: nat, adding: bool, scope: seq<Apps>, now: Progress,
                              start: Progress) {
    n <= |rules| && ApplyRules(rules[n..], adding, scope, now) == ApplyRules(rules, adding, scope, start)
  }

  lemma RulesNext(rules: seq<Condition>, n: nat, adding: bool, scope: seq<Apps>, now: Progress, start: Progress)
    requires n < |rules| && RulesRemain(rules, n, adding, scope, now, start)
    ensures var picked := Eval(rules[n], scope, map[]);
      RulesRemain(rules, n + 1, adding, scope,
        if adding then IncludeItems(now, picked) else ExcludeItems(now, picked), start)
  {
  }

  ghost predicate NodesRemain(nodes: seq<Node>, n: nat, scope: seq<Apps>, now: Progress, start: Progress) {
    n <= |nodes| && Allocate(nodes[n..], scope, now) == Allocate(nodes, scope, start)
  }

  lemma NodesNext(nodes: seq<Node>, n: nat, scope: seq<Apps>, now: Progress, start: Progress)
    requires n < |nodes| && NodesRemain(nodes, n, scope, now, start)
    ensures NodesRemain(nodes, n + 1, scope, AllocateOne(nodes[n], scope, now), start)
  {
  }

  ghost predicate DescentRemains(nodes: seq<Node>, n: nat, pools: seq<Apps>, pass: nat, now: Progress,
                                 start: Progress) {
    n <= |nodes| && Descend(nodes[n..], pools, pass, now) == Descend(nodes, pools, pass, start)
  }

  lemma DescentNext(nodes: seq<Node>, n: nat, pools: seq<Apps>, pass: nat, now: Progress, start: Progress)
    requires n < |nodes| && DescentRemains(nodes, n, pools, pass, now, start)
    ensures var next :=
        if nodes[n].SubDoc? then ProcessBelow(nodes[n].doc, pools, pass, now)
        else if nodes[n].Legacy? && pass == 0 then now.(menu := Merge(now.menu, nodes[n].tree, false))
        else now;
      DescentRemains(nodes, n + 1, pools, pass, next, start)
  {
  }
}
