/** Submenus as objects: merging, inserting and taking out in place, against the operations on
    trees. */
module SubMenus {
  import opened Text
  import opened MenuConditions
  import opened MenuTrees

  /** Inserting the submenus from `n` on into `tree` gives `goal`. */
  ghost predicate Remains(tree: Menu, subs: seq<Menu>, n: nat, reverse: bool, goal: Menu) {
    n <= |subs| && InsertAll(tree, subs[n..], reverse) == goal
  }

  lemma RemainsNext(goal: Menu, m2: Menu, tree: Menu, n: nat, reverse: bool)
    requires n < |m2.subs| && Remains(tree, m2.subs, n, reverse, goal)
    ensures m2.subs[n..][0] == m2.subs[n] && m2.subs[n..][1..] == m2.subs[n + 1..]
    ensures var first := m2.subs[n]; Remains(Insert(tree, first.name, first, reverse), m2.subs, n + 1, reverse, goal)
  {
  }

  /** What is new since the start is new since `mid`, or was new then. */
  lemma NewSinceThen<T>(now: set<T>, mid: set<T>, start: set<T>, start2: set<T>, mid2: set<T>)
    requires mid2 <= start2
    ensures now - start - start2 <= (now - mid - mid2) + (mid - start - start2)
  {
  }

  lemma DropAt<T>(s: seq<T>, k: nat)
    requires k < |s|
    ensures var r := s[..k] + s[k + 1..];
      |r| == |s| - 1 && forall j :: 0 <= j < |r| ==> r[j] == s[if j < k then j else j + 1]
  {
  }

  lemma ReplaceLast(subs: seq<Menu>, a: Menu, b: Menu)
    ensures (subs + [a])[|subs| := b] == subs + [b]
  {
  }

  class SubMenu {
    var name: string
    var items: Apps
    var excludeItems: Apps
    var isDeleted: bool
    var look: Look
    var subMenus: seq<SubMenu>

    /** The objects of this menu and all below it. */
    ghost var Repr: set<SubMenu>
    /** The tree they form. */
    ghost var Tree: Menu

    ghost predicate Valid()
      reads this, Repr
      decreases Repr
    {
      && this in Repr
      && (forall k :: 0 <= k < |subMenus| ==>
            && subMenus[k] in Repr
            && subMenus[k].Repr <= Repr
            && this !in subMenus[k].Repr
            && subMenus[k].Valid())
      && (forall j, k :: 0 <= j < k < |subMenus| ==> subMenus[j].Repr !! subMenus[k].Repr)
      && Tree == Menu(name, items, excludeItems, isDeleted, look, Tree.subs)
      && |Tree.subs| == |subMenus|
      && (forall k :: 0 <= k < |subMenus| ==> subMenus[k].Tree == Tree.subs[k])
    }

    constructor (menuName: string)
      ensures Valid() && fresh(Repr)
      ensures Tree == Fresh(menuName)
    {
      name := menuName;
      items, excludeItems, isDeleted, look, subMenus := map[], map[], false, Look("", "", ""), [];
      Repr := {this};
      Tree := Fresh(menuName);
    }

    /** The loop over the submenus that looks for a name. */
    method LookUp(wanted: string) returns (k: nat)
      requires Valid()
      ensures k == Position(Tree.subs, wanted)
    {
      k := 0;
      while k < |subMenus| && subMenus[k].name != wanted
        invariant k <= |subMenus| && k <= Position(Tree.subs, wanted)
      {
        assert Tree.subs[k].name == subMenus[k].name;
        k := k + 1;
      }
    }

    /** Append a submenu. */
    method Append(sub: SubMenu)
      requires Valid() && sub.Valid() && Repr !! sub.Repr
      modifies this
      ensures Valid() && Repr == old(Repr) + sub.Repr
      ensures Tree == old(Tree).(subs := old(Tree).subs + [sub.Tree])
    {
      subMenus := subMenus + [sub];
      Repr := Repr + sub.Repr;
      Tree := Tree.(subs := Tree.subs + [sub.Tree]);
    }

    method Rename(newName: string)
      requires Valid()
      modifies this
      ensures Valid() && Repr == old(Repr) && Tree == old(Tree).(name := newName)
    {
      name := newName;
      Tree := Tree.(name := newName);
    }

    method SetItems(newItems: Apps)
      requires Valid()
      modifies this`items, this`Tree
      ensures Valid() && Tree == old(Tree).(items := newItems)
    {
      items := newItems;
      Tree := Tree.(items := newItems);
    }

    method SetExcludes(newExcludes: Apps)
      requires Valid()
      modifies this`excludeItems, this`Tree
      ensures Valid() && Tree == old(Tree).(excludes := newExcludes)
    {
      excludeItems := newExcludes;
      Tree := Tree.(excludes := newExcludes);
    }

    method SetDeleted(deleted: bool)
      requires Valid()
      modifies this`isDeleted, this`Tree
      ensures Valid() && Tree == old(Tree).(isDeleted := deleted)
    {
      isDeleted := deleted;
      Tree := Tree.(isDeleted := deleted);
    }

    method SetLook(newLook: Look)
      requires Valid()
      modifies this`look, this`Tree
      ensures Valid() && Tree == old(Tree).(look := newLook)
    {
      look := newLook;
      Tree := Tree.(look := newLook);
    }

    /** Take submenu `k` out of the list. */
    method TakeOut(k: nat) returns (sub: SubMenu)
      requires Valid() && k < |subMenus|
      modifies this
      ensures Valid() && sub.Valid()
      ensures Repr == old(Repr) - sub.Repr && sub.Repr <= old(Repr) && sub == old(subMenus)[k]
      ensures sub.Tree == old(Tree).subs[k]
      ensures Tree == old(Tree).(subs := old(Tree).subs[..k] + old(Tree).subs[k + 1..])
    {
      sub := subMenus[k];
      DropAt(subMenus, k);
      DropAt(Tree.subs, k);
      subMenus := subMenus[..k] + subMenus[k + 1..];
      Repr := Repr - sub.Repr;
      Tree := Tree.(subs := Tree.subs[..k] + Tree.subs[k + 1..]);
    }

    /** Valid except that submenu `k` has changed, and may have grown. */
    ghost predicate ValidBut(k: nat)
      reads this, Repr
    {
      && this in Repr
      && (forall j :: 0 <= j < |subMenus| && j != k ==>
            && subMenus[j] in Repr
            && subMenus[j].Repr <= Repr
            && this !in subMenus[j].Repr
            && subMenus[j].Valid())
      && (forall i, j :: 0 <= i < j < |subMenus| && i != k && j != k ==> subMenus[i].Repr !! subMenus[j].Repr)
      && Tree == Menu(name, items, excludeItems, isDeleted, look, Tree.subs)
      && |Tree.subs| == |subMenus|
      && (forall j :: 0 <= j < |subMenus| && j != k ==> subMenus[j].Tree == Tree.subs[j])
    }

    /** Account for the change of submenu `k`. */
    ghost method Refresh(k: nat)
      requires k < |subMenus| && ValidBut(k)
      requires subMenus[k].Valid() && this !in subMenus[k].Repr
      requires forall j :: 0 <= j < |subMenus| && j != k ==> subMenus[j].Repr !! subMenus[k].Repr
      modifies this`Repr, this`Tree
      ensures Valid() && Repr == old(Repr) + subMenus[k].Repr
      ensures Tree == old(Tree).(subs := old(Tree).subs[k := subMenus[k].Tree])
    {
      Repr := Repr + subMenus[k].Repr;
      Tree := Tree.(subs := Tree.subs[k := subMenus[k].Tree]);
    }

    /** Account for objects that have left submenu `k`. */
    ghost method RefreshWithout(k: nat, gone: set<SubMenu>)
      requires k < |subMenus| && ValidBut(k)
      requires subMenus[k].Valid() && this !in subMenus[k].Repr && this !in gone && subMenus[k].Repr <= Repr
      requires forall j :: 0 <= j < |subMenus| && j != k ==> subMenus[j].Repr !! subMenus[k].Repr
      requires forall j :: 0 <= j < |subMenus| ==> subMenus[j].Repr !! gone
      modifies this`Repr, this`Tree
      ensures Valid() && Repr == old(Repr) - gone
      ensures Tree == old(Tree).(subs := old(Tree).subs[k := subMenus[k].Tree])
    {
      Repr := Repr - gone;
      Tree := Tree.(subs := Tree.subs[k := subMenus[k].Tree]);
    }

    /** Only submenu `k` has changed, and what it gained lies outside this menu. */
    twostate lemma ChildChanged(k: nat)
      requires old(Valid()) && k < |subMenus| && unchanged(this)
      requires forall o :: o in Repr && o !in old(subMenus[k].Repr) ==> unchanged(o)
      requires subMenus[k].Repr * Repr <= old(subMenus[k].Repr)
      ensures ValidBut(k) && this !in subMenus[k].Repr
      ensures forall j :: 0 <= j < |subMenus| && j != k ==> subMenus[j].Repr !! subMenus[k].Repr
    {
      forall j | 0 <= j < |subMenus| && j != k
        ensures subMenus[j].Repr == old(subMenus[j].Repr) && subMenus[j].Valid()
        ensures subMenus[j].Tree == old(subMenus[j].Tree)
      {
        assert subMenus[j] in old(subMenus[j].Repr);
        assert old(subMenus[j].Repr) !! old(subMenus[k].Repr);
      }
    }

    /** Two trees without a common menu. */
    ghost predicate Apart(menu2: SubMenu)
      reads this, Repr, menu2, menu2.Repr
    {
      Valid() && menu2.Valid() && Repr !! menu2.Repr
    }

    /** `mergeMenu`: `menu2` is used up. */
    method MergeMenu(menu2: SubMenu, reverse: bool)
      requires Valid() && menu2.Valid() && Repr !! menu2.Repr
      modifies Repr, menu2.Repr
      ensures Valid() && fresh(Repr - old(Repr) - old(menu2.Repr))
      ensures Tree == Merge(old(Tree), old(menu2.Tree), reverse)
      decreases menu2.Tree, 0, 0
    {
      ghost var tree2 := menu2.Tree;
      MergeOwnPart(menu2, reverse);
      ghost var n, goal := 0, Merge(old(Tree), tree2, reverse);
      while menu2.subMenus != []
        invariant Apart(menu2)
        invariant fresh(Repr - old(Repr) - old(menu2.Repr)) && menu2.Repr <= old(menu2.Repr)
        invariant n <= |tree2.subs| && menu2.Tree.subs == tree2.subs[n..]
        invariant Remains(Tree, tree2.subs, n, reverse, goal)
        decreases |tree2.subs| - n
      {
        RemainsNext(goal, tree2, Tree, n, reverse);
        ghost var repr, repr2 := Repr, menu2.Repr;
        MergeFirst(menu2, reverse);
        NewSinceThen(Repr, repr, old(Repr), old(menu2.Repr), repr2);
        n := n + 1;
      }
    }

    /** The loop body: the first submenu of `menu2` moves over. */
    method MergeFirst(menu2: SubMenu, reverse: bool)
      requires Apart(menu2) && menu2.subMenus != []
      modifies Repr, menu2.Repr
      ensures Apart(menu2)
      ensures fresh(Repr - old(Repr) - old(menu2.Repr)) && menu2.Repr <= old(menu2.Repr)
      ensures menu2.Tree.subs == old(menu2.Tree.subs)[1..]
      ensures var first := old(menu2.Tree.subs)[0]; Tree == Insert(old(Tree), first.name, first, reverse)
      decreases menu2.Tree.subs, 0, 0
    {
      ghost var subs := menu2.Tree.subs;
      var sub := menu2.TakeOut(0);
      assert menu2.Tree.subs == subs[1..] by {
        assert subs[..0] + subs[1..] == subs[1..];
      }
      InsertSubMenu(sub.name, sub, reverse);
    }

    /** The dictionaries and attributes of a merge. */
    method MergeOwnPart(menu2: SubMenu, reverse: bool)
      requires Valid() && menu2.Valid() && Repr !! menu2.Repr
      modifies this, menu2
      ensures Valid() && Repr == old(Repr) && menu2.Valid() && menu2.Repr == old(menu2.Repr)
      ensures Tree == MergeOwn(old(Tree), old(menu2.Tree), reverse)
      ensures menu2.Tree.subs == old(menu2.Tree.subs)
    {
      if reverse {
        AddItemsBelow(menu2);
        AddExcludesBelow(menu2);
        SetLook(PreferLook(look, menu2.look));
      } else {
        OverrideBy(menu2.items, menu2.excludeItems, menu2.isDeleted, menu2.look);
      }
    }

    method OverrideBy(items2: Apps, excludes2: Apps, deleted2: bool, look2: Look)
      requires Valid()
      modifies this
      ensures Valid() && Repr == old(Repr)
      ensures Tree == old(Tree).(items := old(items) - excludes2.Keys + items2,
        excludes := old(excludeItems) + excludes2, isDeleted := deleted2, look := PreferLook(look2, old(look)))
    {
      SetItems(items - excludes2.Keys);
      SetItems(items + items2);
      SetExcludes(excludeItems + excludes2);
      SetDeleted(deleted2);
      SetLook(PreferLook(look2, look));
    }

    /** The items of `menu2` that this menu does not exclude. */
    method AddItemsBelow(menu2: SubMenu)
      requires Valid() && menu2.Valid() && Repr !! menu2.Repr
      modifies this`items, this`Tree, menu2`items, menu2`Tree
      ensures Valid() && menu2.Valid()
      ensures menu2.Tree == old(menu2.Tree).(items := old(menu2.items) - excludeItems.Keys)
      ensures Tree == old(Tree).(items := old(items) + menu2.Tree.items)
    {
      menu2.SetItems(menu2.items - excludeItems.Keys);
      SetItems(items + menu2.items);
    }

    /** The excludes of `menu2` that this menu does not have. */
    method AddExcludesBelow(menu2: SubMenu)
      requires Valid() && menu2.Valid() && Repr !! menu2.Repr
      modifies this`excludeItems, this`Tree, menu2`excludeItems, menu2`Tree
      ensures Valid() && menu2.Valid()
      ensures menu2.Tree == old(menu2.Tree).(excludes := old(menu2.excludeItems) - items.Keys)
      ensures Tree == old(Tree).(excludes := old(excludeItems) + menu2.Tree.excludes)
    {
      menu2.SetExcludes(menu2.excludeItems - items.Keys);
      SetExcludes(excludeItems + menu2.excludeItems);
    }

    /** `insertSubMenu`. */
    method InsertSubMenu(path: string, newMenu: SubMenu, reverse: bool)
      requires Valid() && newMenu.Valid() && Repr !! newMenu.Repr
      modifies Repr, newMenu.Repr
      ensures Valid() && fresh(Repr - old(Repr) - old(newMenu.Repr))
      ensures Tree == Insert(old(Tree), path, old(newMenu.Tree), reverse)
      decreases newMenu.Tree, 1 + |path|, 1
    {
      var k := LookUp(HeadToInsert(path));
      if k < |subMenus| {
        InsertFound(k, path, newMenu, reverse);
      } else {
        InsertMissing(path, newMenu, reverse);
      }
    }

    /** The submenu is there: merge into it, or go on below it. */
    method InsertFound(k: nat, path: string, newMenu: SubMenu, reverse: bool)
      requires Valid() && newMenu.Valid() && Repr !! newMenu.Repr
      requires k == Position(Tree.subs, HeadToInsert(path)) < |Tree.subs|
      modifies Repr, newMenu.Repr
      ensures Valid() && fresh(Repr - old(Repr) - old(newMenu.Repr))
      ensures Tree == Insert(old(Tree), path, old(newMenu.Tree), reverse)
      decreases newMenu.Tree, 1 + |path|, 0
    {
      var i := Find(path, '/', 0);
      ghost var tree, new2 := Tree, newMenu.Tree;
      if i == -1 {
        MergeInto(k, newMenu, reverse);
        assert Tree == Insert(tree, path, new2, reverse) by { InsertMerges(tree, path, new2, reverse, k); }
      } else {
        InsertInto(k, path[i + 1..], newMenu, reverse);
        assert Tree == Insert(tree, path, new2, reverse) by { InsertDescends(tree, path, new2, reverse, k); }
      }
    }

    /** The submenu is not there: this is its place, or a new menu is put on the way. */
    method InsertMissing(path: string, newMenu: SubMenu, reverse: bool)
      requires Valid() && newMenu.Valid() && Repr !! newMenu.Repr
      requires Position(Tree.subs, HeadToInsert(path)) == |Tree.subs|
      modifies Repr, newMenu.Repr
      ensures Valid() && fresh(Repr - old(Repr) - old(newMenu.Repr))
      ensures Tree == Insert(old(Tree), path, old(newMenu.Tree), reverse)
      decreases newMenu.Tree, 1 + |path|, 0
    {
      var i := Find(path, '/', 0);
      ghost var tree, new2 := Tree, newMenu.Tree;
      if i == -1 {
        AppendAs(path, newMenu);
        assert Tree == Insert(tree, path, new2, reverse) by { InsertAppends(tree, path, new2, reverse); }
      } else {
        InsertNew(HeadToInsert(path), path[i + 1..], newMenu);
        assert Tree == Insert(tree, path, new2, reverse) by { InsertCreates(tree, path, new2, reverse); }
      }
    }

    method AppendAs(newName: string, newMenu: SubMenu)
      requires Valid() && newMenu.Valid() && Repr !! newMenu.Repr
      modifies this, newMenu
      ensures Valid() && fresh(Repr - old(Repr) - old(newMenu.Repr))
      ensures Tree == old(Tree).(subs := old(Tree).subs + [old(newMenu.Tree).(name := newName)])
    {
      newMenu.Rename(newName);
      Append(newMenu);
    }

    /** A new submenu on the way. */
    method InsertNew(s1: string, path: string, newMenu: SubMenu)
      requires Valid() && newMenu.Valid() && Repr !! newMenu.Repr
      modifies Repr, newMenu.Repr
      ensures Valid() && fresh(Repr - old(Repr) - old(newMenu.Repr))
      ensures Tree == old(Tree).(subs := old(Tree).subs + [Insert(Fresh(s1), path, old(newMenu.Tree), false)])
      decreases newMenu.Tree, 1 + |path|, 3
    {
      var menu := new SubMenu(s1);
      Append(menu);
      InsertInto(|subMenus| - 1, path, newMenu, false);
      ReplaceLast(old(Tree).subs, Fresh(s1), Insert(Fresh(s1), path, old(newMenu.Tree), false));
    }

    method MergeInto(k: nat, newMenu: SubMenu, reverse: bool)
      requires k < |subMenus| && Valid() && newMenu.Valid() && Repr !! newMenu.Repr
      modifies Repr, newMenu.Repr
      ensures Valid() && fresh(Repr - old(Repr) - old(newMenu.Repr))
      ensures Tree == old(Tree).(subs := old(Tree).subs[k := Merge(old(Tree).subs[k], old(newMenu.Tree), reverse)])
      decreases newMenu.Tree, 0, 1
    {
      subMenus[k].MergeMenu(newMenu, reverse);
      ChildChanged(k);
      Refresh(k);
    }

    method InsertInto(k: nat, path: string, newMenu: SubMenu, reverse: bool)
      requires k < |subMenus| && Valid() && newMenu.Valid() && Repr !! newMenu.Repr
      modifies Repr, newMenu.Repr
      ensures Valid() && fresh(Repr - old(Repr) - old(newMenu.Repr))
      ensures Tree == old(Tree).(subs :=
          old(Tree).subs[k := Insert(old(Tree).subs[k], path, old(newMenu.Tree), reverse)])
      decreases newMenu.Tree, 1 + |path|, 2
    {
      subMenus[k].InsertSubMenu(path, newMenu, reverse);
      ChildChanged(k);
      Refresh(k);
    }

    /** What a search reports, and what it leaves here. */
    ghost predicate Reports(taken: SubMenu?, found: Found, footprint: set<SubMenu>)
      reads this, taken, if taken == null then {} else taken.Repr
    {
      match found
      case Missing => taken == null
      case Found(menu) =>
        && taken != null && taken.Valid() && taken.Tree == menu
        && taken.Repr !! Repr && taken.Repr <= footprint
    }

    /** `takeSubMenu`. */
    method TakeSubMenu(path: string) returns (taken: SubMenu?)
      requires Valid()
      modifies Repr
      ensures Valid() && Repr <= old(Repr)
      ensures Tree == Take(old(Tree), path).0
      ensures Reports(taken, Take(old(Tree), path).1, old(Repr))
      decreases |path|, 0
    {
      var i := Find(path, '/', 0);
      var k := LookUp(HeadToTake(path));
      ghost var tree := Tree;
      if k == |subMenus| {
        taken := null;
        assert Take(tree, path) == (Tree, Missing) by { TakeFindsNothing(tree, path); }
      } else if i == -1 {
        taken := TakeOut(k);
        assert Take(tree, path) == (Tree, Found(taken.Tree)) by { TakeRemoves(tree, path, k); }
      } else {
        ghost var below := Take(tree.subs[k], path[i + 1..]);
        taken := TakeBelow(k, path[i + 1..]);
        assert Take(tree, path) == (Tree, below.1) by { TakeDescends(tree, path, k); }
      }
    }

    method TakeBelow(k: nat, path: string) returns (taken: SubMenu?)
      requires Valid() && k < |subMenus|
      modifies Repr
      ensures Valid() && Repr <= old(Repr)
      ensures Tree == old(Tree).(subs := old(Tree).subs[k := Take(old(Tree).subs[k], path).0])
      ensures Reports(taken, Take(old(Tree).subs[k], path).1, old(Repr))
      decreases |path|, 1
    {
      taken := subMenus[k].TakeSubMenu(path);
      ChildChanged(k);
      RefreshWithout(k, if taken == null then {} else taken.Repr);
    }

    /** The `Move` rule: take out at one path, insert at another, the destination first. */
    method MoveSubMenu(orig: string, dest: string)
      requires Valid()
      modifies Repr
      ensures Valid() && fresh(Repr - old(Repr))
      ensures Tree == Move(old(Tree), orig, dest)
    {
      if orig != "" && dest != "" {
        var menu := TakeSubMenu(orig);
        if menu != null {
          InsertSubMenu(dest, menu, true);
        }
      }
    }
  }
}
