/** Trees of submenus: merging one into another, inserting and taking out at a path, and what
    is found at every path afterwards. */
module MenuTrees {
  import opened Lists
  import opened Text
  import opened MenuConditions

  /** Attributes that a merge fills in or overrides; empty means not given. */
  datatype Look = Look(directoryFile: string, defaultLayout: string, layout: string)

  datatype Menu = Menu(
    name: string,
    items: Apps,
    excludes: Apps,
    isDeleted: bool,
    look: Look,
    subs: seq<Menu>)

  datatype Found = Missing | Found(menu: Menu)

  /** A menu as `new SubMenu` makes it, under a name. */
  function Fresh(name: string): Menu {
    Menu(name, map[], map[], false, Look("", "", ""), [])
  }

  // ---------- Merging and inserting ----------

  function Prefer(a: string, b: string): string {
    if a == "" then b else a
  }

  function PreferLook(a: Look, b: Look): Look {
    Look(Prefer(a.directoryFile, b.directoryFile), Prefer(a.defaultLayout, b.defaultLayout), Prefer(a.layout, b.layout))
  }

  /** The part of a merge that concerns the two menus themselves. */
  function MergeOwn(m1: Menu, m2: Menu, reverse: bool): Menu {
    if reverse then
      var items2 := m2.items - m1.excludes.Keys;
      var items := m1.items + items2;
      var excludes2 := m2.excludes - items.Keys;
      m1.(items := items, excludes := m1.excludes + excludes2, look := PreferLook(m1.look, m2.look))
    else
      m1.(items := m1.items - m2.excludes.Keys + m2.items, excludes := m1.excludes + m2.excludes,
          isDeleted := m2.isDeleted, look := PreferLook(m2.look, m1.look))
  }

  /** `mergeMenu`: `m2` into `m1`. */
  function Merge(m1: Menu, m2: Menu, reverse: bool): Menu
    decreases m2, 0
  {
    InsertAll(MergeOwn(m1, m2, reverse), m2.subs, reverse)
  }

  function InsertAll(parent: Menu, subs: seq<Menu>, reverse: bool): Menu
    decreases subs, 0
  {
    if subs == [] then parent
    else InsertAll(Insert(parent, subs[0].name, subs[0], reverse), subs[1..], reverse)
  }

  /** The position of the first submenu of that name, or the number of submenus. */
  function Position(subs: seq<Menu>, name: string): (k: nat)
    ensures k <= |subs|
    ensures k < |subs| ==> subs[k].name == name
    ensures forall j :: 0 <= j < k ==> subs[j].name != name
  {
    if subs == [] || subs[0].name == name then 0 else 1 + Position(subs[1..], name)
  }

  /** `insertSubMenu`. */
  function Insert(parent: Menu, path: string, menu: Menu, reverse: bool): Menu
    decreases menu, 1 + |path|
  {
    var i := Find(path, '/', 0);
    var s1 := if i == -1 then path else path[..i];
    var k := Position(parent.subs, s1);
    if k < |parent.subs| then
      var sub := if i == -1 then Merge(parent.subs[k], menu, reverse)
                 else Insert(parent.subs[k], path[i + 1..], menu, reverse);
      parent.(subs := parent.subs[k := sub])
    else if i == -1 then
      parent.(subs := parent.subs + [menu.(name := path)])
    else
      parent.(subs := parent.subs + [Insert(Fresh(s1), path[i + 1..], menu, false)])
  }

  /** `takeSubMenu`: what is left, and what was taken. */
  function Take(parent: Menu, path: string): (Menu, Found)
    decreases |path|
  {
    var i := Find(path, '/', 0);
    var s1 := if i > 0 then path[..i] else path;
    var k := Position(parent.subs, s1);
    if k == |parent.subs| then (parent, Missing)
    else if i == -1 then
      (parent.(subs := parent.subs[..k] + parent.subs[k + 1..]), Found(parent.subs[k]))
    else
      var below := Take(parent.subs[k], path[i + 1..]);
      (parent.(subs := parent.subs[k := below.0]), below.1)
  }

  /** The `Move` rule of a menu file: the destination has priority. */
  function Move(parent: Menu, orig: string, dest: string): Menu {
    if orig == "" || dest == "" then parent
    else
      var (left, taken) := Take(parent, orig);
      match taken
      case Missing => left
      case Found(menu) => Insert(left, dest, menu, true)
  }

  // The cases of inserting and of taking, one at a time.

  /** The name that inserting looks for first. */
  function HeadToInsert(path: string): string {
    var i := Find(path, '/', 0);
    if i == -1 then path else path[..i]
  }

  lemma InsertMerges(parent: Menu, path: string, menu: Menu, reverse: bool, k: nat)
    requires Find(path, '/', 0) == -1 && k == Position(parent.subs, path) < |parent.subs|
    ensures Insert(parent, path, menu, reverse)
         == parent.(subs := parent.subs[k := Merge(parent.subs[k], menu, reverse)])
  {
  }

  lemma InsertDescends(parent: Menu, path: string, menu: Menu, reverse: bool, k: nat)
    requires Find(path, '/', 0) != -1 && k == Position(parent.subs, HeadToInsert(path)) < |parent.subs|
    ensures Insert(parent, path, menu, reverse)
         == parent.(subs := parent.subs[k := Insert(parent.subs[k], path[Find(path, '/', 0) + 1..], menu, reverse)])
  {
  }

  lemma InsertAppends(parent: Menu, path: string, menu: Menu, reverse: bool)
    requires Find(path, '/', 0) == -1 && Position(parent.subs, path) == |parent.subs|
    ensures Insert(parent, path, menu, reverse) == parent.(subs := parent.subs + [menu.(name := path)])
  {
  }

  lemma InsertCreates(parent: Menu, path: string, menu: Menu, reverse: bool)
    requires Find(path, '/', 0) != -1 && Position(parent.subs, HeadToInsert(path)) == |parent.subs|
    ensures Insert(parent, path, menu, reverse)
         == parent.(subs := parent.subs +
              [Insert(Fresh(HeadToInsert(path)), path[Find(path, '/', 0) + 1..], menu, false)])
  {
  }

  /** The name that taking looks for first. */
  function HeadToTake(path: string): string {
    var i := Find(path, '/', 0);
    if i > 0 then path[..i] else path
  }

  lemma TakeFindsNothing(parent: Menu, path: string)
    requires Position(parent.subs, HeadToTake(path)) == |parent.subs|
    ensures Take(parent, path) == (parent, Missing)
  {
  }

  lemma TakeRemoves(parent: Menu, path: string, k: nat)
    requires Find(path, '/', 0) == -1 && k == Position(parent.subs, path) < |parent.subs|
    ensures Take(parent, path) == (parent.(subs := parent.subs[..k] + parent.subs[k + 1..]), Found(parent.subs[k]))
  {
  }

  lemma TakeDescends(parent: Menu, path: string, k: nat)
    requires Find(path, '/', 0) != -1 && k == Position(parent.subs, HeadToTake(path)) < |parent.subs|
    ensures var below := Take(parent.subs[k], path[Find(path, '/', 0) + 1..]);
      Take(parent, path) == (parent.(subs := parent.subs[k := below.0]), below.1)
  {
  }

  // ---------- Menus by path ----------

  function Child(m: Menu, name: string): Found {
    var k := Position(m.subs, name);
    if k < |m.subs| then Found(m.subs[k]) else Missing
  }

  /** The menu at a path of names. */
  function At(m: Menu, path: seq<string>): Found
    decreases |path|
  {
    if path == [] then Found(m)
    else
      match Child(m, path[0])
      case Missing => Missing
      case Found(sub) => At(sub, path[1..])
  }

  /** A menu without its submenus. */
  function Own(m: Menu): Menu {
    m.(subs := [])
  }

  predicate PlainName(name: string) {
    '/' !in name
  }

  /** Sibling names are distinct and contain no slash, at every level. */
  ghost predicate Plain(m: Menu)
    decreases m, 1
  {
    PlainSubs(m.subs)
  }

  ghost predicate PlainSubs(subs: seq<Menu>)
    decreases subs, 0
  {
    && (forall k :: 0 <= k < |subs| ==> PlainName(subs[k].name) && Plain(subs[k]))
    && DistinctNames(subs)
  }

  ghost predicate DistinctNames(subs: seq<Menu>) {
    forall j, k :: 0 <= j < k < |subs| ==> subs[j].name != subs[k].name
  }

  lemma NoSlash(name: string)
    requires PlainName(name)
    ensures Find(name, '/', 0) == -1
  {
  }

  lemma {:induction false} PositionIs(subs: seq<Menu>, k: nat)
    requires k < |subs| && forall j :: 0 <= j < k ==> subs[j].name != subs[k].name
    ensures Position(subs, subs[k].name) == k
  {
  }

  /** Replacing one submenu, under its name. */
  lemma ReplaceChild(m: Menu, k: nat, sub: Menu, name: string)
    requires DistinctNames(m.subs) && k < |m.subs| && sub.name == m.subs[k].name
    ensures var r := m.(subs := m.subs[k := sub]);
      Child(r, name) == if name == sub.name then Found(sub) else Child(m, name)
  {
    var r := m.(subs := m.subs[k := sub]);
    if name == sub.name {
      PositionIs(r.subs, k);
    } else {
      SamePosition(m.subs, k, sub, name);
    }
  }

  lemma ReplacePlain(m: Menu, k: nat, sub: Menu)
    requires Plain(m) && Plain(sub) && k < |m.subs| && sub.name == m.subs[k].name
    ensures Plain(m.(subs := m.subs[k := sub]))
  {
  }

  lemma SamePosition(subs: seq<Menu>, k: nat, sub: Menu, name: string)
    requires k < |subs| && sub.name == subs[k].name
    ensures Position(subs[k := sub], name) == Position(subs, name)
  {
    if k > 0 && subs[0].name != name {
      assert subs[k := sub][1..] == subs[1..][k - 1 := sub];
      SamePosition(subs[1..], k - 1, sub, name);
    } else if k == 0 {
      assert subs[k := sub][1..] == subs[1..];
    }
  }

  /** Appending a submenu of a new name. */
  lemma AppendChild(m: Menu, sub: Menu, name: string)
    requires Child(m, sub.name) == Missing
    ensures var r := m.(subs := m.subs + [sub]);
      Child(r, name) == if name == sub.name then Found(sub) else Child(m, name)
  {
    LastPosition(m.subs, sub, name);
  }

  lemma AppendPlain(m: Menu, sub: Menu)
    requires Plain(m) && Plain(sub) && PlainName(sub.name) && Child(m, sub.name) == Missing
    ensures Plain(m.(subs := m.subs + [sub]))
  {
  }

  lemma {:induction false} LastPosition(subs: seq<Menu>, sub: Menu, name: string)
    ensures Position(subs + [sub], name)
         == if Position(subs, name) < |subs| || sub.name == name then Position(subs, name) else |subs| + 1
  {
    if subs != [] {
      assert (subs + [sub])[1..] == subs[1..] + [sub];
      LastPosition(subs[1..], sub, name);
    }
  }

  // ---------- What merging means ----------

  /** Inserting under a plain name changes the child of that name and no other. */
  lemma {:induction false} InsertChild(parent: Menu, menu: Menu, reverse: bool, name: string)
    requires Plain(parent) && PlainName(menu.name)
    ensures Child(Insert(parent, menu.name, menu, reverse), name)
         == if name != menu.name then Child(parent, name) else MergeFound(Child(parent, name), Found(menu), reverse)
    ensures Own(Insert(parent, menu.name, menu, reverse)) == Own(parent)
  {
    NoSlash(menu.name);
    var k := Position(parent.subs, menu.name);
    if k < |parent.subs| {
      MergeKeepsName(parent.subs[k], menu, reverse);
      ReplaceChild(parent, k, Merge(parent.subs[k], menu, reverse), name);
    } else {
      AppendChild(parent, menu, name);
    }
  }

  lemma {:induction false} MergeKeepsName(m1: Menu, m2: Menu, reverse: bool)
    ensures Merge(m1, m2, reverse).name == m1.name
  {
    InsertAllKeepsOwn(MergeOwn(m1, m2, reverse), m2.subs, reverse);
  }

  lemma {:induction false} InsertAllKeepsOwn(parent: Menu, subs: seq<Menu>, reverse: bool)
    ensures Own(InsertAll(parent, subs, reverse)) == Own(parent)
    decreases |subs|
  {
    if subs != [] {
      InsertAllKeepsOwn(Insert(parent, subs[0].name, subs[0], reverse), subs[1..], reverse);
    }
  }

  /** The merge of what two trees have at one place. */
  function MergeFound(a: Found, b: Found, reverse: bool): Found {
    match (a, b)
    case (Missing, _) => b
    case (_, Missing) => a
    case (Found(m1), Found(m2)) => Found(Merge(m1, m2, reverse))
  }

  /** Inserting and merging keep names plain and siblings distinct. */
  lemma {:induction false} InsertPlain(parent: Menu, menu: Menu, reverse: bool)
    requires Plain(parent) && Plain(menu) && PlainName(menu.name)
    ensures Plain(Insert(parent, menu.name, menu, reverse))
    decreases menu, 2
  {
    NoSlash(menu.name);
    var k := Position(parent.subs, menu.name);
    if k < |parent.subs| {
      MergeKeepsName(parent.subs[k], menu, reverse);
      MergePlain(parent.subs[k], menu, reverse);
      ReplacePlain(parent, k, Merge(parent.subs[k], menu, reverse));
    } else {
      AppendPlain(parent, menu);
    }
  }

  lemma {:induction false} MergePlain(m1: Menu, m2: Menu, reverse: bool)
    requires Plain(m1) && Plain(m2)
    ensures Plain(Merge(m1, m2, reverse))
    decreases m2, 1
  {
    InsertAllPlain(MergeOwn(m1, m2, reverse), m2.subs, reverse);
  }

  lemma {:induction false} InsertAllPlain(parent: Menu, subs: seq<Menu>, reverse: bool)
    requires Plain(parent) && PlainSubs(subs)
    ensures Plain(InsertAll(parent, subs, reverse))
    decreases subs, 0
  {
    if subs != [] {
      InsertPlain(parent, subs[0], reverse);
      InsertAllPlain(Insert(parent, subs[0].name, subs[0], reverse), subs[1..], reverse);
    }
  }

  lemma HeadNotBehind(subs: seq<Menu>)
    requires PlainSubs(subs) && subs != []
    ensures Position(subs[1..], subs[0].name) == |subs| - 1
  {
  }

  /** Children merge by name. */
  lemma {:induction false} InsertAllChild(parent: Menu, subs: seq<Menu>, reverse: bool, name: string)
    requires Plain(parent) && PlainSubs(subs)
    ensures var k := Position(subs, name);
      Child(InsertAll(parent, subs, reverse), name)
      == MergeFound(Child(parent, name), if k < |subs| then Found(subs[k]) else Missing, reverse)
    decreases |subs|
  {
    if subs != [] {
      var next := Insert(parent, subs[0].name, subs[0], reverse);
      InsertPlain(parent, subs[0], reverse);
      InsertChild(parent, subs[0], reverse, name);
      InsertAllChild(next, subs[1..], reverse, name);
      HeadNotBehind(subs);
    }
  }

  lemma MergeChild(m1: Menu, m2: Menu, reverse: bool, name: string)
    requires Plain(m1) && Plain(m2)
    ensures Child(Merge(m1, m2, reverse), name) == MergeFound(Child(m1, name), Child(m2, name), reverse)
  {
    InsertAllChild(MergeOwn(m1, m2, reverse), m2.subs, reverse, name);
  }

  /** At every path: a menu that only one tree has is kept with all below it, and where both
      have one, the result is their merge. */
  lemma {:induction false} MergeAt(m1: Menu, m2: Menu, reverse: bool, path: seq<string>)
    requires Plain(m1) && Plain(m2)
    ensures At(Merge(m1, m2, reverse), path) == MergeFound(At(m1, path), At(m2, path), reverse)
    decreases |path|
  {
    if path != [] {
      MergeChild(m1, m2, reverse, path[0]);
      var a, b := Child(m1, path[0]), Child(m2, path[0]);
      if a.Found? && b.Found? {
        MergeAt(a.menu, b.menu, reverse, path[1..]);
      }
    }
  }

  /** An attribute of a merge: the value of the menu with priority, and the other's where that menu
      gives none. */
  ghost predicate FirstGiven(first: string, second: string, value: string) {
    (first != "" ==> value == first) && (first == "" ==> value == second)
  }

  /** A dictionary of a merge: the entries of `from` but for the ids of `barred`, which replace those
      of `before`, and the entries of `before` but for the ids of `dropped`. */
  ghost predicate EntryOf(id: string, before: Apps, dropped: set<string>, from: Apps, barred: set<string>,
                          result: Apps)
  {
    if id in from && id !in barred then id in result && result[id] == from[id]
    else if id in before && id !in dropped then id in result && result[id] == before[id]
    else id !in result
  }

  /** What a merge makes of two menus themselves; with `reverse` the first menu has priority. */
  ghost predicate OwnMerged(a: Menu, b: Menu, reverse: bool, r: Menu) {
    var first, second := if reverse then a else b, if reverse then b else a;
    && r.name == a.name && r.isDeleted == first.isDeleted
    && FirstGiven(first.look.directoryFile, second.look.directoryFile, r.look.directoryFile)
    && FirstGiven(first.look.defaultLayout, second.look.defaultLayout, r.look.defaultLayout)
    && FirstGiven(first.look.layout, second.look.layout, r.look.layout)
    && (forall id: string :: if reverse then EntryOf(id, a.items, {}, b.items, a.excludes.Keys, r.items)
                             else EntryOf(id, a.items, b.excludes.Keys, b.items, {}, r.items))
    && (forall id: string :: if reverse then EntryOf(id, a.excludes, {}, b.excludes, r.items.Keys, r.excludes)
                             else EntryOf(id, a.excludes, {}, b.excludes, {}, r.excludes))
  }

  /** The node-wise reading: which applications a merged menu shows and excludes, which service it has
      for each, and its attributes. */
  lemma MergeMeaning(m1: Menu, m2: Menu, reverse: bool, path: seq<string>)
    requires Plain(m1) && Plain(m2)
    requires At(m1, path).Found? && At(m2, path).Found?
    ensures var a, b := At(m1, path).menu, At(m2, path).menu; var r := At(Merge(m1, m2, reverse), path);
      && r.Found?
      && (reverse ==> r.menu.items.Keys == a.items.Keys + (b.items.Keys - a.excludes.Keys))
      && (reverse ==> r.menu.excludes.Keys == a.excludes.Keys + (b.excludes.Keys - r.menu.items.Keys))
      && (!reverse ==> r.menu.items.Keys == (a.items.Keys - b.excludes.Keys) + b.items.Keys)
      && (!reverse ==> r.menu.excludes.Keys == a.excludes.Keys + b.excludes.Keys)
      && OwnMerged(a, b, reverse, r.menu)
  {
    MergeAt(m1, m2, reverse, path);
    var a, b := At(m1, path).menu, At(m2, path).menu;
    OwnIsMerged(a, b, reverse);
    InsertAllKeepsOwn(MergeOwn(a, b, reverse), b.subs, reverse);
  }

  lemma OwnIsMerged(a: Menu, b: Menu, reverse: bool)
    ensures OwnMerged(a, b, reverse, MergeOwn(a, b, reverse))
  {
  }

  // ---------- The order of submenus ----------

  function Names(subs: seq<Menu>): seq<string> {
    if subs == [] then [] else [subs[0].name] + Names(subs[1..])
  }

  /** The names among `subs` that `m` has no submenu for. */
  function NewNames(m: Menu, subs: seq<Menu>): seq<string> {
    if subs == [] then []
    else (if Child(m, subs[0].name) == Missing then [subs[0].name] else []) + NewNames(m, subs[1..])
  }

  lemma {:induction false} NamesAppend(subs: seq<Menu>, sub: Menu)
    ensures Names(subs + [sub]) == Names(subs) + [sub.name]
  {
    if subs == [] {
      assert subs + [sub] == [sub];
    } else {
      assert (subs + [sub])[1..] == subs[1..] + [sub];
      NamesAppend(subs[1..], sub);
    }
  }

  lemma {:induction false} NamesReplace(subs: seq<Menu>, k: nat, sub: Menu)
    requires k < |subs| && sub.name == subs[k].name
    ensures Names(subs[k := sub]) == Names(subs)
  {
    if k == 0 {
      assert subs[k := sub][1..] == subs[1..];
    } else {
      assert subs[k := sub][1..] == subs[1..][k - 1 := sub];
      NamesReplace(subs[1..], k - 1, sub);
    }
  }

  lemma {:induction false} NewNamesAgree(m: Menu, m': Menu, subs: seq<Menu>)
    requires forall k :: 0 <= k < |subs| ==>
      (Child(m, subs[k].name) == Missing <==> Child(m', subs[k].name) == Missing)
    ensures NewNames(m, subs) == NewNames(m', subs)
  {
    if subs != [] {
      NewNamesAgree(m, m', subs[1..]);
    }
  }

  lemma InsertOrder(parent: Menu, menu: Menu, reverse: bool)
    requires PlainName(menu.name)
    ensures Names(Insert(parent, menu.name, menu, reverse).subs)
         == Names(parent.subs) + (if Child(parent, menu.name) == Missing then [menu.name] else [])
  {
    NoSlash(menu.name);
    var k := Position(parent.subs, menu.name);
    if k < |parent.subs| {
      MergeKeepsName(parent.subs[k], menu, reverse);
      NamesReplace(parent.subs, k, Merge(parent.subs[k], menu, reverse));
    } else {
      NamesAppend(parent.subs, menu);
    }
  }

  /** Merging keeps the submenus in place and puts new ones behind, in their own order. */
  lemma {:induction false} InsertAllOrder(parent: Menu, subs: seq<Menu>, reverse: bool)
    requires Plain(parent) && PlainSubs(subs)
    ensures Names(InsertAll(parent, subs, reverse).subs) == Names(parent.subs) + NewNames(parent, subs)
    decreases |subs|
  {
    if subs != [] {
      var next := Insert(parent, subs[0].name, subs[0], reverse);
      InsertPlain(parent, subs[0], reverse);
      InsertAllOrder(next, subs[1..], reverse);
      StillNew(parent, subs, reverse);
      InsertOrder(parent, subs[0], reverse);
      Regroup(Names(parent.subs), if Child(parent, subs[0].name) == Missing then [subs[0].name] else [],
        NewNames(parent, subs[1..]));
    }
  }

  lemma StillNew(parent: Menu, subs: seq<Menu>, reverse: bool)
    requires Plain(parent) && PlainSubs(subs) && subs != []
    ensures NewNames(Insert(parent, subs[0].name, subs[0], reverse), subs[1..]) == NewNames(parent, subs[1..])
  {
    var next := Insert(parent, subs[0].name, subs[0], reverse);
    forall k | 0 <= k < |subs[1..]|
      ensures Child(parent, subs[1..][k].name) == Missing <==> Child(next, subs[1..][k].name) == Missing
    {
      assert subs[1..][k] == subs[k + 1];
      InsertChild(parent, subs[0], reverse, subs[k + 1].name);
    }
    NewNamesAgree(parent, next, subs[1..]);
  }

  lemma MergeOrder(m1: Menu, m2: Menu, reverse: bool)
    requires Plain(m1) && Plain(m2)
    ensures Names(Merge(m1, m2, reverse).subs) == Names(m1.subs) + NewNames(m1, m2.subs)
  {
    InsertAllOrder(MergeOwn(m1, m2, reverse), m2.subs, reverse);
    NewNamesAgree(m1, MergeOwn(m1, m2, reverse), m2.subs);
  }

  // ---------- Paths with slashes ----------

  /** Names joined by slashes. */
  function JoinPath(names: seq<string>): string {
    if names == [] then ""
    else if |names| == 1 then names[0]
    else names[0] + "/" + JoinPath(names[1..])
  }

  ghost predicate PlainPath(names: seq<string>) {
    names != [] && forall k :: 0 <= k < |names| ==> PlainName(names[k])
  }

  /** A path whose inner names are not empty, as `takeSubMenu` needs it. */
  ghost predicate SolidPath(names: seq<string>) {
    PlainPath(names) && forall k :: 0 <= k < |names| - 1 ==> names[k] != ""
  }

  function Last(names: seq<string>): string
    requires names != []
  {
    names[|names| - 1]
  }

  lemma FirstName(names: seq<string>)
    requires PlainPath(names)
    ensures |names| == 1 ==> Find(JoinPath(names), '/', 0) == -1
    ensures |names| > 1 ==>
      var path := JoinPath(names); var i := |names[0]|;
      Find(path, '/', 0) == i && path[..i] == names[0] && path[i + 1..] == JoinPath(names[1..])
  {
    assert PlainName(names[0]);
    if |names| > 1 {
      var path := JoinPath(names);
      var i := |names[0]|;
      assert path[i] == '/' && forall k :: 0 <= k < i ==> path[k] == names[0][k];
      assert path[..i] == names[0];
      assert path[i + 1..] == JoinPath(names[1..]);
    }
  }

  /** Inserting at a path keeps the menu's own part. */
  lemma InsertKeepsOwn(parent: Menu, path: string, menu: Menu, reverse: bool)
    ensures Own(Insert(parent, path, menu, reverse)) == Own(parent)
  {
  }

  /** One step of inserting at a path of several names. */
  lemma {:induction false} InsertStep(parent: Menu, names: seq<string>, menu: Menu, reverse: bool, name: string)
    requires Plain(parent) && PlainPath(names) && |names| > 1
    ensures Child(Insert(parent, JoinPath(names), menu, reverse), name)
         == if name != names[0] then Child(parent, name)
            else match Child(parent, name)
              case Found(sub) => Found(Insert(sub, JoinPath(names[1..]), menu, reverse))
              case Missing => Found(Insert(Fresh(name), JoinPath(names[1..]), menu, false))
  {
    FirstName(names);
    var k := Position(parent.subs, names[0]);
    var rest := JoinPath(names[1..]);
    if k < |parent.subs| {
      InsertKeepsOwn(parent.subs[k], rest, menu, reverse);
      ReplaceChild(parent, k, Insert(parent.subs[k], rest, menu, reverse), name);
    } else {
      InsertKeepsOwn(Fresh(names[0]), rest, menu, false);
      AppendChild(parent, Insert(Fresh(names[0]), rest, menu, false), name);
    }
  }

  lemma InsertHere(parent: Menu, target: string, menu: Menu, reverse: bool, name: string)
    requires Plain(parent) && PlainName(target)
    ensures Child(Insert(parent, target, menu, reverse), name)
         == if name != target then Child(parent, name)
            else match Child(parent, name)
              case Found(sub) => Found(Merge(sub, menu, reverse))
              case Missing => Found(menu.(name := target))
  {
    NoSlash(target);
    var k := Position(parent.subs, target);
    if k < |parent.subs| {
      MergeKeepsName(parent.subs[k], menu, reverse);
      ReplaceChild(parent, k, Merge(parent.subs[k], menu, reverse), name);
    } else {
      AppendChild(parent, menu.(name := target), name);
    }
  }

  lemma LastOfRest(path: seq<string>)
    requires |path| > 1
    ensures Last(path[1..]) == Last(path)
  {
  }

  /** Below a missing child there is as little as below a fresh one. */
  lemma AtBelow(parent: Menu, path: seq<string>)
    requires |path| > 1
    ensures var child := Child(parent, path[0]);
      At(parent, path) == At(if child.Found? then child.menu else Fresh(path[0]), path[1..])
  {
  }

  lemma InsertBelow(parent: Menu, names: seq<string>, menu: Menu, reverse: bool, path: seq<string>)
    requires Plain(parent) && PlainPath(names) && |names| > 1 && path != [] && path[0] == names[0]
    ensures var child := Child(parent, path[0]);
      var sub, first := if child.Found? then child.menu else Fresh(path[0]), child.Found? && reverse;
      At(Insert(parent, JoinPath(names), menu, reverse), path)
      == At(Insert(sub, JoinPath(names[1..]), menu, first), path[1..])
  {
    InsertStep(parent, names, menu, reverse, path[0]);
  }

  /** A menu put where `there` was. */
  function PutAt(there: Found, menu: Menu, name: string, reverse: bool): Found {
    match there
    case Found(m) => Found(Merge(m, menu, reverse))
    case Missing => Found(menu.(name := name))
  }

  /** At the path itself: merged into what was there, or placed there under the last name. */
  lemma {:induction false} InsertAtTarget(parent: Menu, names: seq<string>, menu: Menu, reverse: bool)
    requires Plain(parent) && PlainPath(names)
    ensures At(Insert(parent, JoinPath(names), menu, reverse), names)
         == PutAt(At(parent, names), menu, Last(names), reverse)
    decreases |names|
  {
    if |names| == 1 {
      InsertHere(parent, names[0], menu, reverse, names[0]);
      assert names[1..] == [];
    } else {
      InsertBelow(parent, names, menu, reverse, names);
      var child := Child(parent, names[0]);
      var sub, first := if child.Found? then child.menu else Fresh(names[0]), child.Found? && reverse;
      InsertAtTarget(sub, names[1..], menu, first);
      LastOfRest(names);
      AtBelow(parent, names);
    }
  }

  /** Anywhere else: menus keep their own part, menus off the path are kept with all below them,
      and the only new ones are the empty menus on the way. */
  ghost predicate KeptBeside(before: Found, after: Found, onTheWay: bool, name: string) {
    match before
    case Found(m) => after.Found? && Own(after.menu) == Own(m) && (onTheWay || after.menu == m)
    case Missing => if onTheWay then after.Found? && Own(after.menu) == Fresh(name) else after == Missing
  }

  lemma {:induction false} InsertElsewhere(parent: Menu, names: seq<string>, menu: Menu, reverse: bool,
                                           path: seq<string>)
    requires Plain(parent) && PlainPath(names) && path != []
    requires !(names <= path)
    ensures KeptBeside(At(parent, path), At(Insert(parent, JoinPath(names), menu, reverse), path),
                       path <= names, Last(path))
    decreases |names|
  {
    if path[0] != names[0] {
      if |names| == 1 {
        InsertHere(parent, names[0], menu, reverse, path[0]);
      } else {
        InsertStep(parent, names, menu, reverse, path[0]);
      }
    } else {
      OffPathBelow(names, path);
      assert |names| > 1;
      InsertBelow(parent, names, menu, reverse, path);
      var child := Child(parent, path[0]);
      var sub, first := if child.Found? then child.menu else Fresh(path[0]), child.Found? && reverse;
      if |path| == 1 {
        InsertKeepsOwn(sub, JoinPath(names[1..]), menu, first);
        assert path <= names;
        assert path[1..] == [];
        assert At(parent, path) == child;
        assert At(Insert(parent, JoinPath(names), menu, reverse), path)
            == Found(Insert(sub, JoinPath(names[1..]), menu, first));
        assert Own(Fresh(path[0])) == Fresh(path[0]);
      } else {
        InsertElsewhere(sub, names[1..], menu, first, path[1..]);
        LastOfRest(path);
        AtBelow(parent, path);
      }
    }
  }

  lemma OffPathBelow(names: seq<string>, path: seq<string>)
    requires names != [] && path != [] && names[0] == path[0]
    ensures names[1..] <= path[1..] <==> names <= path
    ensures path[1..] <= names[1..] <==> path <= names
    ensures |names| == 1 ==> names <= path
  {
  }

  lemma {:induction false} InsertPathPlain(parent: Menu, names: seq<string>, menu: Menu, reverse: bool)
    requires Plain(parent) && PlainPath(names) && Plain(menu)
    ensures Plain(Insert(parent, JoinPath(names), menu, reverse))
    decreases |names|
  {
    FirstName(names);
    assert PlainName(names[0]);
    var k := Position(parent.subs, names[0]);
    if |names| == 1 {
      if k < |parent.subs| {
        MergeKeepsName(parent.subs[k], menu, reverse);
        MergePlain(parent.subs[k], menu, reverse);
        ReplacePlain(parent, k, Merge(parent.subs[k], menu, reverse));
      } else {
        AppendPlain(parent, menu.(name := names[0]));
      }
    } else {
      var rest := JoinPath(names[1..]);
      if k < |parent.subs| {
        InsertKeepsOwn(parent.subs[k], rest, menu, reverse);
        InsertPathPlain(parent.subs[k], names[1..], menu, reverse);
        ReplacePlain(parent, k, Insert(parent.subs[k], rest, menu, reverse));
      } else {
        InsertKeepsOwn(Fresh(names[0]), rest, menu, false);
        InsertPathPlain(Fresh(names[0]), names[1..], menu, false);
        AppendPlain(parent, Insert(Fresh(names[0]), rest, menu, false));
      }
    }
  }

  // ---------- Taking out ----------

  lemma RemoveChild(m: Menu, k: nat, name: string)
    requires DistinctNames(m.subs) && k < |m.subs|
    ensures var r := m.(subs := m.subs[..k] + m.subs[k + 1..]);
      Child(r, name) == if name == m.subs[k].name then Missing else Child(m, name)
  {
    var r := m.(subs := m.subs[..k] + m.subs[k + 1..]);
    var j := Position(m.subs, name);
    if name != m.subs[k].name && j < |m.subs| {
      var j' := if j < k then j else j - 1;
      assert r.subs[j'] == m.subs[j];
      PositionIs(r.subs, j');
    }
  }

  lemma RemovePlain(m: Menu, k: nat)
    requires Plain(m) && k < |m.subs|
    ensures Plain(m.(subs := m.subs[..k] + m.subs[k + 1..]))
  {
  }

  lemma TakeStep(parent: Menu, names: seq<string>)
    requires PlainPath(names) && names[0] != "" && |names| > 1
    ensures Take(parent, JoinPath(names)) ==
      var k := Position(parent.subs, names[0]);
      if k == |parent.subs| then (parent, Missing)
      else
        var (left, taken) := Take(parent.subs[k], JoinPath(names[1..]));
        (parent.(subs := parent.subs[k := left]), taken)
  {
    FirstName(names);
  }

  lemma {:induction false} TakeKeepsOwn(parent: Menu, path: string)
    ensures Own(Take(parent, path).0) == Own(parent)
  {
  }

  lemma ReplaceSame(m: Menu, k: nat)
    requires k < |m.subs|
    ensures m.(subs := m.subs[k := m.subs[k]]) == m
  {
  }

  /** What is taken is what was at the path; if there is nothing, nothing changes. */
  lemma {:induction false} TakeTakes(parent: Menu, names: seq<string>)
    requires Plain(parent) && SolidPath(names)
    ensures var (left, taken) := Take(parent, JoinPath(names));
      taken == At(parent, names) && Plain(left) && (taken == Missing ==> left == parent)
    decreases |names|
  {
    var k := Position(parent.subs, names[0]);
    FirstName(names);
    if |names| == 1 {
      if k < |parent.subs| { RemovePlain(parent, k); }
    } else {
      TakeStep(parent, names);
      if k < |parent.subs| {
        TakeTakes(parent.subs[k], names[1..]);
        TakeKeepsOwn(parent.subs[k], JoinPath(names[1..]));
        ReplacePlain(parent, k, Take(parent.subs[k], JoinPath(names[1..])).0);
        ReplaceSame(parent, k);
      }
    }
  }

  lemma TakeHere(parent: Menu, target: string, name: string)
    requires Plain(parent) && PlainName(target)
    ensures Child(Take(parent, target).0, name) == if name == target then Missing else Child(parent, name)
  {
    NoSlash(target);
    var k := Position(parent.subs, target);
    if k < |parent.subs| { RemoveChild(parent, k, name); }
  }

  lemma TakeBelow(parent: Menu, names: seq<string>)
    requires Plain(parent) && SolidPath(names) && |names| > 1
    ensures Child(Take(parent, JoinPath(names)).0, names[0])
         == match Child(parent, names[0])
            case Found(sub) => Found(Take(sub, JoinPath(names[1..])).0)
            case Missing => Missing
  {
    TakeStep(parent, names);
    var k := Position(parent.subs, names[0]);
    if k < |parent.subs| {
      TakeKeepsOwn(parent.subs[k], JoinPath(names[1..]));
      ReplaceChild(parent, k, Take(parent.subs[k], JoinPath(names[1..])).0, names[0]);
    }
  }

  lemma TakeBeside(parent: Menu, names: seq<string>, name: string)
    requires Plain(parent) && SolidPath(names) && |names| > 1 && name != names[0]
    ensures Child(Take(parent, JoinPath(names)).0, name) == Child(parent, name)
  {
    TakeStep(parent, names);
    var k := Position(parent.subs, names[0]);
    if k < |parent.subs| {
      TakeKeepsOwn(parent.subs[k], JoinPath(names[1..]));
      ReplaceChild(parent, k, Take(parent.subs[k], JoinPath(names[1..])).0, name);
    }
  }

  /** A path with an empty inner name takes nothing: the search then looks for a name that
      contains a slash. */
  lemma {:induction false} TakeNotSolid(parent: Menu, names: seq<string>)
    requires Plain(parent) && PlainPath(names) && !SolidPath(names)
    ensures Take(parent, JoinPath(names)) == (parent, Missing)
    decreases |names|
  {
    FirstName(names);
    if names[0] == "" {
      var path := JoinPath(names);
      assert path[0] == '/';
      var k := Position(parent.subs, path);
      assert k < |parent.subs| ==> PlainName(parent.subs[k].name);
    } else {
      TakeStep(parent, names);
      var k := Position(parent.subs, names[0]);
      if k < |parent.subs| {
        var j :| 0 <= j < |names| - 1 && names[j] == "";
        assert names[1..][j - 1] == "";
        TakeNotSolid(parent.subs[k], names[1..]);
        ReplaceSame(parent, k);
      }
    }
  }

  /** Nothing is left at the path or below, and all other menus keep their own part. */
  lemma {:induction false} TakeAt(parent: Menu, names: seq<string>, path: seq<string>)
    requires Plain(parent) && SolidPath(names)
    ensures var left := Take(parent, JoinPath(names)).0;
      if names <= path then At(left, path) == Missing else SameOwn(At(parent, path), At(left, path))
    decreases |names|
  {
    TakeKeepsOwn(parent, JoinPath(names));
    if path != [] {
      if |names| == 1 {
        TakeHere(parent, names[0], path[0]);
        if path[0] == names[0] { OffPathBelow(names, path); }
      } else if path[0] != names[0] {
        TakeBeside(parent, names, path[0]);
      } else {
        TakeBelow(parent, names);
        OffPathBelow(names, path);
        if Child(parent, path[0]).Found? {
          TakeAt(Child(parent, path[0]).menu, names[1..], path[1..]);
        }
      }
    }
  }

  ghost predicate SameOwn(before: Found, after: Found) {
    match before
    case Found(m) => after.Found? && Own(after.menu) == Own(m)
    case Missing => after == Missing
  }

  /** Menus off the path are kept with all below them. */
  lemma {:induction false} TakeOffPath(parent: Menu, names: seq<string>, path: seq<string>)
    requires Plain(parent) && SolidPath(names)
    requires !(names <= path) && !(path <= names)
    ensures At(Take(parent, JoinPath(names)).0, path) == At(parent, path)
    decreases |names|
  {
    if path[0] != names[0] {
      if |names| == 1 {
        TakeHere(parent, names[0], path[0]);
      } else {
        TakeBeside(parent, names, path[0]);
      }
    } else {
      OffPathBelow(names, path);
      TakeBelow(parent, names);
      if Child(parent, path[0]).Found? {
        TakeOffPath(Child(parent, path[0]).menu, names[1..], path[1..]);
      }
    }
  }

  /** `Move` puts the menu from one path to another: merged below the menu that is there, with all
      below it, or under the last name of the new path. */
  lemma MoveTarget(parent: Menu, orig: seq<string>, dest: seq<string>)
    requires Plain(parent) && SolidPath(orig) && PlainPath(dest)
    requires JoinPath(orig) != "" && JoinPath(dest) != ""
    ensures var result, left := Move(parent, JoinPath(orig), JoinPath(dest)), Take(parent, JoinPath(orig)).0;
      match At(parent, orig)
      case Missing => result == parent
      case Found(menu) =>
        && At(result, dest) == PutAt(At(left, dest), menu, Last(dest), true)
        && (orig <= dest ==> At(left, dest) == Missing)
        && (!(orig <= dest) ==> SameOwn(At(parent, dest), At(left, dest)))
        && (!(orig <= dest) && !(dest <= orig) ==> At(left, dest) == At(parent, dest))
  {
    TakeTakes(parent, orig);
    TakeAt(parent, orig, dest);
    if At(parent, orig).Found? {
      InsertAtTarget(Take(parent, JoinPath(orig)).0, dest, At(parent, orig).menu, true);
      if !(orig <= dest) && !(dest <= orig) { TakeOffPath(parent, orig, dest); }
    }
  }

  /** A menu made on the way shows nothing, excludes nothing, is not deleted and has no attributes. */
  lemma FreshIsEmpty(name: string)
    ensures Fresh(name) == Menu(name, map[], map[], false, Look("", "", ""), [])
  {
  }

  /** A move without an old or a new path moves nothing. */
  lemma NoPathNoMove(parent: Menu, orig: string, dest: string)
    requires orig == "" || dest == ""
    ensures Move(parent, orig, dest) == parent
  {
  }

  /** The old path is empty afterwards; menus at neither path keep their own part, and all below
      them when they are on the way to neither; and the only new menus are empty ones on the way. */
  lemma MoveElsewhere(parent: Menu, orig: seq<string>, dest: seq<string>, path: seq<string>)
    requires Plain(parent) && SolidPath(orig) && PlainPath(dest)
    requires JoinPath(orig) != "" && JoinPath(dest) != ""
    requires At(parent, orig).Found? && path != [] && !(dest <= path)
    ensures var after := At(Move(parent, JoinPath(orig), JoinPath(dest)), path);
      match if orig <= path then Missing else At(parent, path)
      case Found(m) => after.Found? && Own(after.menu) == Own(m)
        && (!(path <= orig) && !(path <= dest) ==> after.menu == m)
      case Missing => if path <= dest then after.Found? && Own(after.menu) == Fresh(Last(path)) else after == Missing
  {
    TakeTakes(parent, orig);
    TakeAt(parent, orig, path);
    InsertElsewhere(Take(parent, JoinPath(orig)).0, dest, At(parent, orig).menu, true, path);
    if !(orig <= path) && !(path <= orig) { TakeOffPath(parent, orig, path); }
  }

  // ---------- Every path string is a path of names ----------

  function SplitPath(path: string): (names: seq<string>)
    ensures names != []
    decreases |path|
  {
    var i := Find(path, '/', 0);
    if i == -1 then [path] else [path[..i]] + SplitPath(path[i + 1..])
  }

  lemma JoinFront(name: string, names: seq<string>)
    requires names != []
    ensures JoinPath([name] + names) == name + "/" + JoinPath(names)
    ensures PlainName(name) && PlainPath(names) ==> PlainPath([name] + names)
  {
    assert ([name] + names)[1..] == names;
  }

  lemma {:induction false} SplitJoins(path: string)
    ensures PlainPath(SplitPath(path)) && JoinPath(SplitPath(path)) == path
    decreases |path|
  {
    var i := Find(path, '/', 0);
    if i == -1 {
      assert JoinPath([path]) == path;
    } else {
      SplitJoins(path[i + 1..]);
      JoinFront(path[..i], SplitPath(path[i + 1..]));
      assert path == path[..i] + "/" + path[i + 1..];
    }
  }

  lemma {:induction false} AtPlain(m: Menu, path: seq<string>)
    requires Plain(m) && At(m, path).Found?
    ensures Plain(At(m, path).menu)
    decreases |path|
  {
    if path != [] {
      assert PlainSubs(m.subs);
      AtPlain(Child(m, path[0]).menu, path[1..]);
    }
  }

  /** A move by any two path strings keeps sibling names distinct. */
  lemma MovePlain(m: Menu, orig: string, dest: string)
    requires Plain(m)
    ensures Plain(Move(m, orig, dest))
  {
    var o, d := SplitPath(orig), SplitPath(dest);
    SplitJoins(orig);
    SplitJoins(dest);
    if SolidPath(o) {
      TakeTakes(m, o);
      if At(m, o).Found? {
        AtPlain(m, o);
        InsertPathPlain(Take(m, orig).0, d, At(m, o).menu, true);
      }
    } else {
      TakeNotSolid(m, o);
    }
  }
}
