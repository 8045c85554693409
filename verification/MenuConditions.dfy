/** Which applications a menu rule selects: evaluation of the And/Or/Not/Category/All/Filename
    trees of a menu file over the applications in scope, and the category index behind it. */
module MenuConditions {
  import opened Lists

  datatype Service = Service(menuId: string, categories: seq<string>)

  /** A dictionary from menu ids to services. */
  type Apps = map<string, Service>

  /** The children of a rule: elements, elements the evaluator does not know, and comments. */
  datatype Condition =
    | And(args: seq<Condition>)
    | Or(args: seq<Condition>)
    | Not(args: seq<Condition>)
    | Category(name: string)
    | All
    | Filename(id: string)
    | Unknown
    | Comment

  /** Services are filed under their own menu id. */
  ghost predicate Keyed(m: Apps) {
    forall id :: id in m ==> m[id].menuId == id
  }

  ghost predicate ScopeKeyed(scope: seq<Apps>) {
    forall i :: 0 <= i < |scope| ==> Keyed(scope[i])
  }

  /** Some frame of the scope has the application. */
  ghost predicate InScope(scope: seq<Apps>, id: string) {
    exists i :: 0 <= i < |scope| && id in scope[i]
  }

  // ---------- What a condition means ----------

  /** Two readings of a condition: what it is meant to say, where comments say nothing; and what the
      evaluator takes it for, where an `And` with a late comment fits no application. */
  datatype Reading = Meant | Coded

  /** Whether the application `id`, which is in scope, fits a condition. */
  ghost predicate Fits(c: Condition, scope: seq<Apps>, id: string, how: Reading)
    decreases c, 1
  {
    match c
    case And(args) =>
      HasElement(args) && (how.Coded? ==> !LateComment(args)) && AllFit(args, scope, id, how)
    case Or(args) => AnyFits(args, scope, id, how)
    case Not(args) => !AnyFits(args, scope, id, how)
    case Category(name) => exists i :: 0 <= i < |scope| && HasCategory(scope[i], id, name)
    case All => true
    case Filename(file) => id == file
    case Unknown => false
    case Comment => false
  }

  ghost predicate HasElement(args: seq<Condition>) {
    exists k :: 0 <= k < |args| && args[k] != Comment
  }

  /** A comment stands behind the first element. */
  ghost predicate LateComment(args: seq<Condition>) {
    exists k :: FirstElement(args) < k < |args| && args[k] == Comment
  }

  /** Every child that is no comment fits. */
  ghost predicate AllFit(args: seq<Condition>, scope: seq<Apps>, id: string, how: Reading)
    decreases args, 0
  {
    forall k :: 0 <= k < |args| && args[k] != Comment ==> Fits(args[k], scope, id, how)
  }

  ghost predicate AnyFits(args: seq<Condition>, scope: seq<Apps>, id: string, how: Reading)
    decreases args, 0
  {
    exists k :: 0 <= k < |args| && Fits(args[k], scope, id, how)
  }

  predicate HasCategory(apps: Apps, id: string, name: string) {
    id in apps && name in apps[id].categories
  }

  // ---------- What the evaluator computes ----------

  /** All applications of the scope; outer frames come later and replace. */
  function Everything(scope: seq<Apps>): Apps {
    if scope == [] then map[] else scope[0] + Everything(scope[1..])
  }

  function OfCategory(apps: Apps, name: string): Apps {
    map id | id in apps && HasCategory(apps, id, name) :: apps[id]
  }

  function InCategory(scope: seq<Apps>, name: string): Apps {
    if scope == [] then map[] else OfCategory(scope[0], name) + InCategory(scope[1..], name)
  }

  /** `findApplication`, as a dictionary of at most one entry. */
  function Named(scope: seq<Apps>, id: string): Apps {
    if scope == [] then map[]
    else if id in scope[0] then map[id := scope[0][id]]
    else Named(scope[1..], id)
  }

  /** `matchItems`. */
  function Match(items: Apps, others: Apps): Apps {
    map id | id in items && id in others :: items[id]
  }

  /** The index of the first child that is an element. */
  function FirstElement(args: seq<Condition>): (i: nat)
    ensures i <= |args|
    ensures i < |args| ==> args[i] != Comment
    ensures forall k :: 0 <= k < i ==> args[k] == Comment
  {
    if args == [] || args[0] != Comment then 0 else 1 + FirstElement(args[1..])
  }

  /** `processCondition`: what it makes of the dictionary it is given. */
  function Eval(c: Condition, scope: seq<Apps>, items: Apps): Apps
    decreases c, 0
  {
    match c
    case And(args) =>
      var i := FirstElement(args);
      if i == |args| then items else Narrow(args[i + 1..], scope, Eval(args[i], scope, items))
    case Or(args) =>
      var i := FirstElement(args);
      if i == |args| then items else Widen(args[i + 1..], scope, Eval(args[i], scope, items))
    case Not(args) => Subtract(args, scope, items + Everything(scope))
    case Category(name) => items + InCategory(scope, name)
    case All => items + Everything(scope)
    case Filename(id) => items + Named(scope, id)
    case Unknown => items
    case Comment => items
  }

  /** The later children of an `And`; a `Not` among them is subtracted. */
  function Narrow(rest: seq<Condition>, scope: seq<Apps>, items: Apps): Apps
    decreases rest, 2
  {
    if rest == [] then items
    else
      Narrow(rest[1..], scope, NarrowBy(rest[0], scope, items))
  }

  function NarrowBy(c: Condition, scope: seq<Apps>, items: Apps): Apps
    decreases c, 1
  {
    if c.Not? then Subtract(c.args, scope, items) else Match(items, Eval(c, scope, map[]))
  }

  /** The later children of an `Or`. */
  function Widen(rest: seq<Condition>, scope: seq<Apps>, items: Apps): Apps
    decreases rest, 0
  {
    if rest == [] then items
    else Widen(rest[1..], scope, items + Eval(rest[0], scope, map[]))
  }

  /** The children of a `Not`. */
  function Subtract(rest: seq<Condition>, scope: seq<Apps>, items: Apps): Apps
    decreases rest, 0
  {
    if rest == [] then items
    else Subtract(rest[1..], scope, items - Eval(rest[0], scope, map[]).Keys)
  }

  // ---------- Evaluation means what it should ----------

  /** No `And`, at any depth, has a comment behind its first element. */
  ghost predicate NoLateComments(c: Condition) {
    match c
    case And(args) => !LateComment(args) && forall k :: 0 <= k < |args| ==> NoLateComments(args[k])
    case Or(args) => forall k :: 0 <= k < |args| ==> NoLateComments(args[k])
    case Not(args) => forall k :: 0 <= k < |args| ==> NoLateComments(args[k])
    case _ => true
  }

  /** Without late comments the two readings agree. */
  lemma {:induction false} ReadingsAgree(c: Condition, scope: seq<Apps>, id: string)
    requires NoLateComments(c)
    ensures Fits(c, scope, id, Coded) <==> Fits(c, scope, id, Meant)
    decreases c
  {
    if c.And? || c.Or? || c.Not? {
      forall k | 0 <= k < |c.args|
        ensures Fits(c.args[k], scope, id, Coded) <==> Fits(c.args[k], scope, id, Meant)
      {
        ReadingsAgree(c.args[k], scope, id);
      }
    }
  }

  lemma {:induction false} EverythingAt(scope: seq<Apps>, id: string)
    ensures id in Everything(scope) <==> InScope(scope, id)
  {
    if scope != [] {
      EverythingAt(scope[1..], id);
      if InScope(scope[1..], id) {
        var i :| 0 <= i < |scope[1..]| && id in scope[1..][i];
        assert id in scope[i + 1];
      }
      if InScope(scope, id) && id !in scope[0] {
        var i :| 0 <= i < |scope| && id in scope[i];
        assert id in scope[1..][i - 1];
      }
    }
  }

  lemma {:induction false} CategoryAt(scope: seq<Apps>, name: string, id: string)
    ensures id in InCategory(scope, name) <==> exists i :: 0 <= i < |scope| && HasCategory(scope[i], id, name)
  {
    if scope != [] {
      CategoryAt(scope[1..], name, id);
      if i :| 0 <= i < |scope[1..]| && HasCategory(scope[1..][i], id, name) {
        assert HasCategory(scope[i + 1], id, name);
      }
      if i :| 1 <= i < |scope| && HasCategory(scope[i], id, name) {
        assert HasCategory(scope[1..][i - 1], id, name);
      }
    }
  }

  lemma {:induction false} NamedAt(scope: seq<Apps>, file: string, id: string)
    ensures id in Named(scope, file) <==> id == file && InScope(scope, id)
  {
    if scope != [] {
      NamedAt(scope[1..], file, id);
      if InScope(scope[1..], id) {
        var i :| 0 <= i < |scope[1..]| && id in scope[1..][i];
        assert id in scope[i + 1];
      }
      if InScope(scope, id) && id !in scope[0] {
        var i :| 0 <= i < |scope| && id in scope[i];
        assert id in scope[1..][i - 1];
      }
    }
  }

  /** The evaluator, started from nothing, selects exactly the applications in scope that fit the rule
      as it is coded, for every rule tree. */
  lemma {:induction false} EvalCodes(c: Condition, scope: seq<Apps>, id: string)
    ensures id in Eval(c, scope, map[]) <==> InScope(scope, id) && Fits(c, scope, id, Coded)
    decreases c, 0
  {
    match c
    case And(args) =>
      var i := FirstElement(args);
      if i < |args| {
        EvalCodes(args[i], scope, id);
        NarrowMeans(args[i + 1..], scope, Eval(args[i], scope, map[]), id);
        AndSplits(args, scope, id);
      }
    case Or(args) =>
      var i := FirstElement(args);
      if i < |args| {
        EvalCodes(args[i], scope, id);
        WidenMeans(args[i + 1..], scope, Eval(args[i], scope, map[]), id);
        OrSplits(args, scope, id);
      } else {
        CommentsMatchNothing(args, scope, id);
      }
    case Not(args) =>
      EverythingAt(scope, id);
      SubtractMeans(args, scope, map[] + Everything(scope), id);
    case Category(name) =>
      CategoryAt(scope, name, id);
    case All =>
      EverythingAt(scope, id);
    case Filename(file) =>
      NamedAt(scope, file, id);
    case Unknown =>
    case Comment =>
  }

  lemma CommentsMatchNothing(args: seq<Condition>, scope: seq<Apps>, id: string)
    requires FirstElement(args) == |args|
    ensures !AnyFits(args, scope, id, Coded) && !HasElement(args)
  {
  }

  lemma AndSplits(args: seq<Condition>, scope: seq<Apps>, id: string)
    requires FirstElement(args) < |args|
    ensures
      var i := FirstElement(args);
      HasElement(args) && (LateComment(args) <==> Comment in args[i + 1..])
      && (AllFit(args, scope, id, Coded)
          <==> Fits(args[i], scope, id, Coded) && AllFit(args[i + 1..], scope, id, Coded))
  {
  }

  lemma AllSplits(rest: seq<Condition>, scope: seq<Apps>, id: string)
    requires rest != []
    ensures AllFit(rest, scope, id, Coded)
       <==> (rest[0] != Comment ==> Fits(rest[0], scope, id, Coded)) && AllFit(rest[1..], scope, id, Coded)
    ensures Comment in rest <==> rest[0] == Comment || Comment in rest[1..]
  {
  }

  lemma OrSplits(args: seq<Condition>, scope: seq<Apps>, id: string)
    requires FirstElement(args) < |args|
    ensures
      var i := FirstElement(args);
      var rest := args[i + 1..];
      AnyFits(args, scope, id, Coded) <==> Fits(args[i], scope, id, Coded) || AnyFits(rest, scope, id, Coded)
  {
  }

  lemma {:induction false} NarrowMeans(rest: seq<Condition>, scope: seq<Apps>, items: Apps, id: string)
    requires id in items ==> InScope(scope, id)
    ensures id in Narrow(rest, scope, items) <==> id in items && Comment !in rest && AllFit(rest, scope, id, Coded)
    decreases rest, 1
  {
    if rest != [] {
      NarrowByMeans(rest[0], scope, items, id);
      NarrowMeans(rest[1..], scope, NarrowBy(rest[0], scope, items), id);
      AllSplits(rest, scope, id);
    }
  }

  lemma {:induction false} NarrowByMeans(c: Condition, scope: seq<Apps>, items: Apps, id: string)
    requires id in items ==> InScope(scope, id)
    ensures id in NarrowBy(c, scope, items) <==> id in items && Fits(c, scope, id, Coded)
    decreases c, 1
  {
    if c.Not? {
      SubtractMeans(c.args, scope, items, id);
    } else {
      EvalCodes(c, scope, id);
    }
  }

  lemma {:induction false} WidenMeans(rest: seq<Condition>, scope: seq<Apps>, items: Apps, id: string)
    requires id in items ==> InScope(scope, id)
    ensures id in Widen(rest, scope, items)
      <==> id in items || (InScope(scope, id) && AnyFits(rest, scope, id, Coded))
    decreases rest, 1
  {
    if rest != [] {
      EvalCodes(rest[0], scope, id);
      WidenMeans(rest[1..], scope, items + Eval(rest[0], scope, map[]), id);
      ExistsSplits(rest, scope, id);
    }
  }

  lemma {:induction false} SubtractMeans(rest: seq<Condition>, scope: seq<Apps>, items: Apps, id: string)
    requires id in items ==> InScope(scope, id)
    ensures id in Subtract(rest, scope, items)
      <==> id in items && !AnyFits(rest, scope, id, Coded)
    decreases rest, 1
  {
    if rest != [] {
      EvalCodes(rest[0], scope, id);
      SubtractMeans(rest[1..], scope, items - Eval(rest[0], scope, map[]).Keys, id);
      ExistsSplits(rest, scope, id);
    }
  }

  lemma ExistsSplits(rest: seq<Condition>, scope: seq<Apps>, id: string)
    requires rest != []
    ensures AnyFits(rest, scope, id, Coded)
       <==> Fits(rest[0], scope, id, Coded) || AnyFits(rest[1..], scope, id, Coded)
  {
  }

  /** So without late comments it selects exactly the applications in scope that the rule means. */
  lemma EvalMeans(c: Condition, scope: seq<Apps>, id: string)
    ensures NoLateComments(c) ==>
      (id in Eval(c, scope, map[]) <==> InScope(scope, id) && Fits(c, scope, id, Meant))
  {
    EvalCodes(c, scope, id);
    if NoLateComments(c) { ReadingsAgree(c, scope, id); }
  }

  /** Whatever the comments, the evaluator adds only applications in scope. */
  lemma {:induction false} EvalWithin(c: Condition, scope: seq<Apps>, items: Apps, id: string)
    requires id in Eval(c, scope, items)
    ensures id in items || InScope(scope, id)
    decreases c, 0
  {
    match c
    case And(args) =>
      var i := FirstElement(args);
      if i < |args| {
        NarrowWithin(args[i + 1..], scope, Eval(args[i], scope, items), id);
        EvalWithin(args[i], scope, items, id);
      }
    case Or(args) =>
      var i := FirstElement(args);
      if i < |args| {
        WidenWithin(args[i + 1..], scope, Eval(args[i], scope, items), id);
        if id in Eval(args[i], scope, items) { EvalWithin(args[i], scope, items, id); }
      }
    case Not(args) =>
      SubtractWithin(args, scope, items + Everything(scope), id);
      EverythingAt(scope, id);
    case Category(name) =>
      CategoryAt(scope, name, id);
    case All =>
      EverythingAt(scope, id);
    case Filename(file) =>
      NamedAt(scope, file, id);
    case Unknown =>
    case Comment =>
  }

  lemma {:induction false} NarrowWithin(rest: seq<Condition>, scope: seq<Apps>, items: Apps, id: string)
    requires id in Narrow(rest, scope, items)
    ensures id in items
    decreases |rest|
  {
    if rest != [] {
      NarrowWithin(rest[1..], scope, NarrowBy(rest[0], scope, items), id);
      if rest[0].Not? { SubtractWithin(rest[0].args, scope, items, id); }
    }
  }

  lemma {:induction false} SubtractWithin(rest: seq<Condition>, scope: seq<Apps>, items: Apps, id: string)
    requires id in Subtract(rest, scope, items)
    ensures id in items
    decreases |rest|
  {
    if rest != [] {
      SubtractWithin(rest[1..], scope, items - Eval(rest[0], scope, map[]).Keys, id);
    }
  }

  lemma {:induction false} WidenWithin(rest: seq<Condition>, scope: seq<Apps>, items: Apps, id: string)
    requires id in Widen(rest, scope, items)
    ensures id in items || InScope(scope, id)
    decreases rest, 0
  {
    if rest != [] {
      WidenWithin(rest[1..], scope, items + Eval(rest[0], scope, map[]), id);
      if id in Eval(rest[0], scope, map[]) { EvalWithin(rest[0], scope, map[], id); }
    }
  }

  ghost function Fitting(c: Condition, scope: seq<Apps>, how: Reading): set<string> {
    set id | id in Everything(scope) && Fits(c, scope, id, how)
  }

  /** The set of ids a condition selects is the set of fitting ids in scope. */
  lemma EvalSelects(c: Condition, scope: seq<Apps>)
    ensures Eval(c, scope, map[]).Keys == Fitting(c, scope, Coded)
    ensures NoLateComments(c) ==> Fitting(c, scope, Coded) == Fitting(c, scope, Meant)
  {
    forall id
      ensures id in Eval(c, scope, map[]).Keys <==> id in Fitting(c, scope, Coded)
      ensures NoLateComments(c) ==> (id in Fitting(c, scope, Coded) <==> id in Fitting(c, scope, Meant))
    {
      EvalCodes(c, scope, id);
      EverythingAt(scope, id);
      if NoLateComments(c) { ReadingsAgree(c, scope, id); }
    }
  }

  /** The special treatment of "and not": subtracting the children of a `Not` from items that
      are in scope is intersecting with its own evaluation. */
  lemma AndNotIsComplement(args: seq<Condition>, scope: seq<Apps>, items: Apps)
    requires forall id :: id in items ==> InScope(scope, id)
    ensures Subtract(args, scope, items).Keys == Match(items, Eval(Not(args), scope, map[])).Keys
  {
    forall id
      ensures id in Subtract(args, scope, items) <==> id in Match(items, Eval(Not(args), scope, map[]))
    {
      SubtractMeans(args, scope, items, id);
      EvalCodes(Not(args), scope, id);
    }
  }

  /** What evaluation makes of an application that is in the dictionary from the start (`held`), or not. */
  ghost predicate Kept(c: Condition, scope: seq<Apps>, id: string, held: bool)
    decreases c
  {
    match c
    case And(args) =>
      var k := FirstElement(args);
      if k == |args| then held
      else !LateComment(args) && Kept(args[k], scope, id, held) && AllFit(args[k + 1..], scope, id, Coded)
    case Or(args) =>
      var k := FirstElement(args);
      if k == |args| then held
      else Kept(args[k], scope, id, held) || (InScope(scope, id) && AnyFits(args[k + 1..], scope, id, Coded))
    case Not(args) => (held || InScope(scope, id)) && !AnyFits(args, scope, id, Coded)
    case _ => held || (InScope(scope, id) && Fits(c, scope, id, Coded))
  }

  /** Evaluation from a dictionary that holds only applications in scope. */
  lemma {:induction false} EvalKeeps(c: Condition, scope: seq<Apps>, items: Apps, id: string)
    requires id in items ==> InScope(scope, id)
    ensures id in Eval(c, scope, items) <==> Kept(c, scope, id, id in items)
    decreases c
  {
    match c
    case And(args) =>
      var k := FirstElement(args);
      if k < |args| {
        EvalKeeps(args[k], scope, items, id);
        if id in Eval(args[k], scope, items) { EvalWithin(args[k], scope, items, id); }
        NarrowMeans(args[k + 1..], scope, Eval(args[k], scope, items), id);
        AndSplits(args, scope, id);
      }
    case Or(args) =>
      var k := FirstElement(args);
      if k < |args| {
        EvalKeeps(args[k], scope, items, id);
        if id in Eval(args[k], scope, items) { EvalWithin(args[k], scope, items, id); }
        WidenMeans(args[k + 1..], scope, Eval(args[k], scope, items), id);
      }
    case Not(args) =>
      EverythingAt(scope, id);
      SubtractMeans(args, scope, items + Everything(scope), id);
    case Category(name) => CategoryAt(scope, name, id);
    case All => EverythingAt(scope, id);
    case Filename(file) => NamedAt(scope, file, id);
    case Unknown =>
    case Comment =>
  }

  /** What a simple rule selects replaces what is there. */
  lemma SelectedReplaces(c: Condition, scope: seq<Apps>, items: Apps)
    requires c.Category? || c.All? || c.Filename?
    ensures Eval(c, scope, items) == items + Eval(c, scope, map[])
  {
  }

  // ---------- Which service is selected ----------

  /** Frame `i` of the scope is the one whose service a rule selects for a fitting application: for a
      category the last frame where it has the category, for a file name the first that has it, for
      `All` and `Not` the last; an `And` takes it from its first element, an `Or` from its last child
      that fits. */
  ghost predicate ComesFrom(c: Condition, scope: seq<Apps>, id: string, i: nat)
    decreases c
  {
    match c
    case And(args) =>
      var k := FirstElement(args); k < |args| && ComesFrom(args[k], scope, id, i)
    case Or(args) =>
      exists k :: 0 <= k < |args| && LastFitting(args, k, scope, id) && ComesFrom(args[k], scope, id, i)
    case Not(_) => LastWith(scope, id, i)
    case Category(name) =>
      i < |scope| && HasCategory(scope[i], id, name)
      && forall j :: i < j < |scope| ==> !HasCategory(scope[j], id, name)
    case All => LastWith(scope, id, i)
    case Filename(_) => i < |scope| && id in scope[i] && forall j :: 0 <= j < i ==> id !in scope[j]
    case Unknown => false
    case Comment => false
  }

  ghost predicate LastWith(scope: seq<Apps>, id: string, i: nat) {
    i < |scope| && id in scope[i] && forall j :: i < j < |scope| ==> id !in scope[j]
  }

  ghost predicate LastFitting(args: seq<Condition>, k: nat, scope: seq<Apps>, id: string) {
    && k < |args| && Fits(args[k], scope, id, Coded)
    && forall j :: k < j < |args| ==> !Fits(args[j], scope, id, Coded)
  }

  /** The service is the one of that frame. */
  ghost predicate ServedBy(m: Apps, c: Condition, scope: seq<Apps>, id: string) {
    && id in m
    && (exists i: nat :: ComesFrom(c, scope, id, i))
    && (forall i: nat :: ComesFrom(c, scope, id, i) ==> i < |scope| && id in scope[i] && m[id] == scope[i][id])
  }

  lemma {:induction false} EverythingFrom(scope: seq<Apps>, id: string)
    requires id in Everything(scope)
    ensures exists i: nat :: LastWith(scope, id, i)
    ensures forall i: nat :: LastWith(scope, id, i) ==> Everything(scope)[id] == scope[i][id]
  {
    var rest := scope[1..];
    if id in Everything(rest) {
      EverythingFrom(rest, id);
      var i: nat :| LastWith(rest, id, i);
      assert LastWith(scope, id, i + 1);
      forall j: nat | LastWith(scope, id, j)
        ensures Everything(scope)[id] == scope[j][id]
      {
        assert id in rest[i] && id in scope[i + 1];
        assert j > 0 && LastWith(rest, id, j - 1);
      }
    } else {
      forall j | 1 <= j < |scope|
        ensures id !in scope[j]
      {
        EverythingAt(rest, id);
        assert id in rest[j - 1] ==> InScope(rest, id);
      }
      assert LastWith(scope, id, 0);
    }
  }

  /** The applications of a category are all applications of the frames cut down to the category. */
  function CutDown(scope: seq<Apps>, name: string): (cut: seq<Apps>)
    ensures |cut| == |scope|
    ensures forall i :: 0 <= i < |scope| ==> cut[i] == OfCategory(scope[i], name)
  {
    seq(|scope|, i requires 0 <= i < |scope| => OfCategory(scope[i], name))
  }

  lemma {:induction false} CategoryIsCutDown(scope: seq<Apps>, name: string)
    ensures InCategory(scope, name) == Everything(CutDown(scope, name))
  {
    if scope != [] {
      CategoryIsCutDown(scope[1..], name);
      assert CutDown(scope, name)[1..] == CutDown(scope[1..], name);
    }
  }

  lemma {:induction false} NamedFrom(scope: seq<Apps>, file: string)
    requires file in Named(scope, file)
    ensures ServedBy(Named(scope, file), Filename(file), scope, file)
  {
    if file in scope[0] {
      assert ComesFrom(Filename(file), scope, file, 0);
    } else {
      NamedFrom(scope[1..], file);
      var i: nat :| ComesFrom(Filename(file), scope[1..], file, i);
      assert ComesFrom(Filename(file), scope, file, i + 1);
      forall j: nat | ComesFrom(Filename(file), scope, file, j)
        ensures Named(scope, file)[file] == scope[j][file]
      {
        assert j > 0 && ComesFrom(Filename(file), scope[1..], file, j - 1);
      }
    }
  }

  lemma {:induction false} NarrowKeeps(rest: seq<Condition>, scope: seq<Apps>, items: Apps, id: string)
    requires id in Narrow(rest, scope, items)
    ensures id in items && Narrow(rest, scope, items)[id] == items[id]
    decreases |rest|
  {
    if rest != [] {
      NarrowKeeps(rest[1..], scope, NarrowBy(rest[0], scope, items), id);
      if rest[0].Not? { SubtractKeeps(rest[0].args, scope, items, id); }
    }
  }

  lemma {:induction false} SubtractKeeps(rest: seq<Condition>, scope: seq<Apps>, items: Apps, id: string)
    requires id in Subtract(rest, scope, items)
    ensures id in items && Subtract(rest, scope, items)[id] == items[id]
    decreases |rest|
  {
    if rest != [] {
      SubtractKeeps(rest[1..], scope, items - Eval(rest[0], scope, map[]).Keys, id);
    }
  }

  /** Every selected application comes with the service of that frame. */
  lemma {:induction false} EvalServes(c: Condition, scope: seq<Apps>, id: string)
    requires id in Eval(c, scope, map[])
    ensures ServedBy(Eval(c, scope, map[]), c, scope, id)
    decreases c, 0
  {
    match c
    case And(args) =>
      var k := FirstElement(args);
      NarrowKeeps(args[k + 1..], scope, Eval(args[k], scope, map[]), id);
      EvalServes(args[k], scope, id);
      assert forall i: nat :: ComesFrom(c, scope, id, i) <==> ComesFrom(args[k], scope, id, i);
    case Or(args) =>
      OrServes(args, scope, id);
    case Not(args) =>
      SubtractKeeps(args, scope, map[] + Everything(scope), id);
      EverythingFrom(scope, id);
      LastServes(c, scope, id);
    case Category(name) =>
      CategoryServes(scope, name, id);
    case All =>
      EverythingFrom(scope, id);
      LastServes(c, scope, id);
    case Filename(file) =>
      NamedAt(scope, file, id);
      NamedFrom(scope, file);
    case Unknown =>
    case Comment =>
  }

  lemma LastServes(c: Condition, scope: seq<Apps>, id: string)
    requires c.Not? || c.All?
    ensures forall i: nat :: ComesFrom(c, scope, id, i) <==> LastWith(scope, id, i)
  {
  }

  lemma CategoryServes(scope: seq<Apps>, name: string, id: string)
    requires id in InCategory(scope, name)
    ensures ServedBy(InCategory(scope, name), Category(name), scope, id)
  {
    var cut := CutDown(scope, name);
    CategoryIsCutDown(scope, name);
    EverythingFrom(cut, id);
    forall i: nat
      ensures ComesFrom(Category(name), scope, id, i) <==> LastWith(cut, id, i)
    {
    }
  }

  /** The entry of `id` is that of the last of the first `n` children that fits. */
  ghost predicate FromLast(args: seq<Condition>, n: nat, scope: seq<Apps>, id: string, m: Apps)
    requires n <= |args|
  {
    exists k: nat :: LastFitting(args[..n], k, scope, id) && SameService(m, Eval(args[k], scope, map[]), id)
  }

  ghost predicate SameService(m: Apps, m': Apps, id: string) {
    id in m && id in m' && m[id] == m'[id]
  }

  /** The last child that fits has the say. */
  lemma {:induction false} OrServes(args: seq<Condition>, scope: seq<Apps>, id: string)
    requires id in Eval(Or(args), scope, map[])
    ensures ServedBy(Eval(Or(args), scope, map[]), Or(args), scope, id)
    decreases args, 1
  {
    var f := FirstElement(args);
    var first := Eval(args[f], scope, map[]);
    EvalCodes(args[f], scope, id);
    if id in first { assert LastFitting(args[..f + 1], f, scope, id) && SameService(first, first, id); }
    WidenServes(args, f + 1, scope, first, id);
    assert args[..|args|] == args;
    var k: nat :| LastFitting(args, k, scope, id)
      && SameService(Eval(Or(args), scope, map[]), Eval(args[k], scope, map[]), id);
    EvalServes(args[k], scope, id);
    OneLastFitting(args, k, scope, id);
    assert forall i: nat :: ComesFrom(Or(args), scope, id, i) <==> ComesFrom(args[k], scope, id, i);
  }

  lemma OneLastFitting(args: seq<Condition>, k: nat, scope: seq<Apps>, id: string)
    requires LastFitting(args, k, scope, id)
    ensures forall j: nat :: LastFitting(args, j, scope, id) ==> j == k
  {
  }

  /** From child `n` on. */
  lemma {:induction false} WidenServes(args: seq<Condition>, n: nat, scope: seq<Apps>, items: Apps, id: string)
    requires n <= |args| && id in Widen(args[n..], scope, items)
    requires id in items ==> FromLast(args, n, scope, id, items)
    ensures FromLast(args, |args|, scope, id, Widen(args[n..], scope, items))
    decreases |args| - n
  {
    if n < |args| {
      assert args[n..][0] == args[n] && args[n..][1..] == args[n + 1..];
      OneMoreChild(args, n, scope, items, id);
      WidenServes(args, n + 1, scope, items + Eval(args[n], scope, map[]), id);
    }
  }

  lemma OneMoreChild(args: seq<Condition>, n: nat, scope: seq<Apps>, items: Apps, id: string)
    requires n < |args| && (id in items ==> FromLast(args, n, scope, id, items))
    ensures var next := items + Eval(args[n], scope, map[]);
      id in next ==> FromLast(args, n + 1, scope, id, next)
  {
    var here := Eval(args[n], scope, map[]);
    EvalCodes(args[n], scope, id);
    if id in here {
      LastIsHere(args, n, scope, items, here, id);
    } else if id in items {
      LastIsBefore(args, n, scope, items, here, id);
    }
  }

  lemma LastIsHere(args: seq<Condition>, n: nat, scope: seq<Apps>, items: Apps, here: Apps, id: string)
    requires n < |args| && here == Eval(args[n], scope, map[]) && id in here && Fits(args[n], scope, id, Coded)
    ensures FromLast(args, n + 1, scope, id, items + here)
  {
    assert LastFitting(args[..n + 1], n, scope, id) && SameService(items + here, here, id);
  }

  lemma LastIsBefore(args: seq<Condition>, n: nat, scope: seq<Apps>, items: Apps, here: Apps, id: string)
    requires n < |args| && FromLast(args, n, scope, id, items)
    requires id in items && id !in here && (InScope(scope, id) ==> !Fits(args[n], scope, id, Coded))
    ensures FromLast(args, n + 1, scope, id, items + here)
  {
    var k: nat :| LastFitting(args[..n], k, scope, id) && SameService(items, Eval(args[k], scope, map[]), id);
    EvalCodes(args[k], scope, id);
    assert LastFitting(args[..n + 1], k, scope, id);
    assert SameService(items + here, Eval(args[k], scope, map[]), id);
  }

  // ---------- Comments inside an And ----------

  lemma {:induction false} NarrowNothing(rest: seq<Condition>, scope: seq<Apps>)
    ensures Narrow(rest, scope, map[]) == map[]
    decreases |rest|
  {
    if rest != [] {
      if rest[0].Not? { SubtractNothing(rest[0].args, scope); }
      assert NarrowBy(rest[0], scope, map[]) == map[];
      NarrowNothing(rest[1..], scope);
    }
  }

  lemma {:induction false} SubtractNothing(rest: seq<Condition>, scope: seq<Apps>)
    ensures Subtract(rest, scope, map[]) == map[]
    decreases |rest|
  {
    if rest != [] {
      var none: Apps := map[];
      assert none - Eval(rest[0], scope, map[]).Keys == map[];
      SubtractNothing(rest[1..], scope);
    }
  }

  lemma {:induction false} NarrowByComment(rest: seq<Condition>, scope: seq<Apps>, items: Apps)
    requires Comment in rest
    ensures Narrow(rest, scope, items) == map[]
    decreases |rest|
  {
    if rest[0] == Comment {
      assert Match(items, map[]) == map[];
      NarrowNothing(rest[1..], scope);
    } else {
      NarrowByComment(rest[1..], scope, NarrowBy(rest[0], scope, items));
    }
  }

  /** A comment behind the first element of an `And` empties whatever it is given. */
  lemma LateCommentEmptiesAnd(args: seq<Condition>, scope: seq<Apps>, items: Apps)
    requires LateComment(args)
    ensures Eval(And(args), scope, items) == map[]
  {
    var i := FirstElement(args);
    var k :| i < k < |args| && args[k] == Comment;
    assert args[i + 1..][k - i - 1] == Comment;
    NarrowByComment(args[i + 1..], scope, Eval(args[i], scope, items));
  }

  /** A comment does change a result: `All` and a comment selects nothing of what is in scope, and
      inside a `Not` everything. */
  lemma CommentChangesResult()
    ensures var scope := [map["app" := Service("app", [])]]; var c := And([All, Comment]);
      && InScope(scope, "app")
      && Fits(c, scope, "app", Meant) && "app" !in Eval(c, scope, map[])
      && !Fits(Not([c]), scope, "app", Meant) && "app" in Eval(Not([c]), scope, map[])
  {
    var scope: seq<Apps> := [map["app" := Service("app", [])]];
    assert "app" in scope[0];
    var args := [All, Comment];
    var c := And(args);
    assert FirstElement(args) == 0 && args[1] == Comment;
    EvalCodes(c, scope, "app");
    EvalCodes(Not([c]), scope, "app");
    assert args[0] != Comment;
    assert Fits(args[0], scope, "app", Meant);
    assert [c][0] == c && Fits([c][0], scope, "app", Meant);
  }

  // ---------- Services stay filed under their ids ----------

  lemma {:induction false} PoolsKeyed(scope: seq<Apps>, name: string)
    requires ScopeKeyed(scope)
    ensures Keyed(Everything(scope)) && Keyed(InCategory(scope, name)) && Keyed(Named(scope, name))
  {
    if scope != [] {
      assert Keyed(scope[0]);
      assert ScopeKeyed(scope[1..]);
      PoolsKeyed(scope[1..], name);
    }
  }

  lemma {:induction false} EvalKeyed(c: Condition, scope: seq<Apps>, items: Apps)
    requires ScopeKeyed(scope) && Keyed(items)
    ensures Keyed(Eval(c, scope, items))
    decreases c, 0
  {
    match c
    case And(args) =>
      var i := FirstElement(args);
      if i < |args| {
        EvalKeyed(args[i], scope, items);
        NarrowKeyed(args[i + 1..], scope, Eval(args[i], scope, items));
      }
    case Or(args) =>
      var i := FirstElement(args);
      if i < |args| {
        EvalKeyed(args[i], scope, items);
        WidenKeyed(args[i + 1..], scope, Eval(args[i], scope, items));
      }
    case Not(args) =>
      PoolsKeyed(scope, "");
      SubtractKeyed(args, scope, items + Everything(scope));
    case Category(name) => PoolsKeyed(scope, name);
    case All => PoolsKeyed(scope, "");
    case Filename(id) => PoolsKeyed(scope, id);
    case Unknown =>
    case Comment =>
  }

  lemma {:induction false} NarrowKeyed(rest: seq<Condition>, scope: seq<Apps>, items: Apps)
    requires ScopeKeyed(scope) && Keyed(items)
    ensures Keyed(Narrow(rest, scope, items))
    decreases rest, 0
  {
    if rest != [] {
      if rest[0].Not? { SubtractKeyed(rest[0].args, scope, items); }
      NarrowKeyed(rest[1..], scope, NarrowBy(rest[0], scope, items));
    }
  }

  lemma {:induction false} WidenKeyed(rest: seq<Condition>, scope: seq<Apps>, items: Apps)
    requires ScopeKeyed(scope) && Keyed(items)
    ensures Keyed(Widen(rest, scope, items))
    decreases rest, 0
  {
    if rest != [] {
      EvalKeyed(rest[0], scope, map[]);
      WidenKeyed(rest[1..], scope, items + Eval(rest[0], scope, map[]));
    }
  }

  lemma {:induction false} SubtractKeyed(rest: seq<Condition>, scope: seq<Apps>, items: Apps)
    requires Keyed(items)
    ensures Keyed(Subtract(rest, scope, items))
    decreases rest, 0
  {
    if rest != [] {
      SubtractKeyed(rest[1..], scope, items - Eval(rest[0], scope, map[]).Keys);
    }
  }

  // ---------- Dictionaries, in place ----------

  /** `TQDict<KService>`. */
  class Dict {
    var items: Apps

    constructor ()
      ensures items == map[]
    {
      items := map[];
    }

    /** `includeItems(this, others)`. */
    method Include(others: Apps)
      requires Keyed(others)
      modifies this
      ensures items == old(items) + others
    {
      var todo := others.Keys;
      while todo != {}
        invariant todo <= others.Keys
        invariant items == old(items) + (map id | id in others && id !in todo :: others[id])
      {
        var id :| id in todo;
        todo := todo - {id};
        items := items[others[id].menuId := others[id]];
      }
      assert (map id | id in others && id !in todo :: others[id]) == others;
    }

    /** `matchItems(this, others)`. */
    method Keep(others: Apps)
      requires Keyed(items)
      modifies this
      ensures items == Match(old(items), others)
    {
      var todo := items.Keys;
      while todo != {}
        invariant todo <= old(items).Keys
        invariant items == map id | id in old(items) && (id in todo || id in others) :: old(items)[id]
      {
        var key :| key in todo;
        todo := todo - {key};
        var id := items[key].menuId;
        if id !in others {
          items := items - {id};
        }
      }
    }

    /** `excludeItems(this, others)`. */
    method Exclude(others: Apps)
      requires Keyed(others)
      modifies this
      ensures items == old(items) - others.Keys
    {
      var todo := others.Keys;
      while todo != {}
        invariant todo <= others.Keys
        invariant items == old(items) - (others.Keys - todo)
      {
        var id :| id in todo;
        todo := todo - {id};
        items := items - {others[id].menuId};
      }
    }
  }

  // ---------- The category index ----------

  type Index = map<string, seq<Service>>

  function ListOf(index: Index, cat: string): seq<Service> {
    if cat in index then index[cat] else []
  }

  ghost predicate Pooled(apps: Apps, s: Service) {
    s.menuId in apps && apps[s.menuId] == s
  }

  /** How often a scan of the pool would enter `s` under `cat`. */
  ghost function Entries(apps: Apps, cat: string, s: Service): nat {
    if Pooled(apps, s) then Count(s.categories, cat) else 0
  }

  /** The index is a scan of the pool: the same services, equally often, and no empty list. */
  ghost predicate IndexAgrees(apps: Apps, index: Index) {
    && (forall cat, s :: Count(ListOf(index, cat), s) == Entries(apps, cat, s))
    && (forall cat :: cat in index ==> index[cat] != [])
  }

  lemma IndexLists(apps: Apps, index: Index, cat: string, s: Service)
    requires IndexAgrees(apps, index)
    ensures s in ListOf(index, cat) <==> Pooled(apps, s) && cat in s.categories
  {
    CountPositive(ListOf(index, cat), s);
    CountPositive(s.categories, cat);
  }

  /** Enter `s` under one category. */
  function Enter(index: Index, cat: string, s: Service): Index {
    index[cat := ListOf(index, cat) + [s]]
  }

  lemma EnterCounts(index: Index, cat: string, s: Service, cat': string, s': Service)
    ensures Count(ListOf(Enter(index, cat, s), cat'), s')
         == Count(ListOf(index, cat'), s') + (if cat == cat' && s == s' then 1 else 0)
  {
    CountAppend(ListOf(index, cat), s, s');
  }

  /** From `before` to `after`, `s` was entered once for each of `cats`. */
  ghost predicate Grew(before: Index, after: Index, s: Service, cats: seq<string>) {
    forall cat', s' ::
      Count(ListOf(after, cat'), s') == Count(ListOf(before, cat'), s') + (if s == s' then Count(cats, cat') else 0)
  }

  /** The index is a scan of the pool but for the services in `todo`. */
  ghost predicate Scanned(apps: Apps, index: Index, todo: set<string>) {
    forall cat, s ::
      Count(ListOf(index, cat), s) == if s.menuId in todo then 0 else Entries(apps, cat, s)
  }

  /** The applications and category index of one level of the menu file. */
  class AppsInfo {
    var applications: Apps
    var dictCategories: Index

    ghost predicate Indexed()
      reads this
    {
      Keyed(applications) && IndexAgrees(applications, dictCategories)
    }

    /** Enter one service under each of its categories. */
    method EnterService(s: Service)
      requires forall cat :: cat in dictCategories ==> dictCategories[cat] != []
      modifies this`dictCategories
      ensures forall cat :: cat in dictCategories ==> dictCategories[cat] != []
      ensures Grew(old(dictCategories), dictCategories, s, s.categories)
    {
      ghost var start := dictCategories;
      assert s.categories[..0] == [];
      assert forall cat' :: Count(s.categories[..0], cat') == 0;
      for i := 0 to |s.categories|
        invariant forall cat :: cat in dictCategories ==> dictCategories[cat] != []
        invariant Grew(start, dictCategories, s, s.categories[..i])
      {
        var cat := s.categories[i];
        ghost var before := dictCategories;
        dictCategories := Enter(dictCategories, cat, s);
        forall cat', s'
          ensures Count(ListOf(dictCategories, cat'), s')
            == Count(ListOf(start, cat'), s') + (if s == s' then Count(s.categories[..i + 1], cat') else 0)
        {
          EnterCounts(before, cat, s, cat', s');
          assert s.categories[..i + 1] == s.categories[..i] + [cat];
          CountAppend(s.categories[..i], cat, cat');
        }
      }
      assert s.categories[..|s.categories|] == s.categories;
    }

    /** One round of `buildApplicationIndex`: with `unusedOnly`, used applications leave the pool. */
    method BuildIndex(used: set<string>, unusedOnly: bool)
      requires Keyed(applications)
      modifies this
      ensures applications == if unusedOnly then old(applications) - used else old(applications)
      ensures Indexed()
    {
      dictCategories := map[];
      ghost var all := applications;
      var todo := applications.Keys;
      while todo != {}
        invariant todo <= applications.Keys <= all.Keys
        invariant applications == all - (if unusedOnly then used - todo else {})
        invariant forall cat :: cat in dictCategories ==> dictCategories[cat] != []
        invariant Scanned(applications, dictCategories, todo)
      {
        var id :| id in todo;
        todo := todo - {id};
        var service := applications[id];
        if unusedOnly && service.menuId in used {
          applications := applications - {id};
        } else {
          EnterService(service);
        }
      }
    }
  }

  /** `buildApplicationIndex`, over all levels. */
  method BuildApplicationIndex(list: seq<AppsInfo>, used: set<string>, unusedOnly: bool)
    requires Distinct(list)
    requires forall i :: 0 <= i < |list| ==> Keyed(list[i].applications)
    modifies list
    ensures forall i :: 0 <= i < |list| ==> list[i].Indexed()
    ensures forall i :: 0 <= i < |list| ==>
      list[i].applications == if unusedOnly then old(list[i].applications) - used else old(list[i].applications)
  {
    for n := 0 to |list|
      invariant forall i :: 0 <= i < n ==> list[i].Indexed()
      invariant forall i :: 0 <= i < n ==>
        list[i].applications == if unusedOnly then old(list[i].applications) - used else old(list[i].applications)
      invariant forall i :: n <= i < |list| ==> list[i].applications == old(list[i].applications)
    {
      list[n].BuildIndex(used, unusedOnly);
    }
  }

  // ---------- Evaluation, in place ----------

  /** The pools a condition is evaluated over, innermost first. */
  ghost function Scope(stack: seq<AppsInfo>): seq<Apps>
    reads stack
  {
    seq(|stack|, i requires 0 <= i < |stack| reads stack => stack[i].applications)
  }

  ghost predicate StackIndexed(stack: seq<AppsInfo>)
    reads stack
  {
    forall i :: 0 <= i < |stack| ==> stack[i].Indexed()
  }

  lemma StackKeyed(stack: seq<AppsInfo>)
    requires StackIndexed(stack)
    ensures ScopeKeyed(Scope(stack))
  {
  }

  lemma MapPlusAssoc(a: Apps, b: Apps, c: Apps)
    ensures a + b + c == a + (b + c)
  {
  }

  method AddAll(stack: seq<AppsInfo>, dict: Dict)
    requires StackIndexed(stack)
    modifies dict
    ensures dict.items == old(dict.items) + Everything(Scope(stack))
  {
    ghost var scope := Scope(stack);
    for i := 0 to |stack|
      invariant dict.items + Everything(scope[i..]) == old(dict.items) + Everything(scope)
    {
      assert stack[i].Indexed();
      assert scope[i..][0] == stack[i].applications && scope[i..][1..] == scope[i + 1..];
      MapPlusAssoc(dict.items, scope[i], Everything(scope[i + 1..]));
      dict.Include(stack[i].applications);
    }
    assert dict.items + Everything(scope[|stack|..]) == dict.items;
    assert scope[0..] == scope;
  }

  /** The applications of a pool that are in a list. */
  function Among(apps: Apps, list: seq<Service>): Apps {
    map id | id in apps && apps[id] in list :: apps[id]
  }

  lemma OneMoreAmong(apps: Apps, list: seq<Service>, j: nat)
    requires j < |list| && Pooled(apps, list[j]) && Keyed(apps)
    ensures Among(apps, list[..j + 1]) == Among(apps, list[..j])[list[j].menuId := list[j]]
  {
    assert list[..j + 1] == list[..j] + [list[j]];
  }

  method AddFrameCategory(info: AppsInfo, name: string, dict: Dict)
    requires info.Indexed()
    modifies dict
    ensures dict.items == old(dict.items) + OfCategory(info.applications, name)
  {
    var list := ListOf(info.dictCategories, name);
    ghost var apps := info.applications;
    for j := 0 to |list|
      invariant dict.items == old(dict.items) + Among(apps, list[..j])
    {
      IndexLists(apps, info.dictCategories, name, list[j]);
      OneMoreAmong(apps, list, j);
      dict.items := dict.items[list[j].menuId := list[j]];
    }
    forall id | id in apps
      ensures apps[id] in list[..|list|] <==> HasCategory(apps, id, name)
    {
      assert list[..|list|] == list;
      IndexLists(apps, info.dictCategories, name, apps[id]);
    }
  }

  method AddCategory(stack: seq<AppsInfo>, name: string, dict: Dict)
    requires StackIndexed(stack)
    modifies dict
    ensures dict.items == old(dict.items) + InCategory(Scope(stack), name)
  {
    ghost var scope := Scope(stack);
    for i := 0 to |stack|
      invariant dict.items + InCategory(scope[i..], name) == old(dict.items) + InCategory(scope, name)
    {
      assert stack[i].Indexed();
      assert scope[i..][0] == stack[i].applications && scope[i..][1..] == scope[i + 1..];
      MapPlusAssoc(dict.items, OfCategory(scope[i], name), InCategory(scope[i + 1..], name));
      AddFrameCategory(stack[i], name, dict);
    }
    assert dict.items + InCategory(scope[|stack|..], name) == dict.items;
    assert scope[0..] == scope;
  }

  /** `findApplication`, and entering what it finds. */
  method AddNamed(stack: seq<AppsInfo>, file: string, dict: Dict)
    modifies dict
    ensures dict.items == old(dict.items) + Named(Scope(stack), file)
  {
    ghost var scope := Scope(stack);
    for i := 0 to |stack|
      invariant dict.items == old(dict.items)
      invariant Named(scope[i..], file) == Named(scope, file)
    {
      assert scope[i..][0] == stack[i].applications && scope[i..][1..] == scope[i + 1..];
      if file in stack[i].applications {
        dict.items := dict.items[file := stack[i].applications[file]];
        return;
      }
    }
    assert dict.items + Named(scope[|stack|..], file) == dict.items;
  }

  /** `processCondition`. */
  method ProcessCondition(c: Condition, stack: seq<AppsInfo>, dict: Dict)
    requires StackIndexed(stack) && Keyed(dict.items)
    modifies dict
    ensures dict.items == Eval(c, Scope(stack), old(dict.items))
    decreases c, 0
  {
    match c
    case And(args) =>
      var n := ProcessFirst(args, stack, dict);
      if n < |args| { ProcessAnd(args, n + 1, stack, dict); }
    case Or(args) =>
      var n := ProcessFirst(args, stack, dict);
      if n < |args| { ProcessOr(args, n + 1, stack, dict); }
    case Not(args) =>
      AddAll(stack, dict);
      StackKeyed(stack);
      PoolsKeyed(Scope(stack), "");
      ProcessNot(args, stack, dict);
    case Category(name) => AddCategory(stack, name, dict);
    case All => AddAll(stack, dict);
    case Filename(id) => AddNamed(stack, id, dict);
    case Unknown =>
    case Comment =>
  }

  /** The first loop of `And` and `Or`: skip comments, evaluate the first element. */
  method ProcessFirst(args: seq<Condition>, stack: seq<AppsInfo>, dict: Dict) returns (n: nat)
    requires StackIndexed(stack) && Keyed(dict.items)
    modifies dict
    ensures n == FirstElement(args) && Keyed(dict.items)
    ensures dict.items == if n < |args| then Eval(args[n], Scope(stack), old(dict.items)) else old(dict.items)
    decreases args, 0
  {
    n := 0;
    while n < |args| && args[n] == Comment
      invariant n <= FirstElement(args)
    {
      n := n + 1;
    }
    StackKeyed(stack);
    if n < |args| {
      EvalKeyed(args[n], Scope(stack), dict.items);
      ProcessCondition(args[n], stack, dict);
    }
  }

  method ProcessAnd(args: seq<Condition>, from: nat, stack: seq<AppsInfo>, dict: Dict)
    requires StackIndexed(stack) && Keyed(dict.items) && from <= |args|
    modifies dict
    ensures dict.items == Narrow(args[from..], Scope(stack), old(dict.items))
    decreases args, 2
  {
    ghost var scope := Scope(stack);
    ghost var goal := Narrow(args[from..], scope, dict.items);
    for n := from to |args|
      invariant Scope(stack) == scope && StackIndexed(stack) && Keyed(dict.items)
      invariant Narrow(args[n..], scope, dict.items) == goal
    {
      FromHere(args, n);
      assert Narrow(args[n + 1..], scope, NarrowBy(args[n], scope, dict.items)) == goal;
      ProcessAndOne(args[n], stack, dict);
    }
  }

  lemma FromHere(args: seq<Condition>, n: nat)
    requires n < |args|
    ensures args[n..][0] == args[n] && args[n..][1..] == args[n + 1..]
  {
  }

  /** One further child of an `And`. */
  method ProcessAndOne(c: Condition, stack: seq<AppsInfo>, dict: Dict)
    requires StackIndexed(stack) && Keyed(dict.items)
    modifies dict
    ensures dict.items == NarrowBy(c, Scope(stack), old(dict.items)) && Keyed(dict.items)
    decreases c, 1
  {
    StackKeyed(stack);
    if c.Not? {
      SubtractKeyed(c.args, Scope(stack), dict.items);
      ProcessNot(c.args, stack, dict);
    } else {
      var andItems := new Dict();
      ProcessCondition(c, stack, andItems);
      dict.Keep(andItems.items);
    }
  }

  method ProcessOr(args: seq<Condition>, from: nat, stack: seq<AppsInfo>, dict: Dict)
    requires StackIndexed(stack) && Keyed(dict.items) && from <= |args|
    modifies dict
    ensures dict.items == Widen(args[from..], Scope(stack), old(dict.items))
    decreases args, 2
  {
    ghost var scope := Scope(stack);
    ghost var goal := Widen(args[from..], scope, dict.items);
    for n := from to |args|
      invariant Scope(stack) == scope && StackIndexed(stack) && Keyed(dict.items)
      invariant Widen(args[n..], scope, dict.items) == goal
    {
      FromHere(args, n);
      assert Widen(args[n + 1..], scope, dict.items + Eval(args[n], scope, map[])) == goal;
      ProcessOrOne(args[n], stack, dict);
    }
  }

  /** One further child of an `Or`. */
  method ProcessOrOne(c: Condition, stack: seq<AppsInfo>, dict: Dict)
    requires StackIndexed(stack) && Keyed(dict.items)
    modifies dict
    ensures dict.items == old(dict.items) + Eval(c, Scope(stack), map[]) && Keyed(dict.items)
    decreases c, 1
  {
    if c != Comment {
      StackKeyed(stack);
      EvalKeyed(c, Scope(stack), map[]);
      var orItems := new Dict();
      ProcessCondition(c, stack, orItems);
      dict.Include(orItems.items);
    } else {
      assert dict.items + map[] == dict.items;
    }
  }

  /** Subtract what each child selects. */
  method ProcessNot(args: seq<Condition>, stack: seq<AppsInfo>, dict: Dict)
    requires StackIndexed(stack) && Keyed(dict.items)
    modifies dict
    ensures dict.items == Subtract(args, Scope(stack), old(dict.items))
    decreases args, 0
  {
    ghost var scope := Scope(stack);
    StackKeyed(stack);
    var notItems := new Dict();
    for n := 0 to |args|
      invariant Scope(stack) == scope && StackIndexed(stack)
      invariant fresh(notItems)
      invariant Subtract(args[n..], scope, dict.items) == Subtract(args, scope, old(dict.items))
    {
      assert args[n..][0] == args[n] && args[n..][1..] == args[n + 1..];
      notItems.items := map[];
      EvalKeyed(args[n], scope, map[]);
      ProcessCondition(args[n], stack, notItems);
      dict.Exclude(notItems.items);
    }
  }

  /** A rule evaluated from an empty dictionary: the applications in scope that fit it as coded. */
  method SelectItems(c: Condition, stack: seq<AppsInfo>) returns (selected: Dict)
    requires StackIndexed(stack)
    ensures fresh(selected)
    ensures selected.items.Keys == Fitting(c, Scope(stack), Coded)
    ensures NoLateComments(c) ==> selected.items.Keys == Fitting(c, Scope(stack), Meant)
  {
    selected := new Dict();
    ProcessCondition(c, stack, selected);
    EvalSelects(c, Scope(stack));
  }
}
