/** The permission editor's normal form (src/assets/ts/perm-widget.ts): rules become a table of marked
    cells, the table becomes rules again. */
module PermEditor {
  import opened Prelude
  import opened Glob
  import opened Permissions

  // ---- maps that remember insertion order ----

  type Ordered<V> = seq<(string, V)>

  function Find<V>(m: Ordered<V>, k: string): Option<V> {
    if m == [] then None else if m[0].0 == k then Some(m[0].1) else Find(m[1..], k)
  }

  function Put<V>(m: Ordered<V>, k: string, v: V): Ordered<V> {
    if m == [] then [(k, v)] else if m[0].0 == k then [(k, v)] + m[1..] else [m[0]] + Put(m[1..], k, v)
  }

  predicate DistinctKeys<V>(m: Ordered<V>) {
    forall i, j :: 0 <= i < j < |m| ==> m[i].0 != m[j].0
  }

  lemma {:induction false} PutFind<V>(m: Ordered<V>, k: string, v: V, x: string)
    ensures Find(Put(m, k, v), x) == if x == k then Some(v) else Find(m, x)
  {
    if m != [] && m[0].0 != k {
      PutFind(m[1..], k, v, x);
    }
  }

  lemma {:induction false} PutKeys<V>(m: Ordered<V>, k: string, v: V)
    requires DistinctKeys(m)
    ensures DistinctKeys(Put(m, k, v))
    ensures forall i :: 0 <= i < |Put(m, k, v)| ==> Put(m, k, v)[i] == (k, v) || Put(m, k, v)[i] in m
  {
    if m != [] && m[0].0 != k {
      PutKeys(m[1..], k, v);
    }
  }

  lemma {:induction false} FindAt<V>(m: Ordered<V>, i: nat)
    requires DistinctKeys(m) && i < |m|
    ensures Find(m, m[i].0) == Some(m[i].1)
  {
    if i > 0 {
      FindAt(m[1..], i - 1);
    }
  }

  lemma {:induction false} FindKey<V>(m: Ordered<V>, k: string)
    ensures Find(m, k).Some? ==> (k, Find(m, k).value) in m
  {
    if m != [] && m[0].0 != k {
      FindKey(m[1..], k);
    }
  }

  // ---- the table ----

  datatype State = Allow | Deny

  /** Marked actions; the others inherit. */
  type Marks = map<Action, State>

  datatype PermEntry = PermEntry(db: Marks, colls: Ordered<Marks>)

  /** The entries by database pattern. */
  type Table = Ordered<PermEntry>

  datatype Level = Whole | Coll(name: string)

  function Uniform(actions: seq<Action>, st: State): Marks {
    map a | a in actions :: st
  }

  function Mark(marks: Marks, actions: seq<Action>, st: State): Marks {
    marks + Uniform(actions, st)
  }

  function Or<V>(found: Option<V>, default: V): V {
    if found.Some? then found.value else default
  }

  function MarkColls(colls: Ordered<Marks>, names: seq<string>, actions: seq<Action>, st: State): Ordered<Marks> {
    if names == [] then colls
    else
      var before, c := MarkColls(colls, names[..|names| - 1], actions, st), names[|names| - 1];
      Put(before, c, Mark(Or(Find(before, c), map[]), actions, st))
  }

  function AddToEntry(e: PermEntry, r: Rule, st: State): PermEntry {
    if "*" in r.collections then e.(db := Mark(e.db, r.actions, st))
    else e.(colls := MarkColls(e.colls, r.collections, r.actions, st))
  }

  function AddRule(t: Table, r: Rule, dbs: seq<string>, st: State): Table {
    if dbs == [] then t
    else
      var before, db := AddRule(t, r, dbs[..|dbs| - 1], st), dbs[|dbs| - 1];
      Put(before, db, AddToEntry(Or(Find(before, db), PermEntry(map[], [])), r, st))
  }

  function AddRules(t: Table, rules: seq<Rule>, st: State): Table {
    if rules == [] then t
    else
      var r := rules[|rules| - 1];
      AddRule(AddRules(t, rules[..|rules| - 1], st), r, r.databases, st)
  }

  function TableOf(allow: seq<Rule>, deny: seq<Rule>): Table {
    AddRules(AddRules([], allow, Allow), deny, Deny)
  }

  method AddOneToEntry(e: PermEntry, r: Rule, st: State) returns (e': PermEntry)
    ensures e' == AddToEntry(e, r, st)
  {
    if "*" in r.collections {
      return e.(db := Mark(e.db, r.actions, st));
    }
    var colls := e.colls;
    for i := 0 to |r.collections|
      invariant colls == MarkColls(e.colls, r.collections[..i], r.actions, st)
    {
      var c := r.collections[i];
      assert r.collections[..i + 1][..i] == r.collections[..i];
      colls := Put(colls, c, Mark(Or(Find(colls, c), map[]), r.actions, st));
    }
    assert r.collections[..|r.collections|] == r.collections;
    e' := e.(colls := colls);
  }

  method AddOneRule(t: Table, r: Rule, st: State) returns (t': Table)
    ensures t' == AddRule(t, r, r.databases, st)
  {
    t' := t;
    for i := 0 to |r.databases|
      invariant t' == AddRule(t, r, r.databases[..i], st)
    {
      var db := r.databases[i];
      assert r.databases[..i + 1][..i] == r.databases[..i];
      var e := AddOneToEntry(Or(Find(t', db), PermEntry(map[], [])), r, st);
      t' := Put(t', db, e);
    }
    assert r.databases[..|r.databases|] == r.databases;
  }

  method AddAll(t: Table, rules: seq<Rule>, st: State) returns (t': Table)
    ensures t' == AddRules(t, rules, st)
  {
    t' := t;
    for i := 0 to |rules|
      invariant t' == AddRules(t, rules[..i], st)
    {
      assert rules[..i + 1][..i] == rules[..i];
      t' := AddOneRule(t', rules[i], st);
    }
    assert rules[..|rules|] == rules;
  }

  /** `entriesFromRules`: every cell that a deny rule writes is denied, every other that an allow rule
      writes is allowed, the rest inherit. */
  method EntriesFromRules(allow: seq<Rule>, deny: seq<Rule>) returns (t: Table)
    ensures t == TableOf(allow, deny)
    ensures Tidy(t)
    ensures forall db, level, a :: StateAt(t, db, level, a) == CellOf(allow, deny, db, level, a)
  {
    t := AddAll([], allow, Allow);
    t := AddAll(t, deny, Deny);
    TableTidy(allow, deny);
    forall db, level, a ensures StateAt(t, db, level, a) == CellOf(allow, deny, db, level, a) {
      TableCells(allow, deny, db, level, a);
    }
  }

  // ---- what the table holds ----

  function MarksAt(t: Table, db: string, level: Level): Marks {
    EntryMarks(Or(Find(t, db), PermEntry(map[], [])), level)
  }

  function EntryMarks(e: PermEntry, level: Level): Marks {
    match level
    case Whole => e.db
    case Coll(c) => Or(Find(e.colls, c), map[])
  }

  function StateOf(marks: Marks, a: Action): Option<State> {
    if a in marks then Some(marks[a]) else None
  }

  function StateAt(t: Table, db: string, level: Level, a: Action): Option<State> {
    StateOf(MarksAt(t, db, level), a)
  }

  /** The cells one rule writes for each of its databases. */
  predicate RuleMarks(r: Rule, level: Level, a: Action) {
    a in r.actions && if "*" in r.collections then level.Whole? else level.Coll? && level.name in r.collections
  }

  predicate RuleWrites(r: Rule, db: string, level: Level, a: Action) {
    db in r.databases && RuleMarks(r, level, a)
  }

  predicate Writes(rules: seq<Rule>, db: string, level: Level, a: Action) {
    exists r :: r in rules && RuleWrites(r, db, level, a)
  }

  function CellOf(allow: seq<Rule>, deny: seq<Rule>, db: string, level: Level, a: Action): Option<State> {
    if Writes(deny, db, level, a) then Some(Deny) else if Writes(allow, db, level, a) then Some(Allow) else None
  }

  lemma {:induction false} MarkCollsAt(colls: Ordered<Marks>, names: seq<string>, actions: seq<Action>, st: State, c: string,
                                       a: Action)
    ensures StateOf(Or(Find(MarkColls(colls, names, actions, st), c), map[]), a) ==
            if c in names && a in actions then Some(st) else StateOf(Or(Find(colls, c), map[]), a)
  {
    if names != [] {
      var n := |names| - 1;
      MarkCollsAt(colls, names[..n], actions, st, c, a);
      var before := MarkColls(colls, names[..n], actions, st);
      PutFind(before, names[n], Mark(Or(Find(before, names[n]), map[]), actions, st), c);
      assert names == names[..n] + [names[n]];
    }
  }

  lemma AddToEntryAt(e: PermEntry, r: Rule, st: State, level: Level, a: Action)
    ensures StateOf(EntryMarks(AddToEntry(e, r, st), level), a) ==
            if RuleMarks(r, level, a) then Some(st) else StateOf(EntryMarks(e, level), a)
  {
    if level.Coll? {
      MarkCollsAt(e.colls, r.collections, r.actions, st, level.name, a);
    }
  }

  lemma {:induction false} AddRuleAt(t: Table, r: Rule, dbs: seq<string>, st: State, db: string, level: Level, a: Action)
    ensures StateAt(AddRule(t, r, dbs, st), db, level, a) ==
            if db in dbs && RuleMarks(r, level, a) then Some(st) else StateAt(t, db, level, a)
  {
    if dbs != [] {
      var n := |dbs| - 1;
      AddRuleAt(t, r, dbs[..n], st, db, level, a);
      var before := AddRule(t, r, dbs[..n], st);
      var e := Or(Find(before, dbs[n]), PermEntry(map[], []));
      PutFind(before, dbs[n], AddToEntry(e, r, st), db);
      AddToEntryAt(e, r, st, level, a);
      assert dbs == dbs[..n] + [dbs[n]];
    }
  }

  lemma {:induction false} AddRulesAt(t: Table, rules: seq<Rule>, st: State, db: string, level: Level, a: Action)
    ensures StateAt(AddRules(t, rules, st), db, level, a) ==
            if Writes(rules, db, level, a) then Some(st) else StateAt(t, db, level, a)
  {
    if rules != [] {
      var n := |rules| - 1;
      AddRulesAt(t, rules[..n], st, db, level, a);
      AddRuleAt(AddRules(t, rules[..n], st), rules[n], rules[n].databases, st, db, level, a);
      WritesLast(rules, db, level, a);
    }
  }

  lemma WritesLast(rules: seq<Rule>, db: string, level: Level, a: Action)
    requires rules != []
    ensures var n := |rules| - 1;
            Writes(rules, db, level, a) <==> Writes(rules[..n], db, level, a) || RuleWrites(rules[n], db, level, a)
  {
    assert rules == rules[..|rules| - 1] + [rules[|rules| - 1]];
  }

  lemma TableCells(allow: seq<Rule>, deny: seq<Rule>, db: string, level: Level, a: Action)
    ensures StateAt(TableOf(allow, deny), db, level, a) == CellOf(allow, deny, db, level, a)
  {
    AddRulesAt([], allow, Allow, db, level, a);
    AddRulesAt(AddRules([], allow, Allow), deny, Deny, db, level, a);
  }

  /** Keys are distinct, and the whole-database level is never stored as a collection. */
  predicate Tidy(t: Table) {
    DistinctKeys(t) && forall i :: 0 <= i < |t| ==> TidyEntry(t[i].1)
  }

  predicate TidyEntry(e: PermEntry) {
    DistinctKeys(e.colls) && forall i :: 0 <= i < |e.colls| ==> e.colls[i].0 != "*"
  }

  lemma {:induction false} MarkCollsTidy(colls: Ordered<Marks>, names: seq<string>, actions: seq<Action>, st: State)
    requires TidyEntry(PermEntry(map[], colls)) && "*" !in names
    ensures TidyEntry(PermEntry(map[], MarkColls(colls, names, actions, st)))
  {
    if names != [] {
      var n := |names| - 1;
      MarkCollsTidy(colls, names[..n], actions, st);
      var before := MarkColls(colls, names[..n], actions, st);
      PutKeys(before, names[n], Mark(Or(Find(before, names[n]), map[]), actions, st));
    }
  }

  lemma {:induction false} AddRuleTidy(t: Table, r: Rule, dbs: seq<string>, st: State)
    requires Tidy(t)
    ensures Tidy(AddRule(t, r, dbs, st))
  {
    if dbs != [] {
      var n := |dbs| - 1;
      AddRuleTidy(t, r, dbs[..n], st);
      var before := AddRule(t, r, dbs[..n], st);
      var e := Or(Find(before, dbs[n]), PermEntry(map[], []));
      FindKey(before, dbs[n]);
      if "*" !in r.collections {
        MarkCollsTidy(e.colls, r.collections, r.actions, st);
      }
      PutKeys(before, dbs[n], AddToEntry(e, r, st));
    }
  }

  lemma {:induction false} AddRulesTidy(t: Table, rules: seq<Rule>, st: State)
    requires Tidy(t)
    ensures Tidy(AddRules(t, rules, st))
  {
    if rules != [] {
      var n := |rules| - 1;
      AddRulesTidy(t, rules[..n], st);
      AddRuleTidy(AddRules(t, rules[..n], st), rules[n], rules[n].databases, st);
    }
  }

  lemma TableTidy(allow: seq<Rule>, deny: seq<Rule>)
    ensures Tidy(TableOf(allow, deny))
  {
    AddRulesTidy([], allow, Allow);
    AddRulesTidy(AddRules([], allow, Allow), deny, Deny);
  }

  // ---- the table as rules ----

  /** `ACTIONS`, in the order the editor lists them. */
  function Actions(): seq<Action> {
    [GET, POST, PUT, PATCH, DELETE, INDEX]
  }

  predicate Known(a: Action) {
    !a.Other?
  }

  lemma ActionsAreKnown(a: Action)
    ensures a in Actions() <==> Known(a)
  {
    var s := Actions();
    assert s[0] == GET && s[1] == POST && s[2] == PUT && s[3] == PATCH && s[4] == DELETE && s[5] == INDEX;
  }

  /** The actions of a list that are marked `st`. */
  function Pick(marks: Marks, st: State, list: seq<Action>): (r: seq<Action>)
    ensures forall a :: a in r <==> a in list && StateOf(marks, a) == Some(st)
  {
    if list == [] then []
    else
      var n := |list| - 1;
      Pick(marks, st, list[..n]) + if StateOf(marks, list[n]) == Some(st) then [list[n]] else []
  }

  function LevelName(level: Level): string {
    if level.Whole? then "*" else level.name
  }

  /** At most one rule for a table cell group. */
  function RuleFor(db: string, level: Level, marks: Marks, st: State): seq<Rule> {
    var picked := Pick(marks, st, Actions());
    if picked == [] then [] else [Rule(picked, [db], [LevelName(level)])]
  }

  function CollRules(db: string, colls: Ordered<Marks>, st: State): seq<Rule> {
    if colls == [] then []
    else
      var n := |colls| - 1;
      CollRules(db, colls[..n], st) + RuleFor(db, Coll(colls[n].0), colls[n].1, st)
  }

  function EntryRules(db: string, e: PermEntry, st: State): seq<Rule> {
    RuleFor(db, Whole, e.db, st) + CollRules(db, e.colls, st)
  }

  function Rules(t: Table, st: State): seq<Rule> {
    if t == [] then [] else Rules(t[..|t| - 1], st) + EntryRules(t[|t| - 1].0, t[|t| - 1].1, st)
  }

  method PickMarked(marks: Marks) returns (a: seq<Action>, d: seq<Action>)
    ensures a == Pick(marks, Allow, Actions()) && d == Pick(marks, Deny, Actions())
  {
    a, d := [], [];
    var list := Actions();
    for i := 0 to |list|
      invariant a == Pick(marks, Allow, list[..i]) && d == Pick(marks, Deny, list[..i])
    {
      assert list[..i + 1][..i] == list[..i];
      var state := StateOf(marks, list[i]);
      if state == Some(Allow) {
        a := a + [list[i]];
      } else if state == Some(Deny) {
        d := d + [list[i]];
      }
    }
    assert list[..|list|] == list;
  }

  method PushEntry(allow: seq<Rule>, deny: seq<Rule>, db: string, level: Level, marks: Marks)
    returns (allow': seq<Rule>, deny': seq<Rule>)
    ensures allow' == allow + RuleFor(db, level, marks, Allow)
    ensures deny' == deny + RuleFor(db, level, marks, Deny)
  {
    var a, d := PickMarked(marks);
    allow' := if a == [] then allow else allow + [Rule(a, [db], [LevelName(level)])];
    deny' := if d == [] then deny else deny + [Rule(d, [db], [LevelName(level)])];
  }

  /** `applyEntries`: the rule lists rebuilt from the table. */
  method ApplyEntries(t: Table) returns (allow: seq<Rule>, deny: seq<Rule>)
    requires Tidy(t)
    ensures allow == Rules(t, Allow) && deny == Rules(t, Deny)
    ensures forall db, level, a :: Writes(allow, db, level, a) <==> Known(a) && StateAt(t, db, level, a) == Some(Allow)
    ensures forall db, level, a :: Writes(deny, db, level, a) <==> Known(a) && StateAt(t, db, level, a) == Some(Deny)
  {
    allow, deny := [], [];
    for i := 0 to |t|
      invariant allow == Rules(t[..i], Allow) && deny == Rules(t[..i], Deny)
    {
      assert t[..i + 1][..i] == t[..i];
      allow, deny := PushColls(allow, deny, t[i].0, t[i].1);
    }
    assert t[..|t|] == t;
    forall db, level, a
      ensures Writes(allow, db, level, a) <==> Known(a) && StateAt(t, db, level, a) == Some(Allow)
      ensures Writes(deny, db, level, a) <==> Known(a) && StateAt(t, db, level, a) == Some(Deny)
    {
      RulesWrite(t, Allow, db, level, a);
      RulesWrite(t, Deny, db, level, a);
    }
  }

  /** One entry's rules: the whole database first, then its collections. */
  method PushColls(allow: seq<Rule>, deny: seq<Rule>, db: string, e: PermEntry)
    returns (allow': seq<Rule>, deny': seq<Rule>)
    ensures allow' == allow + EntryRules(db, e, Allow) && deny' == deny + EntryRules(db, e, Deny)
  {
    allow', deny' := PushEntry(allow, deny, db, Whole, e.db);
    Regroup(allow, RuleFor(db, Whole, e.db, Allow), CollRules(db, e.colls, Allow));
    Regroup(deny, RuleFor(db, Whole, e.db, Deny), CollRules(db, e.colls, Deny));
    allow', deny' := PushCollections(allow', deny', db, e.colls);
  }

  method PushCollections(allow: seq<Rule>, deny: seq<Rule>, db: string, colls: Ordered<Marks>)
    returns (allow': seq<Rule>, deny': seq<Rule>)
    ensures allow' == allow + CollRules(db, colls, Allow) && deny' == deny + CollRules(db, colls, Deny)
  {
    allow', deny' := allow, deny;
    for j := 0 to |colls|
      invariant allow' == allow + CollRules(db, colls[..j], Allow) && deny' == deny + CollRules(db, colls[..j], Deny)
    {
      CollRulesNext(db, colls, j);
      var (c, marks) := colls[j];
      Regroup(allow, CollRules(db, colls[..j], Allow), RuleFor(db, Coll(c), marks, Allow));
      Regroup(deny, CollRules(db, colls[..j], Deny), RuleFor(db, Coll(c), marks, Deny));
      allow', deny' := PushEntry(allow', deny', db, Coll(c), marks);
    }
    assert colls[..|colls|] == colls;
  }

  lemma Regroup(a: seq<Rule>, b: seq<Rule>, c: seq<Rule>)
    ensures a + b + c == a + (b + c)
  {
  }

  lemma CollRulesNext(db: string, colls: Ordered<Marks>, j: nat)
    requires j < |colls|
    ensures forall st :: CollRules(db, colls[..j + 1], st) ==
                         CollRules(db, colls[..j], st) + RuleFor(db, Coll(colls[j].0), colls[j].1, st)
  {
    assert colls[..j + 1][..j] == colls[..j];
  }

  /** A rule of the rebuilt lists is one cell group of the table. */
  ghost predicate FromGroup(t: Table, st: State, r: Rule, db: string, level: Level) {
    level != Coll("*") && RuleFor(db, level, MarksAt(t, db, level), st) == [r]
  }

  lemma {:induction false} PickNothing(st: State, list: seq<Action>)
    ensures Pick(map[], st, list) == []
  {
    if list != [] {
      PickNothing(st, list[..|list| - 1]);
    }
  }

  lemma EmptyGroup(db: string, level: Level, st: State)
    ensures RuleFor(db, level, map[], st) == []
  {
    PickNothing(st, Actions());
  }

  lemma {:induction false} InCollRules(db: string, colls: Ordered<Marks>, st: State, r: Rule)
    ensures r in CollRules(db, colls, st) <==> exists c :: c in colls && RuleFor(db, Coll(c.0), c.1, st) == [r]
  {
    if colls != [] {
      var n := |colls| - 1;
      InCollRules(db, colls[..n], st, r);
      assert colls == colls[..n] + [colls[n]];
    }
  }

  lemma {:induction false} InRules(t: Table, st: State, r: Rule)
    ensures r in Rules(t, st) <==> exists e :: e in t && r in EntryRules(e.0, e.1, st)
  {
    if t != [] {
      var n := |t| - 1;
      InRules(t[..n], st, r);
      assert forall e :: e in t <==> e in t[..n] || e == t[n];
    }
  }

  ghost predicate FromEntry(db: string, e: PermEntry, st: State, r: Rule, level: Level) {
    level != Coll("*") && RuleFor(db, level, EntryMarks(e, level), st) == [r]
  }

  lemma InEntryRules(db: string, e: PermEntry, st: State, r: Rule)
    requires TidyEntry(e)
    ensures r in EntryRules(db, e, st) <==> exists level :: FromEntry(db, e, st, r, level)
  {
    InCollRules(db, e.colls, st, r);
    if c :| c in e.colls && RuleFor(db, Coll(c.0), c.1, st) == [r] {
      var i :| 0 <= i < |e.colls| && e.colls[i] == c;
      FindAt(e.colls, i);
      assert FromEntry(db, e, st, r, Coll(c.0));
    }
    if r in RuleFor(db, Whole, e.db, st) {
      assert FromEntry(db, e, st, r, Whole);
    }
    if level :| FromEntry(db, e, st, r, level) {
      EmptyGroup(db, level, st);
      if level.Coll? {
        FindKey(e.colls, level.name);
      }
    }
  }

  lemma RuleIsGroup(t: Table, st: State, r: Rule)
    requires Tidy(t) && r in Rules(t, st)
    ensures exists db, level :: FromGroup(t, st, r, db, level)
  {
    InRules(t, st, r);
    var e :| e in t && r in EntryRules(e.0, e.1, st);
    var i :| 0 <= i < |t| && t[i] == e;
    InEntryRules(e.0, e.1, st, r);
    var level :| FromEntry(e.0, e.1, st, r, level);
    FindAt(t, i);
    assert FromGroup(t, st, r, e.0, level);
  }

  lemma GroupIsRule(t: Table, st: State, r: Rule, db: string, level: Level)
    requires Tidy(t) && FromGroup(t, st, r, db, level)
    ensures r in Rules(t, st)
  {
    InRules(t, st, r);
    FindKey(t, db);
    if Find(t, db).Some? {
      var e := Find(t, db).value;
      assert (db, e) in t;
      assert FromEntry(db, e, st, r, level);
      InEntryRules(db, e, st, r);
    } else {
      EmptyGroup(db, level, st);
    }
  }

  lemma RulesWrite(t: Table, st: State, db: string, level: Level, a: Action)
    requires Tidy(t)
    ensures Writes(Rules(t, st), db, level, a) <==> Known(a) && StateAt(t, db, level, a) == Some(st)
  {
    ActionsAreKnown(a);
    if Writes(Rules(t, st), db, level, a) {
      var r :| r in Rules(t, st) && RuleWrites(r, db, level, a);
      RuleIsGroup(t, st, r);
      var db', level' :| FromGroup(t, st, r, db', level');
      GroupWrites(t, st, r, db', level', db, level, a);
    }
    if Known(a) && StateAt(t, db, level, a) == Some(st) {
      NoStarMarks(t, db);
      assert a in Pick(MarksAt(t, db, level), st, Actions());
      var r := RuleFor(db, level, MarksAt(t, db, level), st)[0];
      assert FromGroup(t, st, r, db, level);
      GroupIsRule(t, st, r, db, level);
      GroupWrites(t, st, r, db, level, db, level, a);
    }
  }

  lemma GroupWrites(t: Table, st: State, r: Rule, db': string, level': Level, db: string, level: Level, a: Action)
    requires FromGroup(t, st, r, db', level')
    ensures RuleWrites(r, db, level, a) <==>
            db == db' && level == level' && a in Actions() && StateAt(t, db, level, a) == Some(st)
  {
  }

  lemma NoStarMarks(t: Table, db: string)
    requires Tidy(t)
    ensures MarksAt(t, db, Coll("*")) == map[]
  {
    FindKey(t, db);
    if Find(t, db).Some? {
      FindKey(Find(t, db).value.colls, "*");
    }
  }

  // ---- the normal form keeps every verdict ----

  function Normal(allow: seq<Rule>, deny: seq<Rule>): (seq<Rule>, seq<Rule>) {
    var t := TableOf(allow, deny);
    (Rules(t, Allow), Rules(t, Deny))
  }

  predicate KnownRules(rules: seq<Rule>) {
    forall r :: r in rules ==> forall a :: a in r.actions ==> Known(a)
  }

  /** Rules match through the cells they write. */
  predicate CellHits(rules: seq<Rule>, action: Action, db: string, coll: string, dbp: string, level: Level) {
    Writes(rules, dbp, level, action) && Matched(dbp, db) && (level.Coll? ==> Matched(level.name, coll))
  }

  lemma MatchesByCells(rules: seq<Rule>, action: Action, db: string, coll: string)
    ensures RuleMatches(rules, action, db, coll) <==>
            exists dbp, level :: CellHits(rules, action, db, coll, dbp, level)
  {
    if RuleMatches(rules, action, db, coll) {
      var r :| r in rules && RuleHits(r, action, db, coll);
      var dbp :| dbp in r.databases && Matched(dbp, db);
      var c :| c in r.collections && Matched(c, coll);
      var level := if "*" in r.collections then Whole else Coll(c);
      assert RuleWrites(r, dbp, level, action);
      assert CellHits(rules, action, db, coll, dbp, level);
    }
    if dbp, level :| CellHits(rules, action, db, coll, dbp, level) {
      var r :| r in rules && RuleWrites(r, dbp, level, action);
      assert level.Whole? ==> Matched("*", coll);
      assert RuleHits(r, action, db, coll);
    }
  }

  lemma NormalWrites(allow: seq<Rule>, deny: seq<Rule>, db: string, level: Level, a: Action)
    ensures Writes(Normal(allow, deny).1, db, level, a) <==> Known(a) && Writes(deny, db, level, a)
    ensures Writes(Normal(allow, deny).0, db, level, a) <==>
            Known(a) && Writes(allow, db, level, a) && !Writes(deny, db, level, a)
  {
    TableTidy(allow, deny);
    TableCells(allow, deny, db, level, a);
    RulesWrite(TableOf(allow, deny), Allow, db, level, a);
    RulesWrite(TableOf(allow, deny), Deny, db, level, a);
  }

  lemma UnknownNeverHits(rules: seq<Rule>, action: Action, db: string, coll: string)
    requires KnownRules(rules) && !Known(action)
    ensures !RuleMatches(rules, action, db, coll)
  {
  }

  lemma NormalMatches(allow: seq<Rule>, deny: seq<Rule>, action: Action, db: string, coll: string)
    requires KnownRules(allow) && KnownRules(deny)
    ensures RuleMatches(Normal(allow, deny).1, action, db, coll) <==> RuleMatches(deny, action, db, coll)
    ensures !RuleMatches(deny, action, db, coll) ==>
              (RuleMatches(Normal(allow, deny).0, action, db, coll) <==> RuleMatches(allow, action, db, coll))
  {
    var n := Normal(allow, deny);
    MatchesByCells(allow, action, db, coll);
    MatchesByCells(deny, action, db, coll);
    MatchesByCells(n.0, action, db, coll);
    MatchesByCells(n.1, action, db, coll);
    if !Known(action) {
      UnknownNeverHits(allow, action, db, coll);
      UnknownNeverHits(deny, action, db, coll);
    }
    forall dbp, level
      ensures CellHits(n.1, action, db, coll, dbp, level) <==> Known(action) && CellHits(deny, action, db, coll, dbp, level)
      ensures CellHits(n.0, action, db, coll, dbp, level) <==>
              Known(action) && CellHits(allow, action, db, coll, dbp, level) && !CellHits(deny, action, db, coll, dbp, level)
    {
      NormalWrites(allow, deny, dbp, level, action);
    }
  }

  /** Saving a layer in its normal form changes nothing the layer says, for any action, database and
      collection. */
  lemma NormalKeepsLayer(allow: seq<Rule>, deny: seq<Rule>, action: Action, db: string, coll: string)
    requires KnownRules(allow) && KnownRules(deny)
    ensures var n := Normal(allow, deny);
            Layer(n.0, n.1, action, db, coll) == Layer(allow, deny, action, db, coll)
  {
    NormalMatches(allow, deny, action, db, coll);
  }

  /** The file after the editor has rewritten an app's own rules, or one of its names'. */
  function Edited(p: PermissionsFile, app: string, name: Option<string>): PermissionsFile
    requires app in p && (name.Some? ==> name.value in p[app].names)
  {
    var entry := p[app];
    match name
    case None =>
      var n := Normal(entry.allow, entry.deny);
      p[app := entry.(allow := n.0, deny := n.1)]
    case Some(x) =>
      var n := Normal(entry.names[x].allow, entry.names[x].deny);
      p[app := entry.(names := entry.names[x := NameEntry(n.0, n.1)])]
  }

  predicate KnownFile(p: PermissionsFile) {
    forall app :: app in p ==>
      KnownRules(p[app].allow) && KnownRules(p[app].deny) &&
      forall n :: n in p[app].names ==> KnownRules(p[app].names[n].allow) && KnownRules(p[app].names[n].deny)
  }

  /** No client's permission changes when the editor rewrites any part of the file. */
  lemma EditKeepsAllows(p: PermissionsFile, app: string, name: Option<string>, who: string, of: string, action: Action,
                        db: string, coll: string)
    requires KnownFile(p) && app in p && (name.Some? ==> name.value in p[app].names)
    ensures Allows(Edited(p, app, name), who, of, action, db, coll) <==> Allows(p, who, of, action, db, coll)
  {
    var q := Edited(p, app, name);
    if of == app {
      AllowsByLayers(p, who, app, action, db, coll);
      AllowsByLayers(q, who, app, action, db, coll);
      if name.None? {
        NormalKeepsLayer(p[app].allow, p[app].deny, action, db, coll);
      } else {
        NormalKeepsLayer(p[app].names[name.value].allow, p[app].names[name.value].deny, action, db, coll);
      }
    }
  }

  // ---- normalising twice ----

  lemma {:induction false} PickSame(m: Marks, m': Marks, st: State, list: seq<Action>)
    requires forall a :: a in list ==> StateOf(m, a) == StateOf(m', a)
    ensures Pick(m, st, list) == Pick(m', st, list)
  {
    if list != [] {
      PickSame(m, m', st, list[..|list| - 1]);
    }
  }

  lemma SameGroups(t: Table, t': Table, st: State, r: Rule, db: string, level: Level)
    requires forall a :: Known(a) ==> StateAt(t, db, level, a) == StateAt(t', db, level, a)
    ensures FromGroup(t, st, r, db, level) <==> FromGroup(t', st, r, db, level)
  {
    forall a ensures a in Actions() <==> Known(a) {
      ActionsAreKnown(a);
    }
    PickSame(MarksAt(t, db, level), MarksAt(t', db, level), st, Actions());
  }

  lemma SameCellsSameRules(t: Table, t': Table, st: State, r: Rule)
    requires Tidy(t) && Tidy(t')
    requires forall db, level, a :: Known(a) ==> StateAt(t, db, level, a) == StateAt(t', db, level, a)
    ensures r in Rules(t, st) <==> r in Rules(t', st)
  {
    if r in Rules(t, st) {
      RuleIsGroup(t, st, r);
      var db, level :| FromGroup(t, st, r, db, level);
      SameGroups(t, t', st, r, db, level);
      GroupIsRule(t', st, r, db, level);
    }
    if r in Rules(t', st) {
      RuleIsGroup(t', st, r);
      var db, level :| FromGroup(t', st, r, db, level);
      SameGroups(t, t', st, r, db, level);
      GroupIsRule(t, st, r, db, level);
    }
  }

  predicate NoTwice(rules: seq<Rule>) {
    forall i, j :: 0 <= i < j < |rules| ==> rules[i] != rules[j]
  }

  /** Normalising normal lists gives the same rules, each once. */
  lemma NormalTwice(allow: seq<Rule>, deny: seq<Rule>)
    ensures var once := Normal(allow, deny);
            var twice := Normal(once.0, once.1);
            NoTwice(once.0) && NoTwice(once.1) && NoTwice(twice.0) && NoTwice(twice.1) &&
            forall r :: (r in twice.0 <==> r in once.0) && (r in twice.1 <==> r in once.1)
  {
    var t, once := TableOf(allow, deny), Normal(allow, deny);
    var t' := TableOf(once.0, once.1);
    TableTidy(allow, deny);
    TableTidy(once.0, once.1);
    forall db, level, a | Known(a) ensures StateAt(t, db, level, a) == StateAt(t', db, level, a) {
      NormalWrites(allow, deny, db, level, a);
      TableCells(allow, deny, db, level, a);
      TableCells(once.0, once.1, db, level, a);
    }
    forall r, st ensures r in Rules(t', st) <==> r in Rules(t, st) {
      SameCellsSameRules(t, t', st, r);
    }
    forall st ensures NoTwice(Rules(t, st)) && NoTwice(Rules(t', st)) {
      RulesDistinct(t, st);
      RulesDistinct(t', st);
    }
  }

  lemma {:induction false} CollRulesDistinct(db: string, colls: Ordered<Marks>, st: State)
    requires TidyEntry(PermEntry(map[], colls))
    ensures NoTwice(CollRules(db, colls, st))
    ensures forall r :: r in CollRules(db, colls, st) ==>
              r.databases == [db] && exists c :: c in colls && r.collections == [c.0]
  {
    if colls != [] {
      var n := |colls| - 1;
      CollRulesDistinct(db, colls[..n], st);
      assert forall c :: c in colls[..n] ==> c in colls && c.0 != colls[n].0;
    }
  }

  lemma EntryRulesDistinct(db: string, e: PermEntry, st: State)
    requires TidyEntry(e)
    ensures NoTwice(EntryRules(db, e, st)) && forall r :: r in EntryRules(db, e, st) ==> r.databases == [db]
  {
    CollRulesDistinct(db, e.colls, st);
    assert forall c :: c in e.colls ==> c.0 != "*";
  }

  lemma {:induction false} RulesDistinct(t: Table, st: State)
    requires Tidy(t)
    ensures NoTwice(Rules(t, st))
    ensures forall r :: r in Rules(t, st) ==> exists e :: e in t && r.databases == [e.0]
  {
    if t != [] {
      var n := |t| - 1;
      RulesDistinct(t[..n], st);
      EntryRulesDistinct(t[n].0, t[n].1, st);
      assert forall e :: e in t[..n] ==> e in t && e.0 != t[n].0;
    }
  }
}
