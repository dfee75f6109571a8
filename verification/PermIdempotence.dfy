/** Normalising the editor's rule lists twice, with their order: when the second time changes nothing. */
module PermIdempotence {
  import opened Prelude
  import opened Permissions
  import opened PermEditor
  import opened PermOrder

  // ---- the parts of an entry ----

  function Only(m: Marks, st: State): Marks {
    map a | a in m && Known(a) && m[a] == st :: m[a]
  }

  function OnlyF(st: State): Marks -> Marks {
    (m: Marks) => Only(m, st)
  }

  function AddF(): (Marks, Marks) -> Marks {
    (m: Marks, n: Marks) => m + n
  }

  const NONE: Marks := map[]

  const BLANK: PermEntry := PermEntry(NONE, [])

  function PartColls(colls: Ordered<Marks>, st: State): Ordered<Marks> {
    PartOf(colls, OnlyF(st), NONE)
  }

  function PartEntry(e: PermEntry, st: State): PermEntry {
    PermEntry(Only(e.db, st), PartColls(e.colls, st))
  }

  function EntryF(st: State): PermEntry -> PermEntry {
    (e: PermEntry) => PartEntry(e, st)
  }

  function MergeColls(x: Ordered<Marks>, y: Ordered<Marks>): Ordered<Marks> {
    MergeWith(x, y, AddF(), NONE)
  }

  function MergeEntry(e: PermEntry, y: PermEntry): PermEntry {
    PermEntry(e.db + y.db, MergeColls(e.colls, y.colls))
  }

  function MergeF(): (PermEntry, PermEntry) -> PermEntry {
    (e: PermEntry, y: PermEntry) => MergeEntry(e, y)
  }

  function PartTable(t: Table, st: State): Table {
    PartOf(t, EntryF(st), BLANK)
  }

  function MergeTables(x: Table, y: Table): Table {
    MergeWith(x, y, MergeF(), BLANK)
  }

  lemma MarksFit(m: Marks)
    ensures Fits(m, OnlyF(Allow), OnlyF(Deny), AddF(), NONE)
    ensures Only(Only(m, Allow) + Only(m, Deny), Deny) == Only(m, Deny)
  {
    var a, d := Only(m, Allow), Only(m, Deny);
    assert Only(a, Deny) == NONE && Only(d, Allow) == NONE && Only(d, Deny) == d && Only(a, Allow) == a;
    assert NONE + d == d && NONE + a == a;
    assert Only(a + d, Allow) == a && Only(a + d, Deny) == d;
  }

  lemma CollsFit(colls: Ordered<Marks>)
    ensures AllFit(colls, OnlyF(Allow), OnlyF(Deny), AddF(), NONE)
    ensures KeepsDeny(colls, OnlyF(Allow), OnlyF(Deny), AddF(), NONE)
  {
    forall i | 0 <= i < |colls|
      ensures Fits(colls[i].1, OnlyF(Allow), OnlyF(Deny), AddF(), NONE)
      ensures Only(Only(colls[i].1, Allow) + Only(colls[i].1, Deny), Deny) == Only(colls[i].1, Deny)
    {
      MarksFit(colls[i].1);
    }
  }

  lemma PartOfPart(colls: Ordered<Marks>, st: State, other: State)
    ensures PartColls(PartColls(colls, st), other) == if st == other then PartColls(colls, st) else []
  {
    forall i | 0 <= i < |colls| ensures Only(Only(colls[i].1, st), other) == if st == other then Only(colls[i].1, st) else NONE {
    }
    PartPart(colls, OnlyF(st), OnlyF(other), NONE, st == other);
  }

  lemma MergeNothing(colls: Ordered<Marks>, st: State)
    requires DistinctKeys(colls)
    ensures MergeColls([], PartColls(colls, st)) == PartColls(colls, st)
  {
    PartDistinct(colls, OnlyF(st), NONE);
    assert forall m: Marks :: NONE + m == m;
    MergeInto(PartColls(colls, st), AddF(), NONE);
  }

  lemma NoneMerged(colls: Ordered<Marks>)
    requires DistinctKeys(colls)
    ensures PartColls(MergeColls(PartColls(colls, Allow), PartColls(colls, Deny)), Deny) == [] <==> PartColls(colls, Deny) == []
    ensures PartColls(MergeColls(PartColls(colls, Allow), PartColls(colls, Deny)), Allow) == PartColls(colls, Allow)
  {
    CollsFit(colls);
    MergeParts(colls, OnlyF(Allow), OnlyF(Deny), AddF(), NONE);
    PickedCount(colls, OnlyF(Allow), OnlyF(Deny), AddF(), NONE);
  }

  lemma EntryFits(e: PermEntry)
    requires DistinctKeys(e.colls)
    ensures Fits(e, EntryF(Allow), EntryF(Deny), MergeF(), BLANK)
  {
    MarksFit(e.db);
    PartOfPart(e.colls, Allow, Deny);
    PartOfPart(e.colls, Deny, Allow);
    PartOfPart(e.colls, Deny, Deny);
    PartOfPart(e.colls, Allow, Allow);
    MergeNothing(e.colls, Allow);
    MergeNothing(e.colls, Deny);
    NoneMerged(e.colls);
    var a, d := PartEntry(e, Allow), PartEntry(e, Deny);
    assert PartEntry(a, Deny) == BLANK && PartEntry(d, Allow) == BLANK && PartEntry(d, Deny) == d && PartEntry(a, Allow) == a;
    assert MergeEntry(BLANK, d) == d && MergeEntry(BLANK, a) == a;
    assert PartEntry(MergeEntry(a, d), Allow) == a;
  }

  // ---- adding a table's rules is merging its part ----

  lemma {:induction false} AddConcat(t: Table, a: seq<Rule>, b: seq<Rule>, st: State)
    ensures AddRules(t, a + b, st) == AddRules(AddRules(t, a, st), b, st)
  {
    if b == [] {
      assert a + b == a;
    } else {
      var n := |b| - 1;
      assert (a + b)[..|a| + n] == a + b[..n];
      AddConcat(t, a, b[..n], st);
    }
  }

  lemma UniformIsOnly(marks: Marks, st: State)
    ensures Uniform(Pick(marks, st, Actions()), st) == Only(marks, st)
  {
    forall a ensures a in Pick(marks, st, Actions()) <==> a in Only(marks, st) {
      ActionsAreKnown(a);
    }
  }

  lemma PickIsOnly(m: Marks, marks: Marks, st: State)
    ensures Mark(m, Pick(marks, st, Actions()), st) == m + Only(marks, st)
    ensures Pick(marks, st, Actions()) == [] <==> Only(marks, st) == NONE
  {
    UniformIsOnly(marks, st);
    NoneUniform(Pick(marks, st, Actions()), st);
  }

  lemma NoneUniform(actions: seq<Action>, st: State)
    ensures actions == [] <==> Uniform(actions, st) == NONE
  {
    if actions != [] {
      assert actions[0] in Uniform(actions, st);
    }
  }

  /** An entry with more marks at one level. */
  function Marked(e: PermEntry, level: Level, m: Marks): PermEntry {
    match level
    case Whole => e.(db := e.db + m)
    case Coll(c) => e.(colls := Put(e.colls, c, Or(Find(e.colls, c), NONE) + m))
  }

  lemma AddOne(t: Table, r: Rule, st: State, db: string)
    requires r.databases == [db]
    ensures AddRules(t, [r], st) == Put(t, db, AddToEntry(Or(Find(t, db), BLANK), r, st))
  {
    assert [r][..0] == [] && [db][..0] == [];
    assert AddRules(t, [], st) == t;
    assert AddRule(t, r, [db], st) == Put(t, db, AddToEntry(Or(Find(t, db), BLANK), r, st));
  }

  lemma AddGroup(t: Table, db: string, level: Level, marks: Marks, st: State)
    requires level != Coll("*")
    ensures AddRules(t, RuleFor(db, level, marks, st), st) ==
            if Only(marks, st) == NONE then t else Put(t, db, Marked(Or(Find(t, db), BLANK), level, Only(marks, st)))
  {
    var picked, name := Pick(marks, st, Actions()), LevelName(level);
    PickIsOnly(NONE, marks, st);
    if picked != [] {
      var r := Rule(picked, [db], [name]);
      AddOne(t, r, st, db);
      var e := Or(Find(t, db), BLANK);
      if level.Whole? {
        PickIsOnly(e.db, marks, st);
      } else {
        PickIsOnly(Or(Find(e.colls, name), NONE), marks, st);
        assert [name][..0] == [];
        assert MarkColls(e.colls, [], picked, st) == e.colls;
      }
    }
  }

  /** A collection level of one entry: the collections' parts merged. */
  function WithColls(e: PermEntry, colls: Ordered<Marks>): PermEntry {
    e.(colls := MergeColls(e.colls, colls))
  }

  lemma {:induction false} AddCollGroups(t: Table, db: string, colls: Ordered<Marks>, st: State)
    requires TidyEntry(PermEntry(NONE, colls))
    ensures AddRules(t, CollRules(db, colls, st), st) ==
            if PartColls(colls, st) == [] then t
            else Put(t, db, WithColls(Or(Find(t, db), BLANK), PartColls(colls, st)))
  {
    if colls != [] {
      var n := |colls| - 1;
      var (c, marks) := colls[n];
      AddCollGroups(t, db, colls[..n], st);
      AddConcat(t, CollRules(db, colls[..n], st), RuleFor(db, Coll(c), marks, st), st);
      var e, part := Or(Find(t, db), BLANK), PartColls(colls[..n], st);
      var before := AddRules(t, CollRules(db, colls[..n], st), st);
      AddGroup(before, db, Coll(c), marks, st);
      CollPartNext(colls, st);
      if part != [] {
        PutFind(t, db, WithColls(e, part), db);
        PutPut(t, db, WithColls(e, part), Marked(WithColls(e, part), Coll(c), Only(marks, st)));
      }
      MergeNext(e, part, c, Only(marks, st));
    }
  }

  lemma CollPartNext(colls: Ordered<Marks>, st: State)
    requires colls != []
    ensures var (n, part) := (|colls| - 1, PartColls(colls[..|colls| - 1], st));
            PartColls(colls, st) ==
            if Only(colls[n].1, st) == NONE then part else part + [(colls[n].0, Only(colls[n].1, st))]
  {
  }

  lemma MergeNext(e: PermEntry, part: Ordered<Marks>, c: string, m: Marks)
    ensures Marked(WithColls(e, part), Coll(c), m) == WithColls(e, part + [(c, m)])
    ensures WithColls(e, []) == e
  {
    assert (part + [(c, m)])[..|part|] == part;
  }

  lemma AddEntry(t: Table, db: string, e: PermEntry, st: State)
    requires TidyEntry(e)
    ensures AddRules(t, EntryRules(db, e, st), st) ==
            if PartEntry(e, st) == BLANK then t else Put(t, db, MergeEntry(Or(Find(t, db), BLANK), PartEntry(e, st)))
  {
    var whole, colls := Only(e.db, st), PartColls(e.colls, st);
    var mid := AddRules(t, RuleFor(db, Whole, e.db, st), st);
    AddConcat(t, RuleFor(db, Whole, e.db, st), CollRules(db, e.colls, st), st);
    AddGroup(t, db, Whole, e.db, st);
    AddCollGroups(mid, db, e.colls, st);
    TwoLevels(t, mid, db, whole, colls);
  }

  /** Both levels of an entry, one after the other. */
  lemma TwoLevels(t: Table, mid: Table, db: string, whole: Marks, colls: Ordered<Marks>)
    requires mid == if whole == NONE then t else Put(t, db, Marked(Or(Find(t, db), BLANK), Whole, whole))
    ensures (if colls == [] then mid else Put(mid, db, WithColls(Or(Find(mid, db), BLANK), colls))) ==
            if PermEntry(whole, colls) == BLANK then t
            else Put(t, db, MergeEntry(Or(Find(t, db), BLANK), PermEntry(whole, colls)))
  {
    var was := Or(Find(t, db), BLANK);
    var first := Marked(was, Whole, whole);
    assert was.db + NONE == was.db;
    if whole != NONE {
      PutFind(t, db, first, db);
      PutPut(t, db, first, WithColls(first, colls));
      assert WithColls(first, []) == first;
    }
  }

  /** Adding a table's rules of one kind merges its part of that kind. */
  lemma {:induction false} AddTable(x: Table, t: Table, st: State)
    requires Tidy(t)
    ensures AddRules(x, Rules(t, st), st) == MergeTables(x, PartTable(t, st))
  {
    if t != [] {
      var n := |t| - 1;
      var (db, e) := t[n];
      AddTable(x, t[..n], st);
      AddConcat(x, Rules(t[..n], st), EntryRules(db, e, st), st);
      AddEntry(MergeTables(x, PartTable(t[..n], st)), db, e, st);
      MergeTableNext(x, PartTable(t[..n], st), db, PartEntry(e, st));
    }
  }

  lemma MergeTableNext(x: Table, part: Table, db: string, y: PermEntry)
    ensures MergeTables(x, part + [(db, y)]) ==
            Put(MergeTables(x, part), db, MergeEntry(Or(Find(MergeTables(x, part), db), BLANK), y))
    ensures part + [] == part
  {
    assert (part + [(db, y)])[..|part|] == part;
  }

  // ---- a table's rules depend on its parts only ----

  lemma RuleForOnly(db: string, level: Level, marks: Marks, st: State)
    ensures RuleFor(db, level, Only(marks, st), st) == RuleFor(db, level, marks, st)
    ensures RuleFor(db, level, marks, st) == [] <==> Only(marks, st) == NONE
  {
    forall a | a in Actions() ensures StateOf(Only(marks, st), a) == Some(st) <==> StateOf(marks, a) == Some(st) {
      ActionsAreKnown(a);
    }
    PickAlike(Only(marks, st), marks, st, Actions());
    PickIsOnly(NONE, marks, st);
  }

  lemma {:induction false} PickAlike(m: Marks, m': Marks, st: State, list: seq<Action>)
    requires forall a :: a in list ==> (StateOf(m, a) == Some(st) <==> StateOf(m', a) == Some(st))
    ensures Pick(m, st, list) == Pick(m', st, list)
  {
    if list != [] {
      PickAlike(m, m', st, list[..|list| - 1]);
    }
  }

  lemma {:induction false} CollRulesOfPart(db: string, colls: Ordered<Marks>, st: State)
    ensures CollRules(db, PartColls(colls, st), st) == CollRules(db, colls, st)
  {
    if colls != [] {
      var n := |colls| - 1;
      var (c, marks) := colls[n];
      var part := PartColls(colls[..n], st);
      CollRulesOfPart(db, colls[..n], st);
      CollPartNext(colls, st);
      RuleForOnly(db, Coll(c), marks, st);
      CollRulesLast(db, part, c, Only(marks, st), st);
      assert CollRules(db, colls[..n], st) + [] == CollRules(db, colls[..n], st);
    }
  }

  lemma CollRulesLast(db: string, colls: Ordered<Marks>, c: string, m: Marks, st: State)
    ensures CollRules(db, colls + [(c, m)], st) == CollRules(db, colls, st) + RuleFor(db, Coll(c), m, st)
  {
    assert (colls + [(c, m)])[..|colls|] == colls;
  }

  lemma EntryRulesOfPart(db: string, e: PermEntry, st: State)
    ensures EntryRules(db, PartEntry(e, st), st) == EntryRules(db, e, st)
    ensures PartEntry(e, st) == BLANK ==> EntryRules(db, e, st) == []
  {
    RuleForOnly(db, Whole, e.db, st);
    CollRulesOfPart(db, e.colls, st);
  }

  lemma {:induction false} RulesOfPart(t: Table, st: State)
    ensures Rules(PartTable(t, st), st) == Rules(t, st)
  {
    if t != [] {
      var n := |t| - 1;
      var (db, e) := t[n];
      var part := PartTable(t[..n], st);
      RulesOfPart(t[..n], st);
      EntryRulesOfPart(db, e, st);
      RulesLast(part, db, PartEntry(e, st), st);
      assert part + [] == part && Rules(part, st) + [] == Rules(part, st);
    }
  }

  lemma RulesLast(t: Table, db: string, e: PermEntry, st: State)
    ensures Rules(t + [(db, e)], st) == Rules(t, st) + EntryRules(db, e, st)
  {
    assert (t + [(db, e)])[..|t|] == t;
  }

  // ---- the main results ----

  lemma TableFits(t: Table)
    requires Tidy(t)
    ensures AllFit(t, EntryF(Allow), EntryF(Deny), MergeF(), BLANK)
  {
    forall i | 0 <= i < |t| ensures Fits(t[i].1, EntryF(Allow), EntryF(Deny), MergeF(), BLANK) {
      EntryFits(t[i].1);
    }
  }

  /** The table read from a table's rules: its allow part, the deny part merged in. */
  lemma TableAgain(t: Table)
    requires Tidy(t)
    ensures TableOf(Rules(t, Allow), Rules(t, Deny)) == MergeTables(PartTable(t, Allow), PartTable(t, Deny))
  {
    AddTable([], t, Allow);
    AddTable(AddRules([], Rules(t, Allow), Allow), t, Deny);
    PartIsMerged(t, Allow);
  }

  lemma PartIsMerged(t: Table, st: State)
    requires Tidy(t)
    ensures MergeTables([], PartTable(t, st)) == PartTable(t, st)
  {
    TableFits(t);
    PartDistinct(t, EntryF(st), BLANK);
    PartValues(t, st);
    MergeInto(PartTable(t, st), MergeF(), BLANK);
  }

  lemma {:induction false} PartValues(t: Table, st: State)
    requires AllFit(t, EntryF(Allow), EntryF(Deny), MergeF(), BLANK)
    ensures forall e :: e in PartTable(t, st) ==> MergeEntry(BLANK, e.1) == e.1
  {
    if t != [] {
      var n := |t| - 1;
      PartValues(t[..n], st);
      PartNext(t, n, EntryF(st), BLANK);
      assert t[..n + 1] == t;
      assert Fits(t[n].1, EntryF(Allow), EntryF(Deny), MergeF(), BLANK);
      assert MergeEntry(BLANK, PartEntry(t[n].1, st)) == PartEntry(t[n].1, st);
    }
  }

  /** Equal rule lists of one kind come from equal parts. */
  lemma RulesDetermineParts(t: Table, u: Table, st: State)
    requires Tidy(t) && Tidy(u)
    ensures Rules(t, st) == Rules(u, st) <==> PartTable(t, st) == PartTable(u, st)
  {
    RulesOfPart(t, st);
    RulesOfPart(u, st);
    AddTable([], t, st);
    AddTable([], u, st);
    PartIsMerged(t, st);
    PartIsMerged(u, st);
  }

  /** No database that is only denied comes before one that is also allowed, and inside each database no
      such collection before such a one. */
  predicate AllowedFirst(t: Table) {
    InOrder(t, EntryF(Allow), EntryF(Deny), BLANK) && forall i :: 0 <= i < |t| ==> CollsAllowedFirst(t[i].1.colls)
  }

  predicate CollsAllowedFirst(colls: Ordered<Marks>) {
    InOrder(colls, OnlyF(Allow), OnlyF(Deny), NONE)
  }

  /** The merge leaves an entry's denied collections in their order exactly when they are in that order. */
  lemma EntryKeepsIff(e: PermEntry)
    requires DistinctKeys(e.colls)
    ensures (PartEntry(e, Deny) != BLANK ==>
               PartEntry(MergeEntry(PartEntry(e, Allow), PartEntry(e, Deny)), Deny) == PartEntry(e, Deny)) <==>
            CollsAllowedFirst(e.colls)
  {
    MarksFit(e.db);
    CollsFit(e.colls);
    MergeParts(e.colls, OnlyF(Allow), OnlyF(Deny), AddF(), NONE);
    OrderIff(e.colls, OnlyF(Allow), OnlyF(Deny), AddF(), NONE);
    if PartColls(e.colls, Deny) == [] {
      PartCount(e.colls, OnlyF(Deny), NONE);
    }
  }

  lemma KeepsDenyIff(t: Table)
    requires Tidy(t)
    ensures KeepsDeny(t, EntryF(Allow), EntryF(Deny), MergeF(), BLANK) <==>
            forall i :: 0 <= i < |t| ==> CollsAllowedFirst(t[i].1.colls)
  {
    forall i | 0 <= i < |t|
      ensures (PartEntry(t[i].1, Deny) != BLANK ==>
                 PartEntry(MergeEntry(PartEntry(t[i].1, Allow), PartEntry(t[i].1, Deny)), Deny) == PartEntry(t[i].1, Deny)) <==>
              CollsAllowedFirst(t[i].1.colls)
    {
      EntryKeepsIff(t[i].1);
    }
  }

  /** Rules to table to rules: the allow list comes back, the deny list if and only if what is also allowed
      came first in it. */
  lemma AgainIff(t: Table)
    requires Tidy(t)
    ensures var u := TableOf(Rules(t, Allow), Rules(t, Deny));
            Rules(u, Allow) == Rules(t, Allow) && (Rules(u, Deny) == Rules(t, Deny) <==> AllowedFirst(t))
  {
    var u := TableOf(Rules(t, Allow), Rules(t, Deny));
    TableAgain(t);
    TableFits(t);
    TableTidy(Rules(t, Allow), Rules(t, Deny));
    MergeParts(t, EntryF(Allow), EntryF(Deny), MergeF(), BLANK);
    RulesDetermineParts(t, u, Allow);
    RulesDetermineParts(t, u, Deny);
    OrderIff(t, EntryF(Allow), EntryF(Deny), MergeF(), BLANK);
    KeepsDenyIff(t);
  }

  lemma MergedCollsOrdered(e: PermEntry)
    requires DistinctKeys(e.colls)
    ensures CollsAllowedFirst(PartColls(e.colls, Deny))
    ensures CollsAllowedFirst(PartColls(e.colls, Allow))
    ensures CollsAllowedFirst(MergeColls(PartColls(e.colls, Allow), PartColls(e.colls, Deny)))
  {
    CollsFit(e.colls);
    MergeInOrder(e.colls, OnlyF(Allow), OnlyF(Deny), AddF(), NONE);
    PartOfPart(e.colls, Allow, Deny);
    PartOfPart(e.colls, Deny, Allow);
    PartCount(PartColls(e.colls, Allow), OnlyF(Deny), NONE);
    PartCount(PartColls(e.colls, Deny), OnlyF(Allow), NONE);
  }

  /** What the editor reads back from its own lists has the allowed first. */
  lemma AgainAllowedFirst(t: Table)
    requires Tidy(t)
    ensures AllowedFirst(TableOf(Rules(t, Allow), Rules(t, Deny)))
  {
    TableAgain(t);
    TableFits(t);
    MergeInOrder(t, EntryF(Allow), EntryF(Deny), MergeF(), BLANK);
    var u := MergeTables(PartTable(t, Allow), PartTable(t, Deny));
    forall i | 0 <= i < |u| ensures CollsAllowedFirst(u[i].1.colls) {
      MergedEntryOrdered(t, u[i]);
    }
  }

  lemma MergedEntryOrdered(t: Table, w: (string, PermEntry))
    requires Tidy(t) && w in MergeTables(PartTable(t, Allow), PartTable(t, Deny))
    ensures CollsAllowedFirst(w.1.colls)
  {
    TableFits(t);
    MergeValues(t, EntryF(Allow), EntryF(Deny), MergeF(), BLANK, w);
    var m :| 0 <= m < |t| && (w.1 == Merged(t[m].1, EntryF(Allow), EntryF(Deny), MergeF(), BLANK) ||
                              w.1 == EntryF(Deny)(t[m].1));
    EntryValuesOrdered(t[m].1);
  }

  lemma EntryValuesOrdered(e: PermEntry)
    requires DistinctKeys(e.colls)
    ensures CollsAllowedFirst(Merged(e, EntryF(Allow), EntryF(Deny), MergeF(), BLANK).colls)
    ensures CollsAllowedFirst(EntryF(Deny)(e).colls)
  {
    MergedCollsOrdered(e);
  }

  /** Normalising rule lists twice: the allow list never changes again; the deny list does not either if and
      only if in the editor's table what is only denied comes after what is also allowed; and from the
      second time on nothing changes. */
  lemma NormalAgainIff(allow: seq<Rule>, deny: seq<Rule>)
    ensures var once := Normal(allow, deny);
            var twice := Normal(once.0, once.1);
            twice.0 == once.0 && (twice == once <==> AllowedFirst(TableOf(allow, deny))) &&
            Normal(twice.0, twice.1) == twice
  {
    var t, once := TableOf(allow, deny), Normal(allow, deny);
    TableTidy(allow, deny);
    AgainIff(t);
    AgainAllowedFirst(t);
    TableTidy(once.0, once.1);
    AgainIff(TableOf(once.0, once.1));
  }

  function WholeRule(a: Action, db: string): Rule {
    Rule([a], [db], ["*"])
  }

  lemma AddWhole(t: Table, a: Action, db: string, st: State)
    ensures AddRules(t, [WholeRule(a, db)], st) ==
            Put(t, db, var e := Or(Find(t, db), BLANK); e.(db := Mark(e.db, [a], st)))
  {
    AddOne(t, WholeRule(a, db), st, db);
    assert WholeRule(a, db).collections[0] == "*";
  }

  /** Two databases: the first only denied in the end, the second allowed one action and denied another.
      Normalising twice is not normalising once: the deny rules change places. */
  lemma SecondTimeSwaps()
    ensures var (allow, deny) := ([WholeRule(GET, "a")] + [WholeRule(GET, "b")], [WholeRule(GET, "a")] + [WholeRule(POST, "b")]);
            var once := Normal(allow, deny);
            Normal(once.0, once.1) != once
  {
    var allow, deny := [WholeRule(GET, "a")] + [WholeRule(GET, "b")], [WholeRule(GET, "a")] + [WholeRule(POST, "b")];
    var t := TableOf(allow, deny);
    var g := Mark(NONE, [GET], Allow);
    var a, b := PermEntry(Mark(g, [GET], Deny), []), PermEntry(Mark(g, [POST], Deny), []);
    SwapTable(t, a, b);
    OutOfOrder(t, a, b);
    NormalAgainIff(allow, deny);
  }

  lemma OutOfOrder(t: Table, a: PermEntry, b: PermEntry)
    requires var g := Mark(NONE, [GET], Allow);
             a == PermEntry(Mark(g, [GET], Deny), []) && b == PermEntry(Mark(g, [POST], Deny), [])
    requires t == [("a", a), ("b", b)]
    ensures !AllowedFirst(t)
  {
    assert Only(a.db, Allow) == NONE && GET in Only(a.db, Deny);
    assert GET in Only(b.db, Allow) && POST in Only(b.db, Deny);
    assert DenyOnly(t[0].1, EntryF(Allow), EntryF(Deny), BLANK) && Mixed(t[1].1, EntryF(Allow), EntryF(Deny), BLANK);
  }

  lemma SwapTable(t: Table, a: PermEntry, b: PermEntry)
    requires t == TableOf([WholeRule(GET, "a")] + [WholeRule(GET, "b")], [WholeRule(GET, "a")] + [WholeRule(POST, "b")])
    requires var g := Mark(NONE, [GET], Allow);
             a == PermEntry(Mark(g, [GET], Deny), []) && b == PermEntry(Mark(g, [POST], Deny), [])
    ensures t == [("a", a), ("b", b)]
  {
    var e := PermEntry(Mark(NONE, [GET], Allow), []);
    var both := [("a", e), ("b", e)];
    SwapAllowed(e);
    AddConcat(both, [WholeRule(GET, "a")], [WholeRule(POST, "b")], Deny);
    AddWhole(both, GET, "a", Deny);
    TwoEntries(e, e, a);
    TwoEntries(a, e, b);
    AddWhole([("a", a), ("b", e)], POST, "b", Deny);
  }

  lemma SwapAllowed(e: PermEntry)
    requires e == PermEntry(Mark(NONE, [GET], Allow), [])
    ensures AddRules([], [WholeRule(GET, "a")] + [WholeRule(GET, "b")], Allow) == [("a", e), ("b", e)]
  {
    AddConcat([], [WholeRule(GET, "a")], [WholeRule(GET, "b")], Allow);
    AddWhole([], GET, "a", Allow);
    AddWhole([("a", e)], GET, "b", Allow);
    TwoEntries(e, e, e);
  }

  lemma TwoEntries(x: PermEntry, y: PermEntry, z: PermEntry)
    ensures var t := [("a", x), ("b", y)];
            Find(t, "a") == Some(x) && Find(t, "b") == Some(y) && Put(t, "a", z) == [("a", z), ("b", y)] &&
            Put(t, "b", z) == [("a", x), ("b", z)]
    ensures Find([("a", x)], "b") == None && Put([("a", x)], "b", z) == [("a", x), ("b", z)]
  {
    assert [("a", x), ("b", y)][1..] == [("b", y)] && [("a", x)][1..] == [];
  }
}
