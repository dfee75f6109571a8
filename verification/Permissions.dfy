/** Layered allow / deny rules: src/perms.rs and the verdict of src/assets/ts/perm-widget.ts. */
module Permissions {
  import opened Prelude
  import opened Glob

  /** The known actions; `Other` is any other text a file may hold. */
  datatype Action = GET | POST | PUT | PATCH | DELETE | INDEX | Other(name: string)

  datatype Rule = Rule(actions: seq<Action>, databases: seq<string>, collections: seq<string>)
  datatype NameEntry = NameEntry(allow: seq<Rule>, deny: seq<Rule>)
  datatype AppEntry = AppEntry(allow: seq<Rule>, deny: seq<Rule>, names: map<string, NameEntry>)
  type PermissionsFile = map<string, AppEntry>

  predicate SomeMatched(patterns: seq<string>, value: string) {
    exists p :: p in patterns && Matched(p, value)
  }

  predicate RuleHits(r: Rule, action: Action, db: string, coll: string) {
    action in r.actions && SomeMatched(r.databases, db) && SomeMatched(r.collections, coll)
  }

  /** `rule_matches`. */
  predicate RuleMatches(rules: seq<Rule>, action: Action, db: string, coll: string) {
    exists r :: r in rules && RuleHits(r, action, db, coll)
  }

  /** `allows`: name.deny, name.allow, app.deny, app.allow, else deny. */
  predicate Allows(p: PermissionsFile, name: string, app: string, action: Action, db: string, coll: string) {
    app in p &&
    var entry := p[app];
    if name in entry.names && RuleMatches(entry.names[name].deny, action, db, coll) then false
    else if name in entry.names && RuleMatches(entry.names[name].allow, action, db, coll) then true
    else if RuleMatches(entry.deny, action, db, coll) then false
    else RuleMatches(entry.allow, action, db, coll)
  }

  // ---- the rules the dashboard shows ----

  datatype Source = NameDeny | NameAllow | AppDeny | AppAllow

  datatype EffectiveRule = EffectiveRule(source: Source, rule: Rule)

  function Tagged(rules: seq<Rule>, source: Source): (r: seq<EffectiveRule>)
    ensures |r| == |rules|
    ensures forall i {:trigger r[i]} :: 0 <= i < |r| ==> r[i] == EffectiveRule(source, rules[i])
  {
    seq(|rules|, i requires 0 <= i < |rules| => EffectiveRule(source, rules[i]))
  }

  function NameRules(entry: AppEntry, name: Option<string>): seq<EffectiveRule> {
    if name.Some? && name.value in entry.names
    then Tagged(entry.names[name.value].deny, NameDeny) + Tagged(entry.names[name.value].allow, NameAllow)
    else []
  }

  function Effective(p: PermissionsFile, app: string, name: Option<string>): seq<EffectiveRule> {
    if app !in p then []
    else NameRules(p[app], name) + (Tagged(p[app].deny, AppDeny) + Tagged(p[app].allow, AppAllow))
  }

  method PushRules(out: seq<EffectiveRule>, rules: seq<Rule>, source: Source) returns (r: seq<EffectiveRule>)
    ensures r == out + Tagged(rules, source)
  {
    r := out;
    for i := 0 to |rules|
      invariant r == out + Tagged(rules, source)[..i]
    {
      r := r + [EffectiveRule(source, rules[i])];
    }
  }

  /** The two loops of one layer, deny before allow. */
  method PushLayer(out: seq<EffectiveRule>, deny: seq<Rule>, d: Source, allow: seq<Rule>, a: Source)
    returns (r: seq<EffectiveRule>)
    ensures r == out + (Tagged(deny, d) + Tagged(allow, a))
  {
    r := PushRules(out, deny, d);
    r := PushRules(r, allow, a);
    assert out + Tagged(deny, d) + Tagged(allow, a) == out + (Tagged(deny, d) + Tagged(allow, a));
  }

  /** `effective_rules`. */
  method EffectiveRules(p: PermissionsFile, app: string, name: Option<string>) returns (out: seq<EffectiveRule>)
    ensures out == Effective(p, app, name)
  {
    out := [];
    if app !in p {
      return;
    }
    if name.Some? && name.value in p[app].names {
      var entry := p[app].names[name.value];
      out := PushLayer(out, entry.deny, NameDeny, entry.allow, NameAllow);
    }
    assert out == NameRules(p[app], name);
    out := PushLayer(out, p[app].deny, AppDeny, p[app].allow, AppAllow);
  }

  // ---- the dashboard's verdict ----

  /** What `.` in a JavaScript pattern does not match. */
  predicate LineBreak(x: char) {
    x == '\n' || x == '\r' || x as int == 0x2028 || x as int == 0x2029
  }

  /** The pattern as the dashboard's regular expression reads it: `*` is `.*`, `?` is `.`. */
  predicate RegexMeans(p: string, v: string)
    decreases |p| + |v|
  {
    if p == [] then v == []
    else if p[0] == '*' then RegexMeans(p[1..], v) || (v != [] && !LineBreak(v[0]) && RegexMeans(p, v[1..]))
    else v != [] && (if p[0] == '?' then !LineBreak(v[0]) else p[0] == v[0]) && RegexMeans(p[1..], v[1..])
  }

  /** `glob` of the dashboard. */
  predicate DashGlob(p: string, v: string) {
    p == "*" || p == "**" || RegexMeans(p, v)
  }

  predicate DashHits(r: Rule, action: Action, db: string, coll: string) {
    action in r.actions && (exists p :: p in r.databases && DashGlob(p, db)) &&
    (exists p :: p in r.collections && DashGlob(p, coll))
  }

  predicate IsName(s: Source) { s.NameDeny? || s.NameAllow? }

  predicate IsDeny(s: Source) { s.NameDeny? || s.AppDeny? }

  /** The first rule that counts decides. */
  function First(eff: seq<EffectiveRule>, counts: EffectiveRule -> bool): Option<bool> {
    if eff == [] then None
    else if counts(eff[0]) then Some(!IsDeny(eff[0].source))
    else First(eff[1..], counts)
  }

  /** A rule counts when it matches, as the server or as the dashboard reads patterns; the dashboard can
      leave out a name's own rules. */
  function ServerCounts(action: Action, db: string, coll: string, appOnly: bool): EffectiveRule -> bool {
    (e: EffectiveRule) => !(appOnly && IsName(e.source)) && RuleHits(e.rule, action, db, coll)
  }

  function DashCounts(action: Action, db: string, coll: string, appOnly: bool): EffectiveRule -> bool {
    (e: EffectiveRule) => !(appOnly && IsName(e.source)) && DashHits(e.rule, action, db, coll)
  }

  /** `effVerdict`. */
  function Verdict(eff: seq<EffectiveRule>, action: Action, db: string, coll: string, appOnly: bool): Option<bool> {
    First(eff, DashCounts(action, db, coll, appOnly))
  }

  method EffVerdict(eff: seq<EffectiveRule>, action: Action, db: string, coll: string, appOnly: bool)
    returns (r: Option<bool>)
    ensures r == Verdict(eff, action, db, coll, appOnly)
  {
    ghost var counts := DashCounts(action, db, coll, appOnly);
    for i := 0 to |eff|
      invariant First(eff[i..], counts) == First(eff, counts)
    {
      assert eff[i..][1..] == eff[i + 1..];
      if !(appOnly && IsName(eff[i].source)) && DashHits(eff[i].rule, action, db, coll) {
        return Some(!IsDeny(eff[i].source));
      }
    }
    return None;
  }

  // ---- the server's decision is the first match ----

  predicate SomeCounts(rules: seq<Rule>, source: Source, counts: EffectiveRule -> bool) {
    exists r :: r in rules && counts(EffectiveRule(source, r))
  }

  /** One layer's rules decide exactly when one of them counts. */
  lemma {:induction false} LayerFirst(rules: seq<Rule>, source: Source, rest: seq<EffectiveRule>, counts: EffectiveRule -> bool)
    ensures First(Tagged(rules, source) + rest, counts) ==
            if SomeCounts(rules, source, counts) then Some(!IsDeny(source)) else First(rest, counts)
  {
    var all := Tagged(rules, source) + rest;
    if rules == [] {
      assert all == rest;
    } else {
      assert all[1..] == Tagged(rules[1..], source) + rest;
      LayerFirst(rules[1..], source, rest, counts);
      assert forall r :: r in rules <==> r == rules[0] || r in rules[1..];
    }
  }

  /** What one layer says: deny before allow, or nothing. */
  function Layer(allow: seq<Rule>, deny: seq<Rule>, action: Action, db: string, coll: string): Option<bool> {
    if RuleMatches(deny, action, db, coll) then Some(false)
    else if RuleMatches(allow, action, db, coll) then Some(true)
    else None
  }

  lemma PairFirst(allow: seq<Rule>, deny: seq<Rule>, names: bool, rest: seq<EffectiveRule>, action: Action, db: string,
                  coll: string, appOnly: bool)
    ensures var said := if appOnly && names then None else Layer(allow, deny, action, db, coll);
            var (d, a) := if names then (NameDeny, NameAllow) else (AppDeny, AppAllow);
            var counts := ServerCounts(action, db, coll, appOnly);
            First(Tagged(deny, d) + (Tagged(allow, a) + rest), counts) == if said.Some? then said else First(rest, counts)
  {
    var (d, a) := if names then (NameDeny, NameAllow) else (AppDeny, AppAllow);
    var counts := ServerCounts(action, db, coll, appOnly);
    LayerFirst(deny, d, Tagged(allow, a) + rest, counts);
    LayerFirst(allow, a, rest, counts);
  }

  lemma AppFirst(entry: AppEntry, action: Action, db: string, coll: string, appOnly: bool)
    ensures First(Tagged(entry.deny, AppDeny) + Tagged(entry.allow, AppAllow), ServerCounts(action, db, coll, appOnly)) ==
            Layer(entry.allow, entry.deny, action, db, coll)
  {
    PairFirst(entry.allow, entry.deny, false, [], action, db, coll, appOnly);
    assert Tagged(entry.allow, AppAllow) + [] == Tagged(entry.allow, AppAllow);
  }

  lemma NameFirst(entry: AppEntry, name: string, rest: seq<EffectiveRule>, action: Action, db: string, coll: string,
                  appOnly: bool)
    ensures var said := if appOnly || name !in entry.names then None
                        else Layer(entry.names[name].allow, entry.names[name].deny, action, db, coll);
            var counts := ServerCounts(action, db, coll, appOnly);
            First(NameRules(entry, Some(name)) + rest, counts) == if said.Some? then said else First(rest, counts)
  {
    if name in entry.names {
      var n := entry.names[name];
      PairFirst(n.allow, n.deny, true, rest, action, db, coll, appOnly);
      assert Tagged(n.deny, NameDeny) + Tagged(n.allow, NameAllow) + rest ==
             Tagged(n.deny, NameDeny) + (Tagged(n.allow, NameAllow) + rest);
    } else {
      assert [] + rest == rest;
    }
  }

  /** The server's decision by layers: the name's own rules, then the app's. */
  lemma AllowsByLayers(p: PermissionsFile, name: string, app: string, action: Action, db: string, coll: string)
    requires app in p
    ensures var entry := p[app];
            var said := if name in entry.names then Layer(entry.names[name].allow, entry.names[name].deny, action, db, coll) else None;
            Allows(p, name, app, action, db, coll) <==>
            (if said.Some? then said else Layer(entry.allow, entry.deny, action, db, coll)) == Some(true)
  {
  }

  /** A client is allowed exactly what the first matching effective rule allows, and denied what none
      matches; for every file, name, action, database and collection. */
  lemma FirstIsAllows(p: PermissionsFile, name: string, app: string, action: Action, db: string, coll: string)
    ensures Allows(p, name, app, action, db, coll) <==>
            First(Effective(p, app, Some(name)), ServerCounts(action, db, coll, false)) == Some(true)
  {
    if app in p {
      var entry := p[app];
      AllowsByLayers(p, name, app, action, db, coll);
      AppFirst(entry, action, db, coll, false);
      NameFirst(entry, name, Tagged(entry.deny, AppDeny) + Tagged(entry.allow, AppAllow), action, db, coll, false);
    }
  }

  /** What a name inherits: the first match without its own rules decides for a client whose name has no
      entry. */
  lemma FirstInherited(p: PermissionsFile, name: string, other: string, app: string, action: Action, db: string, coll: string)
    requires app in p && other !in p[app].names
    ensures Allows(p, other, app, action, db, coll) <==>
            First(Effective(p, app, Some(name)), ServerCounts(action, db, coll, true)) == Some(true)
  {
    var entry := p[app];
    AllowsByLayers(p, other, app, action, db, coll);
    AppFirst(entry, action, db, coll, true);
    NameFirst(entry, name, Tagged(entry.deny, AppDeny) + Tagged(entry.allow, AppAllow), action, db, coll, true);
  }

  // ---- both sides agree ----

  lemma {:induction false} RegexIsMeaning(p: string, v: string)
    requires forall i :: 0 <= i < |v| ==> !LineBreak(v[i])
    ensures RegexMeans(p, v) <==> Means(p, v)
    decreases |p| + |v|
  {
    if p != [] {
      RegexIsMeaning(p[1..], v);
      if v != [] {
        RegexIsMeaning(p, v[1..]);
        RegexIsMeaning(p[1..], v[1..]);
      }
    }
  }

  /** A name on which the server's matcher and the dashboard's agree. */
  predicate PlainName(v: string) {
    forall i :: 0 <= i < |v| ==>
      v[i] != '*' && v[i] != '\n' && v[i] != '\r' && v[i] as int != 0x2028 && v[i] as int != 0x2029
  }

  /** On one name the two matchers give one answer for this pattern. */
  predicate Agrees(p: string, v: string) {
    DashGlob(p, v) <==> Matched(p, v)
  }

  lemma GlobsAgree(p: string, v: string)
    requires PlainName(v)
    ensures Agrees(p, v)
  {
    RegexIsMeaning(p, v);
    MatchedMeans(p, v);
  }

  lemma {:induction false} OnesScan(p: string, v: string, i: nat)
    requires i <= |v| == |p| && forall j :: 0 <= j < |p| ==> p[j] == '?'
    ensures Scan(p, v, i, i, -1, 0)
    decreases |v| - i
  {
    if i < |v| {
      OnesScan(p, v, i + 1);
    }
  }

  lemma {:induction false} OnesRegex(p: string, v: string, n: nat)
    requires n < |v| == |p| && LineBreak(v[n]) && forall j :: 0 <= j < |p| ==> p[j] == '?'
    ensures !RegexMeans(p, v)
  {
    if n > 0 {
      OnesRegex(p[1..], v[1..], n - 1);
    }
  }

  /** The two matchers agree on every pattern for exactly the names without `*` and without line breaks. */
  lemma GlobsAgreeIff(v: string)
    ensures PlainName(v) <==> forall p :: Agrees(p, v)
  {
    if PlainName(v) {
      forall p ensures Agrees(p, v) {
        GlobsAgree(p, v);
      }
    } else if n :| 0 <= n < |v| && LineBreak(v[n]) {
      var p := AnyOnes(|v|);
      OnesScan(p, v, 0);
      OnesRegex(p, v, n);
      assert p[0] == '?';
      assert !Agrees(p, v);
    } else {
      var n :| 0 <= n < |v| && v[n] == '*';
      var p := AnyOnes(n) + "*" + AnyOnes(|v| - n);
      StarEaten(v, n);
      RegexIsMeaning(p, v);
      assert !Agrees(p, v);
    }
  }

  /** A database and a collection pattern that both sides find to match together, or both do not. */
  predicate PairAgrees(q: string, c: string, db: string, coll: string) {
    DashGlob(q, db) && DashGlob(c, coll) <==> Matched(q, db) && Matched(c, coll)
  }

  predicate RuleAgrees(r: Rule, db: string, coll: string) {
    forall q, c :: q in r.databases && c in r.collections ==> PairAgrees(q, c, db, coll)
  }

  predicate RulesAgree(rules: seq<Rule>, db: string, coll: string) {
    forall r :: r in rules ==> RuleAgrees(r, db, coll)
  }

  lemma RuleHitsAgree(r: Rule, action: Action, db: string, coll: string)
    requires RuleAgrees(r, db, coll)
    ensures DashHits(r, action, db, coll) <==> RuleHits(r, action, db, coll)
  {
    if DashHits(r, action, db, coll) {
      var q, c :| q in r.databases && DashGlob(q, db) && c in r.collections && DashGlob(c, coll);
      assert PairAgrees(q, c, db, coll);
    }
    if RuleHits(r, action, db, coll) {
      var q, c :| q in r.databases && Matched(q, db) && c in r.collections && Matched(c, coll);
      assert PairAgrees(q, c, db, coll);
    }
  }

  /** Rules whose patterns agree give one verdict. */
  lemma {:induction false} FirstAgrees(eff: seq<EffectiveRule>, action: Action, db: string, coll: string, appOnly: bool)
    requires forall e :: e in eff && !(appOnly && IsName(e.source)) ==> RuleAgrees(e.rule, db, coll)
    ensures Verdict(eff, action, db, coll, appOnly) == First(eff, ServerCounts(action, db, coll, appOnly))
  {
    if eff != [] {
      FirstAgrees(eff[1..], action, db, coll, appOnly);
      if !(appOnly && IsName(eff[0].source)) {
        RuleHitsAgree(eff[0].rule, action, db, coll);
      }
    }
  }

  lemma TaggedRules(rules: seq<Rule>, source: Source, e: EffectiveRule)
    requires e in Tagged(rules, source)
    ensures e.source == source && e.rule in rules
  {
  }

  /** The patterns of an app's own rules, and of one of its names'. */
  predicate FileAgrees(entry: AppEntry, name: string, db: string, coll: string) {
    RulesAgree(entry.allow, db, coll) && RulesAgree(entry.deny, db, coll) &&
    (name in entry.names ==> RulesAgree(entry.names[name].allow, db, coll) && RulesAgree(entry.names[name].deny, db, coll))
  }

  lemma EffectiveAgrees(p: PermissionsFile, app: string, name: string, e: EffectiveRule, db: string, coll: string)
    requires app in p && e in Effective(p, app, Some(name))
    requires RulesAgree(p[app].allow, db, coll) && RulesAgree(p[app].deny, db, coll)
    ensures !IsName(e.source) || FileAgrees(p[app], name, db, coll) ==> RuleAgrees(e.rule, db, coll)
  {
    var entry := p[app];
    if e in NameRules(entry, Some(name)) {
      if e in Tagged(entry.names[name].deny, NameDeny) {
        TaggedRules(entry.names[name].deny, NameDeny, e);
      } else {
        TaggedRules(entry.names[name].allow, NameAllow, e);
      }
    } else if e in Tagged(entry.deny, AppDeny) {
      TaggedRules(entry.deny, AppDeny, e);
    } else {
      TaggedRules(entry.allow, AppAllow, e);
    }
  }

  /** The dashboard's verdict is the server's decision wherever both matchers agree on the patterns in play. */
  lemma VerdictIsAllows(p: PermissionsFile, name: string, app: string, action: Action, db: string, coll: string)
    requires app in p ==> FileAgrees(p[app], name, db, coll)
    ensures Allows(p, name, app, action, db, coll) <==>
            Verdict(Effective(p, app, Some(name)), action, db, coll, false) == Some(true)
  {
    FirstIsAllows(p, name, app, action, db, coll);
    if app in p {
      forall e | e in Effective(p, app, Some(name)) ensures RuleAgrees(e.rule, db, coll) {
        EffectiveAgrees(p, app, name, e, db, coll);
      }
    }
    FirstAgrees(Effective(p, app, Some(name)), action, db, coll, false);
  }

  /** So is the inherited one, wherever the patterns of the app's own rules agree. */
  lemma InheritedVerdict(p: PermissionsFile, name: string, other: string, app: string, action: Action, db: string, coll: string)
    requires app in p && other !in p[app].names
    requires RulesAgree(p[app].allow, db, coll) && RulesAgree(p[app].deny, db, coll)
    ensures Allows(p, other, app, action, db, coll) <==>
            Verdict(Effective(p, app, Some(name)), action, db, coll, true) == Some(true)
  {
    FirstInherited(p, name, other, app, action, db, coll);
    forall e | e in Effective(p, app, Some(name)) && !IsName(e.source) ensures RuleAgrees(e.rule, db, coll) {
      EffectiveAgrees(p, app, name, e, db, coll);
    }
    FirstAgrees(Effective(p, app, Some(name)), action, db, coll, true);
  }

  // ---- for which names the sides agree on every file ----

  function OneRule(q: string, c: string): PermissionsFile {
    map["app" := AppEntry([Rule([GET], [q], [c])], [], map[])]
  }

  /** A file of one rule allows what its two patterns match, on either side. */
  lemma OneRuleVerdict(q: string, c: string, name: string, db: string, coll: string, appOnly: bool)
    ensures Allows(OneRule(q, c), name, "app", GET, db, coll) <==> Matched(q, db) && Matched(c, coll)
    ensures Verdict(Effective(OneRule(q, c), "app", Some(name)), GET, db, coll, appOnly) == Some(true) <==>
            DashGlob(q, db) && DashGlob(c, coll)
  {
    var rule := Rule([GET], [q], [c]);
    var entry := OneRule(q, c)["app"];
    assert entry.allow == [rule] && rule in entry.allow && GET in rule.actions;
    assert RuleHits(rule, GET, db, coll) <==> Matched(q, db) && Matched(c, coll);
    assert DashHits(rule, GET, db, coll) <==> DashGlob(q, db) && DashGlob(c, coll);
    AllowsByLayers(OneRule(q, c), name, "app", GET, db, coll);
    var eff := Effective(OneRule(q, c), "app", Some(name));
    assert eff == [EffectiveRule(AppAllow, rule)];
    assert First(eff[1..], DashCounts(GET, db, coll, appOnly)) == None;
  }

  ghost predicate SameOnAllFiles(db: string, coll: string) {
    forall p: PermissionsFile, name, app, action ::
      Allows(p, name, app, action, db, coll) <==>
      Verdict(Effective(p, app, Some(name)), action, db, coll, false) == Some(true)
  }

  lemma AllPlain(entry: AppEntry, name: string, db: string, coll: string)
    requires PlainName(db) && PlainName(coll)
    ensures FileAgrees(entry, name, db, coll)
  {
    forall q, c ensures PairAgrees(q, c, db, coll) {
      GlobsAgree(q, db);
      GlobsAgree(c, coll);
    }
  }

  /** The dashboard's verdict is the server's decision on every file if and only if the names hold neither
      `*` nor a line break. */
  lemma VerdictsAgreeIff(db: string, coll: string)
    ensures PlainName(db) && PlainName(coll) <==> SameOnAllFiles(db, coll)
  {
    GlobsAgreeIff(db);
    GlobsAgreeIff(coll);
    if PlainName(db) && PlainName(coll) {
      forall p: PermissionsFile, name, app, action
        ensures Allows(p, name, app, action, db, coll) <==>
                Verdict(Effective(p, app, Some(name)), action, db, coll, false) == Some(true)
      {
        if app in p {
          AllPlain(p[app], name, db, coll);
        }
        VerdictIsAllows(p, name, app, action, db, coll);
      }
    } else if !PlainName(db) {
      var q :| !Agrees(q, db);
      OneRuleVerdict(q, "*", "n", db, coll, false);
    } else {
      var c :| !Agrees(c, coll);
      OneRuleVerdict("*", c, "n", db, coll, false);
    }
  }

  // ---- for which patterns the inherited verdict is the server's ----

  predicate PatternsIn(rules: seq<Rule>, dbs: set<string>, colls: set<string>) {
    forall r :: r in rules ==> (forall q :: q in r.databases ==> q in dbs) && (forall c :: c in r.collections ==> c in colls)
  }

  /** On every file whose app rules are made of these patterns, the dashboard shows as inherited what the
      server decides. */
  ghost predicate SameInherited(dbs: set<string>, colls: set<string>, db: string, coll: string) {
    forall p: PermissionsFile, name, other, app, action ::
      app in p && other !in p[app].names && PatternsIn(p[app].allow, dbs, colls) && PatternsIn(p[app].deny, dbs, colls) ==>
        (Allows(p, other, app, action, db, coll) <==>
         Verdict(Effective(p, app, Some(name)), action, db, coll, true) == Some(true))
  }

  /** That is so for any two names, patterns among them, if and only if both matchers agree on every pair of
      patterns. */
  lemma InheritedIff(dbs: set<string>, colls: set<string>, db: string, coll: string)
    ensures (forall q, c :: q in dbs && c in colls ==> PairAgrees(q, c, db, coll)) <==> SameInherited(dbs, colls, db, coll)
  {
    if q, c :| q in dbs && c in colls && !PairAgrees(q, c, db, coll) {
      PairDiffers(q, c, dbs, colls, db, coll);
    } else {
      forall p: PermissionsFile, name, other, app, action |
        app in p && other !in p[app].names && PatternsIn(p[app].allow, dbs, colls) && PatternsIn(p[app].deny, dbs, colls)
        ensures Allows(p, other, app, action, db, coll) <==>
                Verdict(Effective(p, app, Some(name)), action, db, coll, true) == Some(true)
      {
        InheritedVerdict(p, name, other, app, action, db, coll);
      }
    }
  }

  lemma PairDiffers(q: string, c: string, dbs: set<string>, colls: set<string>, db: string, coll: string)
    requires q in dbs && c in colls && !PairAgrees(q, c, db, coll)
    ensures !SameInherited(dbs, colls, db, coll)
  {
    OneRuleVerdict(q, c, "n", db, coll, true);
    OneRuleVerdict(q, c, "other", db, coll, true);
    var entry := OneRule(q, c)["app"];
    assert PatternsIn(entry.allow, dbs, colls) && PatternsIn(entry.deny, dbs, colls) && "other" !in entry.names;
  }

  // ---- the name `*`, which the dashboard asks for a whole database ----

  /** Stars, one `?`, stars. */
  predicate OneAny(p: string) {
    p != "" && ((p[0] == '?' && AllStars(p[1..])) || (p[0] == '*' && OneAny(p[1..])))
  }

  /** The same with a star in front: what the server's loop takes the name's own star for. */
  predicate StarThenAny(p: string) {
    OneAny(p) && p[0] == '*'
  }

  lemma {:induction false} MeansStar(p: string)
    ensures Means(p, "*") <==> OneAny(p) || (p != "" && AllStars(p))
  {
    assert "*"[1..] == "";
    if p != "" {
      MeansStar(p[1..]);
      OnlyStarsMeanNothing(p);
      OnlyStarsMeanNothing(p[1..]);
      assert AllStars(p) <==> p[0] == '*' && AllStars(p[1..]);
    }
  }

  lemma MatchedStar(p: string)
    ensures Matched(p, "*") <==> p != "" && (p[0] == '*' || p[0] == '?') && AllStars(p[1..])
  {
    if p != "" && Fits(p[0], '*') {
      assert Scan(p, "*", 0, 0, -1, 0) == Scan(p, "*", 1, 1, -1, 0);
    }
  }

  /** On the name `*` the matchers differ on exactly the patterns of one or more stars, one `?`, and any
      stars: the dashboard matches them, the server does not. */
  lemma StarNameAgreesIff(p: string)
    ensures Agrees(p, "*") <==> !StarThenAny(p)
    ensures StarThenAny(p) ==> DashGlob(p, "*") && !Matched(p, "*")
  {
    RegexIsMeaning(p, "*");
    MeansStar(p);
    MatchedStar(p);
    if p != "" {
      assert AllStars(p) <==> p[0] == '*' && AllStars(p[1..]);
      AnyIsNoStar(p);
      AnyIsNoStar(p[1..]);
    }
  }

  lemma {:induction false} AnyIsNoStar(p: string)
    ensures OneAny(p) ==> !AllStars(p)
  {
    if p != "" {
      AnyIsNoStar(p[1..]);
      assert AllStars(p) ==> AllStars(p[1..]);
    }
  }

  /** What the dashboard shows as inherited for a whole plain database is the server's decision on all files over
      some collection patterns if and only if none of these is stars, one `?`, and stars, with a star in
      front. */
  lemma InheritedStarIff(colls: set<string>)
    ensures (forall c :: c in colls ==> !StarThenAny(c)) <==>
            forall dbs: set<string>, db :: PlainName(db) ==> SameInherited(dbs, colls, db, "*")
  {
    if c :| c in colls && StarThenAny(c) {
      StarDiffers(c, colls);
    } else {
      forall dbs: set<string>, db | PlainName(db) ensures SameInherited(dbs, colls, db, "*") {
        StarAgrees(dbs, colls, db);
      }
    }
  }

  lemma StarAgrees(dbs: set<string>, colls: set<string>, db: string)
    requires PlainName(db) && forall c :: c in colls ==> !StarThenAny(c)
    ensures SameInherited(dbs, colls, db, "*")
  {
    forall q, c | q in dbs && c in colls ensures PairAgrees(q, c, db, "*") {
      GlobsAgree(q, db);
      StarNameAgreesIff(c);
    }
    InheritedIff(dbs, colls, db, "*");
  }

  lemma StarDiffers(c: string, colls: set<string>)
    requires c in colls && StarThenAny(c)
    ensures exists dbs: set<string>, db :: PlainName(db) && !SameInherited(dbs, colls, db, "*")
  {
    StarPairDiffers(c);
    PairDiffers("db", c, {"db"}, colls, "db", "*");
  }

  lemma StarPairDiffers(c: string)
    requires StarThenAny(c)
    ensures DashGlob("db", "db") && DashGlob(c, "*") && !Matched(c, "*") && !PairAgrees("db", c, "db", "*")
  {
    StarNameAgreesIff(c);
    RegexIsMeaning("db", "db");
    LiteralMeans("db");
  }

  /** An app that allows reading collections named by such a pattern: the dashboard shows a whole database
      as inherited, the server refuses it. */
  lemma InheritedStarDiffers(c: string, name: string, other: string)
    requires StarThenAny(c)
    ensures Verdict(Effective(OneRule("db", c), "app", Some(name)), GET, "db", "*", true) == Some(true)
    ensures !Allows(OneRule("db", c), other, "app", GET, "db", "*")
  {
    StarPairDiffers(c);
    OneRuleVerdict("db", c, name, "db", "*", true);
    OneRuleVerdict("db", c, other, "db", "*", true);
  }

  lemma {:induction false} LiteralMeans(v: string)
    requires forall i :: 0 <= i < |v| ==> v[i] != '*'
    ensures Means(v, v)
  {
    if v != "" {
      LiteralMeans(v[1..]);
    }
  }
}
