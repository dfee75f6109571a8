/** What one added rule changes: exactly the accesses it covers, as far as no stronger layer has decided them. */
module PermLaws {
  import opened Prelude
  import opened Glob
  import opened Permissions

  /** The rule names the action, and a pattern of each list matches. */
  predicate Covers(r: Rule, action: Action, db: string, coll: string) {
    (exists i :: 0 <= i < |r.actions| && r.actions[i] == action) &&
    (exists i :: 0 <= i < |r.databases| && Matched(r.databases[i], db)) &&
    (exists i :: 0 <= i < |r.collections| && Matched(r.collections[i], coll))
  }

  predicate SomeCovers(rules: seq<Rule>, action: Action, db: string, coll: string) {
    exists i :: 0 <= i < |rules| && Covers(rules[i], action, db, coll)
  }

  lemma HitsIsCovers(r: Rule, action: Action, db: string, coll: string)
    ensures RuleHits(r, action, db, coll) <==> Covers(r, action, db, coll)
  {
    assert SomeMatched(r.databases, db) <==> exists i :: 0 <= i < |r.databases| && Matched(r.databases[i], db);
    assert SomeMatched(r.collections, coll) <==> exists i :: 0 <= i < |r.collections| && Matched(r.collections[i], coll);
  }

  lemma MatchesIsCovers(rules: seq<Rule>, action: Action, db: string, coll: string)
    ensures RuleMatches(rules, action, db, coll) <==> SomeCovers(rules, action, db, coll)
  {
    forall r ensures RuleHits(r, action, db, coll) <==> Covers(r, action, db, coll) {
      HitsIsCovers(r, action, db, coll);
    }
  }

  /** A rule list with one more rule, wherever it stands. */
  predicate Adds(rules: seq<Rule>, more: seq<Rule>, r: Rule) {
    exists i :: 0 <= i <= |rules| && more == rules[..i] + [r] + rules[i..]
  }

  lemma AddedCovers(rules: seq<Rule>, more: seq<Rule>, r: Rule, action: Action, db: string, coll: string)
    requires Adds(rules, more, r)
    ensures RuleMatches(more, action, db, coll) <==> RuleMatches(rules, action, db, coll) || Covers(r, action, db, coll)
  {
    var i :| 0 <= i <= |rules| && more == rules[..i] + [r] + rules[i..];
    assert forall x :: x in more <==> x in rules[..i] || x == r || x in rules[i..];
    assert rules == rules[..i] + rules[i..];
    HitsIsCovers(r, action, db, coll);
  }

  /** The rules of a name; none when it has no entry. */
  function NameOf(entry: AppEntry, name: string): NameEntry {
    if name in entry.names then entry.names[name] else NameEntry([], [])
  }

  /** `after` is `before` with rule `r` added to one of the four lists, for one app and, in the name lists, one name. */
  predicate AddsRule(before: PermissionsFile, after: PermissionsFile, app: string, name: string, place: Source, r: Rule) {
    app in before && app in after && after == before[app := after[app]] &&
    var (was, now) := (before[app], after[app]);
    match place
    case NameDeny => now == was.(names := was.names[name := NameOf(now, name)]) && name in now.names &&
                     NameOf(now, name).allow == NameOf(was, name).allow && Adds(NameOf(was, name).deny, NameOf(now, name).deny, r)
    case NameAllow => now == was.(names := was.names[name := NameOf(now, name)]) && name in now.names &&
                      NameOf(now, name).deny == NameOf(was, name).deny && Adds(NameOf(was, name).allow, NameOf(now, name).allow, r)
    case AppDeny => now == was.(deny := now.deny) && Adds(was.deny, now.deny, r)
    case AppAllow => now == was.(allow := now.allow) && Adds(was.allow, now.allow, r)
  }

  /** An access, by whom, to what. */
  datatype Access = Access(name: string, app: string, action: Action, db: string, coll: string)

  predicate Granted(p: PermissionsFile, x: Access) {
    Allows(p, x.name, x.app, x.action, x.db, x.coll)
  }

  predicate NameDenies(p: PermissionsFile, x: Access)
    requires x.app in p
  {
    SomeCovers(NameOf(p[x.app], x.name).deny, x.action, x.db, x.coll)
  }

  predicate NameGrants(p: PermissionsFile, x: Access)
    requires x.app in p
  {
    SomeCovers(NameOf(p[x.app], x.name).allow, x.action, x.db, x.coll)
  }

  predicate AppDenies(p: PermissionsFile, x: Access)
    requires x.app in p
  {
    SomeCovers(p[x.app].deny, x.action, x.db, x.coll)
  }

  /** The rule concerns the access. */
  predicate Concerns(app: string, name: string, place: Source, r: Rule, x: Access) {
    x.app == app && (IsName(place) ==> x.name == name) && Covers(r, x.action, x.db, x.coll)
  }

  lemma LayersOf(p: PermissionsFile, x: Access)
    requires x.app in p
    ensures NameDenies(p, x) <==> RuleMatches(NameOf(p[x.app], x.name).deny, x.action, x.db, x.coll)
    ensures NameGrants(p, x) <==> RuleMatches(NameOf(p[x.app], x.name).allow, x.action, x.db, x.coll)
    ensures AppDenies(p, x) <==> RuleMatches(p[x.app].deny, x.action, x.db, x.coll)
    ensures Granted(p, x) <==>
            !NameDenies(p, x) && (NameGrants(p, x) || (!AppDenies(p, x) && RuleMatches(p[x.app].allow, x.action, x.db, x.coll)))
  {
    MatchesIsCovers(NameOf(p[x.app], x.name).deny, x.action, x.db, x.coll);
    MatchesIsCovers(NameOf(p[x.app], x.name).allow, x.action, x.db, x.coll);
    MatchesIsCovers(p[x.app].deny, x.action, x.db, x.coll);
  }

  /** Adding a rule changes no access it does not concern. Of those it does, a name's deny rule refuses all; a name's
      allow rule grants all its deny rules leave; an app's deny rule refuses all but what the name itself is granted; an
      app's allow rule grants all that nothing denies, and takes nothing away. */
  lemma RuleEffect(before: PermissionsFile, after: PermissionsFile, app: string, name: string, place: Source, r: Rule, x: Access)
    requires AddsRule(before, after, app, name, place, r)
    ensures if !Concerns(app, name, place, r, x) then Granted(after, x) <==> Granted(before, x)
            else match place
              case NameDeny => !Granted(after, x)
              case NameAllow => Granted(after, x) <==> !NameDenies(before, x)
              case AppDeny => Granted(after, x) <==> NameGrants(before, x) && !NameDenies(before, x)
              case AppAllow => Granted(after, x) <==> Granted(before, x) || !(NameDenies(before, x) || AppDenies(before, x))
  {
    if x.app == app {
      LayersOf(before, x);
      LayersOf(after, x);
      ListsOf(before[app], after[app], name, place, r, x);
    }
  }

  lemma ListsOf(was: AppEntry, now: AppEntry, name: string, place: Source, r: Rule, x: Access)
    requires AddsRule(map[x.app := was], map[x.app := now], x.app, name, place, r)
    ensures var concerns := Concerns(x.app, name, place, r, x);
            (RuleMatches(NameOf(now, x.name).deny, x.action, x.db, x.coll) <==>
               RuleMatches(NameOf(was, x.name).deny, x.action, x.db, x.coll) || (place.NameDeny? && concerns)) &&
            (RuleMatches(NameOf(now, x.name).allow, x.action, x.db, x.coll) <==>
               RuleMatches(NameOf(was, x.name).allow, x.action, x.db, x.coll) || (place.NameAllow? && concerns)) &&
            (RuleMatches(now.deny, x.action, x.db, x.coll) <==>
               RuleMatches(was.deny, x.action, x.db, x.coll) || (place.AppDeny? && concerns)) &&
            (RuleMatches(now.allow, x.action, x.db, x.coll) <==>
               RuleMatches(was.allow, x.action, x.db, x.coll) || (place.AppAllow? && concerns))
  {
    match place
    case NameDeny => AddedCovers(NameOf(was, name).deny, NameOf(now, name).deny, r, x.action, x.db, x.coll);
    case NameAllow => AddedCovers(NameOf(was, name).allow, NameOf(now, name).allow, r, x.action, x.db, x.coll);
    case AppDeny => AddedCovers(was.deny, now.deny, r, x.action, x.db, x.coll);
    case AppAllow => AddedCovers(was.allow, now.allow, r, x.action, x.db, x.coll);
  }

  /** Without an allow rule that covers it nothing is granted. */
  lemma NothingByDefault(p: PermissionsFile, x: Access)
    requires x.app in p ==> !NameGrants(p, x) && !SomeCovers(p[x.app].allow, x.action, x.db, x.coll)
    ensures !Granted(p, x)
  {
    if x.app in p {
      LayersOf(p, x);
      MatchesIsCovers(p[x.app].allow, x.action, x.db, x.coll);
    }
  }
}
