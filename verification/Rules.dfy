/**
 Routing rules: choosing the rule of a database and a user, comparing two versions of a rule, and the mark and
 sweep reload that merges a new configuration into the live rules.
 */
module Rules {
  import opened Wrappers

  /** A default rule carries the fixed names `default_db` and `default_user` beside its flags. */
  datatype Key = Key(db: string, dbDefault: bool, user: string, userDefault: bool) {
    predicate Canonical() {
      (dbDefault ==> db == "default_db") && (userDefault ==> user == "default_user")
    }
  }

  datatype Storage = Storage(
    name: string,
    typeName: string,
    storageType: nat,
    serverMaxRouting: int,
    host: Option<string>,
    port: int,
    tlsMode: nat,
    tls: Option<string>,
    tlsCaFile: Option<string>,
    tlsKeyFile: Option<string>,
    tlsCertFile: Option<string>,
    tlsProtocols: Option<string>)

  datatype Settings = Settings(
    password: Option<string>,
    quantiles: seq<int>,
    authMode: nat,
    authQuery: Option<string>,
    authQueryDb: Option<string>,
    authQueryUser: Option<string>,
    commonNameDefault: bool,
    commonNames: seq<string>,
    storageName: string,
    storage: Storage,
    storageDb: Option<string>,
    storageUser: Option<string>,
    storagePassword: Option<string>,
    pool: nat,
    poolSize: int,
    poolTimeout: int,
    poolTtl: int,
    poolDiscard: bool,
    poolCancel: bool,
    poolRollback: bool,
    clientFwdError: bool,
    clientMax: int,
    clientMaxSet: bool,
    serverLifetime: nat,
    applicationNameAddHost: bool,
    logDebug: bool,
    pamService: Option<string>)

  function Lower(c: char): char {
    if 'A' <= c <= 'Z' then (c as int + 32) as char else c
  }

  /** `strcasecmp` answers zero. */
  predicate SameName(a: string, b: string) {
    |a| == |b| && forall i :: 0 <= i < |a| ==> Lower(a[i]) == Lower(b[i])
  }

  /** Every common name of `a` occurs in `b`, and there are as many. */
  predicate SameCommonNames(a: seq<string>, b: seq<string>) {
    |a| == |b| && forall n :: n in a ==> exists m :: m in b && SameName(m, n)
  }

  /** The settings differ at most in the fields a reload never looks at. */
  predicate Same(a: Settings, b: Settings) {
    && SameCommonNames(a.commonNames, b.commonNames)
    && a.(commonNames := b.commonNames,
          storage := a.storage.(name := b.storage.name, typeName := b.storage.typeName, tls := b.storage.tls),
          clientMaxSet := b.clientMaxSet,
          serverLifetime := b.serverLifetime,
          applicationNameAddHost := b.applicationNameAddHost,
          logDebug := b.logDebug,
          pamService := b.pamService) == b
  }

  /** They differ in one of those fields: the change a reload does not apply. */
  predicate SkippedDiffer(a: Settings, b: Settings) {
    || a.commonNames != b.commonNames
    || a.storage.name != b.storage.name || a.storage.typeName != b.storage.typeName || a.storage.tls != b.storage.tls
    || a.clientMaxSet != b.clientMaxSet
    || a.serverLifetime != b.serverLifetime
    || a.applicationNameAddHost != b.applicationNameAddHost
    || a.logDebug != b.logDebug
    || a.pamService != b.pamService
  }

  lemma SameButDifferent(a: Settings, b: Settings)
    requires Same(a, b)
    ensures a == b <==> !SkippedDiffer(a, b)
  {
  }

  /** Two optional strings compared as the source does. */
  method SameText(a: Option<string>, b: Option<string>) returns (same: bool)
    ensures same <==> a == b
  {
    if a.Some? && b.Some? {
      return a.value == b.value;
    } else if a.Some? || b.Some? {
      return false;
    }
    return true;
  }

  /** `od_rules_storage_compare`. */
  method CompareStorage(a: Storage, b: Storage) returns (same: bool)
    ensures same <==> a.(name := b.name, typeName := b.typeName, tls := b.tls) == b
  {
    if a.storageType != b.storageType { return false; }
    if a.serverMaxRouting != b.serverMaxRouting { return false; }
    var host := SameText(a.host, b.host);
    if !host { return false; }
    if a.port != b.port { return false; }
    if a.tlsMode != b.tlsMode { return false; }
    var ca := SameText(a.tlsCaFile, b.tlsCaFile);
    if !ca { return false; }
    var key := SameText(a.tlsKeyFile, b.tlsKeyFile);
    if !key { return false; }
    var cert := SameText(a.tlsCertFile, b.tlsCertFile);
    if !cert { return false; }
    same := SameText(a.tlsProtocols, b.tlsProtocols);
  }

  /** `od_rules_auth_find`. */
  method FindName(names: seq<string>, name: string) returns (found: bool)
    ensures found <==> exists m :: m in names && SameName(m, name)
  {
    for i := 0 to |names|
      invariant forall j :: 0 <= j < i ==> !SameName(names[j], name)
    {
      if SameName(names[i], name) { return true; }
    }
    return false;
  }

  /** The part of `od_rules_rule_compare` about authentication. */
  method CompareAuth(a: Settings, b: Settings) returns (same: bool)
    ensures same <==>
            && a.password == b.password && a.quantiles == b.quantiles && a.authMode == b.authMode
            && a.authQuery == b.authQuery && a.authQueryDb == b.authQueryDb && a.authQueryUser == b.authQueryUser
            && a.commonNameDefault == b.commonNameDefault && SameCommonNames(a.commonNames, b.commonNames)
  {
    var password := SameText(a.password, b.password);
    if !password { return false; }
    if |a.quantiles| != |b.quantiles| || a.quantiles != b.quantiles { return false; }
    if a.authMode != b.authMode { return false; }
    var query := SameText(a.authQuery, b.authQuery);
    if !query { return false; }
    var db := SameText(a.authQueryDb, b.authQueryDb);
    if !db { return false; }
    var user := SameText(a.authQueryUser, b.authQueryUser);
    if !user { return false; }
    if a.commonNameDefault != b.commonNameDefault { return false; }
    if |a.commonNames| != |b.commonNames| { return false; }
    for i := 0 to |a.commonNames|
      invariant forall j :: 0 <= j < i ==> exists m :: m in b.commonNames && SameName(m, a.commonNames[j])
    {
      var found := FindName(b.commonNames, a.commonNames[i]);
      if !found {
        assert a.commonNames[i] in a.commonNames;
        return false;
      }
    }
    return true;
  }

  /** `od_rules_rule_compare`. */
  method Compare(a: Rule, b: Rule) returns (same: bool)
    ensures same <==> Equal(a, b)
  {
    if a.key.dbDefault != b.key.dbDefault { return false; }
    if a.key.userDefault != b.key.userDefault { return false; }
    var a, b := a.settings, b.settings;
    var auth := CompareAuth(a, b);
    if !auth { return false; }
    if a.storageName != b.storageName { return false; }
    var storage := CompareStorage(a.storage, b.storage);
    if !storage { return false; }
    var db := SameText(a.storageDb, b.storageDb);
    if !db { return false; }
    var user := SameText(a.storageUser, b.storageUser);
    if !user { return false; }
    var password := SameText(a.storagePassword, b.storagePassword);
    if !password { return false; }
    if a.pool != b.pool { return false; }
    if a.poolSize != b.poolSize { return false; }
    if a.poolTimeout != b.poolTimeout { return false; }
    if a.poolTtl != b.poolTtl { return false; }
    if a.poolDiscard != b.poolDiscard { return false; }
    if a.poolCancel != b.poolCancel { return false; }
    if a.poolRollback != b.poolRollback { return false; }
    if a.clientFwdError != b.clientFwdError { return false; }
    if a.clientMax != b.clientMax { return false; }
    return true;
  }

  /** `od_rules_rule_compare` answers 1; the names are not compared. */
  predicate Equal(a: Rule, b: Rule) {
    a.key.dbDefault == b.key.dbDefault && a.key.userDefault == b.key.userDefault && Same(a.settings, b.settings)
  }

  class Rule {
    const key: Key
    const settings: Settings
    var mark: bool
    var obsolete: bool
    var refs: nat

    constructor (key: Key, settings: Settings)
      ensures this.key == key && this.settings == settings && !mark && !obsolete && refs == 0
    {
      this.key, this.settings := key, settings;
      mark, obsolete, refs := false, false, 0;
    }
  }

  /** The rules not yet obsolete. */
  ghost function Active(rules: seq<Rule>): (r: seq<Rule>)
    reads rules`obsolete
    ensures forall x :: x in r ==> x in rules && !x.obsolete
    ensures forall x :: x in rules && !x.obsolete ==> x in r
  {
    if rules == [] then []
    else if rules[0].obsolete then Active(rules[1..])
    else [rules[0]] + Active(rules[1..])
  }

  /** The first of the active rules with these names; the default flags are not looked at. */
  ghost function First(active: seq<Rule>, db: string, user: string): (r: Rule?)
    ensures r != null ==> r in active && r.key.db == db && r.key.user == user
    ensures r == null <==> forall x :: x in active ==> x.key.db != db || x.key.user != user
  {
    if active == [] then null
    else if active[0].key.db == db && active[0].key.user == user then active[0]
    else First(active[1..], db, user)
  }

  lemma {:induction false} FirstAppend(a: seq<Rule>, b: seq<Rule>, db: string, user: string)
    ensures First(a + b, db, user) == if First(a, db, user) != null then First(a, db, user) else First(b, db, user)
  {
    if a == [] {
      assert a + b == b;
    } else {
      assert (a + b)[1..] == a[1..] + b;
      FirstAppend(a[1..], b, db, user);
    }
  }

  /** The active rule that the reload keeps for the new rule `r`; null when it takes `r` itself. */
  ghost function Reused(active: seq<Rule>, r: Rule): (o: Rule?) {
    var o := First(active, r.key.db, r.key.user);
    if o != null && Equal(o, r) then o else null
  }

  ghost predicate DistinctKeys(rules: seq<Rule>) {
    forall i, j :: 0 <= i < j < |rules| ==> rules[i].key != rules[j].key
  }

  /** The new rules the reload takes over, in order. */
  ghost function Added(active: seq<Rule>, src: seq<Rule>): (r: seq<Rule>)
    ensures forall x :: x in r ==> x in src
  {
    if src == [] then []
    else
      var n := |src| - 1;
      Added(active, src[..n]) + if Reused(active, src[n]) == null then [src[n]] else []
  }

  /** The new rules it does not need, in order. */
  ghost function Skipped(active: seq<Rule>, src: seq<Rule>): seq<Rule> {
    if src == [] then []
    else
      var n := |src| - 1;
      Skipped(active, src[..n]) + if Reused(active, src[n]) == null then [] else [src[n]]
  }

  /** The live rules it keeps. */
  ghost function Kept(active: seq<Rule>, src: seq<Rule>): (r: set<Rule>)
    ensures forall x :: x in r ==> x in active
  {
    if src == [] then {}
    else
      var n := |src| - 1;
      var o := Reused(active, src[n]);
      Kept(active, src[..n]) + if o == null then {} else {o}
  }

  /** A kept rule stands for exactly the new rule with its key. */
  lemma {:induction false} KeptFor(active: seq<Rule>, src: seq<Rule>, x: Rule) returns (i: nat)
    requires x in Kept(active, src)
    ensures i < |src| && Reused(active, src[i]) == x && src[i].key == x.key
  {
    var n := |src| - 1;
    if Reused(active, src[n]) == x {
      i := n;
    } else {
      i := KeptFor(active, src[..n], x);
    }
  }

  lemma {:induction false} KeptHas(active: seq<Rule>, src: seq<Rule>, i: nat)
    requires i < |src|
    ensures if Reused(active, src[i]) == null then src[i] in Added(active, src)
            else Reused(active, src[i]) in Kept(active, src)
  {
    var n := |src| - 1;
    if i < n {
      assert src[..n][i] == src[i];
      KeptHas(active, src[..n], i);
    }
  }

  /** When the keys are distinct, having added the rules before `src[n]` does not change what is reused for it. */
  lemma SelectStep(active: seq<Rule>, src: seq<Rule>, n: nat)
    requires n < |src| && DistinctKeys(src)
    ensures
      var o := First(active + Added(active, src[..n]), src[n].key.db, src[n].key.user);
      (if o != null && Equal(o, src[n]) then o else null) == Reused(active, src[n])
    ensures
      var o, before, after := Reused(active, src[n]), src[..n], src[..n + 1];
      && Added(active, after) == Added(active, before) + (if o == null then [src[n]] else [])
      && Skipped(active, after) == Skipped(active, before) + (if o == null then [] else [src[n]])
      && Kept(active, after) == Kept(active, before) + (if o == null then {} else {o})
      && (o != null ==> o in active && o !in Kept(active, before))
  {
    assert src[..n + 1][..n] == src[..n];
    hide Equal, First, DistinctKeys;
    StillReused(active, src, n);
    NotKeptYet(active, src, n);
  }

  lemma StillReused(active: seq<Rule>, src: seq<Rule>, n: nat)
    requires n < |src| && DistinctKeys(src)
    ensures
      var o := First(active + Added(active, src[..n]), src[n].key.db, src[n].key.user);
      (if o != null && Equal(o, src[n]) then o else null) == Reused(active, src[n])
  {
    hide First, Added;
    var r, added := src[n], Added(active, src[..n]);
    FirstAppend(active, added, r.key.db, r.key.user);
    var a := First(added, r.key.db, r.key.user);
    if a != null {
      assert a in src[..n];
      assert a.key != r.key;
    }
  }

  lemma NotKeptYet(active: seq<Rule>, src: seq<Rule>, n: nat)
    requires n < |src| && DistinctKeys(src)
    ensures
      var o := Reused(active, src[n]);
      o != null ==> o in active && o !in Kept(active, src[..n])
  {
    hide Kept;
    var o := Reused(active, src[n]);
    if o != null && o in Kept(active, src[..n]) {
      var i := KeptFor(active, src[..n], o);
      assert false;
    }
  }

  lemma NothingSelected(active: seq<Rule>, src: seq<Rule>)
    requires src == []
    ensures Added(active, src) == [] && Skipped(active, src) == [] && Kept(active, src) == {}
  {
  }

  /** The rule is for these names: a default stands for every name, a name for itself. */
  predicate Matches(key: Key, db: string, user: string) {
    (key.dbDefault || key.db == db) && (key.userDefault || key.user == user)
  }

  /** How well a rule fits a database and a user: 0 is best, 4 is not at all. */
  function Rank(key: Key, db: string, user: string): (n: nat)
    ensures n <= 4
  {
    if key.dbDefault then
      if key.userDefault then 3 else if key.user == user then 2 else 4
    else if key.db == db then
      if key.userDefault then 1 else if key.user == user then 0 else 4
    else 4
  }

  /** The last of the active rules with rank `n`. */
  ghost function LastOf(active: seq<Rule>, db: string, user: string, n: nat): (r: Rule?)
    ensures r != null ==> r in active && Rank(r.key, db, user) == n
    ensures r == null ==> forall x :: x in active ==> Rank(x.key, db, user) != n
  {
    if active == [] then null
    else
      var k := |active| - 1;
      assert active == active[..k] + [active[k]];
      if Rank(active[k].key, db, user) == n then active[k] else LastOf(active[..k], db, user, n)
  }

  /** The rule a client is routed by. */
  ghost function Forwarded(active: seq<Rule>, db: string, user: string): (r: Rule?) {
    if LastOf(active, db, user, 0) != null then LastOf(active, db, user, 0)
    else if LastOf(active, db, user, 1) != null then LastOf(active, db, user, 1)
    else if LastOf(active, db, user, 2) != null then LastOf(active, db, user, 2)
    else LastOf(active, db, user, 3)
  }

  /**
   None is chosen only when none matches. The chosen rule names the database if any that matches does, and of
   those that are alike in that it names the user if any does.
   */
  lemma ForwardedIsBest(active: seq<Rule>, db: string, user: string)
    ensures
      var r := Forwarded(active, db, user);
      if r == null then forall x :: x in active ==> !Matches(x.key, db, user)
      else
        && r in active && Matches(r.key, db, user)
        && forall x :: x in active && Matches(x.key, db, user) ==>
             && (!x.key.dbDefault ==> !r.key.dbDefault)
             && (!x.key.userDefault && x.key.dbDefault == r.key.dbDefault ==> !r.key.userDefault)
  {
    ForwardedRank(active, db, user);
    RanksMatch(db, user);
    hide Forwarded, Rank, Matches;
  }

  /** The ranks say what the names and the flags say. */
  lemma RanksMatch(db: string, user: string)
    ensures forall k: Key :: Rank(k, db, user) < 4 <==> Matches(k, db, user)
    ensures forall k: Key :: Matches(k, db, user) ==>
              Rank(k, db, user) == (if k.dbDefault then 2 else 0) + (if k.userDefault then 1 else 0)
  {
  }

  /** No active rule fits better, and when none is chosen none fits. */
  lemma ForwardedRank(active: seq<Rule>, db: string, user: string)
    ensures
      var r := Forwarded(active, db, user);
      if r == null then forall x :: x in active ==> Rank(x.key, db, user) == 4
      else
        && r in active && Rank(r.key, db, user) < 4
        && forall x :: x in active ==> Rank(r.key, db, user) <= Rank(x.key, db, user)
  {
    if Forwarded(active, db, user) == null {
      assert forall x :: x in active ==> Rank(x.key, db, user) != 3;
    }
  }

  /** Rules of configuration files that fit equally well have the same key. */
  lemma SameRank(a: Key, b: Key, db: string, user: string)
    requires a.Canonical() && b.Canonical() && Rank(a, db, user) == Rank(b, db, user) < 4
    ensures a == b
  {
  }

  /** The reload left exactly these rules active. */
  ghost predicate Reloaded(active: seq<Rule>, given: seq<Rule>, after: seq<Rule>) {
    && (forall r :: r in after ==> r in Kept(active, given) || r in Added(active, given))
    && (forall r :: r in Kept(active, given) ==> r in after)
    && (forall r :: r in Added(active, given) ==> r in after)
  }

  /** The new rule that an active rule of the reloaded configuration stands for. */
  lemma StandsFor(active: seq<Rule>, given: seq<Rule>, after: seq<Rule>, r: Rule) returns (i: nat)
    requires Reloaded(active, given, after) && r in after
    ensures i < |given| && given[i].key == r.key
    ensures r == if Reused(active, given[i]) == null then given[i] else Reused(active, given[i])
  {
    if r in Kept(active, given) {
      i := KeptFor(active, given, r);
    } else {
      AddedNew(active, given);
      i :| 0 <= i < |given| && given[i] == r;
    }
  }

  /** No two active rules share a key after a reload. */
  lemma ReloadKeysUnique(active: seq<Rule>, given: seq<Rule>, after: seq<Rule>, a: Rule, b: Rule)
    requires Reloaded(active, given, after) && DistinctKeys(given)
    requires a in after && b in after && a.key == b.key
    ensures a == b
  {
    var i := StandsFor(active, given, after, a);
    var j := StandsFor(active, given, after, b);
  }

  /**
   A reload means what the new configuration means: every client is routed by the rule of the new configuration,
   or by an old rule with the same key that compares equal to it.
   */
  lemma ReloadKeepsMeaning(active: seq<Rule>, given: seq<Rule>, after: seq<Rule>, db: string, user: string)
    requires Reloaded(active, given, after) && DistinctKeys(given)
    requires forall r :: r in given ==> r.key.Canonical()
    ensures
      var want, got := Forwarded(given, db, user), Forwarded(after, db, user);
      && (want == null <==> got == null)
      && (want != null ==>
            && got == (if Reused(active, want) == null then want else Reused(active, want))
            && got.key == want.key && (got == want || (got in active && Equal(got, want))))
  {
    hide Forwarded, Reused, Kept, Added, Rank;
    var want, got := Forwarded(given, db, user), Forwarded(after, db, user);
    ForwardedRank(given, db, user);
    ForwardedRank(after, db, user);
    if got != null {
      var i := StandsFor(active, given, after, got);
      assert given[i] in given;
    }
    if want != null {
      var j :| 0 <= j < |given| && given[j] == want;
      KeptHas(active, given, j);
      ReusedKey(active, want);
      var i := StandsFor(active, given, after, got);
      SameRank(given[i].key, want.key, db, user);
    }
  }

  lemma ReusedKey(active: seq<Rule>, r: Rule)
    ensures
      var o := Reused(active, r);
      o != null ==> o in active && o.key == r.key && Equal(o, r)
  {
  }

  lemma NoneActive(rules: seq<Rule>, db: string, user: string)
    requires rules == []
    ensures forall n: nat :: LastOf(Active(rules), db, user, n) == null
  {
  }

  lemma OneMore(rules: seq<Rule>, i: nat, db: string, user: string)
    requires i < |rules|
    ensures forall n: nat :: LastOf(Active(rules[..i + 1]), db, user, n) ==
                        if !rules[i].obsolete && Rank(rules[i].key, db, user) == n then rules[i]
                        else LastOf(Active(rules[..i]), db, user, n)
  {
    assert rules[..i + 1] == rules[..i] + [rules[i]];
    ActiveAdd(rules[..i], rules[i]);
    var active := Active(rules[..i]);
    assert active + [] == active;
    forall n: nat
      ensures LastOf(active + [rules[i]], db, user, n) ==
              if Rank(rules[i].key, db, user) == n then rules[i] else LastOf(active, db, user, n)
    {
      assert (active + [rules[i]])[..|active|] == active;
    }
  }

  /** `r` is at `k`, and no rule in use behind it has rank `n`; if it is null, none has. */
  predicate LastAt(rules: seq<Rule>, db: string, user: string, n: nat, r: Rule?, k: nat)
    reads rules`obsolete
  {
    if r == null then forall j :: 0 <= j < |rules| && !rules[j].obsolete ==> Rank(rules[j].key, db, user) != n
    else
      && k < |rules| && rules[k] == r && !r.obsolete && Rank(r.key, db, user) == n
      && forall j :: k < j < |rules| && !rules[j].obsolete ==> Rank(rules[j].key, db, user) != n
  }

  lemma LastAtNext(rules: seq<Rule>, i: nat, db: string, user: string)
    requires i < |rules|
    ensures forall n: nat, r: Rule?, k: nat :: LastAt(rules[..i], db, user, n, r, k) ==>
              if !rules[i].obsolete && Rank(rules[i].key, db, user) == n
              then LastAt(rules[..i + 1], db, user, n, rules[i], i)
              else LastAt(rules[..i + 1], db, user, n, r, k)
  {
  }

  lemma RankOf(key: Key, db: string, user: string)
    ensures Rank(key, db, user) ==
            if key.dbDefault then if key.userDefault then 3 else if key.user == user then 2 else 4
            else if key.db != db then 4
            else if key.userDefault then 1 else if key.user == user then 0 else 4
  {
  }

  lemma FirstFrom(rules: seq<Rule>, i: nat, db: string, user: string)
    requires i < |rules|
    ensures First(Active(rules[i..]), db, user) ==
            if !rules[i].obsolete && rules[i].key.db == db && rules[i].key.user == user then rules[i]
            else First(Active(rules[i + 1..]), db, user)
  {
    assert rules[i..][1..] == rules[i + 1..];
  }

  class RuleList {
    var rules: seq<Rule>

    /** `od_rules_match_active`. */
    method MatchActive(db: string, user: string) returns (r: Rule?)
      ensures r == First(Active(rules), db, user)
      ensures r == null <==> forall x :: x in rules ==> x.obsolete || x.key.db != db || x.key.user != user
      ensures r != null ==>
                exists k :: 0 <= k < |rules| && rules[k] == r && !r.obsolete && r.key.db == db && r.key.user == user &&
                  forall j :: 0 <= j < k ==> rules[j].obsolete || rules[j].key.db != db || rules[j].key.user != user
    {
      hide First, Active;
      assert rules[0..] == rules;
      for i := 0 to |rules|
        invariant forall j :: 0 <= j < i ==> rules[j].obsolete || rules[j].key.db != db || rules[j].key.user != user
        invariant First(Active(rules), db, user) == First(Active(rules[i..]), db, user)
      {
        var rule := rules[i];
        FirstFrom(rules, i, db, user);
        if rule.obsolete { continue; }
        if rule.key.db == db && rule.key.user == user {
          return rule;
        }
      }
      assert rules[|rules|..] == [];
      return null;
    }

    /** `od_rules_forward`. */
    method Forward(db: string, user: string) returns (r: Rule?)
      ensures r == Forwarded(Active(rules), db, user)
      // None only when no rule in use matches.
      ensures r == null <==> forall x :: x in rules && !x.obsolete ==> !Matches(x.key, db, user)
      ensures r != null ==> r in rules && !r.obsolete && Matches(r.key, db, user)
      // A rule that names the database goes before one that does not, and among those alike one that names the user.
      ensures r != null ==> forall x :: x in rules && !x.obsolete && Matches(x.key, db, user) ==>
                && (!x.key.dbDefault ==> !r.key.dbDefault)
                && (!x.key.userDefault && x.key.dbDefault == r.key.dbDefault ==> !r.key.userDefault)
      // The last one of those alike in both.
      ensures r != null ==>
                exists k :: 0 <= k < |rules| && rules[k] == r &&
                  forall j :: k < j < |rules| && !rules[j].obsolete && Matches(rules[j].key, db, user) ==>
                    rules[j].key.dbDefault != r.key.dbDefault || rules[j].key.userDefault != r.key.userDefault
    {
      hide LastOf, Active, Matches, Rank;
      var dbUser: Rule?, dbDefault: Rule?, defaultUser: Rule?, defaultDefault: Rule? := null, null, null, null;
      ghost var at: seq<nat> := [0, 0, 0, 0];
      NoneActive(rules[..0], db, user);
      for i := 0 to |rules|
        invariant dbUser == LastOf(Active(rules[..i]), db, user, 0)
        invariant dbDefault == LastOf(Active(rules[..i]), db, user, 1)
        invariant defaultUser == LastOf(Active(rules[..i]), db, user, 2)
        invariant defaultDefault == LastOf(Active(rules[..i]), db, user, 3)
        invariant |at| == 4
        invariant LastAt(rules[..i], db, user, 0, dbUser, at[0])
        invariant LastAt(rules[..i], db, user, 1, dbDefault, at[1])
        invariant LastAt(rules[..i], db, user, 2, defaultUser, at[2])
        invariant LastAt(rules[..i], db, user, 3, defaultDefault, at[3])
      {
        var rule := rules[i];
        OneMore(rules, i, db, user);
        LastAtNext(rules, i, db, user);
        if rule.obsolete { continue; }
        RankOf(rule.key, db, user);
        hide LastAt;
        if rule.key.dbDefault {
          if rule.key.userDefault {
            defaultDefault := rule;
            at := at[3 := i];
          } else if rule.key.user == user {
            defaultUser := rule;
            at := at[2 := i];
          }
        } else if rule.key.db == db {
          if rule.key.userDefault {
            dbDefault := rule;
            at := at[1 := i];
          } else if rule.key.user == user {
            dbUser := rule;
            at := at[0 := i];
          }
        }
      }
      assert rules[..|rules|] == rules;
      RanksMatch(db, user);
      if dbUser != null { return dbUser; }
      if dbDefault != null { return dbDefault; }
      if defaultUser != null { return defaultUser; }
      return defaultDefault;
    }

    /** The first loop of `od_rules_merge`. */
    method MarkAll(ghost scope: set<Rule>) returns (count: int)
      requires forall r :: r in rules ==> r in scope
      modifies scope`mark
      ensures forall r :: r in scope && r !in rules ==> r.mark == old(r.mark)
      ensures count == |rules| && forall r :: r in rules ==> r.mark
    {
      count := 0;
      for i := 0 to |rules|
        invariant count == i && forall j :: 0 <= j < i ==> rules[j].mark
        invariant forall r :: r in scope && r !in rules ==> r.mark == old(r.mark)
      {
        rules[i].mark := true;
        count := count + 1;
      }
    }

    /** One round of the second loop: an equal active rule is unmarked, or `rule` is appended. */
    method Take(rule: Rule, ghost scope: set<Rule>) returns (added: bool)
      requires !rule.obsolete && forall r :: r in rules ==> r in scope
      modifies `rules, scope`mark
      ensures
        var o := First(old(Active(rules)), rule.key.db, rule.key.user);
        && added == !(o != null && Equal(o, rule))
        && rules == old(rules) + (if added then [rule] else [])
        && Active(rules) == old(Active(rules)) + (if added then [rule] else [])
        && forall r :: r in scope ==> r.mark == (old(r.mark) && (added || r != o))
    {
      hide First, Equal, Active;
      var origin := MatchActive(rule.key.db, rule.key.user);
      if origin != null {
        var same := Compare(origin, rule);
        if same {
          origin.mark := false;
          return false;
        }
      }
      ActiveAdd(rules, rule);
      rules := rules + [rule];
      return true;
    }

    /** The second loop of `od_rules_merge`. */
    method Select(src: RuleList, marked: int, ghost scope: set<Rule>) returns (countMark: int, countNew: int)
      requires src != this && DistinctKeys(src.rules)
      requires forall r :: r in src.rules ==> r in scope && !r.obsolete && !r.mark
      requires forall r :: r in rules ==> r in scope && r.mark
      modifies `rules, src`rules, scope`mark
      ensures
        var active, given := old(Active(rules)), old(src.rules);
        && rules == old(rules) + Added(active, given)
        && src.rules == Skipped(active, given)
        && (forall r :: r in old(rules) ==> (r.mark <==> r !in Kept(active, given)))
        && (forall r :: r in Added(active, given) ==> !r.mark)
        && countMark == marked - |Kept(active, given)|
        && countNew == |Added(active, given)|
    {
      hide First, Reused, Equal, Added, Kept, Skipped, Active, DistinctKeys;
      ghost var live, active := rules, Active(rules);
      ghost var added: seq<Rule>, kept: set<Rule> := [], {};
      var todo, left := src.rules, [];
      countMark, countNew := marked, 0;
      NothingSelected(active, todo[..0]);
      for n := 0 to |todo|
        invariant added == Added(active, todo[..n]) && left == Skipped(active, todo[..n])
        invariant kept == Kept(active, todo[..n])
        invariant rules == live + added && Active(rules) == active + added
        invariant forall r :: r in live ==> (r.mark <==> r !in kept)
        invariant forall r :: r in added ==> r in scope
        invariant forall r :: r in todo ==> !r.mark
        invariant countMark == marked - |kept| && countNew == |added|
      {
        SelectStep(active, todo, n);
        var taken := Take(todo[n], scope);
        if taken {
          Regroup(live, added, [todo[n]]);
          Regroup(active, added, [todo[n]]);
          added := added + [todo[n]];
          countNew := countNew + 1;
        } else {
          kept := kept + {Reused(active, todo[n])};
          left := left + [todo[n]];
          countMark := countMark - 1;
        }
      }
      assert todo[..|todo|] == todo;
      src.rules := left;
    }

    /** One round of the last loop: the first of `rest` settles, and goes when it is obsolete and unused. */
    method SettleNext(
        ghost all: seq<Rule>, ghost stale: set<Rule>, ghost kept: seq<Rule>, ghost rest: seq<Rule>, k: nat)
      returns (gone: bool)
      requires k == |kept| && rest != [] && rules == kept + rest && Settling(all, stale, rest)
      modifies `rules, {rest[0]}`mark, {rest[0]}`obsolete
      ensures Settling(all, stale, rest[1..]) && gone == (rest[0] in stale && rest[0].refs == 0)
      ensures rules == (if gone then kept else kept + [rest[0]]) + rest[1..]
    {
      Cut(kept, rest);
      var rule := rules[k];
      rule.obsolete := rule.obsolete || rule.mark;
      rule.mark := false;
      gone := rule.obsolete && rule.refs == 0;
      if gone {
        rules := rules[..k] + rules[k + 1..];
      }
    }

    /** The last loop of `od_rules_merge`: what is obsolete or still marked becomes obsolete, and goes when unused. */
    method Sweep(ghost scope: set<Rule>) returns (deleted: int)
      requires forall r :: r in rules ==> r in scope
      modifies `rules, scope`mark, scope`obsolete
      ensures rules == Without(old(rules), old(Unused(Stale(rules)))) && deleted == old(|rules|) - |rules|
      ensures forall r :: r in old(rules) ==> !r.mark && (r.obsolete <==> r in old(Stale(rules)))
    {
      ghost var all, stale, gone := rules, Stale(rules), Unused(Stale(rules));
      ghost var kept: seq<Rule>, rest: seq<Rule> := [], rules;
      var k := 0;
      deleted := 0;
      while k < |rules|
        invariant k == |kept| && rules == kept + rest && deleted + |rules| == |all|
        invariant Settling(all, stale, rest) && Without(all, gone) == kept + Without(rest, gone)
        invariant forall r :: r in rest ==> r in scope
        decreases |rest|
      {
        hide Settling, Without, Stale;
        Drop(kept, rest, gone);
        var removed := SettleNext(all, stale, kept, rest, k);
        if removed {
          deleted := deleted + 1;
        } else {
          kept := kept + [rest[0]];
          k := k + 1;
        }
        rest := rest[1..];
      }
      Dropped(kept, gone);
    }

    /** `od_rules_ref`: a route now refers to `rule`. */
    method Ref(rule: Rule)
      modifies rule`refs
      ensures rule.refs == old(rule.refs) + 1
    {
      rule.refs := rule.refs + 1;
    }

    /** `od_rules_unref`: the last reference to an obsolete rule frees it. */
    method Unref(rule: Rule)
      requires rule.refs > 0
      modifies `rules, rule`refs
      ensures rule.refs == old(rule.refs) - 1
      ensures rules == if rule.obsolete && rule.refs == 0 then Without(old(rules), {rule}) else old(rules)
    {
      rule.refs := rule.refs - 1;
      if !rule.obsolete { return; }
      if rule.refs == 0 {
        rules := Remove(rules, rule);
      }
    }

    /** A client that is turned away: its reference is taken and given back, and an unused obsolete rule goes. */
    method TurnAway(rule: Rule)
      modifies `rules, rule`refs
      ensures rule.refs == old(rule.refs)
      ensures rules == if rule.obsolete && rule.refs == 0 then Without(old(rules), {rule}) else old(rules)
    {
      Ref(rule);
      Unref(rule);
    }

    /** `od_rules_merge`. */
    method Merge(src: RuleList, ghost scope: set<Rule>) returns (count: int)
      requires src != this && DistinctKeys(src.rules)
      requires forall r :: r in src.rules ==> r in scope && r !in rules && !r.obsolete && !r.mark
      requires forall r :: r in rules ==> r in scope
      modifies `rules, src`rules, scope`mark, scope`obsolete
      ensures
        var live, active, given := old(rules), old(Active(rules)), old(src.rules);
        var stale := Elems(live) - Kept(active, given);
        && rules == Without(live + Added(active, given), Unused(stale))
        && src.rules == Skipped(active, given)
        && (forall r :: r in live + Added(active, given) ==> !r.mark && (r.obsolete <==> r in stale))
        && count == |Added(active, given)| + |live| - |Kept(active, given)|
        && Reloaded(active, given, Active(rules))
      // A rule that was there stays in use if it is the first one in use with the names of an equal new rule.
      ensures forall r :: r in old(rules) ==> (!r.obsolete <==>
                exists g :: g in old(src.rules) && First(old(Active(rules)), g.key.db, g.key.user) == r && Equal(r, g))
      // It stays in the list exactly if it is in use or referred to.
      ensures forall r :: r in old(rules) ==> (r in rules <==> !r.obsolete || r.refs > 0)
      // A new rule comes in, and in use, exactly if there is no such rule.
      ensures forall g :: g in old(src.rules) ==>
                var first := First(old(Active(rules)), g.key.db, g.key.user);
                && (g in rules <==> first == null || !Equal(first, g))
                && (g in rules ==> !g.obsolete)
                && (g in src.rules <==> g !in rules)
    {
      hide Added, Kept, Skipped, Active, DistinctKeys, Reloaded, First, Equal;
      ghost var live, active, given := rules, Active(rules), src.rules;
      ghost var stale := Elems(live) - Kept(active, given);
      var countMark := MarkAll(scope);
      var countNew, countDeleted := 0, 0;
      countMark, countNew := Select(src, countMark, scope);
      if countMark > 0 {
        AddedNew(active, given);
        assert Stale(rules) == stale;
        countDeleted := Sweep(scope);
        countMark := countMark - countDeleted;
      } else {
        ElemsSize(live);
        SameSize(Kept(active, given), Elems(live));
        WithoutNone(rules, Unused(stale));
      }
      MergeTells(live, active, given);
      count := countNew + countMark + countDeleted;
      MergeReloads(live, active, given, rules);
    }
  }

  /** The rules before `rest` have settled; a rule is stale or not throughout. */
  ghost predicate Settling(all: seq<Rule>, stale: set<Rule>, rest: seq<Rule>)
    reads all`mark, all`obsolete
  {
    && (forall r :: r in rest ==> r in all)
    && (forall r :: r in all ==> (r in stale <==> r.obsolete || r.mark))
    && (forall r :: r in all && r.mark ==> r in rest)
  }

  /** What is kept, added and skipped, rule by rule. */
  lemma MergeTells(live: seq<Rule>, active: seq<Rule>, given: seq<Rule>)
    ensures forall r: Rule :: r in Kept(active, given) <==>
              exists g :: g in given && First(active, g.key.db, g.key.user) == r && Equal(r, g)
    ensures forall g :: g in given ==>
              var first := First(active, g.key.db, g.key.user);
              && (g in Added(active, given) <==> first == null || !Equal(first, g))
              && (g in Skipped(active, given) <==> !(first == null || !Equal(first, g)))
  {
    AddedNew(active, given);
    SkippedOld(active, given);
    hide Added, Kept, Skipped, Equal, First;
    forall r | r in Kept(active, given)
      ensures exists g :: g in given && First(active, g.key.db, g.key.user) == r && Equal(r, g)
    {
      var i := KeptFor(active, given, r);
      assert given[i] in given;
    }
    forall i | 0 <= i < |given|
      ensures var o := First(active, given[i].key.db, given[i].key.user);
              if o == null || !Equal(o, given[i]) then given[i] in Added(active, given)
              else o in Kept(active, given) && given[i] in Skipped(active, given)
    {
      KeptHas(active, given, i);
      if Reused(active, given[i]) != null {
        SkippedHas(active, given, i);
      }
    }
  }

  lemma {:induction false} SkippedOld(active: seq<Rule>, src: seq<Rule>)
    ensures forall r :: r in Skipped(active, src) ==> r in src && Reused(active, r) != null
  {
    if src != [] {
      SkippedOld(active, src[..|src| - 1]);
    }
  }

  lemma {:induction false} SkippedHas(active: seq<Rule>, src: seq<Rule>, i: nat)
    requires i < |src| && Reused(active, src[i]) != null
    ensures src[i] in Skipped(active, src)
  {
    var n := |src| - 1;
    if i < n {
      assert src[..n][i] == src[i];
      SkippedHas(active, src[..n], i);
    }
  }

  lemma MergeReloads(live: seq<Rule>, active: seq<Rule>, given: seq<Rule>, rules: seq<Rule>)
    requires forall r :: r in given ==> r !in live
    requires forall r :: r in active ==> r in live
    requires
      var stale := Elems(live) - Kept(active, given);
      && rules == Without(live + Added(active, given), Unused(stale))
      && forall r :: r in live + Added(active, given) ==> (r.obsolete <==> r in stale)
    ensures Reloaded(active, given, Active(rules))
  {
  }

  ghost function Elems(rules: seq<Rule>): set<Rule> {
    set r | r in rules
  }

  lemma {:induction false} ElemsSize(rules: seq<Rule>)
    ensures |Elems(rules)| <= |rules|
  {
    if rules != [] {
      ElemsSize(rules[1..]);
      assert Elems(rules) == Elems(rules[1..]) + {rules[0]};
    }
  }

  lemma {:induction false} SameSize(a: set<Rule>, b: set<Rule>)
    requires a <= b && |a| >= |b|
    ensures a == b
  {
    if x :| x in b && x !in a {
      SameSize(a, b - {x});
    }
  }

  lemma {:induction false} WithoutNone(rules: seq<Rule>, gone: set<Rule>)
    requires gone == {}
    ensures Without(rules, gone) == rules
  {
    if rules != [] {
      WithoutNone(rules[1..], gone);
    }
  }

  lemma {:induction false} AddedNew(active: seq<Rule>, src: seq<Rule>)
    ensures forall r :: r in Added(active, src) ==> r in src && Reused(active, r) == null
  {
    if src != [] {
      AddedNew(active, src[..|src| - 1]);
    }
  }

  ghost function Stale(rules: seq<Rule>): set<Rule>
    reads rules`mark, rules`obsolete
  {
    set r | r in rules && (r.obsolete || r.mark)
  }

  ghost function Unused(rules: set<Rule>): set<Rule>
    reads rules`refs
  {
    set r | r in rules && r.refs == 0
  }

  /** The rules that are not in `gone`, in order. */
  ghost function Without(rules: seq<Rule>, gone: set<Rule>): (r: seq<Rule>)
    ensures forall x :: x in r ==> x in rules && x !in gone
    ensures forall x :: x in rules && x !in gone ==> x in r
  {
    if rules == [] then []
    else if rules[0] in gone then Without(rules[1..], gone)
    else [rules[0]] + Without(rules[1..], gone)
  }

  lemma Cut(kept: seq<Rule>, rest: seq<Rule>)
    requires rest != []
    ensures
      var rules, k := kept + rest, |kept|;
      && rules[k] == rest[0] && (forall r :: r in rest ==> r == rest[0] || r in rest[1..])
      && rules[..k] + rules[k + 1..] == kept + rest[1..] && rules == kept + [rest[0]] + rest[1..]
  {
  }

  lemma Drop(kept: seq<Rule>, rest: seq<Rule>, gone: set<Rule>)
    requires rest != []
    ensures kept + Without(rest, gone) ==
            (if rest[0] in gone then kept else kept + [rest[0]]) + Without(rest[1..], gone)
  {
  }

  lemma Dropped(kept: seq<Rule>, gone: set<Rule>)
    ensures kept + Without([], gone) == kept == kept + []
  {
  }

  /** Takes a rule off the list. */
  function Remove(rules: seq<Rule>, rule: Rule): (r: seq<Rule>)
    ensures r == Without(rules, {rule})
  {
    if rules == [] then []
    else if rules[0] == rule then Remove(rules[1..], rule)
    else [rules[0]] + Remove(rules[1..], rule)
  }

  lemma Regroup(a: seq<Rule>, b: seq<Rule>, c: seq<Rule>)
    ensures a + b + c == a + (b + c)
  {
  }

  lemma {:induction false} ActiveAdd(rules: seq<Rule>, r: Rule)
    ensures Active(rules + [r]) == Active(rules) + if r.obsolete then [] else [r]
  {
    if rules != [] {
      assert (rules + [r])[1..] == rules[1..] + [r];
      ActiveAdd(rules[1..], r);
    }
  }

  /** Settings that only differ in a field the comparison skips count as equal: the reload keeps the old value. */
  lemma ComparisonSkips(
      s: Settings, lifetime: nat, limited: bool, addHost: bool, debug: bool, pam: Option<string>,
      name: string, typeName: string, tls: Option<string>)
    ensures Same(s, s.(serverLifetime := lifetime, clientMaxSet := limited, applicationNameAddHost := addHost,
                       logDebug := debug, pamService := pam,
                       storage := s.storage.(name := name, typeName := typeName, tls := tls)))
  {
    assert forall n :: n in s.commonNames ==> SameName(n, n);
  }

  /**
   A rule whose lifetime alone changed keeps its old lifetime: after any reload, the clients of the new rule are
   routed by the old one.
   */
  lemma LifetimeNotReloaded(
      active: seq<Rule>, given: seq<Rule>, after: seq<Rule>, db: string, user: string, before: Rule)
    requires Reloaded(active, given, after) && DistinctKeys(given)
    requires forall r :: r in given ==> r.key.Canonical()
    requires var want := Forwarded(given, db, user);
             want != null && First(active, want.key.db, want.key.user) == before && before.key == want.key &&
             before.settings == want.settings.(serverLifetime := before.settings.serverLifetime)
    ensures Forwarded(after, db, user) == before
  {
    var want := Forwarded(given, db, user);
    var s := before.settings;
    ComparisonSkips(s, want.settings.serverLifetime, s.clientMaxSet, s.applicationNameAddHost, s.logDebug,
                    s.pamService, s.storage.name, s.storage.typeName, s.storage.tls);
    hide Forwarded, Kept, Added, Same;
    ReloadKeepsMeaning(active, given, after, db, user);
  }

  /**
   Exactly when a reload applies the new configuration to a client: its settings are those of the new rule,
   unless the first active rule with the new rule's names compares equal to it and differs in a skipped field.
   */
  lemma ReloadAppliesIff(active: seq<Rule>, given: seq<Rule>, after: seq<Rule>, db: string, user: string)
    requires Reloaded(active, given, after) && DistinctKeys(given)
    requires forall r :: r in given ==> r.key.Canonical()
    requires Forwarded(given, db, user) != null
    ensures Forwarded(after, db, user) != null
    ensures
      var want, got := Forwarded(given, db, user), Forwarded(after, db, user);
      var origin := First(active, want.key.db, want.key.user);
      got.settings == want.settings <==>
      !(origin != null && Equal(origin, want) && SkippedDiffer(origin.settings, want.settings))
  {
    hide Forwarded, Kept, Added, Same, SkippedDiffer;
    ReloadKeepsMeaning(active, given, after, db, user);
    var want := Forwarded(given, db, user);
    var origin := First(active, want.key.db, want.key.user);
    if origin != null && Equal(origin, want) {
      SameButDifferent(origin.settings, want.settings);
    }
  }

  // ----------------------------------------------------------------- common names

  function LowerName(name: string): (r: string)
    ensures |r| == |name| && forall i :: 0 <= i < |r| ==> r[i] == Lower(name[i])
  {
    seq(|name|, i requires 0 <= i < |name| => Lower(name[i]))
  }

  /** The names that are admitted: those that are in the list up to case. */
  ghost function Folded(names: seq<string>): set<string> {
    set n | n in names :: LowerName(n)
  }

  lemma SameNameIff(a: string, b: string)
    ensures SameName(a, b) <==> LowerName(a) == LowerName(b)
  {
  }

  /** What the comparison of the lists finds: as many names, and all of the first admitted by the second. */
  lemma SameCommonNamesIff(a: seq<string>, b: seq<string>)
    ensures SameCommonNames(a, b) <==> |a| == |b| && Folded(a) <= Folded(b)
  {
    forall n, m ensures SameName(m, n) <==> LowerName(m) == LowerName(n) {
      SameNameIff(m, n);
    }
    hide SameName;
    if SameCommonNames(a, b) {
      forall x | x in Folded(a) ensures x in Folded(b) {
        var n :| n in a && LowerName(n) == x;
        var m :| m in b && SameName(m, n);
      }
    }
    if |a| == |b| && Folded(a) <= Folded(b) {
      forall n | n in a ensures exists m :: m in b && SameName(m, n) {
        assert LowerName(n) in Folded(b);
        var m :| m in b && LowerName(m) == LowerName(n);
      }
    }
  }

  lemma {:induction false} FoldedSize(names: seq<string>)
    ensures |Folded(names)| <= |names|
    ensures (forall i, j :: 0 <= i < j < |names| ==> LowerName(names[i]) != LowerName(names[j])) ==>
              |Folded(names)| == |names|
  {
    if names != [] {
      var n := |names| - 1;
      FoldedSize(names[..n]);
      assert names == names[..n] + [names[n]];
      assert Folded(names) == Folded(names[..n]) + {LowerName(names[n])};
      if LowerName(names[n]) in Folded(names[..n]) {
        var i :| 0 <= i < n && LowerName(names[i]) == LowerName(names[n]);
        assert Folded(names) == Folded(names[..n]);
      }
    }
  }

  lemma {:induction false} SubsetSize<T>(a: set<T>, b: set<T>)
    requires a <= b
    ensures |a| <= |b| && (|a| == |b| ==> a == b)
  {
    if x :| x in b && x !in a {
      SubsetSize(a, b - {x});
    } else {
      assert a == b;
    }
  }

  /**
   The lists are compared in one direction. A change of the admitted names is missed exactly when a name is
   added while the lists stay equally long; that needs a name repeated in the first list.
   */
  lemma CommonNamesMissIff(a: seq<string>, b: seq<string>)
    ensures SameCommonNames(a, b) && Folded(a) != Folded(b) <==> |a| == |b| && Folded(a) < Folded(b)
    ensures SameCommonNames(a, b) ==> (SameCommonNames(b, a) <==> Folded(a) == Folded(b))
    ensures (forall i, j :: 0 <= i < j < |a| ==> LowerName(a[i]) != LowerName(a[j])) && SameCommonNames(a, b) ==>
              Folded(a) == Folded(b)
  {
    SameCommonNamesIff(a, b);
    SameCommonNamesIff(b, a);
    FoldedSize(a);
    FoldedSize(b);
    hide SameCommonNames, Folded;
    if SameCommonNames(a, b) {
      SubsetSize(Folded(a), Folded(b));
    }
  }

  /** Such a change: a repeated name hides a missing one. */
  lemma CommonNamesOneWay(x: string, y: string)
    requires !SameName(x, y)
    ensures SameCommonNames([x, x], [x, y]) && !SameCommonNames([x, y], [x, x])
  {
    assert SameName(x, x);
    assert [x, y][1] == y && x in [x, y] && y in [x, y];
  }
}
