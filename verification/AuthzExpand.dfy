/** What a grant pattern means against a catalog of permissions, and which permissions became
    new since the grant's snapshot was stored. */
module AuthzExpand {
  import opened AuthzPattern

  datatype Risk = RiskLow | RiskMedium | RiskHigh | RiskDangerous | RiskRoot
  datatype Permission = Permission(name: string, risk: Risk, sessionGrantable: bool)
  datatype Subject = Users | Caller | Session | Unknown
  datatype Reason = RootOnly | DangerousWildcard | NotSessionGrantable
  datatype Excluded = Excluded(permission: Permission, reason: Reason)
  datatype Error = NoMatch | UnknownSubject
  datatype Result<T> = Ok(value: T) | Err(error: Error)

  const PERM_AUTH_MANAGE := "auth.manage"

  // Why a row the pattern reaches is kept out, if it is.
  ghost predicate KeptOut(p: Permission, wildcard: bool, subject: Subject) {
    || p.name == PERM_AUTH_MANAGE || p.risk == RiskRoot
    || (wildcard && p.risk == RiskDangerous)
    || (subject == Session && !p.sessionGrantable)
  }

  // The rows of the catalog a grant of the pattern means, in catalog order.
  ghost function Allowed(cat: seq<Permission>, pattern: string, subject: Subject): seq<Permission> {
    if cat == [] then []
    else
      var p, prev := cat[|cat| - 1], Allowed(cat[..|cat| - 1], pattern, subject);
      if Globs(pattern, p.name) && !KeptOut(p, '*' in pattern, subject) then prev + [p] else prev
  }

  // The rows the pattern reaches but a rule keeps out, in catalog order.
  ghost function Refused(cat: seq<Permission>, pattern: string, subject: Subject): seq<Permission> {
    if cat == [] then []
    else
      var p, prev := cat[|cat| - 1], Refused(cat[..|cat| - 1], pattern, subject);
      if Globs(pattern, p.name) && KeptOut(p, '*' in pattern, subject) then prev + [p] else prev
  }

  // Every exclusion names the first rule that holds of its row: the root's, then the wildcard's, then
  // the session's.
  ghost predicate Justified(x: Excluded, wildcard: bool, subject: Subject) {
    var p := x.permission;
    var root, dangerous := p.name == PERM_AUTH_MANAGE || p.risk == RiskRoot, wildcard && p.risk == RiskDangerous;
    match x.reason
    case RootOnly => root
    case DangerousWildcard => dangerous && !root
    case NotSessionGrantable => subject == Session && !p.sessionGrantable && !root && !dangerous
  }

  function RowsOf(xs: seq<Excluded>): (rows: seq<Permission>)
    ensures |rows| == |xs|
  {
    if xs == [] then [] else RowsOf(xs[..|xs| - 1]) + [xs[|xs| - 1].permission]
  }

  lemma NoneExcluded()
    ensures RowsOf([]) == []
  {
  }

  lemma RowsSnoc(xs: seq<Excluded>)
    ensures forall x :: RowsOf(xs + [x]) == RowsOf(xs) + [x.permission]
  {
    forall x
      ensures RowsOf(xs + [x]) == RowsOf(xs) + [x.permission]
    {
      assert (xs + [x])[..|xs|] == xs;
    }
  }

  lemma NoRows(pattern: string, subject: Subject)
    ensures Allowed([], pattern, subject) == [] && Refused([], pattern, subject) == []
  {
  }

  // What the next row of the catalog adds.
  lemma RowStep(cat: seq<Permission>, k: nat, pattern: string, subject: Subject)
    requires k < |cat|
    ensures var p := cat[k]; var matches, out := Globs(pattern, p.name), KeptOut(p, '*' in pattern, subject);
      var granted, kept := if matches && !out then [p] else [], if matches && out then [p] else [];
      && Allowed(cat[..k + 1], pattern, subject) == Allowed(cat[..k], pattern, subject) + granted
      && Refused(cat[..k + 1], pattern, subject) == Refused(cat[..k], pattern, subject) + kept
  {
    hide Globs, KeptOut;
    assert cat[..k + 1][..k] == cat[..k];
  }

  method ExplainAgainst(cat: seq<Permission>, pattern: string, subject: Subject)
    returns (perms: Result<seq<Permission>>, excluded: seq<Excluded>)
    ensures perms == if Allowed(cat, pattern, subject) == [] then Err(NoMatch) else Ok(Allowed(cat, pattern, subject))
    ensures RowsOf(excluded) == Refused(cat, pattern, subject)
    ensures forall x :: x in excluded ==> Justified(x, '*' in pattern, subject)
  {
    hide Globs, Allowed, Refused, RowsOf;
    var wildcard := '*' in pattern;
    assert Allowed([], pattern, subject) == [] && Refused([], pattern, subject) == [] by {
      NoRows(pattern, subject);
    }
    var out: seq<Permission> := [];
    excluded := [];
    NoneExcluded();
    for k := 0 to |cat|
      invariant out == Allowed(cat[..k], pattern, subject)
      invariant RowsOf(excluded) == Refused(cat[..k], pattern, subject)
      invariant forall x :: x in excluded ==> Justified(x, '*' in pattern, subject)
    {
      var p := cat[k];
      RowStep(cat, k, pattern, subject);
      RowsSnoc(excluded);
      var matches := Match(pattern, p.name);
      if !matches {
        continue;
      }
      if p.name == PERM_AUTH_MANAGE || p.risk == RiskRoot {
        excluded := excluded + [Excluded(p, RootOnly)];
      } else if wildcard && p.risk == RiskDangerous {
        excluded := excluded + [Excluded(p, DangerousWildcard)];
      } else if subject == Session && !p.sessionGrantable {
        excluded := excluded + [Excluded(p, NotSessionGrantable)];
      } else {
        out := out + [p];
      }
    }
    assert cat[..|cat|] == cat;
    perms := if out == [] then Err(NoMatch) else Ok(out);
  }

  method Expand(cat: seq<Permission>, pattern: string, subject: Subject) returns (r: Result<seq<Permission>>)
    ensures r == Expansion(cat, pattern, subject)
  {
    if subject == Unknown {
      return Err(UnknownSubject);
    }
    var excluded;
    r, excluded := ExplainAgainst(cat, pattern, subject);
  }

  ghost function Expansion(cat: seq<Permission>, pattern: string, subject: Subject): Result<seq<Permission>> {
    if subject == Unknown then Err(UnknownSubject)
    else if Allowed(cat, pattern, subject) == [] then Err(NoMatch)
    else Ok(Allowed(cat, pattern, subject))
  }

  // Names, and the sorted names a grant stores.
  function Names(perms: seq<Permission>): (names: seq<string>)
    ensures |names| == |perms|
    ensures forall k :: 0 <= k < |perms| ==> names[k] == perms[k].name
  {
    if perms == [] then [] else Names(perms[..|perms| - 1]) + [perms[|perms| - 1].name]
  }

  predicate LexLeq(a: string, b: string) {
    a == "" || (b != "" && (a[0] < b[0] || (a[0] == b[0] && LexLeq(a[1..], b[1..]))))
  }

  function InsertName(x: string, xs: seq<string>): seq<string> {
    if xs == [] || LexLeq(x, xs[0]) then [x] + xs else [xs[0]] + InsertName(x, xs[1..])
  }

  function SortNames(xs: seq<string>): seq<string> {
    if xs == [] then [] else InsertName(xs[0], SortNames(xs[1..]))
  }

  function Snapshot(perms: seq<Permission>): seq<string> {
    SortNames(Names(perms))
  }

  // The members of the expansion the snapshot does not know, in catalog order.
  ghost function Unknowns(perms: seq<Permission>, known: set<string>): seq<Permission> {
    if perms == [] then []
    else
      var p, prev := perms[|perms| - 1], Unknowns(perms[..|perms| - 1], known);
      if p.name in known then prev else prev + [p]
  }

  method NewSince(cat: seq<Permission>, pattern: string, subject: Subject, snapshot: seq<string>)
    returns (r: Result<seq<Permission>>)
    ensures r.Err? ==> r == Expansion(cat, pattern, subject)
    ensures r.Ok? ==> Expansion(cat, pattern, subject).Ok?
    ensures r.Ok? ==> r.value == Unknowns(Allowed(cat, pattern, subject), set name | name in snapshot)
  {
    var e := Expand(cat, pattern, subject);
    if e.Err? {
      return e;
    }
    var perms := e.value;
    var known: set<string> := {};
    for k := 0 to |snapshot|
      invariant known == set name | name in snapshot[..k]
    {
      known := known + {snapshot[k]};
    }
    assert snapshot[..|snapshot|] == snapshot;
    var out: seq<Permission> := [];
    for k := 0 to |perms|
      invariant out == Unknowns(perms[..k], known)
    {
      assert perms[..k + 1][..k] == perms[..k];
      if perms[k].name !in known {
        out := out + [perms[k]];
      }
    }
    assert perms[..|perms|] == perms;
    return Ok(out);
  }

  // s appears in t with its order kept.
  ghost predicate Subsequence(s: seq<Permission>, t: seq<Permission>) {
    s == [] || (t != [] && (
      (s[|s| - 1] == t[|t| - 1] && Subsequence(s[..|s| - 1], t[..|t| - 1]))
      || Subsequence(s, t[..|t| - 1])))
  }

  ghost predicate DistinctNames(cat: seq<Permission>) {
    forall k, l :: 0 <= k < l < |cat| ==> cat[k].name != cat[l].name
  }

  lemma {:induction false} AllowedRow(cat: seq<Permission>, pattern: string, subject: Subject, p: Permission)
    ensures p in Allowed(cat, pattern, subject) <==>
      p in cat && Globs(pattern, p.name) && !KeptOut(p, '*' in pattern, subject)
    ensures p in Refused(cat, pattern, subject) <==>
      p in cat && Globs(pattern, p.name) && KeptOut(p, '*' in pattern, subject)
  {
    hide Globs, KeptOut;
    if cat != [] {
      AllowedRow(cat[..|cat| - 1], pattern, subject, p);
      assert p in cat <==> p in cat[..|cat| - 1] || p == cat[|cat| - 1];
    }
  }

  lemma {:induction false} AllowedInOrder(cat: seq<Permission>, pattern: string, subject: Subject)
    ensures Subsequence(Allowed(cat, pattern, subject), cat)
    ensures Subsequence(Refused(cat, pattern, subject), cat)
    ensures |Allowed(cat, pattern, subject)| + |Refused(cat, pattern, subject)| == Reached(cat, pattern)
  {
    hide Globs, KeptOut;
    if cat != [] {
      var rest, p := cat[..|cat| - 1], cat[|cat| - 1];
      AllowedInOrder(rest, pattern, subject);
      assert cat == rest + [p];
      SubsequenceSnoc(Allowed(rest, pattern, subject), rest, p);
      SubsequenceSnoc(Refused(rest, pattern, subject), rest, p);
    }
  }

  lemma SubsequenceSnoc(s: seq<Permission>, t: seq<Permission>, p: Permission)
    requires Subsequence(s, t)
    ensures Subsequence(s, t + [p]) && Subsequence(s + [p], t + [p])
  {
    assert (t + [p])[..|t|] == t && (s + [p])[..|s|] == s;
  }

  // How many rows of the catalog the pattern matches.
  ghost function Reached(cat: seq<Permission>, pattern: string): nat {
    if cat == [] then 0
    else Reached(cat[..|cat| - 1], pattern) + if Globs(pattern, cat[|cat| - 1].name) then 1 else 0
  }

  /** Explaining a pattern splits exactly the rows it matches into permissions and exclusions,
      both in catalog order. */
  lemma {:induction false} ExplainPartitions(cat: seq<Permission>, pattern: string, subject: Subject)
    ensures var a, r := Allowed(cat, pattern, subject), Refused(cat, pattern, subject);
      && Subsequence(a, cat) && Subsequence(r, cat)
      && |a| + |r| == Reached(cat, pattern)
      && (forall p :: p in cat && Globs(pattern, p.name) <==> p in a || p in r)
      && (forall p :: !(p in a && p in r))
  {
    hide Globs, KeptOut;
    AllowedInOrder(cat, pattern, subject);
    forall p: Permission
      ensures p in cat && Globs(pattern, p.name) <==>
        p in Allowed(cat, pattern, subject) || p in Refused(cat, pattern, subject)
      ensures !(p in Allowed(cat, pattern, subject) && p in Refused(cat, pattern, subject))
    {
      AllowedRow(cat, pattern, subject, p);
    }
  }

  lemma {:induction false} LiteralPattern(pattern: string, name: string)
    requires '*' !in pattern
    ensures Globs(pattern, name) <==> pattern == name
  {
    LiteralGlobs(pattern, "", name);
    assert pattern + "" == pattern;
    if pattern <= name && name[|pattern|..] == "" {
      assert name == pattern;
    }
  }

  /** No expansion grants a root row; a dangerous row is granted only by spelling its name; a
      session is granted only rows that may be granted to a session. */
  lemma {:induction false} ExpansionIsSafe(cat: seq<Permission>, pattern: string, subject: Subject, p: Permission)
    requires Expansion(cat, pattern, subject).Ok? && p in Expansion(cat, pattern, subject).value
    ensures p in cat && p.risk != RiskRoot && p.name != PERM_AUTH_MANAGE
    ensures p.risk == RiskDangerous ==> pattern == p.name
    ensures subject == Session ==> p.sessionGrantable
    ensures Expansion(cat, pattern, subject).value != []
  {
    AllowedRow(cat, pattern, subject, p);
    if p.risk == RiskDangerous {
      LiteralPattern(pattern, p.name);
    }
  }

  lemma {:induction false} SubsequenceIn(s: seq<Permission>, t: seq<Permission>, p: Permission)
    requires Subsequence(s, t) && p in s
    ensures p in t
  {
    if s[|s| - 1] == t[|t| - 1] && Subsequence(s[..|s| - 1], t[..|t| - 1]) {
      if p != s[|s| - 1] {
        SubsequenceIn(s[..|s| - 1], t[..|t| - 1], p);
      }
    } else {
      SubsequenceIn(s, t[..|t| - 1], p);
    }
  }

  lemma {:induction false} InsertNameKeeps(x: string, xs: seq<string>, y: string)
    ensures y in InsertName(x, xs) <==> y == x || y in xs
  {
    hide LexLeq;
    if xs != [] {
      InsertNameKeeps(x, xs[1..], y);
      assert y in xs <==> y == xs[0] || y in xs[1..];
    }
  }

  lemma {:induction false} SortNamesKeeps(xs: seq<string>, y: string)
    ensures y in SortNames(xs) <==> y in xs
  {
    if xs != [] {
      SortNamesKeeps(xs[1..], y);
      InsertNameKeeps(xs[0], SortNames(xs[1..]), y);
    }
  }

  lemma {:induction false} SnapshotHolds(perms: seq<Permission>, name: string)
    ensures name in Snapshot(perms) <==> exists p :: p in perms && p.name == name
  {
    SortNamesKeeps(Names(perms), name);
    if name in Names(perms) {
      var k :| 0 <= k < |perms| && Names(perms)[k] == name;
      assert perms[k] in perms;
    }
    if p :| p in perms && p.name == name {
      var k :| 0 <= k < |perms| && perms[k] == p;
      assert Names(perms)[k] == name;
    }
  }

  lemma {:induction false} LexTotal(a: string, b: string)
    ensures LexLeq(a, b) || LexLeq(b, a)
  {
    if a != "" && b != "" {
      LexTotal(a[1..], b[1..]);
    }
  }

  ghost predicate Ascending(xs: seq<string>) {
    forall k :: 0 < k < |xs| ==> LexLeq(xs[k - 1], xs[k])
  }

  lemma {:induction false} InsertNameAscends(x: string, xs: seq<string>)
    requires Ascending(xs)
    ensures Ascending(InsertName(x, xs))
  {
    hide LexLeq;
    if xs != [] && !LexLeq(x, xs[0]) {
      LexTotal(x, xs[0]);
      assert Ascending(xs[1..]) by {
        assert forall k :: 0 < k < |xs[1..]| ==> xs[1..][k - 1] == xs[k] && xs[1..][k] == xs[k + 1];
      }
      InsertNameAscends(x, xs[1..]);
    }
  }

  /** A snapshot is sorted and names exactly the rows of the expansion, whatever their order. */
  lemma {:induction false} SnapshotSorted(perms: seq<Permission>)
    ensures Ascending(Snapshot(perms))
    ensures forall name :: name in Snapshot(perms) <==> exists p :: p in perms && p.name == name
  {
    SortAscends(Names(perms));
    forall name: string
      ensures name in Snapshot(perms) <==> exists p :: p in perms && p.name == name
    {
      SnapshotHolds(perms, name);
    }
  }

  lemma {:induction false} SortAscends(xs: seq<string>)
    ensures Ascending(SortNames(xs))
  {
    if xs != [] {
      SortAscends(xs[1..]);
      InsertNameAscends(xs[0], SortNames(xs[1..]));
    }
  }

  lemma {:induction false} UnknownsExact(perms: seq<Permission>, known: set<string>, p: Permission)
    ensures p in Unknowns(perms, known) <==> p in perms && p.name !in known
  {
    if perms != [] {
      UnknownsExact(perms[..|perms| - 1], known, p);
      assert p in perms <==> p in perms[..|perms| - 1] || p == perms[|perms| - 1];
    }
  }

  lemma {:induction false} UnknownsInOrder(perms: seq<Permission>, known: set<string>)
    ensures Subsequence(Unknowns(perms, known), perms)
  {
    if perms != [] {
      var rest, p := perms[..|perms| - 1], perms[|perms| - 1];
      UnknownsInOrder(rest, known);
      assert perms == rest + [p];
      SubsequenceSnoc(Unknowns(rest, known), rest, p);
    }
  }

  lemma SameNameSameRow(cat: seq<Permission>, p: Permission, q: Permission)
    requires DistinctNames(cat) && p in cat && q in cat && p.name == q.name
    ensures p == q
  {
    var k :| 0 <= k < |cat| && cat[k] == p;
    var l :| 0 <= l < |cat| && cat[l] == q;
  }

  /** The catalog grew by inserted rows: the old expansion is still granted, and what is new
      since the stored snapshot is exactly the granted rows that were inserted, in order. */
  lemma {:induction false} GrowthIsExact(was: seq<Permission>, now: seq<Permission>, pattern: string, subject: Subject)
    requires Subsequence(was, now) && DistinctNames(now)
    ensures var stored := Snapshot(Allowed(was, pattern, subject));
      var fresh' := Unknowns(Allowed(now, pattern, subject), set name | name in stored);
      && (forall p :: p in Allowed(was, pattern, subject) ==> p in Allowed(now, pattern, subject))
      && (forall p :: p in fresh' <==> p in Allowed(now, pattern, subject) && p !in was)
      && Subsequence(fresh', Allowed(now, pattern, subject))
  {
    hide Globs, KeptOut, Allowed, Unknowns, Snapshot, Subsequence;
    var before, after := Allowed(was, pattern, subject), Allowed(now, pattern, subject);
    var known := set name | name in Snapshot(before);
    UnknownsInOrder(after, known);
    forall p | p in before
      ensures p in after
    {
      AllowedRow(was, pattern, subject, p);
      SubsequenceIn(was, now, p);
      AllowedRow(now, pattern, subject, p);
    }
    forall p: Permission
      ensures p in Unknowns(after, known) <==> p in after && p !in was
    {
      UnknownsExact(after, known, p);
      AllowedRow(was, pattern, subject, p);
      AllowedRow(now, pattern, subject, p);
      SnapshotHolds(before, p.name);
      if p in after && p.name in known {
        var q :| q in before && q.name == p.name;
        AllowedRow(was, pattern, subject, q);
        SubsequenceIn(was, now, q);
        SameNameSameRow(now, p, q);
      }
    }
  }

  /** An expansion fails for an unknown subject before anything else, and then exactly when no row that
      the pattern matches is granted; otherwise it is those rows, and never empty. */
  lemma ExpandsExactly(cat: seq<Permission>, pattern: string, subject: Subject)
    ensures var r := Expansion(cat, pattern, subject);
      && (r == Err(UnknownSubject) <==> subject == Unknown)
      && (r == Err(NoMatch) <==>
            subject != Unknown &&
              forall p :: p in cat && Globs(pattern, p.name) ==> KeptOut(p, '*' in pattern, subject))
      && (r.Ok? ==>
            && r.value != [] && Subsequence(r.value, cat)
            && forall p :: p in r.value <==>
                 p in cat && Globs(pattern, p.name) && !KeptOut(p, '*' in pattern, subject))
  {
    hide Globs, KeptOut, Allowed, Subsequence;
    AllowedInOrder(cat, pattern, subject);
    forall p
      ensures p in Allowed(cat, pattern, subject) <==>
        p in cat && Globs(pattern, p.name) && !KeptOut(p, '*' in pattern, subject)
    {
      AllowedRow(cat, pattern, subject, p);
    }
    var allowed := Allowed(cat, pattern, subject);
    assert allowed != [] ==> allowed[0] in allowed;
  }

  /** Names are ordered by their first difference, a name before its extensions. */
  lemma {:induction false} FirstDifferenceDecides(common: string, a: string, b: string)
    ensures a == "" ==> LexLeq(common + a, common + b)
    ensures a != "" && b == "" ==> !LexLeq(common + a, common + b)
    ensures a != "" && b != "" && a[0] != b[0] ==> (LexLeq(common + a, common + b) <==> a[0] < b[0])
  {
    if common != "" {
      assert (common + a)[1..] == common[1..] + a && (common + b)[1..] == common[1..] + b;
      FirstDifferenceDecides(common[1..], a, b);
    } else {
      assert common + a == a && common + b == b;
    }
  }

  lemma {:induction false} InsertKeepsAll(x: string, xs: seq<string>)
    ensures multiset(InsertName(x, xs)) == multiset{x} + multiset(xs)
  {
    hide LexLeq;
    if xs != [] && !LexLeq(x, xs[0]) {
      InsertKeepsAll(x, xs[1..]);
      assert xs == [xs[0]] + xs[1..];
    }
  }

  /** The snapshot holds every name as often as the expansion has rows of it. */
  lemma {:induction false} SortKeepsAll(xs: seq<string>)
    ensures multiset(SortNames(xs)) == multiset(xs)
  {
    if xs != [] {
      SortKeepsAll(xs[1..]);
      InsertKeepsAll(xs[0], SortNames(xs[1..]));
      assert xs == [xs[0]] + xs[1..];
    }
  }
}
