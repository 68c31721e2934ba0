/** The session book of the background agents: rows of sessions, one per kind and session id,
    and the four ways the store changes them. */
module BgBook {
  import opened GoText

  datatype State = Active | Reset | Replaced | Dropped

  // Why a session replaced its predecessor.
  datatype Reason = NoReason | ManualReset | ContextReached | RunsReached | AgeReached | KeyChanged
    | NotResumable | SessionLost | ClearUnsupported

  // What a turn reported: billing counters, and the context level when there is one.
  datatype Level = Level(used: int, limit: int, ratio: real)
  datatype Usage = Usage(tokens: int, cost: real, context: Option<Level>)

  datatype Scope = Scope(kind: string, project: string, workDir: string)
  datatype Key = Key(scope: Scope, agent: string, model: string)

  // Rows stand in the order they were first written.
  datatype Row = Row(key: Key, sid: string, createdAt: int, lastUsedAt: int, runs: int, contextUsed: int,
                     contextLimit: int, lastUsage: Option<Usage>, state: State, manualReset: bool,
                     lastJobID: string, rotationReason: Reason)

  predicate Live(r: Row) { r.state == Active && !r.manualReset }

  predicate SameId(r: Row, b: Row) { r.key.scope.kind == b.key.scope.kind && r.sid == b.sid }

  // Last used, then created, most recently; among equals the row written last.
  predicate Newer(a: Row, b: Row) {
    a.lastUsedAt > b.lastUsedAt || (a.lastUsedAt == b.lastUsedAt && a.createdAt >= b.createdAt)
  }

  function Newest(rows: seq<Row>, where: Row -> bool): (r: Option<Row>)
    ensures r.Some? ==> r.value in rows && where(r.value)
    ensures forall s :: s in rows && where(s) ==> r.Some? && Newer(r.value, s)
  {
    if rows == [] then None
    else
      var n := |rows| - 1;
      var before := Newest(rows[..n], where);
      assert rows == rows[..n] + [rows[n]];
      if where(rows[n]) && (before.None? || Newer(rows[n], before.value)) then Some(rows[n]) else before
  }

  // The i-th row matches, and each other match was used earlier, or used then but created earlier, or
  // created then too but written before it.
  ghost predicate Foremost(rows: seq<Row>, where: Row -> bool, i: int)
    requires 0 <= i < |rows|
  {
    where(rows[i]) && forall j :: 0 <= j < |rows| && where(rows[j]) && j != i ==>
      || rows[j].lastUsedAt < rows[i].lastUsedAt
      || (rows[j].lastUsedAt == rows[i].lastUsedAt && rows[j].createdAt < rows[i].createdAt)
      || (rows[j].lastUsedAt == rows[i].lastUsedAt && rows[j].createdAt == rows[i].createdAt && j < i)
  }

  /** The lookup finds the row used last, of those the one created last, and of those the one written
      last. */
  lemma {:induction false} NewestIsForemost(rows: seq<Row>, where: Row -> bool)
    ensures Newest(rows, where).Some? ==>
      exists i :: 0 <= i < |rows| && rows[i] == Newest(rows, where).value && Foremost(rows, where, i)
  {
    if rows != [] {
      var n, r := |rows| - 1, Newest(rows, where);
      var front := rows[..n];
      NewestIsForemost(front, where);
      if Newest(front, where).Some? {
        var i :| 0 <= i < n && front[i] == Newest(front, where).value && Foremost(front, where, i);
        assert forall j :: 0 <= j < n ==> rows[j] == front[j];
        assert Foremost(rows, where, if r == Newest(front, where) && !(where(rows[n]) && Newer(rows[n], rows[i])) then i
                                     else n);
      } else if where(rows[n]) {
        assert forall j :: 0 <= j < n ==> rows[j] == front[j] && front[j] in front;
        assert Foremost(rows, where, n);
      }
    }
  }

  function ActiveFor(rows: seq<Row>, key: Key): (r: Option<Row>)
    ensures r.Some? ==> r.value in rows && r.value.key == key && Live(r.value)
    ensures r.None? ==> forall s :: s in rows && s.key == key ==> !Live(s)
  {
    Newest(rows, (r: Row) => r.key == key && Live(r))
  }

  function UnboundFor(rows: seq<Row>, scope: Scope): Option<Row> {
    ActiveFor(rows, Key(scope, "", ""))
  }

  function LatestFor(rows: seq<Row>, key: Key): (r: Option<Row>)
    ensures r.Some? ==> r.value in rows && r.value.key == key
    ensures forall s :: s in rows && s.key == key ==> r.Some? && Newer(r.value, s)
  {
    Newest(rows, (r: Row) => r.key == key)
  }

  // What a row reads back as: an unknown context figure is stored as none.
  function Stored(b: Row): Row {
    b.(contextUsed := if b.contextUsed <= 0 then 0 else b.contextUsed,
       contextLimit := if b.contextLimit <= 0 then 0 else b.contextLimit)
  }

  function Touched(rows: seq<Row>, change: Row -> Row): (out: seq<Row>)
    ensures |out| == |rows|
    ensures forall i :: 0 <= i < |rows| ==> out[i] == change(rows[i])
  {
    seq(|rows|, i requires 0 <= i < |rows| => change(rows[i]))
  }

  function Retiring(b: Row, r: Row): Row {
    if r.key.scope == b.key.scope && r.state == Active && r.sid != b.sid then r.(state := Replaced) else r
  }

  function Position(rows: seq<Row>, b: Row): (i: nat)
    ensures i <= |rows|
    ensures i < |rows| ==> SameId(rows[i], b)
    ensures forall j :: 0 <= j < i ==> !SameId(rows[j], b)
  {
    if rows == [] || SameId(rows[0], b) then 0 else 1 + Position(rows[1..], b)
  }

  function Upsert(rows: seq<Row>, b: Row): seq<Row> {
    var i := Position(rows, b);
    if i < |rows| then rows[i := b] else rows + [b]
  }

  predicate Storable(b: Row) { TrimSpace(b.key.scope.kind) != "" && TrimSpace(b.sid) != "" }

  // b becomes the session of its scope; every other active row of the scope is retired.
  function Replace(rows: seq<Row>, b: Row): seq<Row> {
    if Storable(b) then Upsert(Touched(rows, r => Retiring(b, r)), Stored(b)) else rows
  }

  function Retire(rows: seq<Row>, kind: string, sid: string): seq<Row> {
    Touched(rows, (r: Row) => if r.key.scope.kind == kind && r.sid == sid then r.(state := Dropped) else r)
  }

  function ByReset(scope: Scope, r: Row): Row {
    if r.key.scope == scope && r.state == Active then r.(state := Reset, manualReset := true) else r
  }

  function ResetScope(rows: seq<Row>, scope: Scope): seq<Row> {
    Touched(rows, r => ByReset(scope, r))
  }

  // One row per kind and session id, and one active row per scope.
  ghost predicate Unique(rows: seq<Row>) {
    forall i, j :: 0 <= i < j < |rows| ==> !SameId(rows[i], rows[j])
  }

  predicate Rivals(a: Row, b: Row) { a.key.scope == b.key.scope && a.state == Active && b.state == Active }

  ghost predicate OneActive(rows: seq<Row>) {
    forall i, j :: 0 <= i < j < |rows| ==> !Rivals(rows[i], rows[j])
  }

  // Every active row was counted within the limit.
  ghost predicate Bounded(rows: seq<Row>, max: int) {
    forall r :: r in rows && r.state == Active ==> 1 <= r.runs <= max
  }

  ghost predicate Tidy(rows: seq<Row>) { Unique(rows) && OneActive(rows) }

  ghost predicate Sound(rows: seq<Row>, max: int) { Tidy(rows) && Bounded(rows, max) }

  /** Replacing leaves one active row in the scope, which is the new one, and touches no row of
      another scope except one that had the same kind and session id. */
  lemma ReplaceKeeps(rows: seq<Row>, b: Row)
    requires Tidy(rows)
    ensures Tidy(Replace(rows, b))
    ensures Storable(b) ==> forall r :: r in Replace(rows, b) ==>
      r == Stored(b) || (!SameId(r, b) && (r in rows || (r.state == Replaced && r.key.scope == b.key.scope)))
    ensures Storable(b) ==> forall r :: r in Replace(rows, b) && r.key.scope == b.key.scope && r.state == Active ==>
      r == Stored(b)
  {
    if Storable(b) {
      UpsertKeeps(Touched(rows, r => Retiring(b, r)), Stored(b));
    }
  }

  lemma UpsertKeeps(rows: seq<Row>, b: Row)
    requires Tidy(rows)
    requires forall i :: 0 <= i < |rows| && rows[i].key.scope == b.key.scope && rows[i].sid != b.sid ==>
      rows[i].state != Active
    ensures Tidy(Upsert(rows, b))
    ensures forall r :: r in Upsert(rows, b) ==> r == b || (r in rows && !SameId(r, b))
  {
    var out, i := Upsert(rows, b), Position(rows, b);
    assert forall j :: 0 <= j < |rows| && j != i ==> out[j] == rows[j] && !SameId(rows[j], b);
  }

  // What becomes of a row: another is written in its place, it is kept, or it is retired.
  lemma ReplaceRetains(rows: seq<Row>, b: Row)
    requires Storable(b)
    ensures Stored(b) in Replace(rows, b)
    ensures forall q :: q in rows ==>
      SameId(q, b) || q in Replace(rows, b) || (q.key.scope == b.key.scope && q.state == Active && q.sid != b.sid)
  {
    var touched := Touched(rows, r => Retiring(b, r));
    UpsertHolds(touched, Stored(b));
    forall q | q in rows && !SameId(q, b) && Retiring(b, q) == q
      ensures q in Replace(rows, b)
    {
      var i :| 0 <= i < |rows| && rows[i] == q;
      assert touched[i] == q;
      UpsertRetains(touched, Stored(b), i);
    }
  }

  lemma UpsertRetains(rows: seq<Row>, b: Row, i: nat)
    requires i < |rows| && !SameId(rows[i], b)
    ensures rows[i] in Upsert(rows, b)
  {
    var out := Upsert(rows, b);
    assert out[i] == rows[i];
  }

  lemma ReplaceBounds(rows: seq<Row>, b: Row, max: int)
    requires Sound(rows, max) && (b.state == Active ==> 1 <= b.runs <= max)
    ensures Sound(Replace(rows, b), max)
  {
    hide Replace;
    ReplaceKeeps(rows, b);
    if !Storable(b) {
      RefusedKeeps(rows, b);
    }
  }

  lemma RefusedKeeps(rows: seq<Row>, b: Row)
    requires !Storable(b)
    ensures Replace(rows, b) == rows
  {
  }

  lemma UpsertHolds(rows: seq<Row>, b: Row)
    ensures b in Upsert(rows, b)
  {
    var out, i := Upsert(rows, b), Position(rows, b);
    assert out[i] == b;
  }

  /** What was written last is what the next lookup of the key finds. */
  lemma ReadsBack(rows: seq<Row>, b: Row)
    requires Tidy(rows) && Storable(b) && Live(b)
    ensures ActiveFor(Replace(rows, b), b.key) == Some(Stored(b))
    ensures forall key: Key :: key.scope == b.key.scope && key != b.key ==> ActiveFor(Replace(rows, b), key).None?
  {
    ReplaceKeeps(rows, b);
    UpsertHolds(Touched(rows, r => Retiring(b, r)), Stored(b));
    assert Stored(b) in Replace(rows, b);
  }

  /** Retiring and resetting end sessions and start none. */
  lemma EndingKeeps(rows: seq<Row>, kind: string, sid: string, scope: Scope)
    requires Tidy(rows)
    ensures Tidy(Retire(rows, kind, sid)) && Tidy(ResetScope(rows, scope))
    ensures forall r :: r in Retire(rows, kind, sid) && r.state == Active ==>
      r in rows && !(r.key.scope.kind == kind && r.sid == sid)
    ensures forall r :: r in ResetScope(rows, scope) && r.state == Active ==> r in rows && r.key.scope != scope
  {
  }

  /** They change nothing else: retiring marks the row of the id as dropped, a reset the active rows of the
      scope as reset by hand, and every other row stays as it was. */
  lemma EndingIsExact(rows: seq<Row>, kind: string, sid: string, scope: Scope, i: nat)
    requires i < |rows|
    ensures var r, dropped, reset := rows[i], Retire(rows, kind, sid), ResetScope(rows, scope);
      && |dropped| == |reset| == |rows|
      && (if r.key.scope.kind == kind && r.sid == sid
          then dropped[i].state == Dropped && dropped[i].(state := r.state) == r else dropped[i] == r)
      && (if r.key.scope == scope && r.state == Active
          then reset[i].state == Reset && reset[i].manualReset &&
            reset[i].(state := r.state, manualReset := r.manualReset) == r
          else reset[i] == r)
  {
  }
}
