/** What inventory keeps of platform's branches: a projection row and a default warehouse for each. */
module BranchProjection {
  // A default for each active branch, beside the warehouses that managers create and change. One tenant's
  // rows; an event or a request is one transaction.
  import opened Decimals
  import opened Texts
  import Lex

  datatype Branch = Branch(id: string, code: string, name: string, isWarehouse: bool, status: string, updatedAt: int)

  datatype Projection = Projection(code: string, name: string, isWarehouse: bool, status: string, sourceUpdatedAt: int)

  datatype Kind = BranchKind | Central | Quarantine

  /** `active`: the status is ACTIVE. */
  datatype Warehouse = Warehouse(id: string, branchId: Option<string>, code: string, name: string, kind: Kind,
                                 isDefault: bool, active: bool, createdAt: int)

  /** What a step takes from outside: a random id, the clock, the library's `toUpperCase`, and which
      warehouses hold stock, have reasons not to change branch or kind, or cannot be deactivated. */
  datatype World = World(newId: string, now: int, upper: string -> string,
                         holding: set<string>, blocked: set<string>, busy: set<string>)

  const ACTIVE := "active"

  // ---- warehouse codes

  const CODE_MAX := 32
  const ATTEMPTS := 1000

  predicate IsCode(s: string) { s != "" && IsAlnum(s[0]) && AllCodeChars(s) }

  /** Each run of white space becomes one dash. */
  function Dashes(s: string, inRun: bool): string {
    if s == "" then ""
    else if IsSpace(s[0]) then (if inRun then "" else "-") + Dashes(s[1..], true)
    else [s[0]] + Dashes(s[1..], false)
  }

  function OnlyCodeChars(s: string): (r: string)
    ensures AllCodeChars(r)
  {
    if s == "" then "" else (if IsCodeChar(s[0]) then [s[0]] else "") + OnlyCodeChars(s[1..])
  }

  function CodeFromBranch(code: string, upper: string -> string): (r: string)
    ensures IsCode(r)
  {
    var cleaned := OnlyCodeChars(Dashes(upper(Trim(code)), false));
    if cleaned != "" && IsAlnum(cleaned[0]) then cleaned else "WH" + cleaned
  }

  function Candidate(base: string, attempt: nat): (r: string)
    requires attempt < ATTEMPTS
    ensures |r| <= CODE_MAX
  {
    if attempt <= 1 then Prefix(base, CODE_MAX)
    else
      var suffix := "-" + Print(attempt);
      assert |Print(attempt)| <= 3 by { assert Pow10(3) == 1000; PrintWidth(attempt, 3); }
      Prefix(base, CODE_MAX - |suffix|) + suffix
  }

  /** Every candidate is a code the warehouse table accepts. */
  lemma CandidateIsACode(base: string, attempt: nat)
    requires attempt < ATTEMPTS && IsCode(base)
    ensures IsCode(Candidate(base, attempt))
  {
    assert Pow10(3) == 1000;
    PrintWidth(attempt, 3);
    hide Print;
  }

  /** From the second attempt on, no two candidates are equal. */
  lemma CandidatesDiffer(base: string, a: nat, b: nat)
    requires 2 <= a < ATTEMPTS && 2 <= b < ATTEMPTS && Candidate(base, a) == Candidate(base, b)
    ensures a == b
  {
    hide Print, Candidate;
    var s, p, q := Candidate(base, a), Print(a), Print(b);
    LastDash(base, a);
    LastDash(base, b);
    assert |p| == |q|;
    assert p == s[|s| - |p|..] == q;
    PrintIsInjective(a, b);
  }

  lemma LastDash(base: string, a: nat)
    requires 2 <= a < ATTEMPTS
    ensures var s, p := Candidate(base, a), Print(a);
            && |s| > |p| && s[|s| - |p|..] == p && s[|s| - 1 - |p|] == '-'
            && forall i :: |s| - |p| <= i < |s| ==> s[i] != '-'
  {
    hide Print;
    var s, p := Candidate(base, a), Print(a);
    assert Pow10(3) == 1000;
    PrintWidth(a, 3);
    var head := Prefix(base, CODE_MAX - |p| - 1);
    assert s == head + ("-" + p);
    assert forall i :: |s| - |p| <= i < |s| ==> s[i] == p[i - (|s| - |p|)];
  }

  /** The first attempt may repeat a later one. */
  lemma FirstCandidateMayRepeat()
    ensures var base := "ABCDEFGHIJKLMNOPQRSTUVWXYZ0123-2"; Candidate(base, 1) == Candidate(base, 2)
  {
    assert Print(2) == "2";
  }

  // ---- the table

  predicate Ours(w: Warehouse, branchId: string) { w.kind.BranchKind? && w.branchId == Some(branchId) }

  /** `ORDER BY is_default DESC, (status = 'ACTIVE') DESC, created_at ASC, id ASC` */
  predicate Ahead(a: Warehouse, b: Warehouse) {
    if a.isDefault != b.isDefault then a.isDefault
    else if a.active != b.active then a.active
    else if a.createdAt != b.createdAt then a.createdAt < b.createdAt
    else Lex.Less(a.id, b.id)
  }

  /** The branch's first row in that order. */
  function First(rows: seq<Warehouse>, branchId: string): (k: Option<nat>)
    ensures k.Some? ==> k.value < |rows| && Ours(rows[k.value], branchId)
  {
    if rows == [] then None
    else
      var n := |rows| - 1;
      var k := First(rows[..n], branchId);
      if !Ours(rows[n], branchId) then k
      else if k.None? || Ahead(rows[n], rows[k.value]) then Some(n)
      else k
  }

  /** No row of the branch comes before the one chosen. */
  lemma {:induction false} FirstIsFirst(rows: seq<Warehouse>, branchId: string)
    ensures var k := First(rows, branchId);
            && (k.None? ==> forall i :: 0 <= i < |rows| ==> !Ours(rows[i], branchId))
            && (k.Some? ==> forall i :: 0 <= i < |rows| && Ours(rows[i], branchId) ==> !Ahead(rows[i], rows[k.value]))
  {
    if rows != [] {
      var n := |rows| - 1;
      var before, k := First(rows[..n], branchId), First(rows, branchId);
      FirstIsFirst(rows[..n], branchId);
      if k.Some? {
        forall i | 0 <= i < |rows| && Ours(rows[i], branchId)
          ensures !Ahead(rows[i], rows[k.value])
        {
          NotAheadOfItself(rows[i]);
          if i < n {
            assert rows[..n][i] == rows[i];
            AheadIsAnOrder(rows[n], rows[before.value], rows[i]);
          }
        }
      } else {
        assert forall i :: 0 <= i < n ==> rows[..n][i] == rows[i];
      }
    }
  }

  lemma NotAheadOfItself(a: Warehouse)
    ensures !Ahead(a, a)
  {
    Lex.Irreflexive(a.id);
  }

  lemma AheadIsAnOrder(a: Warehouse, b: Warehouse, c: Warehouse)
    ensures Ahead(a, b) && !Ahead(c, b) ==> !Ahead(c, a)
  {
    if Ahead(a, b) && Ahead(c, a) && a.id != b.id && c.id != a.id {
      hide Lex.Less;
      if Lex.Less(c.id, a.id) && Lex.Less(a.id, b.id) {
        Lex.Transitive(c.id, a.id, b.id);
      }
    }
    if a.id == b.id {
      Lex.Irreflexive(a.id);
    }
    if c.id == a.id {
      Lex.Irreflexive(a.id);
    }
  }

  predicate Taken(rows: seq<Warehouse>, code: string) { exists i :: 0 <= i < |rows| && rows[i].code == code }

  predicate CodeTaken(rows: seq<Warehouse>, base: string, attempt: nat)
    requires attempt < ATTEMPTS
  {
    Taken(rows, Candidate(base, attempt))
  }

  /** The first attempt whose code is free. */
  function FreeAttempt(rows: seq<Warehouse>, base: string, attempt: nat): (r: Option<nat>)
    requires attempt <= ATTEMPTS
    ensures r.Some? ==> attempt <= r.value < ATTEMPTS
    decreases ATTEMPTS - attempt
  {
    if attempt == ATTEMPTS then None
    else if CodeTaken(rows, base, attempt) then FreeAttempt(rows, base, attempt + 1)
    else Some(attempt)
  }

  lemma {:induction false} FreeAttemptIsFirst(rows: seq<Warehouse>, base: string, attempt: nat)
    requires attempt <= ATTEMPTS
    ensures var r := FreeAttempt(rows, base, attempt);
            && (r.Some? ==> !CodeTaken(rows, base, r.value))
            && forall a :: attempt <= a < (if r.Some? then r.value else ATTEMPTS) ==> CodeTaken(rows, base, a)
    decreases ATTEMPTS - attempt
  {
    hide CodeTaken;
    if attempt < ATTEMPTS {
      FreeAttemptIsFirst(rows, base, attempt + 1);
    }
  }

  // ---- the steps

  /** `UPDATE … SET is_default = true, status = 'ACTIVE' WHERE id = …` */
  function Promoted(rows: seq<Warehouse>, id: string): seq<Warehouse> {
    seq(|rows|, i requires 0 <= i < |rows| =>
      if rows[i].id == id then rows[i].(isDefault := true, active := true) else rows[i])
  }

  predicate IdTaken(rows: seq<Warehouse>, id: string) { exists i :: 0 <= i < |rows| && rows[i].id == id }

  function FirstOf(b: Branch, code: string, world: World): Warehouse {
    Warehouse(world.newId, Some(b.id), code, Prefix(b.name, 120), BranchKind, true, true, world.now)
  }

  /** `ensureDefaultBranchWarehouse` for an active branch; `None` is a thrown error. */
  function Ensured(rows: seq<Warehouse>, b: Branch, reactivate: bool, world: World): Option<seq<Warehouse>> {
    match First(rows, b.id)
    case Some(k) =>
      var chosen := rows[k];
      Some(if !chosen.isDefault || (reactivate && !chosen.active) then Promoted(rows, chosen.id) else rows)
    case None =>
      var base := CodeFromBranch(b.code, world.upper);
      var attempt := FreeAttempt(rows, base, 1);
      if attempt.None? || IdTaken(rows, world.newId) then None
      else Some(rows + [FirstOf(b, Candidate(base, attempt.value), world)])
  }

  /** `deactivateEmptyBranchWarehouses` */
  function Emptied(rows: seq<Warehouse>, branchId: string, holding: set<string>): seq<Warehouse> {
    seq(|rows|, i requires 0 <= i < |rows| =>
      if Ours(rows[i], branchId) && rows[i].active && rows[i].id !in holding then rows[i].(active := false) else rows[i])
  }

  datatype State = State(projections: map<string, Projection>, warehouses: seq<Warehouse>)

  predicate Stale(s: State, b: Branch) {
    b.id in s.projections && s.projections[b.id].sourceUpdatedAt > b.updatedAt
  }

  predicate ActiveBranch(s: State, id: string) { id in s.projections && s.projections[id].status == ACTIVE }

  function RowFor(b: Branch): Projection { Projection(b.code, b.name, b.isWarehouse, b.status, b.updatedAt) }

  /** One event; `None` is a thrown error, which rolls the transaction back. */
  function Applied(s: State, b: Branch, world: World): Option<State> {
    if Stale(s, b) then Some(s)
    else
      var projections := s.projections[b.id := RowFor(b)];
      if b.status == ACTIVE then
        match Ensured(s.warehouses, b, !ActiveBranch(s, b.id), world)
        case None => None
        case Some(rows) => Some(State(projections, rows))
      else Some(State(projections, Emptied(s.warehouses, b.id, world.holding)))
  }

  // ---- the manager's requests

  datatype NewWarehouse = NewWarehouse(code: string, name: string, kind: Kind, branchId: Option<string>, isDefault: Option<bool>)

  /** What a request leaves out stays; a branch may be set to null. */
  datatype Change = Change(name: Option<string>, kind: Option<Kind>, branchId: Option<Option<string>>,
                           isDefault: Option<bool>, active: Option<bool>)

  predicate Blank(b: Option<string>) { b.None? || b.value == "" }

  predicate BranchFits(kind: Kind, b: Option<string>) { kind.BranchKind? <==> !Blank(b) }

  /** No default of the branch, except perhaps on one warehouse. */
  function Cleared(rows: seq<Warehouse>, branchId: string, except: string): (cleared: seq<Warehouse>)
    ensures |cleared| == |rows|
    ensures forall i :: 0 <= i < |rows| && rows[i].id == except ==> cleared[i] == rows[i]
  {
    seq(|rows|, i requires 0 <= i < |rows| =>
      if Ours(rows[i], branchId) && rows[i].isDefault && rows[i].id != except then rows[i].(isDefault := false) else rows[i])
  }

  predicate HasOurs(rows: seq<Warehouse>, branchId: string) { exists i :: 0 <= i < |rows| && Ours(rows[i], branchId) }

  /** `create`; `None` is a refusal. The code is already normalised. The branch's status is read before
      the branch is locked, as `checked` has it; all else happens under the lock, on `s`. */
  function Made(checked: State, s: State, dto: NewWarehouse, world: World): Option<State> {
    var rows := s.warehouses;
    if !BranchFits(dto.kind, dto.branchId) || (dto.kind.BranchKind? && !ActiveBranch(checked, dto.branchId.value))
       || Taken(rows, dto.code) || IdTaken(rows, world.newId) then None
    else
      var b := if dto.kind.BranchKind? then dto.branchId else None;
      var isDefault := b.Some? && (!HasOurs(rows, b.value) || dto.isDefault == Some(true));
      var made := Warehouse(world.newId, b, dto.code, Trim(dto.name), dto.kind, isDefault, true, world.now);
      Some(s.(warehouses := (if isDefault then Cleared(rows, b.value, world.newId) else rows) + [made]))
  }

  /** A request that nothing comes between. */
  function Created(s: State, dto: NewWarehouse, world: World): Option<State> { Made(s, s, dto, world) }

  function Find(rows: seq<Warehouse>, id: string): (k: Option<nat>)
    ensures k.Some? ==> k.value < |rows| && rows[k.value].id == id
    ensures k.None? ==> !IdTaken(rows, id)
  {
    if rows == [] then None
    else if rows[|rows| - 1].id == id then Some(|rows| - 1)
    else Find(rows[..|rows| - 1], id)
  }

  /** The row as the change would leave it, but for the default. */
  function Changed(w: Warehouse, dto: Change): Warehouse {
    w.(name := if dto.name.Some? then Trim(dto.name.value) else w.name,
       kind := if dto.kind.Some? then dto.kind.value else w.kind,
       branchId := if dto.branchId.Some? then dto.branchId.value else w.branchId,
       active := if dto.active.Some? then dto.active.value else w.active)
  }

  predicate Moves(w: Warehouse, next: Warehouse) { next.kind != w.kind || next.branchId != w.branchId }

  predicate BranchIsActive(s: State, b: Option<string>) { b.Some? && ActiveBranch(s, b.value) }

  /** What stops a change before the default is looked at. */
  predicate Refused(s: State, w: Warehouse, next: Warehouse, world: World) {
    || (w.kind.BranchKind? && (next.kind != w.kind || next.branchId.None?))
    || !BranchFits(next.kind, next.branchId)
    || (Moves(w, next) && (w.id in world.blocked || (w.isDefault && w.kind.BranchKind?)
                           || (next.kind.BranchKind? && !BranchIsActive(s, next.branchId))))
    || (!next.active && w.active && (w.id in world.busy || (w.isDefault && w.kind.BranchKind? && BranchIsActive(s, w.branchId))))
  }

  predicate OtherDefault(rows: seq<Warehouse>, branchId: string, id: string) {
    exists i :: 0 <= i < |rows| && Ours(rows[i], branchId) && rows[i].isDefault && rows[i].id != id
  }

  /** Does the row become, or stay, its branch's default? */
  predicate BecomesDefault(rows: seq<Warehouse>, w: Warehouse, next: Warehouse, dto: Change)
    requires next.kind.BranchKind? ==> next.branchId.Some?
  {
    next.kind.BranchKind?
    && (|| dto.isDefault == Some(true)
        || (w.isDefault && next.branchId == w.branchId && next.active)
        || (Moves(w, next) && !OtherDefault(rows, next.branchId.value, w.id) && next.active))
  }

  /** `update`; `None` is a refusal. The row is locked from the start, but the branch's status is read
      before the branch is locked, as `checked` has it; the rest happens under the lock, on `s`. */
  function Written(checked: State, s: State, id: string, dto: Change, world: World): Option<State> {
    var rows := s.warehouses;
    match Find(rows, id)
    case None => None
    case Some(k) =>
      var w := rows[k];
      var next := Changed(w, dto);
      if Refused(checked, w, next, world) then None
      else if next.kind.BranchKind? && dto.isDefault == Some(false) && w.isDefault && next.branchId == w.branchId then None
      else
        var isDefault := BecomesDefault(rows, w, next, dto);
        if isDefault && !next.active then None
        else
          var cleared := if isDefault then Cleared(rows, next.branchId.value, id) else rows;
          Some(s.(warehouses := cleared[k := next.(isDefault := isDefault)]))
  }

  /** A request that nothing comes between. */
  function Updated(s: State, id: string, dto: Change, world: World): Option<State> { Written(s, s, id, dto, world) }

  // ---- the handler

  class Handler {
    var projections: map<string, Projection>
    var warehouses: seq<Warehouse>

    constructor ()
      ensures Snapshot() == State(map[], [])
    {
      projections, warehouses := map[], [];
    }

    function Snapshot(): State
      reads this
    {
      State(projections, warehouses)
    }

    /** `apply` */
    method Apply(b: Branch, world: World) returns (ok: bool)
      modifies this
      ensures ok == Applied(old(Snapshot()), b, world).Some?
      ensures Snapshot() == if ok then Applied(old(Snapshot()), b, world).value else old(Snapshot())
      ensures old(Inv(Snapshot())) ==> Inv(Snapshot())
    {
      hide Inv;
      if Inv(Snapshot()) && Applied(Snapshot(), b, world).Some? {
        EventKeeps(Snapshot(), b, world);
      }
      if b.id in projections && projections[b.id].sourceUpdatedAt > b.updatedAt {
        return true;
      }
      var saved := projections;
      var wasActive := b.id in projections && projections[b.id].status == ACTIVE;
      projections := projections[b.id := RowFor(b)];
      ok := true;
      if b.status == ACTIVE {
        ok := EnsureDefault(b, !wasActive, world);
      } else {
        warehouses := Emptied(warehouses, b.id, world.holding);
      }
      if !ok {
        projections := saved;
      }
    }

    /** `ensureDefaultBranchWarehouse`; a failure leaves the table alone. */
    method EnsureDefault(b: Branch, reactivate: bool, world: World) returns (ok: bool)
      modifies this`warehouses
      ensures ok == Ensured(old(warehouses), b, reactivate, world).Some?
      ensures warehouses == if ok then Ensured(old(warehouses), b, reactivate, world).value else old(warehouses)
    {
      hide Candidate;
      var k: Option<nat> := None;
      for i := 0 to |warehouses|
        invariant k == First(warehouses[..i], b.id)
        invariant warehouses == old(warehouses)
      {
        assert warehouses[..i + 1][..i] == warehouses[..i];
        if Ours(warehouses[i], b.id) && (k.None? || Ahead(warehouses[i], warehouses[k.value])) {
          k := Some(i);
        }
      }
      assert warehouses[..|warehouses|] == warehouses;
      if k.Some? {
        var chosen := warehouses[k.value];
        if !chosen.isDefault || (reactivate && !chosen.active) {
          warehouses := Promoted(warehouses, chosen.id);
        }
        return true;
      }
      var base := CodeFromBranch(b.code, world.upper);
      var attempt := 1;
      while attempt < ATTEMPTS
        invariant 1 <= attempt <= ATTEMPTS && warehouses == old(warehouses)
        invariant FreeAttempt(warehouses, base, 1) == FreeAttempt(warehouses, base, attempt)
      {
        var code := Candidate(base, attempt);
        if !Taken(warehouses, code) {
          if IdTaken(warehouses, world.newId) {
            return false;
          }
          warehouses := warehouses + [FirstOf(b, code, world)];
          return true;
        }
        attempt := attempt + 1;
      }
      return false;
    }

    /** `WarehousesService.create` */
    method Create(dto: NewWarehouse, world: World) returns (ok: bool)
      modifies this`warehouses
      ensures ok == Created(old(Snapshot()), dto, world).Some?
      ensures Snapshot() == if ok then Created(old(Snapshot()), dto, world).value else old(Snapshot())
      ensures old(Inv(Snapshot())) ==> Inv(Snapshot())
    {
      hide Inv;
      if Inv(Snapshot()) && Created(Snapshot(), dto, world).Some? {
        CreationKeeps(Snapshot(), Snapshot(), dto, world);
      }
      var branch: Option<string> := None;
      if dto.kind.BranchKind? {
        if Blank(dto.branchId) || !ActiveBranch(Snapshot(), dto.branchId.value) {
          return false;
        }
        branch := dto.branchId;
      } else if !Blank(dto.branchId) {
        return false;
      }
      if Taken(warehouses, dto.code) || IdTaken(warehouses, world.newId) {
        return false;
      }
      var isDefault := false;
      if dto.kind.BranchKind? {
        isDefault := !HasOurs(warehouses, branch.value) || dto.isDefault == Some(true);
        if isDefault {
          warehouses := Cleared(warehouses, branch.value, world.newId);
        }
      }
      warehouses := warehouses
        + [Warehouse(world.newId, branch, dto.code, Trim(dto.name), dto.kind, isDefault, true, world.now)];
      return true;
    }

    /** `WarehousesService.update` */
    method Update(id: string, dto: Change, world: World) returns (ok: bool)
      modifies this`warehouses
      ensures ok == Updated(old(Snapshot()), id, dto, world).Some?
      ensures Snapshot() == if ok then Updated(old(Snapshot()), id, dto, world).value else old(Snapshot())
      ensures old(Inv(Snapshot())) ==> Inv(Snapshot())
    {
      hide Inv;
      if Inv(Snapshot()) && Updated(Snapshot(), id, dto, world).Some? {
        UpdateKeeps(Snapshot(), id, dto, world);
      }
      var k := Find(warehouses, id);
      if k.None? {
        return false;
      }
      var w := warehouses[k.value];
      var next := Changed(w, dto);
      if Refused(Snapshot(), w, next, world) {
        return false;
      }
      var isDefault := false;
      if next.kind.BranchKind? {
        var stays := next.branchId == w.branchId;
        if dto.isDefault == Some(false) && w.isDefault && stays {
          return false;
        }
        isDefault := dto.isDefault == Some(true) || (w.isDefault && stays && next.active);
        if !isDefault && Moves(w, next) {
          isDefault := !OtherDefault(warehouses, next.branchId.value, id) && next.active;
        }
        if isDefault && !next.active {
          return false;
        }
        if isDefault {
          warehouses := Cleared(warehouses, next.branchId.value, id);
        }
      }
      warehouses := warehouses[k.value := next.(isDefault := isDefault)];
      return true;
    }
  }

  // ---- what every step keeps

  ghost predicate OneDefault(rows: seq<Warehouse>) {
    forall i, j :: 0 <= i < j < |rows| && rows[i].kind.BranchKind? && rows[j].kind.BranchKind?
                   && rows[i].isDefault && rows[j].isDefault
                   ==> rows[i].branchId != rows[j].branchId
  }

  ghost predicate UniqueRows(rows: seq<Warehouse>) {
    forall i, j :: 0 <= i < j < |rows| ==> rows[i].id != rows[j].id && rows[i].code != rows[j].code
  }

  ghost predicate LiveDefault(rows: seq<Warehouse>, branchId: string, i: nat) {
    i < |rows| && Ours(rows[i], branchId) && rows[i].isDefault && rows[i].active
  }

  ghost predicate HasLiveDefault(rows: seq<Warehouse>, branchId: string) { exists i: nat :: LiveDefault(rows, branchId, i) }

  /** Ids and codes are unique, a branch has at most one default, and an active one has a live default. */
  ghost predicate Inv(s: State) {
    && OneDefault(s.warehouses) && UniqueRows(s.warehouses)
    && forall id :: ActiveBranch(s, id) ==> HasLiveDefault(s.warehouses, id)
  }

  lemma PromotionKeeps(rows: seq<Warehouse>, branchId: string)
    requires OneDefault(rows) && UniqueRows(rows) && First(rows, branchId).Some?
    ensures var rows' := Promoted(rows, rows[First(rows, branchId).value].id);
            && OneDefault(rows') && UniqueRows(rows')
            && LiveDefault(rows', branchId, First(rows, branchId).value)
            && forall id :: HasLiveDefault(rows, id) ==> HasLiveDefault(rows', id)
  {
    hide First;
    FirstIsFirst(rows, branchId);
    var k := First(rows, branchId).value;
    var rows' := Promoted(rows, rows[k].id);
    assert rows' == rows[k := rows[k].(isDefault := true, active := true)];
    assert forall i :: 0 <= i < |rows| && Ours(rows[i], branchId) && rows[i].isDefault ==> rows[k].isDefault;
    forall id | HasLiveDefault(rows, id)
      ensures HasLiveDefault(rows', id)
    {
      var i: nat :| LiveDefault(rows, id, i);
      assert LiveDefault(rows', id, i);
    }
  }

  lemma InsertionKeeps(rows: seq<Warehouse>, w: Warehouse)
    requires OneDefault(rows) && UniqueRows(rows) && !IdTaken(rows, w.id) && !Taken(rows, w.code) && w.active
    requires w.kind.BranchKind? ==> w.branchId.Some?
    requires w.kind.BranchKind? && w.isDefault ==>
               forall i :: 0 <= i < |rows| && Ours(rows[i], w.branchId.value) ==> !rows[i].isDefault
    ensures var rows' := rows + [w];
            && OneDefault(rows') && UniqueRows(rows')
            && (w.kind.BranchKind? && w.isDefault ==> LiveDefault(rows', w.branchId.value, |rows|))
            && forall id :: HasLiveDefault(rows, id) ==> HasLiveDefault(rows', id)
  {
    var rows' := rows + [w];
    forall id | HasLiveDefault(rows, id)
      ensures HasLiveDefault(rows', id)
    {
      var i: nat :| LiveDefault(rows, id, i);
      assert LiveDefault(rows', id, i);
    }
  }

  lemma EnsuringKeeps(rows: seq<Warehouse>, b: Branch, reactivate: bool, world: World)
    requires OneDefault(rows) && UniqueRows(rows) && Ensured(rows, b, reactivate, world).Some?
    requires !reactivate ==> HasLiveDefault(rows, b.id)
    ensures var rows' := Ensured(rows, b, reactivate, world).value;
            && OneDefault(rows') && UniqueRows(rows') && HasLiveDefault(rows', b.id)
            && forall id :: HasLiveDefault(rows, id) ==> HasLiveDefault(rows', id)
  {
    hide OneDefault, UniqueRows, Promoted, Candidate, FreeAttempt, First;
    FirstIsFirst(rows, b.id);
    var first := First(rows, b.id);
    if first.Some? {
      PromotionKeeps(rows, b.id);
      var chosen := rows[first.value];
      if chosen.isDefault && chosen.active {
        assert LiveDefault(rows, b.id, first.value);
      }
    } else {
      var base := CodeFromBranch(b.code, world.upper);
      var attempt := FreeAttempt(rows, base, 1).value;
      FreeAttemptIsFirst(rows, base, 1);
      InsertionKeeps(rows, FirstOf(b, Candidate(base, attempt), world));
    }
  }

  lemma EmptyingKeeps(rows: seq<Warehouse>, branchId: string, holding: set<string>)
    requires OneDefault(rows) && UniqueRows(rows)
    ensures var rows' := Emptied(rows, branchId, holding);
            && OneDefault(rows') && UniqueRows(rows')
            && forall id :: id != branchId && HasLiveDefault(rows, id) ==> HasLiveDefault(rows', id)
  {
    var rows' := Emptied(rows, branchId, holding);
    forall id | id != branchId && HasLiveDefault(rows, id)
      ensures HasLiveDefault(rows', id)
    {
      var i: nat :| LiveDefault(rows, id, i);
      assert LiveDefault(rows', id, i);
    }
  }

  lemma EventKeeps(s: State, b: Branch, world: World)
    requires Inv(s) && Applied(s, b, world).Some?
    ensures Inv(Applied(s, b, world).value)
  {
    hide OneDefault, UniqueRows, HasLiveDefault, Ensured, Emptied;
    if !Stale(s, b) {
      if b.status == ACTIVE {
        EnsuringKeeps(s.warehouses, b, !ActiveBranch(s, b.id), world);
      } else {
        EmptyingKeeps(s.warehouses, b.id, world.holding);
      }
      var s' := Applied(s, b, world).value;
      assert forall id :: id != b.id ==> (ActiveBranch(s', id) <==> ActiveBranch(s, id));
    }
  }

  /** Taking the default away from the other warehouses of a branch. */
  lemma ClearingKeeps(rows: seq<Warehouse>, branchId: string, except: string)
    requires OneDefault(rows) && UniqueRows(rows)
    ensures var rows' := Cleared(rows, branchId, except);
            && |rows'| == |rows| && OneDefault(rows') && UniqueRows(rows')
            && (forall i :: 0 <= i < |rows| ==> rows'[i] == rows[i].(isDefault := rows'[i].isDefault))
            && (forall i :: 0 <= i < |rows| && Ours(rows'[i], branchId) && rows'[i].id != except ==> !rows'[i].isDefault)
            && forall id :: id != branchId && HasLiveDefault(rows, id) ==> HasLiveDefault(rows', id)
  {
    var rows' := Cleared(rows, branchId, except);
    forall id | id != branchId && HasLiveDefault(rows, id)
      ensures HasLiveDefault(rows', id)
    {
      var i: nat :| LiveDefault(rows, id, i);
      assert LiveDefault(rows', id, i);
    }
  }

  /** Whatever the status of the branch was when it was read. */
  lemma CreationKeeps(checked: State, s: State, dto: NewWarehouse, world: World)
    requires Inv(s) && Made(checked, s, dto, world).Some?
    ensures Inv(Made(checked, s, dto, world).value)
  {
    hide OneDefault, UniqueRows, Cleared;
    var rows, s' := s.warehouses, Made(checked, s, dto, world).value;
    var made := s'.warehouses[|s'.warehouses| - 1];
    if made.isDefault {
      var b := made.branchId.value;
      ClearingKeeps(rows, b, world.newId);
      var cleared := Cleared(rows, b, world.newId);
      assert !IdTaken(cleared, world.newId) && !Taken(cleared, dto.code);
      InsertionKeeps(cleared, made);
      assert HasLiveDefault(s'.warehouses, b);
    } else {
      InsertionKeeps(rows, made);
    }
  }

  /** Writing one row: the branch it makes a default in has no other, and it is no live default that an
      active branch would lose. */
  lemma WritingKeeps(rows: seq<Warehouse>, k: nat, w: Warehouse)
    requires OneDefault(rows) && UniqueRows(rows) && k < |rows| && w.id == rows[k].id && w.code == rows[k].code
    requires w.kind.BranchKind? && w.isDefault ==>
               forall i :: 0 <= i < |rows| && i != k && rows[i].kind.BranchKind? && rows[i].isDefault ==> rows[i].branchId != w.branchId
    ensures var rows' := rows[k := w];
            && OneDefault(rows') && UniqueRows(rows')
            && forall id :: HasLiveDefault(rows, id) && !LiveDefault(rows, id, k) ==> HasLiveDefault(rows', id)
  {
    var rows' := rows[k := w];
    forall id | HasLiveDefault(rows, id) && !LiveDefault(rows, id, k)
      ensures HasLiveDefault(rows', id)
    {
      var i: nat :| LiveDefault(rows, id, i);
      assert LiveDefault(rows', id, i);
    }
  }

  /** Does the change switch off the live default of a branch that is active when it is written? */
  predicate Strands(s: State, id: string, dto: Change) {
    var k := Find(s.warehouses, id);
    && k.Some? && dto.active == Some(false)
    && var w := s.warehouses[k.value];
       w.kind.BranchKind? && w.isDefault && w.active && BranchIsActive(s, w.branchId)
  }

  /** When the branch's status may have changed since it was read, a change keeps the invariant exactly
      unless it strands a branch. */
  lemma InterleavedUpdateIff(checked: State, s: State, id: string, dto: Change, world: World)
    requires Inv(s) && Written(checked, s, id, dto, world).Some?
    ensures Inv(Written(checked, s, id, dto, world).value) <==> !Strands(s, id, dto)
  {
    hide OneDefault, UniqueRows, Cleared, HasLiveDefault, LiveDefault;
    if Strands(s, id, dto) {
      StrandedHasNoDefault(checked, s, id, dto, world);
    } else {
      UnstrandedKeeps(checked, s, id, dto, world);
    }
  }

  lemma StrandedHasNoDefault(checked: State, s: State, id: string, dto: Change, world: World)
    requires Inv(s) && Written(checked, s, id, dto, world).Some? && Strands(s, id, dto)
    ensures !Inv(Written(checked, s, id, dto, world).value)
  {
    hide UniqueRows, Cleared;
    var rows, s' := s.warehouses, Written(checked, s, id, dto, world).value;
    var k := Find(rows, id).value;
    var b := rows[k].branchId.value;
    assert s'.warehouses == rows[k := s'.warehouses[k]] && !s'.warehouses[k].isDefault;
    forall i: nat
      ensures !LiveDefault(s'.warehouses, b, i)
    {
    }
    assert ActiveBranch(s', b);
  }

  /** A request that nothing comes between keeps it. */
  lemma UpdateKeeps(s: State, id: string, dto: Change, world: World)
    requires Inv(s) && Updated(s, id, dto, world).Some?
    ensures Inv(Updated(s, id, dto, world).value)
  {
    hide Inv;
    InterleavedUpdateIff(s, s, id, dto, world);
  }

  lemma UnstrandedKeeps(checked: State, s: State, id: string, dto: Change, world: World)
    requires Inv(s) && Written(checked, s, id, dto, world).Some? && !Strands(s, id, dto)
    ensures Inv(Written(checked, s, id, dto, world).value)
  {
    hide OneDefault, UniqueRows, Cleared, HasLiveDefault;
    var rows, s' := s.warehouses, Written(checked, s, id, dto, world).value;
    var k := Find(rows, id).value;
    var w, next := rows[k], Changed(rows[k], dto);
    var row := next.(isDefault := BecomesDefault(rows, w, next, dto));
    if row.isDefault {
      var b := next.branchId.value;
      ClearingKeeps(rows, b, id);
      var cleared := Cleared(rows, b, id);
      WritingKeeps(cleared, k, row);
      DefaultIsThere(s'.warehouses, b, k);
      forall x | ActiveBranch(s, x) && x != b
        ensures HasLiveDefault(s'.warehouses, x)
      {
        assert HasLiveDefault(cleared, x);
        assert !LiveDefault(cleared, x, k);
      }
    } else {
      WritingKeeps(rows, k, row);
      forall x | ActiveBranch(s, x)
        ensures HasLiveDefault(s'.warehouses, x)
      {
        assert !LiveDefault(rows, x, k);
      }
    }
  }

  lemma DefaultIsThere(rows: seq<Warehouse>, branchId: string, k: nat)
    requires LiveDefault(rows, branchId, k)
    ensures HasLiveDefault(rows, branchId)
  {
  }

  // ---- whole runs

  datatype Step =
    | OnEvent(branch: Branch, world: World)
    | OnCreate(dto: NewWarehouse, world: World)
    | OnUpdate(id: string, change: Change, world: World)

  function Done(s: State, step: Step): Option<State> {
    match step
    case OnEvent(b, world) => Applied(s, b, world)
    case OnCreate(dto, world) => Created(s, dto, world)
    case OnUpdate(id, change, world) => Updated(s, id, change, world)
  }

  /** From an empty state; a step that fails changes nothing. */
  function Played(run: seq<Step>): State {
    if run == [] then State(map[], [])
    else
      var before, step := Played(run[..|run| - 1]), run[|run| - 1];
      match Done(before, step)
      case Some(s) => s
      case None => before
  }

  lemma StepKeeps(s: State, step: Step)
    requires Inv(s) && Done(s, step).Some?
    ensures Inv(Done(s, step).value)
  {
    hide Inv, Applied, Made, Written;
    match step
    case OnEvent(b, world) => EventKeeps(s, b, world);
    case OnCreate(dto, world) => CreationKeeps(s, s, dto, world);
    case OnUpdate(id, change, world) => UpdateKeeps(s, id, change, world);
  }

  lemma {:induction false} EveryRunKeeps(run: seq<Step>)
    ensures Inv(Played(run))
  {
    hide Done, Inv;
    if run == [] {
      EmptyIsFine();
    } else {
      EveryRunKeeps(run[..|run| - 1]);
      var before, step := Played(run[..|run| - 1]), run[|run| - 1];
      if Done(before, step).Some? {
        StepKeeps(before, step);
      }
    }
  }

  lemma EmptyIsFine()
    ensures Inv(State(map[], []))
  {
  }

  /** After any run of events, in any order, with redeliveries and failures, and of managers' requests
      between them: an active branch has exactly one default warehouse, and it is live. */
  lemma ExactlyOneDefault(run: seq<Step>, id: string) returns (k: nat)
    requires ActiveBranch(Played(run), id)
    ensures var rows := Played(run).warehouses;
            && k < |rows| && rows[k].active
            && forall i :: 0 <= i < |rows| ==> ((Ours(rows[i], id) && rows[i].isDefault) <==> i == k)
  {
    EveryRunKeeps(run);
    var rows := Played(run).warehouses;
    k :| LiveDefault(rows, id, k);
    hide Played;
    forall i | 0 <= i < |rows| && Ours(rows[i], id) && rows[i].isDefault
      ensures i == k
    {
    }
  }

  /** And no branch, active or not, ever has two. */
  lemma AtMostOneDefault(run: seq<Step>, id: string, i: nat, j: nat)
    requires var rows := Played(run).warehouses;
             && i < |rows| && j < |rows|
             && Ours(rows[i], id) && rows[i].isDefault && Ours(rows[j], id) && rows[j].isDefault
    ensures i == j
  {
    EveryRunKeeps(run);
    hide Played;
  }

  /** Delivering an event again right away changes nothing, as long as the same warehouses hold stock. */
  lemma RedeliveryChangesNothing(s: State, b: Branch, w1: World, w2: World)
    requires Inv(s) && Applied(s, b, w1).Some? && w1.holding == w2.holding
    ensures Applied(Applied(s, b, w1).value, b, w2) == Applied(s, b, w1)
  {
    var s' := Applied(s, b, w1).value;
    EventKeeps(s, b, w1);
    hide Ensured;
    if !Stale(s, b) {
      assert s'.projections[b.id := RowFor(b)] == s'.projections;
      if b.status == ACTIVE {
        LiveDefaultIsKept(s'.warehouses, b, w2);
      } else {
        assert Emptied(s'.warehouses, b.id, w2.holding) == s'.warehouses;
      }
    }
  }

  lemma LiveDefaultIsKept(rows: seq<Warehouse>, b: Branch, world: World)
    requires HasLiveDefault(rows, b.id) && OneDefault(rows)
    ensures Ensured(rows, b, false, world) == Some(rows)
  {
    FirstIsFirst(rows, b.id);
    var i: nat :| LiveDefault(rows, b.id, i);
    var k := First(rows, b.id).value;
    assert !Ahead(rows[i], rows[k]);
  }

  function Projected(ps: map<string, Projection>, b: Branch): map<string, Projection> {
    if b.id in ps && ps[b.id].sourceUpdatedAt > b.updatedAt then ps else ps[b.id := RowFor(b)]
  }

  function Projections(branches: seq<Branch>): map<string, Projection> {
    if branches == [] then map[]
    else Projected(Projections(branches[..|branches| - 1]), branches[|branches| - 1])
  }

  /** The events of a run, in the order delivered. */
  function BranchesOf(run: seq<Step>): seq<Branch> {
    if run == [] then []
    else BranchesOf(run[..|run| - 1]) + if run[|run| - 1].OnEvent? then [run[|run| - 1].branch] else []
  }

  /** Did every event of the run go through? */
  ghost predicate Smooth(run: seq<Step>) {
    forall i :: 0 <= i < |run| && run[i].OnEvent? ==> Done(Played(run[..i]), run[i]).Some?
  }

  lemma AppliedProjects(s: State, b: Branch, world: World)
    requires Applied(s, b, world).Some?
    ensures Applied(s, b, world).value.projections == Projected(s.projections, b)
  {
    hide Ensured, Emptied;
  }

  lemma RequestsProjectNothing(s: State, step: Step)
    requires !step.OnEvent?
    ensures Done(s, step).Some? ==> Done(s, step).value.projections == s.projections
  {
  }

  /** The warehouses do not matter to the projection rows. */
  lemma {:induction false} PlayedProjects(run: seq<Step>)
    requires Smooth(run)
    ensures Played(run).projections == Projections(BranchesOf(run))
  {
    hide Applied, Created, Updated, Projected;
    if run != [] {
      var n := |run| - 1;
      assert forall i :: 0 <= i < n ==> run[..n][..i] == run[..i];
      PlayedProjects(run[..n]);
      var s := Played(run[..n]);
      match run[n]
      case OnEvent(b, world) =>
        AppliedProjects(s, b, world);
        assert BranchesOf(run)[..|BranchesOf(run)| - 1] == BranchesOf(run[..n]);
      case _ =>
        RequestsProjectNothing(s, run[n]);
        assert BranchesOf(run) == BranchesOf(run[..n]);
    }
  }

  /** A row is that of a delivered event. */
  lemma {:induction false} RowIsAnEvent(branches: seq<Branch>, id: string)
    requires id in Projections(branches)
    ensures exists k :: 0 <= k < |branches| && branches[k].id == id && Projections(branches)[id] == RowFor(branches[k])
  {
    var n := |branches| - 1;
    var before := Projections(branches[..n]);
    if Projections(branches) == before[branches[n].id := RowFor(branches[n])] && branches[n].id == id {
      assert Projections(branches)[id] == RowFor(branches[n]);
    } else {
      RowIsAnEvent(branches[..n], id);
      var k :| 0 <= k < n && branches[..n][k].id == id && before[id] == RowFor(branches[..n][k]);
      assert branches[k].id == id && Projections(branches)[id] == RowFor(branches[k]);
    }
  }

  /** No delivered event of the branch is newer than its row. */
  lemma {:induction false} NoEventIsNewer(branches: seq<Branch>, i: nat)
    requires i < |branches|
    ensures branches[i].id in Projections(branches)
    ensures branches[i].updatedAt <= Projections(branches)[branches[i].id].sourceUpdatedAt
  {
    var n := |branches| - 1;
    if i < n {
      NoEventIsNewer(branches[..n], i);
    }
  }

  /** In a run without failures the row of a branch is that of its latest event, in whatever order
      they came. */
  lemma ProjectionIsTheLatest(run: seq<Step>, b: Branch)
    requires Smooth(run) && b in BranchesOf(run)
    requires forall c :: c in BranchesOf(run) && c.id == b.id && c != b ==> c.updatedAt < b.updatedAt
    ensures b.id in Played(run).projections
    ensures var row := Played(run).projections[b.id];
            && row.code == b.code && row.name == b.name && row.isWarehouse == b.isWarehouse && row.status == b.status
            && row.sourceUpdatedAt == b.updatedAt
  {
    hide Played, Projections, Smooth, BranchesOf;
    PlayedProjects(run);
    var branches := BranchesOf(run);
    var i :| 0 <= i < |branches| && branches[i] == b;
    NoEventIsNewer(branches, i);
    RowIsAnEvent(branches, b.id);
    var k :| 0 <= k < |branches| && branches[k].id == b.id && Projections(branches)[b.id] == RowFor(branches[k]);
    assert branches[k] in branches;
  }

  // ---- when the search fails

  /** The codes tried from the second attempt up to `n`. */
  ghost function Tried(base: string, n: nat): set<string>
    requires n < ATTEMPTS
  {
    set a | 2 <= a <= n :: Candidate(base, a)
  }

  lemma {:induction false} TriedAreMany(base: string, n: nat)
    requires 1 <= n < ATTEMPTS
    ensures |Tried(base, n)| == n - 1
  {
    hide Candidate;
    if n == 1 {
      assert Tried(base, 1) == {};
    } else {
      TriedAreMany(base, n - 1);
      var c := Candidate(base, n);
      assert Tried(base, n) == Tried(base, n - 1) + {c};
      if c in Tried(base, n - 1) {
        var a :| 2 <= a <= n - 1 && Candidate(base, a) == c;
        CandidatesDiffer(base, a, n);
      }
    }
  }

  ghost function Codes(rows: seq<Warehouse>): set<string> { set i | 0 <= i < |rows| :: rows[i].code }

  lemma {:induction false} FewCodes(rows: seq<Warehouse>)
    ensures |Codes(rows)| <= |rows|
  {
    if rows != [] {
      var n := |rows| - 1;
      FewCodes(rows[..n]);
      assert Codes(rows) == Codes(rows[..n]) + {rows[n].code};
    }
  }

  lemma {:induction false} SubsetIsSmaller<T>(a: set<T>, b: set<T>)
    requires a <= b
    ensures |a| <= |b|
  {
    if a != {} {
      var x :| x in a;
      SubsetIsSmaller(a - {x}, b - {x});
    }
  }

  /** The search for a code fails only if the tenant already uses at least 998 codes. */
  lemma SearchFailsOnlyWhenFull(rows: seq<Warehouse>, base: string)
    ensures FreeAttempt(rows, base, 1).None? ==> |Codes(rows)| >= 998 && |rows| >= 998
  {
    hide Candidate, FreeAttempt;
    if FreeAttempt(rows, base, 1).None? {
      FreeAttemptIsFirst(rows, base, 1);
      TriedAreMany(base, 999);
      forall c | c in Tried(base, 999)
        ensures c in Codes(rows)
      {
        var a :| 2 <= a <= 999 && Candidate(base, a) == c;
        assert CodeTaken(rows, base, a);
      }
      SubsetIsSmaller(Tried(base, 999), Codes(rows));
      FewCodes(rows);
    }
  }
}
