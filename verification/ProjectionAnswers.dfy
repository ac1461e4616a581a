/** What branch events and managers' requests do to the warehouses, row by row: what an event switches
    off, promotes or creates, and when a request is accepted and what it leaves. */
module ProjectionAnswers {
  import opened Decimals
  import opened Texts
  import opened BranchProjection
  import Arith
  import Lex

  // ---- events

  /** An event older than the row does nothing; any other writes the row, whole, and no other row. */
  lemma EventProjects(s: State, b: Branch, world: World)
    ensures (b.id in s.projections && b.updatedAt < s.projections[b.id].sourceUpdatedAt) ==> Applied(s, b, world) == Some(s)
    ensures !(b.id in s.projections && b.updatedAt < s.projections[b.id].sourceUpdatedAt) && Applied(s, b, world).Some? ==>
              var after := Applied(s, b, world).value.projections;
              && b.id in after && after - {b.id} == s.projections - {b.id}
              && after[b.id].code == b.code && after[b.id].name == b.name && after[b.id].isWarehouse == b.isWarehouse
              && after[b.id].status == b.status && after[b.id].sourceUpdatedAt == b.updatedAt
  {
    hide Ensured, Emptied;
  }

  /** A branch that is not active loses exactly its own live warehouses that hold nothing. */
  lemma InactiveEmpties(s: State, b: Branch, world: World)
    requires !Stale(s, b) && b.status != "active"
    ensures Applied(s, b, world).Some?
    ensures var rows, after := s.warehouses, Applied(s, b, world).value.warehouses;
            && |after| == |rows|
            && forall i :: 0 <= i < |rows| ==>
                 after[i] == rows[i].(active := rows[i].active && (!Ours(rows[i], b.id) || rows[i].id in world.holding))
  {
  }

  /** The chosen row: the default, or else a live one, or else any of the branch; among equals the oldest,
      and then the one with the least id. */
  ghost predicate Best(rows: seq<Warehouse>, branchId: string, k: nat) {
    && k < |rows| && Ours(rows[k], branchId)
    && forall i :: 0 <= i < |rows| && Ours(rows[i], branchId) ==>
         && (rows[i].isDefault ==> rows[k].isDefault)
         && (rows[i].isDefault == rows[k].isDefault && rows[i].active ==> rows[k].active)
         && (rows[i].isDefault == rows[k].isDefault && rows[i].active == rows[k].active ==>
               && rows[k].createdAt <= rows[i].createdAt
               && (rows[k].createdAt == rows[i].createdAt ==> !Lex.Less(rows[i].id, rows[k].id)))
  }

  /** An active branch that has warehouses: the best of them is made its live default, unless it is the
      default already and either live or switched off while the branch was active. */
  lemma ActivePromotes(s: State, b: Branch, world: World) returns (k: nat)
    requires Inv(s) && !Stale(s, b) && b.status == "active" && HasOurs(s.warehouses, b.id)
    ensures Best(s.warehouses, b.id, k) && Applied(s, b, world).Some?
    ensures var rows, after := s.warehouses, Applied(s, b, world).value.warehouses;
            var keep := rows[k].isDefault && (rows[k].active || ActiveBranch(s, b.id));
            && |after| == |rows| && (forall i :: 0 <= i < |rows| && i != k ==> after[i] == rows[i])
            && after[k] == if keep then rows[k] else rows[k].(isDefault := true, active := true)
  {
    hide First, OneDefault, HasLiveDefault, Candidate, FreeAttempt;
    FirstIsFirst(s.warehouses, b.id);
    k := First(s.warehouses, b.id).value;
  }

  /** An active branch without any: it gets one named after it, under the first code that is free, and this
      fails only when all 999 codes are taken or the random id is. */
  lemma ActiveCreates(s: State, b: Branch, world: World) returns (attempt: nat)
    requires !Stale(s, b) && b.status == "active" && !HasOurs(s.warehouses, b.id)
    ensures 1 <= attempt <= ATTEMPTS
    ensures var base := CodeFromBranch(b.code, world.upper);
            && (forall a :: 1 <= a < attempt ==> Taken(s.warehouses, Candidate(base, a)))
            && (attempt < ATTEMPTS ==> !Taken(s.warehouses, Candidate(base, attempt)))
            && (Applied(s, b, world).Some? <==> attempt < ATTEMPTS && !IdTaken(s.warehouses, world.newId))
            && (Applied(s, b, world).Some? ==>
                  var rows, after := s.warehouses, Applied(s, b, world).value.warehouses;
                  && |after| == |rows| + 1 && after[..|rows|] == rows
                  && var w := after[|rows|];
                     && w.id == world.newId && w.branchId == Some(b.id) && w.kind.BranchKind? && w.isDefault && w.active
                     && w.code == Candidate(base, attempt) && w.createdAt == world.now
                     && w.name <= b.name && |w.name| == Arith.Min(|b.name|, 120))
  {
    hide First, Candidate, FreeAttempt, CodeFromBranch;
    var base := CodeFromBranch(b.code, world.upper);
    FirstIsFirst(s.warehouses, b.id);
    FreeAttemptIsFirst(s.warehouses, base, 1);
    var found := FreeAttempt(s.warehouses, base, 1);
    attempt := if found.Some? then found.value else ATTEMPTS;
    forall a | 1 <= a < attempt
      ensures Taken(s.warehouses, Candidate(base, a))
    {
      assert CodeTaken(s.warehouses, base, a);
    }
  }

  // ---- codes

  /** A candidate is as much of the base as fits in 32 characters, before its suffix if it has one. */
  lemma CandidateIs(base: string, attempt: nat)
    requires attempt < ATTEMPTS
    ensures var suffix := if attempt <= 1 then "" else "-" + Print(attempt);
            var r := Candidate(base, attempt);
            && |r| == Arith.Min(|base| + |suffix|, 32) && |suffix| <= |r|
            && r[|r| - |suffix|..] == suffix && r[..|r| - |suffix|] <= base
  {
    hide Print;
    assert Pow10(3) == 1000;
    PrintWidth(attempt, 3);
  }

  predicate NoSpace(s: string) { forall i :: 0 <= i < |s| ==> !IsSpace(s[i]) }

  /** Words and the white space between them: the words stay, and each run becomes one dash. */
  lemma {:induction false} DashesIs(word: string, gap: string, rest: string)
    requires NoSpace(word) && AllSpace(gap) && gap != "" && (rest != "" ==> !IsSpace(rest[0]))
    ensures Dashes(word + gap + rest, false) == word + "-" + Dashes(rest, false)
    ensures Dashes(word, false) == word
  {
    var s := word + gap + rest;
    if word == "" {
      assert s[0] == gap[0] && s[1..] == gap[1..] + rest;
      DashesSkip(gap[1..], rest);
    } else {
      assert s[0] == word[0] && s[1..] == word[1..] + gap + rest;
      assert word == [word[0]] + word[1..];
      DashesIs(word[1..], gap, rest);
    }
  }

  lemma {:induction false} DashesSkip(gap: string, rest: string)
    requires AllSpace(gap) && (rest != "" ==> !IsSpace(rest[0]))
    ensures Dashes(gap + rest, true) == Dashes(rest, false)
  {
    if gap == "" {
      assert gap + rest == rest;
    } else {
      assert (gap + rest)[0] == gap[0] && (gap + rest)[1..] == gap[1..] + rest;
      DashesSkip(gap[1..], rest);
    }
  }

  /** Cleaning keeps the characters that a code may hold, as often as they occur and in their order, and
      drops the others. */
  lemma {:induction false} CleaningIs(s: string, t: string)
    ensures OnlyCodeChars(s + t) == OnlyCodeChars(s) + OnlyCodeChars(t)
  {
    hide IsCodeChar, AllCodeChars;
    if s == "" {
      assert s + t == t;
    } else {
      assert (s + t)[0] == s[0] && (s + t)[1..] == s[1..] + t;
      CleaningIs(s[1..], t);
    }
  }

  lemma {:induction false} CleaningKeeps(s: string)
    ensures AllCodeChars(s) ==> OnlyCodeChars(s) == s
    ensures (forall i :: 0 <= i < |s| ==> !IsCodeChar(s[i])) ==> OnlyCodeChars(s) == ""
  {
    hide IsCodeChar;
    if s != "" {
      assert s == [s[0]] + s[1..];
      CleaningKeeps(s[1..]);
    }
  }

  /** A branch code that is a warehouse code in upper case is taken as it is; one that does not begin with
      a letter or digit, once cleaned, gets two letters in front. */
  lemma CodeOfBranchIs(code: string, upper: string -> string)
    ensures var text, r := upper(Trim(code)), CodeFromBranch(code, upper);
            && (IsCode(text) ==> r == text)
            && (AllCodeChars(text) && !IsCode(text) ==> r == "WH" + text)
            && ((forall i :: 0 <= i < |text| ==> !IsCodeChar(text[i]) && !IsSpace(text[i])) ==> r == "WH")
            && (text != "" && IsSpace(text[0]) ==> "WH-" <= r)
  {
    var text := upper(Trim(code));
    CleaningKeeps(text);
    if NoSpace(text) {
      DashesIs(text, " ", "");
    }
    assert AllCodeChars(text) ==> NoSpace(text);
  }

  // ---- requests

  /** When a manager may create a warehouse, and what it becomes: the branch's default if it is the first or
      asked to be, in which case the others stop being it. */
  lemma CreateIs(checked: State, s: State, dto: NewWarehouse, world: World)
    ensures var rows, made := s.warehouses, Made(checked, s, dto, world);
            var ofBranch := dto.kind == BranchKind;
            && (made.Some? <==>
                  && (if ofBranch then dto.branchId.Some? && dto.branchId.value != "" && ActiveBranch(checked, dto.branchId.value)
                      else dto.branchId == None || dto.branchId == Some(""))
                  && !Taken(rows, dto.code) && !IdTaken(rows, world.newId))
            && (made.Some? ==>
                  var after := made.value.warehouses;
                  && made.value.projections == s.projections && |after| == |rows| + 1
                  && var w := after[|rows|];
                     && w.id == world.newId && w.code == dto.code && w.name == Trim(dto.name) && w.kind == dto.kind && w.active
                     && w.createdAt == world.now && w.branchId == (if ofBranch then dto.branchId else None)
                     && (w.isDefault <==> ofBranch && (dto.isDefault == Some(true)
                                                       || forall i :: 0 <= i < |rows| ==> !Ours(rows[i], dto.branchId.value)))
                     && forall i :: 0 <= i < |rows| ==>
                          after[i] == rows[i].(isDefault := rows[i].isDefault && !(w.isDefault && Ours(rows[i], w.branchId.value))))
  {
    assert forall i :: 0 <= i < |s.warehouses| ==> !IdTaken(s.warehouses, world.newId) ==> s.warehouses[i].id != world.newId;
  }

  /** What a change that is accepted leaves behind, field by field, in its own row and in the others. */
  lemma UpdateIs(checked: State, s: State, id: string, dto: Change, world: World, k: nat)
    requires UniqueRows(s.warehouses) && k < |s.warehouses| && s.warehouses[k].id == id
    requires Written(checked, s, id, dto, world).Some?
    ensures var rows, after := s.warehouses, Written(checked, s, id, dto, world).value.warehouses;
            && Written(checked, s, id, dto, world).value.projections == s.projections && |after| == |rows|
            && var w, v := rows[k], after[k];
               && v.id == id && v.code == w.code && v.createdAt == w.createdAt
               && v.name == (if dto.name.Some? then Trim(dto.name.value) else w.name)
               && v.kind == (if dto.kind.Some? then dto.kind.value else w.kind)
               && v.branchId == (if dto.branchId.Some? then dto.branchId.value else w.branchId)
               && v.active == (if dto.active.Some? then dto.active.value else w.active)
               && (v.isDefault ==> v.active && v.kind == BranchKind && v.branchId.Some?)
               && (v.kind == BranchKind && dto.isDefault == Some(true) ==> v.isDefault)
               && (v.kind == BranchKind && v.branchId == w.branchId && w.isDefault && v.active ==> v.isDefault)
               && (v.kind == w.kind && v.branchId == w.branchId && dto.isDefault != Some(true) && !w.isDefault ==> !v.isDefault)
               && forall i :: 0 <= i < |rows| && i != k ==>
                    after[i] == rows[i].(isDefault := rows[i].isDefault && !(v.isDefault && Ours(rows[i], v.branchId.value)))
  {
    FoundAt(s.warehouses, id, k);
  }

  lemma FoundAt(rows: seq<Warehouse>, id: string, k: nat)
    requires UniqueRows(rows) && k < |rows| && rows[k].id == id
    ensures Find(rows, id) == Some(k)
  {
    var f := Find(rows, id);
    assert f.Some?;
  }

  ghost predicate DefaultElsewhere(rows: seq<Warehouse>, branchId: string, k: nat) {
    exists i :: 0 <= i < |rows| && i != k && Ours(rows[i], branchId) && rows[i].isDefault
  }

  /** A move into a branch makes the row its default exactly when asked, or when the branch has no other
      and the row is live. */
  lemma MoveIs(checked: State, s: State, id: string, dto: Change, world: World, k: nat)
    requires UniqueRows(s.warehouses) && k < |s.warehouses| && s.warehouses[k].id == id
    requires Written(checked, s, id, dto, world).Some?
    ensures var rows, after := s.warehouses, Written(checked, s, id, dto, world).value.warehouses;
            var w, v := rows[k], after[k];
            var moves := v.kind == BranchKind && (v.kind != w.kind || v.branchId != w.branchId);
            && (moves ==> id !in world.blocked && ActiveBranch(checked, v.branchId.value))
            && (moves && (w.isDefault ==> w.kind == BranchKind) ==>
                  (v.isDefault <==> dto.isDefault == Some(true) || (v.active && !DefaultElsewhere(rows, v.branchId.value, k))))
  {
    FoundAt(s.warehouses, id, k);
    var rows := s.warehouses;
    assert forall i :: 0 <= i < |rows| ==> (i == k <==> rows[i].id == id);
    var b := Changed(rows[k], dto).branchId;
    assert b.Some? ==> (OtherDefault(rows, b.value, id) <==> DefaultElsewhere(rows, b.value, k));
  }

  /** A change that touches neither kind nor branch nor the default is refused exactly when it switches off
      a warehouse in use, or the default of an active branch. */
  lemma PlainChangeIff(s: State, id: string, dto: Change, world: World, k: nat)
    requires UniqueRows(s.warehouses) && k < |s.warehouses| && s.warehouses[k].id == id
    requires dto.kind.None? && dto.branchId.None? && dto.isDefault.None?
    requires BranchFits(s.warehouses[k].kind, s.warehouses[k].branchId)
    ensures var w := s.warehouses[k];
            Updated(s, id, dto, world).None?
            <==> dto.active == Some(false) && w.active
                 && (id in world.busy || (w.isDefault && w.kind == BranchKind && ActiveBranch(s, w.branchId.value)))
  {
    FoundAt(s.warehouses, id, k);
  }

  /** Asked to be the default, a warehouse of a branch becomes it exactly when it is live; asked not to be,
      it is refused exactly when it is the default. */
  lemma SetDefaultIff(s: State, id: string, world: World, k: nat)
    requires UniqueRows(s.warehouses) && k < |s.warehouses| && s.warehouses[k].id == id
    requires s.warehouses[k].kind == BranchKind && BranchFits(BranchKind, s.warehouses[k].branchId)
    ensures Updated(s, id, Change(None, None, None, Some(true), None), world).Some? <==> s.warehouses[k].active
    ensures Updated(s, id, Change(None, None, None, Some(false), None), world).Some? <==> !s.warehouses[k].isDefault
  {
    FoundAt(s.warehouses, id, k);
  }

  /** Another kind or branch is refused exactly when the warehouse belongs to a branch it would leave for
      none, is in use or a default, would not fit, or would enter a branch that is not active. */
  lemma MoveIff(s: State, id: string, kind: Kind, branchId: Option<string>, world: World, k: nat)
    requires UniqueRows(s.warehouses) && k < |s.warehouses| && s.warehouses[k].id == id
    requires kind != s.warehouses[k].kind || branchId != s.warehouses[k].branchId
    ensures var w := s.warehouses[k];
            var blank := branchId == None || branchId == Some("");
            Updated(s, id, Change(None, Some(kind), Some(branchId), None, None), world).Some?
            <==> && id !in world.blocked && (w.kind == BranchKind ==> kind == BranchKind && !w.isDefault)
                 && (if kind == BranchKind then !blank && ActiveBranch(s, branchId.value) else blank)
  {
    FoundAt(s.warehouses, id, k);
  }

  lemma UnknownRowIsRefused(s: State, id: string, dto: Change, world: World)
    requires forall i :: 0 <= i < |s.warehouses| ==> s.warehouses[i].id != id
    ensures Updated(s, id, dto, world).None?
  {
  }
}
