/** The register handler (backend/index.js:55-104) as one atomic step:
    validate, resolve the sponsor, search for a slot, INSERT, link, count. */
module Registration {
  import opened Wrappers
  import opened Members
  import opened Requests
  import opened Placement
  import opened Counts

  /** How the INSERT fills the new row's links. `AsWritten` also stores the
      placement id in the new row's own same-side column, as the source's
      `${side}_member_id` column list does; `Intended` leaves both links empty. */
  datatype InsertMode = AsWritten | Intended

  /** The response (`member_code` on success) and the table afterwards. */
  datatype Outcome = Outcome(result: Result<string, RegisterError>, table: Table)

  /** The row the INSERT writes for a member placed under `p` on `side`. */
  function NewRow(req: Request, code: string, hashed: string, side: Side, p: Id, mode: InsertMode): Member
    requires AllPresent(req)
  {
    var link := if mode == AsWritten then Some(p) else None;
    Member(code, req.name.value, req.email.value, req.mobile.value, hashed, req.sponsorCode,
           if side == Left then link else None,
           if side == Right then link else None,
           0, 0)
  }

  /** The INSERT breaks a UNIQUE column (`member_code` or `email`). */
  predicate Conflicts(t: Table, code: string, email: string) {
    FindByCode(t, code).Some? || exists i :: 0 <= i < |t| && t[i].email == email
  }

  /** INSERT the row, then point `p`'s `side` link at it. */
  function Attach(t: Table, row: Member, p: Id, side: Side): (r: Table)
    requires Valid(t, p)
    ensures |r| == |t| + 1
  {
    SetChild(t + [row], p, side, NextId(t))
  }

  /** `t'` is `t` plus a new last row hung under `p` on `side`: `p`'s slot
      was free and now names the new row, and no other link of an old row
      changed; counters may only have gone up. */
  predicate Attached(t: Table, t': Table, p: Id, side: Side) {
    && |t'| == |t| + 1
    && Valid(t, p)
    && Row(t, p).Child(side).None?
    && Row(t', p).Child(side) == Some(NextId(t))
    && forall i :: 0 <= i < |t| ==>
         RowGrows(if i == p - 1 then t[i].WithChild(side, Some(NextId(t))) else t[i], t'[i])
  }

  /** The new row's fields as the INSERT wrote them, counters aside. */
  predicate HoldsNewRow(t: Table, t': Table, req: Request, code: string, hashed: string, side: Side, p: Id, mode: InsertMode)
    requires AllPresent(req)
  {
    && |t'| == |t| + 1
    && Row(t', NextId(t)).Child(side) == (if mode == AsWritten then Some(p) else None)
    && Row(t', NextId(t)).Child(side.Opposite()).None?
    && Row(t', NextId(t)).code == code
    && Row(t', NextId(t)).sponsorCode == req.sponsorCode
    && Row(t', NextId(t)).email == req.email.value
    && Row(t', NextId(t)).name == req.name.value
    && Row(t', NextId(t)).mobile == req.mobile.value
    && Row(t', NextId(t)).password == hashed
  }

  /** Right after the INSERT and the link UPDATE the table is attached and
      holds the new row. */
  lemma AttachShape(t: Table, req: Request, code: string, hashed: string, side: Side, p: Id, mode: InsertMode)
    requires AllPresent(req)
    requires Valid(t, p) && Row(t, p).Child(side).None?
    ensures Attached(t, Attach(t, NewRow(req, code, hashed, side, p, mode), p, side), p, side)
    ensures HoldsNewRow(t, Attach(t, NewRow(req, code, hashed, side, p, mode), p, side), req, code, hashed, side, p, mode)
  {
  }

  /** `t'` is `a` after a count propagation started at `p`: each counter
      rose by the increments naming it, and those climb the referral chain
      from `p`. */
  ghost predicate PropagatedFrom(a: Table, t': Table, p: Id) {
    exists bumps: seq<Bump> :: Climbs(a, p, bumps) && RaisedBy(a, t', bumps)
  }

  /** The table after the INSERT, the link UPDATE and count propagation from
      the placement node. */
  function Linked(t: Table, req: Request, code: string, hashed: string, side: Side, p: Id, mode: InsertMode): Table
    requires AllPresent(req) && Valid(t, p)
  {
    var attached := Attach(t, NewRow(req, code, hashed, side, p, mode), p, side);
    UpdateCounts(attached, p, |attached|).table
  }

  lemma LinkedShape(t: Table, req: Request, code: string, hashed: string, side: Side, p: Id, mode: InsertMode)
    requires AllPresent(req)
    requires Valid(t, p) && Row(t, p).Child(side).None?
    ensures Attached(t, Linked(t, req, code, hashed, side, p, mode), p, side)
    ensures HoldsNewRow(t, Linked(t, req, code, hashed, side, p, mode), req, code, hashed, side, p, mode)
    ensures PropagatedFrom(Attach(t, NewRow(req, code, hashed, side, p, mode), p, side),
                           Linked(t, req, code, hashed, side, p, mode), p)
  {
    var a := Attach(t, NewRow(req, code, hashed, side, p, mode), p, side);
    var w := UpdateCounts(a, p, |a|);
    assert Climbs(a, p, w.bumps) && RaisedBy(a, w.table, w.bumps);
  }

  /** From a found slot on: the INSERT (refused on a UNIQUE clash), the link
      UPDATE, then count propagation starting at the placement node. */
  function Commit(t: Table, req: Request, code: string, hashed: string, side: Side, p: Id, mode: InsertMode): (o: Outcome)
    requires AllPresent(req)
    requires Valid(t, p) && Row(t, p).Child(side).None?
    ensures o.result.Failure? <==> Conflicts(t, code, req.email.value)
    ensures o.result.Failure? ==> o == Outcome(Failure(CreateFailed), t)
    ensures o.result.Success? ==>
      && o.result.value == code
      && Attached(t, o.table, p, side)
      && HoldsNewRow(t, o.table, req, code, hashed, side, p, mode)
      && PropagatedFrom(Attach(t, NewRow(req, code, hashed, side, p, mode), p, side), o.table, p)
  {
    if Conflicts(t, code, req.email.value) then Outcome(Failure(CreateFailed), t)
    else
      LinkedShape(t, req, code, hashed, side, p, mode);
      Outcome(Success(code), Linked(t, req, code, hashed, side, p, mode))
  }

  /** One registration. `code` stands for `'MEM' + Date.now()`, `hashed` for
      the bcrypt hash of the password, `fuel` bounds the spillover search. */
  function Register(t: Table, req: Request, code: string, hashed: string, fuel: nat, mode: InsertMode): (o: Outcome)
    ensures o.result.Failure? ==> o.table == t
    ensures Validate(req).Failure? ==> o.result == Failure(Validate(req).error)
    ensures Validate(req).Success? && FindByCode(t, req.sponsorCode.value).None? ==>
      o.result == Failure(InvalidSponsor)
    ensures Validate(req).Success? && FindByCode(t, req.sponsorCode.value).Some? ==>
      var found := FindPlacement(t, FindByCode(t, req.sponsorCode.value).value, Validate(req).value, fuel);
      && (o.result == Failure(Hangs) <==> found.Spinning?)
      && (o.result == Failure(Crashed) <==> found.Missing?)
      && (o.result == Failure(CreateFailed) <==> found.Found? && Conflicts(t, code, req.email.value))
      && (o.result == Success(code) <==> found.Found? && !Conflicts(t, code, req.email.value))
    ensures o.result.Success? ==>
      && Validate(req).Success?
      && FindByCode(t, req.sponsorCode.value).Some?
      && o.result.value == code
      && !Conflicts(t, code, req.email.value)
      && exists p ::
           && FindPlacement(t, FindByCode(t, req.sponsorCode.value).value, Validate(req).value, fuel)
                == Found(p, Validate(req).value)
           && Attached(t, o.table, p, Validate(req).value)
           && HoldsNewRow(t, o.table, req, code, hashed, Validate(req).value, p, mode)
           && PropagatedFrom(Attach(t, NewRow(req, code, hashed, Validate(req).value, p, mode), p, Validate(req).value),
                             o.table, p)
  {
    match Validate(req)
    case Failure(e) => Outcome(Failure(e), t)
    case Success(side) =>
      match FindByCode(t, req.sponsorCode.value)
      case None => Outcome(Failure(InvalidSponsor), t)
      case Some(sponsor) =>
        match FindPlacement(t, sponsor, side, fuel)
        case Spinning => Outcome(Failure(Hangs), t)
        case Missing(_) => Outcome(Failure(Crashed), t)
        case Found(p, _) =>
          var o := Commit(t, req, code, hashed, side, p, mode);
          assert o.result.Success? ==>
            && Attached(t, o.table, p, side)
            && HoldsNewRow(t, o.table, req, code, hashed, side, p, mode)
            && PropagatedFrom(Attach(t, NewRow(req, code, hashed, side, p, mode), p, side), o.table, p);
          o
  }
}
