/** What every registration keeps true of the table, and what that means
    for the spillover search under each insert mode. */
module Invariants {
  import opened Wrappers
  import opened Members
  import opened Requests
  import opened Placement
  import opened Counts
  import opened Registration

  /** Links stay inside the table and referrals point backwards. */
  ghost predicate WellFormed(t: Table) {
    LinksValid(t) && ReferralsEarlier(t)
  }

  /** Old rows' links after an attach: only `p`'s `side` link is new. */
  lemma LinkAfterAttach(t: Table, t': Table, p: Id, side: Side, i: nat, d: Side)
    requires Attached(t, t', p, side) && i < |t|
    ensures t'[i].Child(d) == if i == p - 1 && d == side then Some(NextId(t)) else t[i].Child(d)
  {
  }

  /** Old rows keep their sponsor codes. */
  lemma SponsorCodeAfterAttach(t: Table, t': Table, p: Id, side: Side, i: nat)
    requires Attached(t, t', p, side) && i < |t|
    ensures t'[i].sponsorCode == t[i].sponsorCode
  {
  }

  /** There are only two sides. */
  lemma SidesAreTwo(d: Side, side: Side)
    ensures d == side || d == side.Opposite()
  {
  }

  /** An attach keeps every link inside the table. */
  lemma AttachKeepsLinksValid(t: Table, t': Table, req: Request, code: string, hashed: string, side: Side, p: Id, mode: InsertMode)
    requires AllPresent(req)
    requires LinksValid(t)
    requires Attached(t, t', p, side) && HoldsNewRow(t, t', req, code, hashed, side, p, mode)
    ensures LinksValid(t')
  {
    forall i, d: Side | 0 <= i < |t'| && t'[i].Child(d).Some?
      ensures Valid(t', t'[i].Child(d).value)
    {
      if i < |t| {
        LinkAfterAttach(t, t', p, side, i, d);
      } else {
        SidesAreTwo(d, side);
      }
    }
  }

  /** An old row resolves its sponsor as before. */
  lemma OldReferralAfterAttach(t: Table, t': Table, p: Id, side: Side, id: Id)
    requires Attached(t, t', p, side) && Valid(t, id)
    requires SponsorOf(t, id).Some?
    ensures Row(t', id).sponsorCode == Row(t, id).sponsorCode
    ensures SponsorOf(t', id) == SponsorOf(t, id)
  {
  }

  /** The new row resolves its sponsor to the row the request named. */
  lemma NewReferralAfterAttach(t: Table, t': Table, req: Request, code: string, hashed: string, side: Side, p: Id, mode: InsertMode)
    requires AllPresent(req) && FindByCode(t, req.sponsorCode.value).Some?
    requires Attached(t, t', p, side) && HoldsNewRow(t, t', req, code, hashed, side, p, mode)
    ensures SponsorOf(t', NextId(t)) == FindByCode(t, req.sponsorCode.value)
  {
  }

  /** An attach whose new row names a resolvable sponsor keeps referrals
      pointing backwards. */
  lemma AttachKeepsReferrals(t: Table, t': Table, req: Request, code: string, hashed: string, side: Side, p: Id, mode: InsertMode)
    requires AllPresent(req)
    requires ReferralsEarlier(t) && FindByCode(t, req.sponsorCode.value).Some?
    requires Attached(t, t', p, side) && HoldsNewRow(t, t', req, code, hashed, side, p, mode)
    ensures ReferralsEarlier(t')
  {
    forall id: Id | Valid(t', id) && Truthy(Row(t', id).sponsorCode)
      ensures SponsorOf(t', id).Some? && SponsorOf(t', id).value < id
    {
      if id <= |t| {
        SponsorCodeAfterAttach(t, t', p, side, id - 1);
        assert Truthy(Row(t, id).sponsorCode);
        assert SponsorOf(t, id).Some? && SponsorOf(t, id).value < id;
        OldReferralAfterAttach(t, t', p, side, id);
      } else {
        assert id == NextId(t);
        NewReferralAfterAttach(t, t', req, code, hashed, side, p, mode);
      }
    }
  }

  /** A registration on a table whose links all name rows never reaches the
      source's TypeError. */
  lemma RegisterNeverCrashes(t: Table, req: Request, code: string, hashed: string, fuel: nat, mode: InsertMode)
    requires LinksValid(t)
    ensures Register(t, req, code, hashed, fuel, mode).result != Failure(Crashed)
  {
    if Validate(req).Success? && FindByCode(t, req.sponsorCode.value).Some? {
      SearchStaysInside(t, FindByCode(t, req.sponsorCode.value).value, Validate(req).value, fuel);
    }
  }

  /** Every registration, in either insert mode, keeps the table well formed. */
  lemma RegisterKeepsWellFormed(t: Table, req: Request, code: string, hashed: string, fuel: nat, mode: InsertMode)
    requires WellFormed(t)
    ensures WellFormed(Register(t, req, code, hashed, fuel, mode).table)
  {
    var o := Register(t, req, code, hashed, fuel, mode);
    if o.result.Success? {
      var side := Validate(req).value;
      var p :| Attached(t, o.table, p, side) && HoldsNewRow(t, o.table, req, code, hashed, side, p, mode);
      AttachKeepsLinksValid(t, o.table, req, code, hashed, side, p, mode);
      AttachKeepsReferrals(t, o.table, req, code, hashed, side, p, mode);
    }
  }

  /** On a well-formed table the count propagation a registration starts
      ends by itself: the table size is enough fuel, and every sponsor code
      the walk meets names a row. */
  lemma RegistrationWalkEnds(t: Table, req: Request, code: string, hashed: string, side: Side, p: Id, mode: InsertMode)
    requires AllPresent(req) && FindByCode(t, req.sponsorCode.value).Some?
    requires WellFormed(t)
    requires Valid(t, p) && Row(t, p).Child(side).None?
    ensures var attached := Attach(t, NewRow(req, code, hashed, side, p, mode), p, side);
      UpdateCounts(attached, p, |attached|).stop in {NoSponsor, NotAChild}
  {
    var attached := Attach(t, NewRow(req, code, hashed, side, p, mode), p, side);
    AttachShape(t, req, code, hashed, side, p, mode);
    AttachKeepsReferrals(t, attached, req, code, hashed, side, p, mode);
  }

  /** A propagation from the placement node after an attach on a
      well-formed table leaves the new row's counters at zero. */
  lemma AttachedRowAtZero(t: Table, t': Table, req: Request, code: string, hashed: string, side: Side, p: Id, mode: InsertMode)
    requires AllPresent(req) && FindByCode(t, req.sponsorCode.value).Some?
    requires WellFormed(t)
    requires Attached(t, t', p, side)
    requires PropagatedFrom(Attach(t, NewRow(req, code, hashed, side, p, mode), p, side), t', p)
    ensures Valid(t', NextId(t)) && Row(t', NextId(t)).Count(Left) == 0 && Row(t', NextId(t)).Count(Right) == 0
  {
    var a := Attach(t, NewRow(req, code, hashed, side, p, mode), p, side);
    AttachShape(t, req, code, hashed, side, p, mode);
    AttachKeepsReferrals(t, a, req, code, hashed, side, p, mode);
    var bumps :| Climbs(a, p, bumps) && RaisedBy(a, t', bumps);
    RaisedSparesLater(a, t', p, bumps, NextId(t));
  }

  /** On a well-formed table a new member starts with both counters at zero:
      the INSERT leaves them at their default, and the propagation from the
      placement node climbs only to earlier rows. */
  lemma NewMemberStartsAtZero(t: Table, req: Request, code: string, hashed: string, fuel: nat, mode: InsertMode)
    requires WellFormed(t)
    ensures var o := Register(t, req, code, hashed, fuel, mode);
      o.result.Success? ==>
        Valid(o.table, NextId(t)) && Row(o.table, NextId(t)).Count(Left) == 0 && Row(o.table, NextId(t)).Count(Right) == 0
  {
    var o := Register(t, req, code, hashed, fuel, mode);
    if o.result.Success? {
      var side := Validate(req).value;
      var p :| && Attached(t, o.table, p, side)
               && PropagatedFrom(Attach(t, NewRow(req, code, hashed, side, p, mode), p, side), o.table, p);
      AttachedRowAtZero(t, o.table, req, code, hashed, side, p, mode);
    }
  }

  /** The source's insert keeps every link answered by its target's same-side
      link: after the first child on a side, parent and child point at each
      other. */
  lemma AttachKeepsMirrored(t: Table, t': Table, req: Request, code: string, hashed: string, side: Side, p: Id)
    requires AllPresent(req)
    requires Mirrored(t)
    requires Attached(t, t', p, side) && HoldsNewRow(t, t', req, code, hashed, side, p, AsWritten)
    ensures Mirrored(t')
  {
    var n := NextId(t);
    forall i, d: Side | 0 <= i < |t'| && t'[i].Child(d).Some?
      ensures Valid(t', t'[i].Child(d).value) && Row(t', t'[i].Child(d).value).Child(d) == Some(i + 1)
    {
      var c := t'[i].Child(d).value;
      if i < |t| {
        LinkAfterAttach(t, t', p, side, i, d);
        if i == p - 1 && d == side {
          assert c == n;
        } else {
          assert t[i].Child(d) == Some(c);
          assert Row(t, c).Child(d) == Some(i + 1);
          var j: nat := (c as int) - 1;
          LinkAfterAttach(t, t', p, side, j, d);
        }
      } else {
        SidesAreTwo(d, side);
        assert d == side && c == p;
        LinkAfterAttach(t, t', p, side, p - 1, side);
      }
    }
  }

  /** Registrations under the source's insert keep the table mirrored. */
  lemma AsWrittenKeepsMirrored(t: Table, req: Request, code: string, hashed: string, fuel: nat)
    requires Mirrored(t)
    ensures Mirrored(Register(t, req, code, hashed, fuel, AsWritten).table)
  {
    var o := Register(t, req, code, hashed, fuel, AsWritten);
    if o.result.Success? {
      var side := Validate(req).value;
      var p :| Attached(t, o.table, p, side) && HoldsNewRow(t, o.table, req, code, hashed, side, p, AsWritten);
      AttachKeepsMirrored(t, o.table, req, code, hashed, side, p);
    }
  }

  /** An attach without the same-side back link keeps every link pointing at
      a later row. */
  lemma AttachKeepsChildrenLater(t: Table, t': Table, req: Request, code: string, hashed: string, side: Side, p: Id)
    requires AllPresent(req)
    requires ChildrenLater(t)
    requires Attached(t, t', p, side) && HoldsNewRow(t, t', req, code, hashed, side, p, Intended)
    ensures ChildrenLater(t')
  {
    forall i, d: Side | 0 <= i < |t'| && t'[i].Child(d).Some?
      ensures i + 1 < t'[i].Child(d).value <= |t'|
    {
      if i < |t| {
        LinkAfterAttach(t, t', p, side, i, d);
      } else {
        SidesAreTwo(d, side);
      }
    }
  }

  /** Registrations under the intended insert keep every link pointing forward. */
  lemma IntendedKeepsChildrenLater(t: Table, req: Request, code: string, hashed: string, fuel: nat)
    requires ChildrenLater(t)
    ensures ChildrenLater(Register(t, req, code, hashed, fuel, Intended).table)
  {
    var o := Register(t, req, code, hashed, fuel, Intended);
    if o.result.Success? {
      var side := Validate(req).value;
      var p :| Attached(t, o.table, p, side) && HoldsNewRow(t, o.table, req, code, hashed, side, p, Intended);
      AttachKeepsChildrenLater(t, o.table, req, code, hashed, side, p);
    }
  }

  /** With the source's insert, a registration whose sponsor already has a
      child on the requested side never gets an answer, however long the
      search runs: spillover never places anyone. */
  lemma AsWrittenSpilloverHangs(t: Table, req: Request, code: string, hashed: string, fuel: nat, sponsor: Id, side: Side)
    requires Mirrored(t)
    requires Validate(req) == Success(side)
    requires FindByCode(t, req.sponsorCode.value) == Some(sponsor)
    requires Row(t, sponsor).Child(side).Some?
    ensures Register(t, req, code, hashed, fuel, AsWritten) == Outcome(Failure(Hangs), t)
  {
    MirroredSpineSpins(t, sponsor, side, fuel);
  }

  /** With the intended insert, a valid registration with a known sponsor and a
      fresh code and email always lands once the search may visit every row. */
  lemma IntendedAlwaysPlaces(t: Table, req: Request, code: string, hashed: string, fuel: nat)
    requires ChildrenLater(t)
    requires Validate(req).Success?
    requires FindByCode(t, req.sponsorCode.value).Some?
    requires !Conflicts(t, code, req.email.value)
    requires fuel >= |t|
    ensures Register(t, req, code, hashed, fuel, Intended).result == Success(code)
  {
    ForwardSpineLands(t, FindByCode(t, req.sponsorCode.value).value, Validate(req).value, fuel);
  }
}
