/** Count propagation `updateCounts` (backend/index.js:130-152): a walk up
    the referral chain (`sponsor_code`), not up the tree links. */
module Counts {
  import opened Wrappers
  import opened Members

  /** Why a walk ended. All of them are silent in the source. */
  datatype Stop =
    | NoSponsor       // the current row's sponsor_code is NULL or empty
    | UnknownSponsor  // no row carries that code
    | NotAChild       // the current row is neither child of its sponsor
    | MissingRow      // the current id names no row (the source would throw)
    | FuelSpent       // the walk had not ended when the fuel ran out

  /** One hop: either the updated table, the sponsor reached and the side
      incremented, or the reason the walk ends here. */
  datatype Hop = Stepped(table: Table, sponsor: Id, side: Side) | Stopped(reason: Stop)

  /** `member` sits directly under `q` on `side`, with the left link checked first. */
  predicate ChildSide(q: Member, member: Id, side: Side) {
    if side == Left then q.left == Some(member)
    else q.left != Some(member) && q.right == Some(member)
  }

  /** The row that `member`'s sponsor code resolves to, if it has one. */
  function SponsorOf(t: Table, member: Id): Option<Id>
    requires Valid(t, member)
  {
    var code := Row(t, member).sponsorCode;
    if Truthy(code) then FindByCode(t, code.value) else None
  }

  /** `t'` is `t` with one counter of row `q`, the `side` one, raised by one. */
  predicate OneBump(t: Table, t': Table, q: Id, side: Side) {
    && |t'| == |t|
    && Valid(t, q)
    && Row(t', q).Count(side) == Row(t, q).Count(side) + 1
    && Row(t', q).Count(side.Opposite()) == Row(t, q).Count(side.Opposite())
    && Row(t', q).Shape() == Row(t, q).Shape()
    && (forall i :: 0 <= i < |t| && i != q - 1 ==> t'[i] == t[i])
  }

  /** One round of the three reads and the conditional UPDATE. */
  function Step(t: Table, member: Id): (r: Hop)
    requires Valid(t, member)
    ensures r == Stopped(NoSponsor) <==> !Truthy(Row(t, member).sponsorCode)
    ensures r == Stopped(UnknownSponsor) <==>
      Truthy(Row(t, member).sponsorCode)
      && forall i :: 0 <= i < |t| ==> t[i].code != Row(t, member).sponsorCode.value
    ensures r == Stopped(NotAChild) <==>
      SponsorOf(t, member).Some?
      && Row(t, SponsorOf(t, member).value).left != Some(member)
      && Row(t, SponsorOf(t, member).value).right != Some(member)
    ensures r.Stopped? ==> r.reason in {NoSponsor, UnknownSponsor, NotAChild}
    ensures r.Stepped? ==>
      && Truthy(Row(t, member).sponsorCode)
      && SponsorOf(t, member) == Some(r.sponsor)
      && Valid(t, r.sponsor)
      && Row(t, r.sponsor).code == Row(t, member).sponsorCode.value
      && ChildSide(Row(t, r.sponsor), member, r.side)
      && OneBump(t, r.table, r.sponsor, r.side)
  {
    match SponsorOf(t, member)
    case None =>
      if Truthy(Row(t, member).sponsorCode) then Stopped(UnknownSponsor) else Stopped(NoSponsor)
    case Some(q) =>
      var sponsorRow := Row(t, q);
      if sponsorRow.left == Some(member) then Stepped(Increment(t, q, Left), q, Left)
      else if sponsorRow.right == Some(member) then Stepped(Increment(t, q, Right), q, Right)
      else Stopped(NotAChild)
  }

  lemma OneBumpGrows(t: Table, t': Table, q: Id, side: Side)
    requires OneBump(t, t', q, side)
    ensures Grows(t, t')
    ensures Total(t') == Total(t) + 1
  {
    assert t' == t[q - 1 := Row(t', q)];
    TotalUpdate(t, q - 1, Row(t', q));
  }

  lemma GrowsTransitive(t: Table, t': Table, t'': Table)
    requires Grows(t, t') && Grows(t', t'')
    ensures Grows(t, t'')
  {
  }

  /** One counter increment: the `side` counter of row `node`. */
  datatype Bump = Bump(node: Id, side: Side)

  /** The row the walk stands on after `bumps`: `member` before any
      increment, then the row bumped last. */
  function Top(member: Id, bumps: seq<Bump>): Id {
    if |bumps| == 0 then member else bumps[|bumps| - 1].node
  }

  /** The outcome of a whole walk: the table, the increments in the order
      they were made, and why the walk ended. */
  datatype Propagation = Propagation(table: Table, bumps: seq<Bump>, stop: Stop)

  /** `updateCounts(member)`, one fuel per hop. */
  function UpdateCounts(t: Table, member: Id, fuel: nat): (r: Propagation)
    ensures Grows(t, r.table)
    ensures Total(r.table) == Total(t) + |r.bumps|
    ensures |r.bumps| == 0 ==> r.table == t
    ensures |r.bumps| <= fuel
    ensures Valid(t, member) ==> r.stop != MissingRow
    ensures ReferralsEarlier(t) ==> r.stop != UnknownSponsor
    ensures ReferralsEarlier(t) && member <= fuel ==> r.stop != FuelSpent
    ensures Climbs(t, member, r.bumps)
    ensures RaisedBy(t, r.table, r.bumps)
    ensures r.stop == FuelSpent ==> |r.bumps| == fuel
    ensures r.stop == MissingRow ==> r.bumps == [] && !Valid(t, member)
    ensures r.stop in {NoSponsor, UnknownSponsor, NotAChild} ==>
      Valid(t, Top(member, r.bumps)) && Step(t, Top(member, r.bumps)) == Stopped(r.stop)
    decreases fuel
  {
    if fuel == 0 then Propagation(t, [], FuelSpent)
    else if !Valid(t, member) then Propagation(t, [], MissingRow)
    else
      match Step(t, member)
      case Stopped(reason) => Propagation(t, [], reason)
      case Stepped(t', q, side) =>
        OneBumpGrows(t, t', q, side);
        ForwardHop(t, t', member, q, side);
        var rest := UpdateCounts(t', q, fuel - 1);
        GrowsTransitive(t, t', rest.table);
        HopThenWalk(t, t', member, q, side, rest);
        Propagation(rest.table, [Bump(q, side)] + rest.bumps, rest.stop)
  }

  /** What the walk promises about its increments and its end carries over
      from the walk after the first hop to the whole walk. */
  lemma HopThenWalk(t: Table, t': Table, member: Id, q: Id, side: Side, rest: Propagation)
    requires Valid(t, member) && Step(t, member) == Stepped(t', q, side)
    requires Grows(t, t') && OneBump(t, t', q, side)
    requires Climbs(t', q, rest.bumps) && RaisedBy(t', rest.table, rest.bumps)
    requires rest.stop in {NoSponsor, UnknownSponsor, NotAChild} ==>
      Valid(t', Top(q, rest.bumps)) && Step(t', Top(q, rest.bumps)) == Stopped(rest.stop)
    ensures Climbs(t, member, [Bump(q, side)] + rest.bumps)
    ensures RaisedBy(t, rest.table, [Bump(q, side)] + rest.bumps)
    ensures rest.stop in {NoSponsor, UnknownSponsor, NotAChild} ==>
      && Valid(t, Top(member, [Bump(q, side)] + rest.bumps))
      && Step(t, Top(member, [Bump(q, side)] + rest.bumps)) == Stopped(rest.stop)
  {
    ClimbsCons(t, t', member, q, side, rest.bumps);
    RaisedByCons(t, t', q, side, rest.table, rest.bumps);
    assert Top(member, [Bump(q, side)] + rest.bumps) == Top(q, rest.bumps);
    StepSameOnGrow(t, t', Top(q, rest.bumps));
  }

  /** Every sponsor code resolves to an earlier row. Registration keeps
      this: a sponsor must exist before the row that names it. */
  ghost predicate ReferralsEarlier(t: Table) {
    forall id: Id :: Valid(t, id) && Truthy(Row(t, id).sponsorCode) ==>
      SponsorOf(t, id).Some? && SponsorOf(t, id).value < id
  }

  lemma GrowsKeepsSponsors(t: Table, t': Table, id: Id)
    requires Grows(t, t') && Valid(t, id)
    ensures Row(t', id).sponsorCode == Row(t, id).sponsorCode
    ensures SponsorOf(t', id) == SponsorOf(t, id)
  {
  }

  /** A hop on a table with earlier referrals moves to an earlier row and
      keeps the referrals earlier. */
  lemma ForwardHop(t: Table, t': Table, member: Id, q: Id, side: Side)
    requires Valid(t, member) && Step(t, member) == Stepped(t', q, side)
    ensures ReferralsEarlier(t) ==> q < member && ReferralsEarlier(t')
  {
    if ReferralsEarlier(t) {
      assert SponsorOf(t, member) == Some(q);
      OneBumpGrows(t, t', q, side);
      GrowsKeepsReferrals(t, t');
    }
  }

  lemma GrowsKeepsReferrals(t: Table, t': Table)
    requires Grows(t, t') && ReferralsEarlier(t)
    ensures ReferralsEarlier(t')
  {
    forall id: Id | Valid(t', id)
      ensures Row(t', id).sponsorCode == Row(t, id).sponsorCode && SponsorOf(t', id) == SponsorOf(t, id)
    {
      GrowsKeepsSponsors(t, t', id);
    }
  }

  /** The walk ends with no increment at all when the starting row has no
      sponsor code, when the code names no row, or when the row is neither
      child of its sponsor. */
  lemma WalkStopsSilently(t: Table, member: Id, fuel: nat)
    requires fuel > 0 && Valid(t, member)
    requires
      || !Truthy(Row(t, member).sponsorCode)
      || FindByCode(t, Row(t, member).sponsorCode.value).None?
      || (var q := FindByCode(t, Row(t, member).sponsorCode.value).value;
          Row(t, q).left != Some(member) && Row(t, q).right != Some(member))
    ensures UpdateCounts(t, member, fuel).table == t
    ensures UpdateCounts(t, member, fuel).bumps == []
    ensures UpdateCounts(t, member, fuel).stop in {NoSponsor, UnknownSponsor, NotAChild}
  {
  }

  /** The row whose sponsor the `j`-th increment lands on: `member` for the
      first, then the row the previous increment landed on. */
  function Below(member: Id, bumps: seq<Bump>, j: nat): Id
    requires j < |bumps|
  {
    if j == 0 then member else bumps[j - 1].node
  }

  /** `bumps` climbs the referral chain from `member`: each increment lands on
      the sponsor of the row below it, on the side where that row hangs. */
  predicate Climbs(t: Table, member: Id, bumps: seq<Bump>) {
    forall j {:trigger Below(member, bumps, j)} :: 0 <= j < |bumps| ==>
      && Valid(t, Below(member, bumps, j))
      && SponsorOf(t, Below(member, bumps, j)) == Some(bumps[j].node)
      && Valid(t, bumps[j].node)
      && ChildSide(Row(t, bumps[j].node), Below(member, bumps, j), bumps[j].side)
  }

  /** Raising counters keeps every row's links. */
  lemma GrowsKeepsLinks(t: Table, t': Table, id: Id)
    requires Grows(t, t') && Valid(t, id)
    ensures Row(t', id).left == Row(t, id).left && Row(t', id).right == Row(t, id).right
  {
  }

  /** Where a hop stops does not depend on the counters. */
  lemma StepSameOnGrow(t: Table, t': Table, x: Id)
    requires Grows(t, t')
    ensures Valid(t', x) ==> Valid(t, x) && (Step(t', x).Stopped? ==> Step(t, x) == Step(t', x))
  {
    if Valid(t', x) {
      GrowsKeepsSponsors(t, t', x);
      match SponsorOf(t, x)
      case None =>
      case Some(q) => GrowsKeepsLinks(t, t', q);
    }
  }

  /** A climb one step shorter, from a sponsor of `member` on a table with
      raised counters, extends to a climb from `member`. */
  lemma ClimbsCons(t: Table, t': Table, member: Id, q: Id, side: Side, rest: seq<Bump>)
    requires Grows(t, t') && Valid(t, member)
    requires SponsorOf(t, member) == Some(q) && ChildSide(Row(t, q), member, side)
    requires Climbs(t', q, rest)
    ensures Climbs(t, member, [Bump(q, side)] + rest)
  {
    var bumps := [Bump(q, side)] + rest;
    forall j | 0 <= j < |bumps|
      ensures Valid(t, Below(member, bumps, j))
      ensures SponsorOf(t, Below(member, bumps, j)) == Some(bumps[j].node)
      ensures ChildSide(Row(t, bumps[j].node), Below(member, bumps, j), bumps[j].side)
    {
      if j > 0 {
        var b := Below(q, rest, j - 1);
        assert bumps[j] == rest[j - 1];
        assert Below(member, bumps, j) == b;
        GrowsKeepsSponsors(t, t', b);
        GrowsKeepsLinks(t, t', bumps[j].node);
      }
    }
  }

  /** Every counter of `t'` is the one in `t` plus the number of entries of
      `bumps` naming it. */
  ghost predicate RaisedBy(t: Table, t': Table, bumps: seq<Bump>) {
    && |t'| == |t|
    && forall x: Id, s: Side :: Valid(t, x) ==>
         Row(t', x).Count(s) == Row(t, x).Count(s) + multiset(bumps)[Bump(x, s)]
  }

  /** One increment followed by a raise adds up to the longer raise. */
  lemma RaisedByCons(t: Table, t': Table, q: Id, side: Side, t'': Table, bumps: seq<Bump>)
    requires OneBump(t, t', q, side) && RaisedBy(t', t'', bumps)
    ensures RaisedBy(t, t'', [Bump(q, side)] + bumps)
  {
  }

  /** A climb without its first increment is a climb from that row. */
  lemma ClimbsTail(t: Table, member: Id, bumps: seq<Bump>)
    requires Climbs(t, member, bumps) && |bumps| > 0
    ensures Climbs(t, bumps[0].node, bumps[1..])
  {
    var top := bumps[0].node;
    var rest := bumps[1..];
    forall j | 0 <= j < |rest|
      ensures Valid(t, Below(top, rest, j))
      ensures SponsorOf(t, Below(top, rest, j)) == Some(rest[j].node)
      ensures Valid(t, rest[j].node)
      ensures ChildSide(Row(t, rest[j].node), Below(top, rest, j), rest[j].side)
    {
      assert rest[j] == bumps[j + 1];
      assert Below(top, rest, j) == Below(member, bumps, j + 1);
    }
  }

  /** A resolvable sponsor of a row is an earlier row. */
  lemma SponsorEarlier(t: Table, x: Id)
    requires ReferralsEarlier(t) && Valid(t, x) && SponsorOf(t, x).Some?
    ensures SponsorOf(t, x).value < x
  {
  }

  /** When referrals point backwards, a climb descends strictly: every
      increment lands on a row before `member` and before each earlier one. */
  lemma {:induction false} ClimbsDown(t: Table, member: Id, bumps: seq<Bump>)
    requires ReferralsEarlier(t) && Climbs(t, member, bumps)
    ensures forall j :: 0 <= j < |bumps| ==> bumps[j].node < member
    ensures forall j, k :: 0 <= j < k < |bumps| ==> bumps[k].node < bumps[j].node
    decreases |bumps|
  {
    if |bumps| > 0 {
      assert Below(member, bumps, 0) == member;
      SponsorEarlier(t, member);
      var top := bumps[0].node;
      var rest := bumps[1..];
      ClimbsTail(t, member, bumps);
      ClimbsDown(t, top, rest);
      forall j, k | 0 <= j < k < |bumps|
        ensures bumps[k].node < bumps[j].node
      {
        assert bumps[k] == rest[k - 1];
        if j > 0 {
          assert bumps[j] == rest[j - 1];
        }
      }
      forall j | 0 <= j < |bumps|
        ensures bumps[j].node < member
      {
        if j > 0 {
          assert bumps[j] == rest[j - 1];
        }
      }
    }
  }

  /** No increment in `bumps` lands on row `x`. */
  lemma Untouched(bumps: seq<Bump>, x: Id, s: Side)
    requires forall j :: 0 <= j < |bumps| ==> bumps[j].node != x
    ensures multiset(bumps)[Bump(x, s)] == 0
  {
  }

  /** In a strictly descending list of increments no row appears twice. */
  lemma {:induction false} DescendingOnce(bumps: seq<Bump>, x: Id)
    requires forall j, k :: 0 <= j < k < |bumps| ==> bumps[k].node < bumps[j].node
    ensures multiset(bumps)[Bump(x, Left)] + multiset(bumps)[Bump(x, Right)] <= 1
    decreases |bumps|
  {
    if |bumps| > 0 {
      var rest := bumps[1..];
      assert bumps == [bumps[0]] + rest;
      assert multiset(bumps) == multiset([bumps[0]]) + multiset(rest);
      if bumps[0].node == x {
        forall j | 0 <= j < |rest|
          ensures rest[j].node != x
        {
          assert rest[j] == bumps[j + 1];
        }
        Untouched(rest, x, Left);
        Untouched(rest, x, Right);
      } else {
        DescendingOnce(rest, x);
      }
    }
  }

  /** When referrals point backwards, a raise along a climb from `member`
      leaves the counters of `member` and of every later row as they were. */
  lemma RaisedSparesLater(t: Table, t': Table, member: Id, bumps: seq<Bump>, x: Id)
    requires ReferralsEarlier(t) && Climbs(t, member, bumps) && RaisedBy(t, t', bumps)
    requires Valid(t, x) && member <= x
    ensures Row(t', x).Count(Left) == Row(t, x).Count(Left)
    ensures Row(t', x).Count(Right) == Row(t, x).Count(Right)
  {
    ClimbsDown(t, member, bumps);
    Untouched(bumps, x, Left);
    Untouched(bumps, x, Right);
  }

  /** When referrals point backwards, the walk leaves `member` and every later
      row untouched, and raises each earlier row's counters by at most one in
      all. */
  lemma WalkBumpsEarlierRowsOnce(t: Table, member: Id, fuel: nat)
    requires ReferralsEarlier(t)
    ensures var r := UpdateCounts(t, member, fuel);
      forall x: Id :: Valid(t, x) && member <= x ==> Row(r.table, x) == Row(t, x)
    ensures var r := UpdateCounts(t, member, fuel);
      forall x: Id :: Valid(t, x) ==> Weight(Row(r.table, x)) <= Weight(Row(t, x)) + 1
  {
    var r := UpdateCounts(t, member, fuel);
    ClimbsDown(t, member, r.bumps);
    forall x: Id | Valid(t, x)
      ensures member <= x ==> Row(r.table, x) == Row(t, x)
      ensures Weight(Row(r.table, x)) <= Weight(Row(t, x)) + 1
    {
      DescendingOnce(r.bumps, x);
      assert Row(r.table, x).Count(Left) == Row(t, x).Count(Left) + multiset(r.bumps)[Bump(x, Left)];
      assert Row(r.table, x).Count(Right) == Row(t, x).Count(Right) + multiset(r.bumps)[Bump(x, Right)];
      if member <= x {
        Untouched(r.bumps, x, Left);
        Untouched(r.bumps, x, Right);
        assert Row(r.table, x).Shape() == Row(t, x).Shape();
      }
    }
  }
}
