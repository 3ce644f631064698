/** Concrete registrations from a one-member table. */
module Scenarios {
  import opened Wrappers
  import opened Members
  import opened Requests
  import opened Placement
  import opened Counts
  import opened Downline
  import opened Registration
  import opened Invariants

  /** The first member, inserted outside the register handler. */
  function Root(): Member {
    Member("MEM1", "Root", "root@mlm.io", "9000000001", "h1", None, None, None, 0, 0)
  }

  function Join(name: string, email: string, sponsor: string, position: string): Request {
    Request(Some(name), Some(email), Some("9000000002"), Some("secret"), Some(sponsor), Some(position))
  }

  function RowA(mode: InsertMode): Member {
    Member("MEM2", "Asha", "asha@mlm.io", "9000000002", "h2", Some("MEM1"),
           if mode == AsWritten then Some(1) else None, None, 0, 0)
  }

  /** The table after Asha joins under the root on the left. */
  function AfterA(mode: InsertMode): Table {
    [Root().(left := Some(2)), RowA(mode)]
  }

  /** Asha joins under the root, spelling the side in capitals, and takes the
      root's free left slot; under the source's insert the new row's own left
      link points back at the root; the root's counters stay at zero because
      propagation starts at the root, which has no sponsor. */
  lemma FirstJoinTakesFreeSlot(mode: InsertMode, fuel: nat)
    requires fuel >= 1
    ensures Register([Root()], Join("Asha", "asha@mlm.io", "MEM1", "LEFT"), "MEM2", "h2", fuel, mode)
      == Outcome(Success("MEM2"), AfterA(mode))
  {
    var t := [Root()];
    var req := Join("Asha", "asha@mlm.io", "MEM1", "LEFT");
    assert ToLower("LEFT") == "left";
    assert Validate(req) == Success(Left);
    assert FindByCode(t, "MEM1") == Some(1);
    assert FindPlacement(t, 1, Left, fuel) == Found(1, Left);
    assert !Conflicts(t, "MEM2", "asha@mlm.io");
    var attached := Attach(t, NewRow(req, "MEM2", "h2", Left, 1, mode), 1, Left);
    assert attached == AfterA(mode);
    assert Step(attached, 1) == Stopped(NoSponsor);
  }

  /** Under the source's insert Asha's downline lists the root as its left child. */
  lemma AsWrittenChildListsParent()
    ensures GetDownline(AfterA(AsWritten), 2) == Downline([Summary(1, "MEM1", "Root")], [])
  {
  }

  /** Under the source's insert, a second member asking for the root's left
      side gets no answer whatever the search's budget: root and Asha point
      at each other, and the spillover search goes round the pair forever. */
  lemma SecondLeftJoinHangs(fuel: nat)
    ensures Register(AfterA(AsWritten), Join("Bala", "bala@mlm.io", "MEM1", "left"), "MEM3", "h3", fuel, AsWritten)
      == Outcome(Failure(Hangs), AfterA(AsWritten))
  {
    var t := AfterA(AsWritten);
    var req := Join("Bala", "bala@mlm.io", "MEM1", "left");
    assert Mirrored(t);
    assert Validate(req) == Success(Left);
    assert FindByCode(t, "MEM1") == Some(1);
    AsWrittenSpilloverHangs(t, req, "MEM3", "h3", fuel, 1, Left);
  }

  function RowB(): Member {
    Member("MEM3", "Bala", "bala@mlm.io", "9000000002", "h3", Some("MEM1"), None, None, 0, 0)
  }

  function RowC(): Member {
    Member("MEM4", "Chen", "chen@mlm.io", "9000000002", "h4", Some("MEM2"), None, None, 0, 0)
  }

  function AfterB(): Table {
    [Root().(left := Some(2), leftCount := 1), RowA(Intended).(left := Some(3)), RowB()]
  }

  function AfterC(): Table {
    [Root().(left := Some(2), leftCount := 1), RowA(Intended).(left := Some(3)), RowB().(left := Some(4)), RowC()]
  }

  /** With the intended insert, Bala, sponsored by the root on the left,
      spills over to Asha's left. Propagation starts at Asha, who is the
      root's left child, so the root's left counter becomes 1; Asha's own
      counter stays 0 although Asha now has a child. */
  lemma IntendedSpillover()
    ensures Register(AfterA(Intended), Join("Bala", "bala@mlm.io", "MEM1", "left"), "MEM3", "h3", 2, Intended)
      == Outcome(Success("MEM3"), AfterB())
  {
    var t := AfterA(Intended);
    var req := Join("Bala", "bala@mlm.io", "MEM1", "left");
    assert Validate(req) == Success(Left);
    assert FindByCode(t, "MEM1") == Some(1);
    assert FindPlacement(t, 2, Left, 1) == Found(2, Left);
    assert FindPlacement(t, 1, Left, 2) == Found(2, Left);
    BalaCommits();
  }

  lemma BalaCommits()
    ensures Commit(AfterA(Intended), Join("Bala", "bala@mlm.io", "MEM1", "left"), "MEM3", "h3", Left, 2, Intended)
      == Outcome(Success("MEM3"), AfterB())
  {
    var t := AfterA(Intended);
    var req := Join("Bala", "bala@mlm.io", "MEM1", "left");
    assert !Conflicts(t, "MEM3", "bala@mlm.io");
    var attached := Attach(t, NewRow(req, "MEM3", "h3", Left, 2, Intended), 2, Left);
    assert attached == [Root().(left := Some(2)), RowA(Intended).(left := Some(3)), RowB()];
    assert attached[0].code == "MEM1";
    assert FindByCode(attached, "MEM1") == Some(1);
    var bumped := Increment(attached, 1, Left);
    assert bumped == AfterB();
    assert Step(attached, 2) == Stepped(bumped, 1, Left);
    assert Step(bumped, 1) == Stopped(NoSponsor);
    assert UpdateCounts(bumped, 1, 2) == Propagation(bumped, [], NoSponsor);
    assert UpdateCounts(attached, 2, 3) == Propagation(bumped, [Bump(1, Left)], NoSponsor);
    assert Linked(t, req, "MEM3", "h3", Left, 2, Intended) == AfterB();
  }

  /** Chen, sponsored by Asha on the left, continues down the left spine to
      Bala. Propagation starts at Bala, whose sponsor is the root, but Bala
      is not the root's child: the walk stops at once and the root's left
      counter stays 1 although its left subtree now holds three members. */
  lemma IntendedReferralDiverges()
    ensures Register(AfterB(), Join("Chen", "chen@mlm.io", "MEM2", "left"), "MEM4", "h4", 3, Intended)
      == Outcome(Success("MEM4"), AfterC())
  {
    var t := AfterB();
    var req := Join("Chen", "chen@mlm.io", "MEM2", "left");
    assert Validate(req) == Success(Left);
    assert FindByCode(t, "MEM2") == Some(2);
    assert FindPlacement(t, 3, Left, 2) == Found(3, Left);
    assert FindPlacement(t, 2, Left, 3) == Found(3, Left);
    assert !Conflicts(t, "MEM4", "chen@mlm.io");
    ChenCommits();
  }

  lemma ChenCommits()
    ensures Commit(AfterB(), Join("Chen", "chen@mlm.io", "MEM2", "left"), "MEM4", "h4", Left, 3, Intended)
      == Outcome(Success("MEM4"), AfterC())
  {
    var t := AfterB();
    var req := Join("Chen", "chen@mlm.io", "MEM2", "left");
    assert !Conflicts(t, "MEM4", "chen@mlm.io");
    var attached := Attach(t, NewRow(req, "MEM4", "h4", Left, 3, Intended), 3, Left);
    assert attached == AfterC();
    assert attached[0].code == "MEM1";
    assert FindByCode(attached, "MEM1") == Some(1);
    assert Step(attached, 3) == Stopped(NotAChild);
  }
}
