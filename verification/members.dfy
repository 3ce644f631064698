/** The `members` table (backend/index.js:26-39) as an immutable value. */
module Members {
  import opened Wrappers

  /** Row ids, modelled as dense positions starting at 1. SQLite's
      AUTOINCREMENT only promises increasing ids, but the engine compares ids
      for equality alone, so the numbering does not change its behaviour.
      0, the one falsy number, never names a member. */
  type Id = n: nat | 1 <= n witness 1

  /** A side of the binary tree. */
  datatype Side = Left | Right {
    function Opposite(): Side {
      if this == Left then Right else Left
    }
  }

  /** One row. `left`/`right` are `left_member_id`/`right_member_id`;
      `password` holds whatever the hashing step produced. */
  datatype Member = Member(
    code: string,
    name: string,
    email: string,
    mobile: string,
    password: string,
    sponsorCode: Option<string>,
    left: Option<Id>,
    right: Option<Id>,
    leftCount: nat,
    rightCount: nat)
  {
    /** The child link on `side`. */
    function Child(side: Side): Option<Id> {
      if side == Left then left else right
    }

    /** The counter on `side`. */
    function Count(side: Side): nat {
      if side == Left then leftCount else rightCount
    }

    /** Everything but the two counters: what count propagation must not touch. */
    function Shape(): Member {
      this.(leftCount := 0, rightCount := 0)
    }

    /** The row with its `side` link replaced. */
    function WithChild(side: Side, c: Option<Id>): (m: Member)
      ensures m.Child(side) == c
      ensures m.Child(side.Opposite()) == Child(side.Opposite())
      ensures m.code == code && m.sponsorCode == sponsorCode
      ensures m.leftCount == leftCount && m.rightCount == rightCount
    {
      if side == Left then this.(left := c) else this.(right := c)
    }

    /** The row with the `side` counter raised by one (`${side}_count + 1`). */
    function Bumped(side: Side): (m: Member)
      ensures m.Count(side) == Count(side) + 1
      ensures m.Count(side.Opposite()) == Count(side.Opposite())
      ensures m.Shape() == Shape()
    {
      if side == Left then this.(leftCount := leftCount + 1)
      else this.(rightCount := rightCount + 1)
    }
  }

  /** The whole table; the member with id `k` is element `k - 1`. */
  type Table = seq<Member>

  predicate Valid(t: Table, id: Id) {
    id <= |t|
  }

  function Row(t: Table, id: Id): Member
    requires Valid(t, id)
  {
    t[id - 1]
  }

  /** The id the next INSERT receives (`this.lastID`). */
  function NextId(t: Table): Id {
    |t| + 1
  }

  /** JavaScript truthiness of an optional string: present and non-empty. */
  predicate Truthy(s: Option<string>) {
    s.Some? && s.value != ""
  }

  /** `SELECT id FROM members WHERE member_code = ?`: the first row carrying
      `c` (the column is UNIQUE, so the only one), or None. */
  function FindByCode(t: Table, c: string): (r: Option<Id>)
    ensures r.None? <==> forall i :: 0 <= i < |t| ==> t[i].code != c
    ensures r.Some? ==> Valid(t, r.value) && Row(t, r.value).code == c
    ensures r.Some? ==> forall i :: 0 <= i < r.value - 1 ==> t[i].code != c
    decreases |t|
  {
    if |t| == 0 then None
    else
      match FindByCode(t[..|t| - 1], c)
      case Some(k) => Some(k)
      case None => if t[|t| - 1].code == c then Some(|t|) else None
  }

  /** Sets the `side` link of row `p` to `c`
      (`UPDATE members SET ${side}_member_id = ? WHERE id = ?`). */
  function SetChild(t: Table, p: Id, side: Side, c: Id): (r: Table)
    requires Valid(t, p)
    ensures |r| == |t|
    ensures Row(r, p) == Row(t, p).WithChild(side, Some(c))
    ensures forall i :: 0 <= i < |t| && i != p - 1 ==> r[i] == t[i]
  {
    t[p - 1 := Row(t, p).WithChild(side, Some(c))]
  }

  /** Raises the `side` counter of row `q`. */
  function Increment(t: Table, q: Id, side: Side): (r: Table)
    requires Valid(t, q)
    ensures |r| == |t|
    ensures Row(r, q) == Row(t, q).Bumped(side)
    ensures forall i :: 0 <= i < |t| && i != q - 1 ==> r[i] == t[i]
  {
    t[q - 1 := Row(t, q).Bumped(side)]
  }

  /** Both counters of a row together. */
  function Weight(m: Member): nat {
    m.leftCount + m.rightCount
  }

  /** The sum of every counter in the table. */
  function Total(t: Table): nat
    decreases |t|
  {
    if |t| == 0 then 0 else Total(t[..|t| - 1]) + Weight(t[|t| - 1])
  }

  /** Replacing one row changes the total by that row's change in weight. */
  lemma {:induction false} TotalUpdate(t: Table, i: nat, m: Member)
    requires i < |t|
    ensures Total(t[i := m]) + Weight(t[i]) == Total(t) + Weight(m)
    decreases |t|
  {
    var u := t[i := m];
    var n := |t| - 1;
    if i == n {
      assert u[..n] == t[..n];
    } else {
      assert u[..n] == t[..n][i := m];
      TotalUpdate(t[..n], i, m);
    }
  }

  /** `m'` is `m` with neither counter lowered and nothing else changed. */
  predicate RowGrows(m: Member, m': Member) {
    m'.Shape() == m.Shape() && m'.leftCount >= m.leftCount && m'.rightCount >= m.rightCount
  }

  /** `t'` differs from `t` at most in its counters, and none went down. */
  predicate Grows(t: Table, t': Table) {
    |t'| == |t| && forall i :: 0 <= i < |t| ==> RowGrows(t[i], t'[i])
  }
}
