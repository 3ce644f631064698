/** The one-level downline read `getDownline` (backend/index.js:185-202). */
module Downline {
  import opened Wrappers
  import opened Members

  /** `{ id, member_code, name }` of one child row. */
  datatype Summary = Summary(id: Id, code: string, name: string)

  /** `{ left: [...], right: [...] }`. */
  datatype Downline = Downline(left: seq<Summary>, right: seq<Summary>)

  function SummaryOf(t: Table, id: Id): Summary
    requires Valid(t, id)
  {
    Summary(id, Row(t, id).code, Row(t, id).name)
  }

  /** The side the query's CASE assigns to a joined row: left when the
      parent's left link names it, right otherwise. */
  function Bucket(parent: Member, id: Id): Side {
    if parent.left == Some(id) then Left else Right
  }

  /** The JOIN condition: the parent links to row `id` on some side. */
  predicate Joined(parent: Member, id: Id) {
    parent.left == Some(id) || parent.right == Some(id)
  }

  /** The buckets the query fills from rows 1..n. When `parent` names no row
      the JOIN is empty. */
  function Collect(t: Table, parent: Id, n: nat): (d: Downline)
    requires n <= |t|
    ensures !Valid(t, parent) ==> d == Downline([], [])
    ensures Valid(t, parent) ==>
      var p := Row(t, parent);
      && d.left == (if p.left.Some? && p.left.value <= n then [SummaryOf(t, p.left.value)] else [])
      && d.right == (if p.right.Some? && p.right.value <= n && p.left != p.right
                     then [SummaryOf(t, p.right.value)] else [])
    decreases n
  {
    if n == 0 || !Valid(t, parent) then Downline([], [])
    else
      var d := Collect(t, parent, n - 1);
      var p := Row(t, parent);
      if !Joined(p, n) then d
      else if Bucket(p, n) == Left then d.(left := d.left + [SummaryOf(t, n)])
      else d.(right := d.right + [SummaryOf(t, n)])
  }

  /** The downline of `parent` over the whole table. A child appears under
      left exactly when the parent's left link names it, under right exactly
      when the right link names it and the left one does not, and each list
      holds at most one entry, so the row order of the result is immaterial. */
  function GetDownline(t: Table, parent: Id): (d: Downline)
    ensures |d.left| <= 1 && |d.right| <= 1
    ensures forall s :: s in d.left <==>
      Valid(t, parent) && Row(t, parent).left == Some(s.id) && Valid(t, s.id) && s == SummaryOf(t, s.id)
    ensures forall s :: s in d.right <==>
      Valid(t, parent) && Row(t, parent).right == Some(s.id) && Row(t, parent).left != Some(s.id)
      && Valid(t, s.id) && s == SummaryOf(t, s.id)
  {
    Collect(t, parent, |t|)
  }
}
