/** The register request and its boundary checks (backend/index.js:56-64). */
module Requests {
  import opened Wrappers
  import opened Members

  /** The JSON body of `POST /api/register`; an absent field is None. */
  datatype Request = Request(
    name: Option<string>,
    email: Option<string>,
    mobile: Option<string>,
    password: Option<string>,
    sponsorCode: Option<string>,
    position: Option<string>)

  /** Every way a registration can be refused. */
  datatype RegisterError =
    | MissingField     // 400 "All fields are required"
    | BadPosition      // 400 "Position must be left or right"
    | InvalidSponsor   // 400 "Invalid sponsor code"
    | CreateFailed     // 500 "Failed to create member": the INSERT broke a UNIQUE column
    | Hangs            // the spillover search never calls back: no response at all
    | Crashed          // the search read a missing row and threw a TypeError

  /** `!name || !email || ... || !position` is false. */
  predicate AllPresent(req: Request) {
    && Truthy(req.name)
    && Truthy(req.email)
    && Truthy(req.mobile)
    && Truthy(req.password)
    && Truthy(req.sponsorCode)
    && Truthy(req.position)
  }

  /** `toLowerCase` on one character. Only ASCII capitals matter here: no other
      character lower-cases to a single letter of "left" or "right". */
  function LowerChar(ch: char): char {
    if 'A' <= ch <= 'Z' then (ch as int + 32) as char else ch
  }

  function ToLower(s: string): (r: string)
    ensures |r| == |s|
    ensures forall i :: 0 <= i < |s| ==> r[i] == LowerChar(s[i])
  {
    if |s| == 0 then "" else [LowerChar(s[0])] + ToLower(s[1..])
  }

  /** The wire name of a side. */
  function SideName(side: Side): string {
    if side == Left then "left" else "right"
  }

  /** `position.toLowerCase()` compared with "left" and "right". */
  function ParseSide(position: string): Option<Side> {
    var lower := ToLower(position);
    if lower == "left" then Some(Left)
    else if lower == "right" then Some(Right)
    else None
  }

  /** `ch` is the lower-case letter `w` or its upper-case form. */
  predicate SameLetter(ch: char, w: char) {
    ch == w || ('a' <= w <= 'z' && ch as int == w as int - 32)
  }

  /** `s` spells `word` in any mix of cases: a case-blind reading of the
      position test at backend/index.js:62. */
  predicate SpellsIgnoringCase(s: string, word: string) {
    |s| == |word| && forall i :: 0 <= i < |s| ==> SameLetter(s[i], word[i])
  }

  /** A position is accepted exactly when it spells "left" or "right" in any
      case, and the side it selects is the one it spells. */
  lemma ParseSideIgnoresCase(position: string, side: Side)
    ensures ParseSide(position) == Some(side) <==> SpellsIgnoringCase(position, SideName(side))
    ensures ParseSide(position).None? <==>
      !SpellsIgnoringCase(position, "left") && !SpellsIgnoringCase(position, "right")
  {
  }

  /** The two boundary checks, in source order, before any store access. */
  function Validate(req: Request): (r: Result<Side, RegisterError>)
    ensures r == Failure(MissingField) <==> !AllPresent(req)
    ensures r == Failure(BadPosition) <==>
      AllPresent(req)
      && !SpellsIgnoringCase(req.position.value, "left")
      && !SpellsIgnoringCase(req.position.value, "right")
    ensures r.Success? ==>
      AllPresent(req) && SpellsIgnoringCase(req.position.value, SideName(r.value))
    ensures r.Failure? ==> r.error == MissingField || r.error == BadPosition
  {
    if !AllPresent(req) then Failure(MissingField)
    else
      ParseSideIgnoresCase(req.position.value, Left);
      ParseSideIgnoresCase(req.position.value, Right);
      match ParseSide(req.position.value)
      case None => Failure(BadPosition)
      case Some(side) => Success(side)
  }
}
