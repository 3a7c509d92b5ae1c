/** The SLA predicate (app.js:17, 522-531), over timestamps in integer milliseconds. */
module Sla {
  import opened Records

  const SlaDays: nat := 7
  /** `1000 * 60 * 60 * 24` */
  const MsPerDay: nat := 86400000

  function Abs(x: int): nat {
    if x < 0 then -x else x
  }

  /** `Math.ceil(Math.abs(now - created) / MsPerDay)`: the fewest whole days covering the elapsed time. */
  function DaysSinceCreation(createdAt: int, now: int): (d: nat)
    ensures Abs(now - createdAt) <= d * MsPerDay
    ensures d == 0 || (d - 1) * MsPerDay < Abs(now - createdAt)
  {
    (Abs(now - createdAt) + MsPerDay - 1) / MsPerDay
  }

  /** A request is over its SLA when it is not Completed or Declined and more than
      SlaDays whole days (rounded up) separate its creation from `now`. */
  function IsOverSla(req: Request, now: int): (b: bool)
    ensures IsTerminal(req.status) ==> !b
    ensures !IsTerminal(req.status) ==> (b <==> Abs(now - req.createdAt) > SlaDays * MsPerDay)
  {
    if req.status == Completed || req.status == Declined then false
    else DaysSinceCreation(req.createdAt, now) > SlaDays
  }
}
