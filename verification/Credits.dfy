/** The weekly credits of an organization, which accrue in whole weeks whenever somebody asks. */
module Credits {
  const WEEK: nat := 7 * 24 * 3600

  datatype Params = Params(approved: int, oss: int, other: int)

  datatype Statistics = Statistics(deviceCount: int, approvedDeviceCount: int, ossDeviceCount: int,
                                   ossApprovedDeviceCount: int)

  datatype Account = Account(credits: int, lastCreditUpdate: int)

  /** Whole weeks from `start` to `end`, negative toward zero as `timestampdiff` counts them. */
  function Weeks(start: int, end: int): int {
    if start <= end then (end - start) / WEEK else -((start - end) / WEEK)
  }

  function Rate(params: Params, s: Statistics): int {
    var ossOnly := s.ossDeviceCount - s.ossApprovedDeviceCount;
    params.approved * s.approvedDeviceCount + params.oss * ossOnly
      + params.other * (s.deviceCount - s.approvedDeviceCount - ossOnly)
  }

  function Updated(a: Account, rate: int, now: int): Account {
    var weeks := Weeks(a.lastCreditUpdate, now);
    Account(a.credits + rate * weeks, a.lastCreditUpdate + weeks * WEEK)
  }

  class Organization {
    var credits: int
    var lastCreditUpdate: int

    function Contents(): Account
      reads this
    {
      Account(credits, lastCreditUpdate)
    }

    constructor (credits: int, lastCreditUpdate: int)
      ensures Contents() == Account(credits, lastCreditUpdate)
    {
      this.credits, this.lastCreditUpdate := credits, lastCreditUpdate;
    }

    /** Both assignments see the row as it was, as an update of two tables does. */
    method ApplyWeeklyCreditUpdate(params: Params, s: Statistics, now: int)
      modifies this
      ensures Contents() == Updated(old(Contents()), Rate(params, s), now)
    {
      credits, lastCreditUpdate := credits
        + (params.approved * s.approvedDeviceCount
           + params.oss * (s.ossDeviceCount - s.ossApprovedDeviceCount)
           + params.other * (s.deviceCount - s.approvedDeviceCount - (s.ossDeviceCount - s.ossApprovedDeviceCount)))
          * Weeks(lastCreditUpdate, now),
        lastCreditUpdate + Weeks(lastCreditUpdate, now) * WEEK;
    }
  }

  function UpdatedAt(a: Account, rate: int, times: seq<int>): Account {
    if times == [] then a else Updated(UpdatedAt(a, rate, times[..|times| - 1]), rate, times[|times| - 1])
  }

  /** No update comes before the one before it, or before the account's last. */
  ghost predicate Scheduled(a: Account, times: seq<int>) {
    && (forall i :: 0 <= i < |times| ==> a.lastCreditUpdate <= times[i])
    && forall i, j :: 0 <= i < j < |times| ==> times[i] <= times[j]
  }

  /** Credits are the rate times the whole weeks since the start, and less than a week is outstanding. */
  ghost predicate Accrued(a: Account, rate: int, now: int, a': Account) {
    var weeks := (now - a.lastCreditUpdate) / WEEK;
    a' == Account(a.credits + rate * weeks, a.lastCreditUpdate + weeks * WEEK) && 0 <= now - a'.lastCreditUpdate < WEEK
  }

  /** However often and whenever updates run, nothing depends on any but the last. */
  lemma {:induction false} ScheduleIndependent(a: Account, rate: int, times: seq<int>)
    requires times != [] && Scheduled(a, times)
    ensures Accrued(a, rate, times[|times| - 1], UpdatedAt(a, rate, times))
    ensures UpdatedAt(a, rate, times) == Updated(a, rate, times[|times| - 1])
  {
    var n := |times| - 1;
    if n > 0 {
      ScheduleIndependent(a, rate, times[..n]);
      Twice(a, rate, times[n - 1], times[n]);
    } else {
      assert times[..0] == [];
    }
  }

  /** Two updates are as good as the later one. */
  lemma Twice(a: Account, rate: int, now: int, later: int)
    requires a.lastCreditUpdate <= now <= later
    ensures Updated(Updated(a, rate, now), rate, later) == Updated(a, rate, later)
  {
    var w, v := (now - a.lastCreditUpdate) / WEEK, (later - a.lastCreditUpdate) / WEEK;
    var last := a.lastCreditUpdate + w * WEEK;
    assert (later - last) / WEEK == v - w;
    assert rate * w + rate * (v - w) == rate * v;
  }

  // ----- what accrues -----

  /** Each device counts once: approved, open source without approval, or neither. */
  lemma OneMoreDevice(p: Params, s: Statistics)
    ensures Rate(p, Statistics(0, 0, 0, 0)) == 0
    ensures Rate(p, s.(deviceCount := s.deviceCount + 1)) == Rate(p, s) + p.other
    ensures Rate(p, s.(deviceCount := s.deviceCount + 1, approvedDeviceCount := s.approvedDeviceCount + 1))
         == Rate(p, s) + p.approved
    ensures Rate(p, s.(deviceCount := s.deviceCount + 1, ossDeviceCount := s.ossDeviceCount + 1))
         == Rate(p, s) + p.oss
    ensures Rate(p, Statistics(s.deviceCount + 1, s.approvedDeviceCount + 1, s.ossDeviceCount + 1,
                               s.ossApprovedDeviceCount + 1))
         == Rate(p, s) + p.approved
  {
    hide Rate;
    RateIs(p, s);
    RateIs(p, Statistics(0, 0, 0, 0));
    RateIs(p, s.(deviceCount := s.deviceCount + 1));
    RateIs(p, s.(deviceCount := s.deviceCount + 1, approvedDeviceCount := s.approvedDeviceCount + 1));
    RateIs(p, s.(deviceCount := s.deviceCount + 1, ossDeviceCount := s.ossDeviceCount + 1));
    RateIs(p, Statistics(s.deviceCount + 1, s.approvedDeviceCount + 1, s.ossDeviceCount + 1,
                         s.ossApprovedDeviceCount + 1));
    More(p.other, s.deviceCount - s.approvedDeviceCount - (s.ossDeviceCount - s.ossApprovedDeviceCount));
    More(p.approved, s.approvedDeviceCount);
    More(p.oss, s.ossDeviceCount - s.ossApprovedDeviceCount);
  }

  lemma More(a: int, b: int)
    ensures a * (b + 1) == a * b + a
  {
  }

  lemma RateIs(p: Params, s: Statistics)
    ensures var ossOnly := s.ossDeviceCount - s.ossApprovedDeviceCount;
            Rate(p, s) == p.approved * s.approvedDeviceCount + p.oss * ossOnly
                          + p.other * (s.deviceCount - s.approvedDeviceCount - ossOnly)
  {
  }

  /** Nothing accrues before 604800 seconds have passed, and then one week's credits; so too if the clock is behind. */
  lemma OneWeek(a: Account, rate: int)
    ensures Updated(a, rate, a.lastCreditUpdate - 604799) == a
    ensures Updated(a, rate, a.lastCreditUpdate - 604800) == Account(a.credits - rate, a.lastCreditUpdate - 604800)
    ensures Updated(a, rate, a.lastCreditUpdate + 604799) == a
    ensures Updated(a, rate, a.lastCreditUpdate + 604800) == Account(a.credits + rate, a.lastCreditUpdate + 604800)
  {
  }
}
