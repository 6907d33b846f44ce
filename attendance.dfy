/**
 * The attendance state and the state-changing part of `checkIn`.
 * The state is `{total, teams: {water, zero, renewables}, attendees}`; a
 * check-in validates the name, then the team, and on success bumps the total,
 * bumps one team counter and appends one record.
 */
module Attendance {
  import opened Text
  import opened Teams

  /** One entry of `attendees`: the trimmed name, the team, and the capture time `Date.now()`. */
  datatype Record = Record(name: string, team: Team, ts: nat)

  /** The number of records carrying team `t`. */
  function CountOf(att: seq<Record>, t: Team): nat {
    if att == [] then 0 else (if att[0].team == t then 1 else 0) + CountOf(att[1..], t)
  }

  /** The counters a log of records should show. */
  function TallyOf(att: seq<Record>): Tally {
    Tally(CountOf(att, Water), CountOf(att, Zero), CountOf(att, Renewables))
  }

  lemma {:induction false} CountOfAppend(att: seq<Record>, r: Record, t: Team)
    ensures CountOf(att + [r], t) == CountOf(att, t) + (if r.team == t then 1 else 0)
  {
    if att != [] {
      assert (att + [r])[1..] == att[1..] + [r];
      CountOfAppend(att[1..], r, t);
    } else {
      assert ([r])[1..] == [];
    }
  }

  /** Appending a record bumps exactly the counter of its team. */
  lemma TallyOfAppend(att: seq<Record>, r: Record)
    ensures TallyOf(att + [r]) == TallyOf(att).Bump(r.team)
  {
    CountOfAppend(att, r, Water);
    CountOfAppend(att, r, Zero);
    CountOfAppend(att, r, Renewables);
  }

  /** The three counters of a log add up to its length. */
  lemma {:induction false} TallyOfSum(att: seq<Record>)
    ensures TallyOf(att).Sum() == |att|
  {
    if att != [] {
      TallyOfSum(att[1..]);
    }
  }

  /** The outcome of the validation in `checkIn`. */
  datatype CheckInResult = MissingName | MissingTeam | Accepted(name: string, team: Team)

  /**
   * The validation of `checkIn`, in its order: a name that is empty after
   * trimming is refused first; then a team selector value that mentions no
   * team keyword; otherwise the trimmed name and the classified team are
   * accepted.
   */
  function Validate(rawName: string, rawTeam: string): (res: CheckInResult)
    ensures res.MissingName? <==> AllSpace(rawName)
    ensures res.MissingTeam? <==> !AllSpace(rawName) && MentionsNoTeam(Lower(rawTeam))
    ensures res.Accepted? ==> res.name == Trim(rawName) && res.name != [] && Key(res.team) == NormalizeTeam(rawTeam)
  {
    var name := Trim(rawName);
    var teamKey := NormalizeTeam(rawTeam);
    NormalizeTeamSpec(rawTeam);
    if name == [] then MissingName
    else if teamKey == "" then MissingTeam
    else Accepted(name, ParseKey(teamKey).value)
  }

  /** The attendance state, updated in place by each check-in. */
  class AttendanceState {
    var total: int
    var teams: Tally
    var attendees: seq<Record>

    /** The total counts the records and every team counter counts the records of its team. */
    ghost predicate Valid()
      reads this
    {
      total == |attendees| && teams == TallyOf(attendees)
    }

    /** The zero-value state the page starts from when nothing was saved. */
    constructor ()
      ensures Valid()
      ensures total == 0 && teams == Tally(0, 0, 0) && attendees == []
    {
      total := 0;
      teams := Tally(0, 0, 0);
      attendees := [];
    }

    /**
     * `checkIn` on the name and team read from the page, at time `now`.
     * A refused check-in changes nothing. An accepted one adds one to the
     * total and to its team's counter, leaves the other counters alone and
     * appends one record after the existing ones. The invariant is kept.
     */
    method CheckIn(rawName: string, rawTeam: string, now: nat) returns (res: CheckInResult)
      modifies this
      ensures res == Validate(rawName, rawTeam)
      ensures !res.Accepted? ==> total == old(total) && teams == old(teams) && attendees == old(attendees)
      ensures res.Accepted? ==> total == old(total) + 1 && teams == old(teams).Bump(res.team)
      ensures res.Accepted? ==> attendees == old(attendees) + [Record(res.name, res.team, now)]
      ensures old(Valid()) ==> Valid()
    {
      var name := Trim(rawName);
      var teamKey := NormalizeTeam(rawTeam);
      if name == [] {
        return MissingName;
      }
      if teamKey == "" {
        return MissingTeam;
      }
      var team := ParseKey(teamKey).value;
      TallyOfAppend(attendees, Record(name, team, now));
      total := total + 1;
      teams := teams.Bump(team);
      attendees := attendees + [Record(name, team, now)];
      res := Accepted(name, team);
    }
  }

  /** Under the invariant the total also equals the sum of the three counters. */
  lemma ValidTotals(total: int, teams: Tally, attendees: seq<Record>)
    requires total == |attendees| && teams == TallyOf(attendees)
    ensures total == teams.water + teams.zero + teams.renewables
  {
    TallyOfSum(attendees);
  }

  /** The invariant of a state object also makes its total the sum of its three counters. */
  lemma ValidStateTotals(s: AttendanceState)
    requires s.Valid()
    ensures s.total == s.teams.Sum()
  {
    ValidTotals(s.total, s.teams, s.attendees);
  }

  /** A refused check-in: a blank name is reported before a bad team. */
  lemma BlankNameFirst()
    ensures Validate("", "water") == MissingName
    ensures Validate("  ", "") == MissingName
  {
  }
}
