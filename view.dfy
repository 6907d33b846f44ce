/**
 * The decisions the render functions take, without the DOM: the progress
 * bar width, the celebration banner and the newest-first attendee list.
 */
module View {
  import opened Text
  import opened Teams
  import opened Winner
  import opened Escape
  import opened Attendance

  /** `ATTENDANCE_GOAL`. */
  const AttendanceGoal: nat := 50

  /** `clamp(n, min, max)`, that is `Math.max(min, Math.min(max, n))`. */
  function Clamp(n: int, lo: int, hi: int): (r: int)
    ensures lo <= hi ==> lo <= r <= hi
    ensures lo <= n <= hi ==> r == n
    ensures lo <= hi && n < lo ==> r == lo
    ensures n > hi ==> r == if lo <= hi then hi else lo
    ensures hi < lo ==> r == lo
  {
    var m := if hi <= n then hi else n;
    if lo >= m then lo else m
  }

  /** The progress bar width in percent, `clamp(total / 50 * 100, 0, 100)`. */
  function ProgressPercent(total: int): (p: int)
    ensures 0 <= p <= 100
    ensures p == 100 <==> total >= AttendanceGoal
    ensures 0 <= total <= AttendanceGoal ==> p * AttendanceGoal == total * 100
  {
    Clamp(total * 100 / AttendanceGoal, 0, 100)
  }

  /** What the celebration element shows. The emoji and wording are left out. */
  datatype Banner =
    | Hidden                                  // `display: none`, empty text
    | TieBanner(count: nat, labels: string)   // "tie at <count>: <labels>"
    | LeaderBanner(leader: string, count: nat) // "Current leader: <leader> (<count>)"

  /** `result.teams.map(formatTeamLabel)`. */
  function Labels(ts: seq<Team>): (ls: seq<string>)
    ensures |ls| == |ts| && forall i :: 0 <= i < |ts| ==> ls[i] == FormatTeamLabel(Key(ts[i]))
  {
    if ts == [] then [] else [FormatTeamLabel(Key(ts[0]))] + Labels(ts[1..])
  }

  /**
   * `renderCelebrationIfGoalReached`: hidden below the goal; at or above it,
   * the labels of the tied teams joined by " & " with the tied count, or the
   * leader's label and count.
   */
  function Celebration(total: int, teams: Tally): (b: Banner)
    ensures b.Hidden? <==> total < AttendanceGoal
    ensures b.TieBanner? <==> total >= AttendanceGoal && |AtMax(teams)| >= 2
    ensures b.TieBanner? ==> b.count == MaxCount(teams) && b.labels == Join(Labels(AtMax(teams)), " & ")
    ensures b.LeaderBanner? ==> b.count == MaxCount(teams) && |AtMax(teams)| == 1
                                && b.leader == FormatTeamLabel(Key(AtMax(teams)[0]))
  {
    if total < AttendanceGoal then Hidden
    else
      match ComputeWinner(teams)
      case Tie(teams, count) => TieBanner(count, Join(Labels(teams), " & "))
      case Leader(team, count) => LeaderBanner(FormatTeamLabel(Key(team)), count)
  }

  /** The progress bar is full exactly when the celebration is showing. */
  lemma FullBarIffCelebration(total: int, teams: Tally)
    ensures ProgressPercent(total) == 100 <==> !Celebration(total, teams).Hidden?
  {
  }

  /** `[...xs].reverse()`: the same elements, last first. */
  function Reverse<T>(xs: seq<T>): (r: seq<T>)
    ensures |r| == |xs| && forall i :: 0 <= i < |xs| ==> r[i] == xs[|xs| - 1 - i]
  {
    if xs == [] then [] else Reverse(xs[1..]) + [xs[0]]
  }

  /**
   * What one list item shows: the name, inserted as markup after escaping,
   * the label of the team, and the capture time.
   */
  datatype Row = Row(name: string, team: Team, ts: nat) {
    /** The markup the item's `<strong>` element receives. */
    function NameHtml(): (h: string)
      ensures NoMarkup(h)
      ensures Unescape(h) == name
    {
      UnescapeEscapeHtml(name);
      EscapeHtml(name)
    }

    /** The text under the name. */
    function TeamLabel(): (shown: string)
      ensures shown != "Team"
    {
      FormatTeamLabel(Key(team))
    }
  }

  function RowOf(a: Record): Row {
    Row(a.name, a.team, a.ts)
  }

  /**
   * `renderAttendeeList`: one item per record, newest first, built from a
   * reversed copy of `attendees`, which itself is left in check-in order.
   */
  method AttendeeRows(s: AttendanceState) returns (rows: seq<Row>)
    ensures |rows| == |s.attendees|
    ensures forall i :: 0 <= i < |rows| ==> rows[i] == RowOf(s.attendees[|s.attendees| - 1 - i])
  {
    var items := Reverse(s.attendees);
    rows := [];
    var i := 0;
    while i < |items|
      invariant 0 <= i <= |items|
      invariant |rows| == i
      invariant forall k :: 0 <= k < i ==> rows[k] == RowOf(items[k])
    {
      rows := rows + [RowOf(items[i])];
      i := i + 1;
    }
  }

  /** Fifty check-ins split 20, 20 and 10 reach the goal with water and zero tied at 20. */
  lemma GoalReachedWithTie()
    ensures Celebration(50, Tally(20, 20, 10)) == TieBanner(20, "Team Water Wise" + " & " + "Team Net Zero")
  {
    TieAtTwenty();
    var ls := Labels([Water, Zero]);
    assert ls == ["Team Water Wise", "Team Net Zero"];
    assert ls[1..] == ["Team Net Zero"];
    assert Join(ls, " & ") == "Team Water Wise" + " & " + "Team Net Zero";
  }
}
