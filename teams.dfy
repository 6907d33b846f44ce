/**
 * The team classifier and the per-team counters: `normalizeTeam`,
 * `formatTeamLabel` and the `teams` record of the attendance state.
 */
module Teams {
  import opened Wrappers
  import opened Text

  /** The three teams of the summit. No "unknown" team is ever stored. */
  datatype Team = Water | Zero | Renewables

  /** The key under which the widget stores a team. */
  function Key(t: Team): (k: string)
    ensures k in {"water", "zero", "renewables"}
  {
    match t
    case Water => "water"
    case Zero => "zero"
    case Renewables => "renewables"
  }

  /** The team a stored key names, if it names one. */
  function ParseKey(k: string): (r: Option<Team>)
    ensures r.Some? <==> k in {"water", "zero", "renewables"}
    ensures r.Some? ==> Key(r.value) == k
  {
    if k == "water" then Some(Water)
    else if k == "zero" then Some(Zero)
    else if k == "renewables" then Some(Renewables)
    else None
  }

  /** The lower-cased text mentions none of the keywords. */
  predicate MentionsNoTeam(t: string) {
    !Includes(t, "water") && !Includes(t, "zero") && !Includes(t, "renew") && !Includes(t, "power")
  }

  /**
   * `normalizeTeam`: lower-case and trim the raw selector value, then take the
   * first keyword that occurs, trying "water", "zero", "renew", "power" in
   * that order. The empty key means that nothing matched.
   */
  function NormalizeTeam(raw: string): (key: string)
    ensures key in {"water", "zero", "renewables", ""}
  {
    Classify(Trim(Lower(raw)))
  }

  /** The keyword tests of `normalizeTeam`, on text that is already lower-cased and trimmed. */
  function Classify(t: string): (key: string)
    ensures key in {"water", "zero", "renewables", ""}
    ensures key == "water" <==> Includes(t, "water")
    ensures key == "zero" <==> !Includes(t, "water") && Includes(t, "zero")
    ensures key == "" <==> MentionsNoTeam(t)
  {
    if Includes(t, "water") then "water"
    else if Includes(t, "zero") then "zero"
    else if Includes(t, "renew") then "renewables"
    else if Includes(t, "power") then "renewables"
    else ""
  }

  /**
   * The classifier's answer, stated on the lower-cased input without the
   * trimming step: the first keyword present decides, and the key is empty
   * exactly when none of the four keywords is present.
   */
  lemma NormalizeTeamSpec(raw: string)
    ensures var t := Lower(raw);
      && (Includes(t, "water") ==> NormalizeTeam(raw) == "water")
      && (!Includes(t, "water") && Includes(t, "zero") ==> NormalizeTeam(raw) == "zero")
      && (!Includes(t, "water") && !Includes(t, "zero") && (Includes(t, "renew") || Includes(t, "power"))
          ==> NormalizeTeam(raw) == "renewables")
      && (NormalizeTeam(raw) == "" <==> MentionsNoTeam(t))
  {
    var t := Lower(raw);
    KeywordsAreWords();
    IncludesTrim(t, "water");
    IncludesTrim(t, "zero");
    IncludesTrim(t, "renew");
    IncludesTrim(t, "power");
  }

  lemma KeywordsAreWords()
    ensures IsWord("water") && IsWord("zero") && IsWord("renew") && IsWord("power")
  {
  }

  /** Ambiguous input resolves by keyword priority: "water power" is a Water entry. */
  lemma WaterBeatsPower()
    ensures NormalizeTeam("Water Power") == "water"
  {
    var t := Lower("Water Power");
    assert t[0] == 'w' && t[1] == 'a' && t[2] == 't' && t[3] == 'e' && t[4] == 'r';
    assert "water" <= t;
    assert Includes(t, "water");
    NormalizeTeamSpec("Water Power");
  }

  /**
   * `formatTeamLabel`: the display label of a key, and the fallback "Team"
   * for anything that is not a key. Every label starts with "Team".
   */
  function FormatTeamLabel(key: string): (shown: string)
    ensures shown == "Team" <==> ParseKey(key).None?
    ensures "Team" <= shown
  {
    if key == "water" then "Team Water Wise"
    else if key == "zero" then "Team Net Zero"
    else if key == "renewables" then "Team Renewables"
    else "Team"
  }

  /** Different teams get different labels, so a label identifies its team. */
  lemma LabelsIdentifyTeams(t: Team, u: Team)
    ensures FormatTeamLabel(Key(t)) == FormatTeamLabel(Key(u)) <==> t == u
  {
  }

  /** The `teams` record: one counter per team. */
  datatype Tally = Tally(water: nat, zero: nat, renewables: nat) {

    /** `teams[key]` for the key of `t`. */
    function Get(t: Team): nat {
      match t
      case Water => water
      case Zero => zero
      case Renewables => renewables
    }

    /** `teams[key] += 1`: one counter goes up by one, the other two stay. */
    function Bump(t: Team): (r: Tally)
      ensures forall u :: r.Get(u) == Get(u) + (if u == t then 1 else 0)
    {
      match t
      case Water => this.(water := water + 1)
      case Zero => this.(zero := zero + 1)
      case Renewables => this.(renewables := renewables + 1)
    }

    function Sum(): nat {
      water + zero + renewables
    }
  }
}
