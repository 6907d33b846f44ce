/**
 * `computeWinner`: the leading team, or the teams tied for the lead.
 * The source sorts the `[key, count]` entries of the counters by count,
 * descending, with JavaScript's stable sort, takes the first entry as the
 * top, and keeps every entry whose count equals the top count.
 */
module Winner {
  import opened Teams

  /** One `[key, count]` pair of `Object.entries(teams)`. */
  datatype Entry = Entry(team: Team, count: nat)

  /**
   * `Object.entries(teams)`: one entry per team, carrying that team's
   * counter, in the key order water, zero, renewables of the state record.
   */
  function Entries(c: Tally): (r: seq<Entry>)
    ensures TeamsOf(r) == [Water, Zero, Renewables]
    ensures forall k :: 0 <= k < |r| ==> r[k].count == c.Get(r[k].team)
  {
    [Entry(Water, c.water), Entry(Zero, c.zero), Entry(Renewables, c.renewables)]
  }

  ghost predicate SortedDesc(s: seq<Entry>) {
    forall i, j :: 0 <= i < j < |s| ==> s[i].count >= s[j].count
  }

  /**
   * Inserts `x` in front of the first entry whose count is not larger, so it
   * stays ahead of every entry of equal count that came after it.
   */
  function Insert(x: Entry, s: seq<Entry>): (r: seq<Entry>)
    ensures multiset(r) == multiset(s) + multiset{x}
    ensures |r| == |s| + 1
    ensures r[0] == x || (s != [] && r[0] == s[0])
    ensures SortedDesc(s) ==> SortedDesc(r)
  {
    if s == [] || s[0].count <= x.count then
      assert SortedDesc(s) ==> SortedDesc([x] + s) by {
        if SortedDesc(s) { ConsSorted(x, s); }
      }
      [x] + s
    else
      var rest := Insert(x, s[1..]);
      assert s == [s[0]] + s[1..];
      assert SortedDesc(s) ==> SortedDesc([s[0]] + rest) by {
        if SortedDesc(s) {
          SortedTail(s);
          ConsSorted(s[0], rest);
        }
      }
      [s[0]] + rest
  }

  /** An entry that counts at least as much as the head of a sorted list can go in front of it. */
  lemma ConsSorted(y: Entry, s: seq<Entry>)
    requires SortedDesc(s)
    requires s == [] || y.count >= s[0].count
    ensures SortedDesc([y] + s)
  {
    var r := [y] + s;
    forall i, j | 0 <= i < j < |r| ensures r[i].count >= r[j].count {
      assert r[j] == s[j - 1];
      if i > 0 {
        assert r[i] == s[i - 1];
      } else {
        assert s[0].count >= s[j - 1].count;
      }
    }
  }

  lemma SortedTail(s: seq<Entry>)
    requires SortedDesc(s) && s != []
    ensures SortedDesc(s[1..])
  {
    forall i, j | 0 <= i < j < |s[1..]| ensures s[1..][i].count >= s[1..][j].count {
      assert s[1..][i] == s[i + 1] && s[1..][j] == s[j + 1];
    }
  }

  /** `entries.sort((a, b) => b[1] - a[1])`: a stable sort by descending count. */
  function SortDesc(s: seq<Entry>): (r: seq<Entry>)
    ensures multiset(r) == multiset(s)
    ensures |r| == |s|
    ensures SortedDesc(r)
  {
    if s == [] then []
    else
      assert s == [s[0]] + s[1..];
      Insert(s[0], SortDesc(s[1..]))
  }

  /**
   * `entries.filter(([, v]) => v === topVal)`: the entries whose count is
   * `v`, in their original order.
   */
  function WithCount(s: seq<Entry>, v: nat): (r: seq<Entry>)
    ensures |r| <= |s|
    ensures forall k :: 0 <= k < |r| ==> r[k].count == v
  {
    if s == [] then []
    else (if s[0].count == v then [s[0]] else []) + WithCount(s[1..], v)
  }

  /** The filter keeps each entry of count `v` as often as it occurs and drops every other entry. */
  lemma {:induction false} WithCountKeeps(s: seq<Entry>, v: nat)
    ensures forall e :: multiset(WithCount(s, v))[e] == (if e.count == v then multiset(s)[e] else 0)
  {
    if s != [] {
      WithCountKeeps(s[1..], v);
      assert s == [s[0]] + s[1..];
    }
  }

  /** `.map(([k]) => k)`: the team of each entry, in order. */
  function TeamsOf(s: seq<Entry>): (ts: seq<Team>)
    ensures |ts| == |s| && forall i :: 0 <= i < |s| ==> ts[i] == s[i].team
  {
    if s == [] then [] else [s[0].team] + TeamsOf(s[1..])
  }

  /** Filtering a list with `y` in front filters `y` on its own, then the rest. */
  lemma WithCountCons(y: Entry, s: seq<Entry>, v: nat)
    ensures WithCount([y] + s, v) == (if y.count == v then [y] else []) + WithCount(s, v)
  {
    assert ([y] + s)[1..] == s;
  }

  /**
   * An entry `y` that counts more than `x` can be put in front of both sides
   * of "filtering `rest` gives `x`'s part followed by filtering `t`".
   */
  lemma WithCountPass(y: Entry, x: Entry, rest: seq<Entry>, t: seq<Entry>, v: nat)
    requires y.count > x.count
    requires WithCount(rest, v) == (if x.count == v then [x] else []) + WithCount(t, v)
    ensures WithCount([y] + rest, v) == (if x.count == v then [x] else []) + WithCount([y] + t, v)
  {
    WithCountCons(y, rest, v);
    WithCountCons(y, t, v);
    var head := if x.count == v then [x] else [];
    var first := if y.count == v then [y] else [];
    assert first == [] || head == [];
    assert first + (head + WithCount(t, v)) == head + (first + WithCount(t, v));
  }

  /** Inserting `x` puts it ahead of exactly the entries it passes, which all count more. */
  lemma {:induction false} WithCountInsert(x: Entry, s: seq<Entry>, v: nat)
    ensures WithCount(Insert(x, s), v) == (if x.count == v then [x] else []) + WithCount(s, v)
  {
    if s == [] || s[0].count <= x.count {
      WithCountCons(x, s, v);
    } else {
      WithCountInsert(x, s[1..], v);
      WithCountPass(s[0], x, Insert(x, s[1..]), s[1..], v);
      assert s == [s[0]] + s[1..];
    }
  }

  /** Stability: sorting keeps the relative order of entries with equal counts. */
  lemma {:induction false} SortDescStable(s: seq<Entry>, v: nat)
    ensures WithCount(SortDesc(s), v) == WithCount(s, v)
  {
    if s != [] {
      SortDescStable(s[1..], v);
      WithCountInsert(s[0], SortDesc(s[1..]), v);
    }
  }

  /** The largest of the three counters. */
  function MaxCount(c: Tally): (m: nat)
    ensures forall t :: c.Get(t) <= m
    ensures exists t :: c.Get(t) == m
  {
    assert c.Get(Water) == c.water && c.Get(Zero) == c.zero && c.Get(Renewables) == c.renewables;
    if c.water >= c.zero && c.water >= c.renewables then c.water
    else if c.zero >= c.renewables then c.zero
    else c.renewables
  }

  /** The teams holding the largest count, in key order water, zero, renewables. */
  function AtMax(c: Tally): (ts: seq<Team>)
    ensures forall t :: t in ts <==> c.Get(t) == MaxCount(c)
    ensures 1 <= |ts| <= 3
  {
    var m := MaxCount(c);
    (if c.water == m then [Water] else [])
    + (if c.zero == m then [Zero] else [])
    + (if c.renewables == m then [Renewables] else [])
  }

  /** What `computeWinner` returns: `{tie: false, team, count}` or `{tie: true, teams, count}`. */
  datatype Outcome = Leader(team: Team, count: nat) | Tie(teams: seq<Team>, count: nat)

  /**
   * `computeWinner`: the count is the largest counter; it is a tie exactly
   * when two or more teams hold it, and then the tied teams are listed in key
   * order; otherwise the leader is the one team that holds it.
   */
  function ComputeWinner(c: Tally): (w: Outcome)
    ensures w.count == MaxCount(c)
    ensures w.Tie? <==> |AtMax(c)| >= 2
    ensures w.Tie? ==> w.teams == AtMax(c)
    ensures w.Leader? ==> AtMax(c) == [w.team]
  {
    var entries := Entries(c);
    var sorted := SortDesc(entries);
    var top := sorted[0];
    var tied := TeamsOf(WithCount(sorted, top.count));
    TopIsMax(c);
    WithCountMax(c);
    SortDescStable(entries, top.count);
    if |tied| > 1 then Tie(tied, top.count) else Leader(top.team, top.count)
  }

  /** The first sorted entry carries the largest count, paired with its own team. */
  lemma TopIsMax(c: Tally)
    ensures var top := SortDesc(Entries(c))[0];
      top.count == MaxCount(c) && c.Get(top.team) == top.count
  {
    var entries := Entries(c);
    var sorted := SortDesc(entries);
    var top := sorted[0];
    assert top in multiset(entries);
    assert top in entries;
    assert c.Get(top.team) == top.count;
    forall t ensures c.Get(t) <= top.count {
      var e := Entry(t, c.Get(t));
      assert e in entries;
      assert e in multiset(sorted);
      assert e in sorted;
      var k :| 0 <= k < |sorted| && sorted[k] == e;
    }
    assert top.count == MaxCount(c);
  }

  /** Filtering the entries, in key order, by the largest count gives exactly `AtMax`. */
  lemma WithCountMax(c: Tally)
    ensures TeamsOf(WithCount(Entries(c), MaxCount(c))) == AtMax(c)
  {
    var m := MaxCount(c);
    var e := Entries(c);
    assert e[1..] == [Entry(Zero, c.zero), Entry(Renewables, c.renewables)];
    assert e[1..][1..] == [Entry(Renewables, c.renewables)];
    assert e[1..][1..][1..] == [];
    var w0 := if c.water == m then [Entry(Water, c.water)] else [];
    var w1 := if c.zero == m then [Entry(Zero, c.zero)] else [];
    var w2 := if c.renewables == m then [Entry(Renewables, c.renewables)] else [];
    assert WithCount(e[1..][1..], m) == w2;
    assert WithCount(e[1..], m) == w1 + w2;
    assert WithCount(e, m) == w0 + (w1 + w2);
  }

  /** A leader holds strictly more than each other team. */
  lemma LeaderIsStrict(c: Tally, u: Team)
    ensures var w := ComputeWinner(c);
      w.Leader? && u != w.team ==> c.Get(u) < w.count
  {
    var w := ComputeWinner(c);
    if w.Leader? && u != w.team {
      assert u !in AtMax(c);
    }
  }

  /** Three counts of 3, 3 and 1 tie water and zero at 3. */
  lemma TieExample()
    ensures ComputeWinner(Tally(3, 3, 1)) == Tie([Water, Zero], 3)
  {
    var c := Tally(3, 3, 1);
    assert MaxCount(c) == 3;
    assert AtMax(c) == [Water, Zero];
  }

  /** Counts of 20, 20 and 10 tie water and zero at 20. */
  lemma TieAtTwenty()
    ensures ComputeWinner(Tally(20, 20, 10)) == Tie([Water, Zero], 20)
  {
    var c := Tally(20, 20, 10);
    assert MaxCount(c) == 20;
    assert AtMax(c) == [Water, Zero];
  }

  /** Counts of 5, 2 and 1 make water the leader at 5. */
  lemma LeaderExample()
    ensures ComputeWinner(Tally(5, 2, 1)) == Leader(Water, 5)
  {
    var c := Tally(5, 2, 1);
    assert MaxCount(c) == 5;
    assert AtMax(c) == [Water];
  }
}
