# Event check-in widget: a verified model of its core

The widget records summit attendees at the door. Each check-in takes a
name and a team selector value. The name is trimmed. The team value is
classified into one of three teams: Water Wise, Net Zero or Renewables.
An accepted check-in adds one to the total and to that team's counter,
and appends a record to the attendee log. The page then redraws:

- the counters;
- a progress bar towards the goal of 50;
- the attendee list, newest first, with names HTML-escaped;
- once the goal is reached, a celebration banner naming the leading team
  or the teams tied for the lead.

The project models the logic inside `script.js`, without the browser:

- `text.dfy` (module `Text`): the JavaScript string operations the code
  uses. These are `trim` (ECMAScript white space and line terminators),
  lower-casing, `includes` and `join`.
- `teams.dfy` (module `Teams`): the team classifier `normalizeTeam`, the
  labels of `formatTeamLabel`, and the `teams` counter record.
- `winner.dfy` (module `Winner`): `computeWinner`. It sorts the entries
  with a stable descending sort, then keeps every team holding the top
  count.
- `escape.dfy` (module `Escape`): `escapeHtml`, written as its five
  ordered `replaceAll` passes. Escaping is proved equal to a per-character
  definition (`PassesIsEachChar`) and undone by a decoder
  (`UnescapeEscapeHtml`).
- `attendance.dfy` (module `Attendance`): the attendance state as a class
  with `total`, `teams` and `attendees` fields. It holds the state-changing
  part of `checkIn` and the validation that precedes it.
- `view.dfy` (module `View`): the decisions of the render functions. These
  are the progress percentage through `clamp`, the celebration banner as a
  datatype, and the newest-first attendee list built from a reversed copy.

Modelling choices:

- The classifier returns the string key `""` when nothing matches.
- In a tie, the tied teams are a list in key order (water, zero,
  renewables).
- Record timestamps come from the clock (`Date.now()`), which is not
  checked to be non-decreasing. The time is a parameter of a check-in, and
  records carry no order promise.
- Loading saved state checks only its shape. A check-in therefore keeps
  the count invariant only when it already held.

## Model

| member | source | states |
|---|---|---|
| `Text.Trim` | script.js:293 | `trim()` returns the slice of the input between its leading and its trailing white space: only white space lies before and after it, it neither starts nor ends with white space, and it is empty exactly when the input is all white space |
| `Text.Lower` | script.js:31 | lower-casing keeps the length and maps each ASCII capital to its small letter, leaving every other character alone |
| `Text.Includes` | script.js:32-35 | `includes(w)` holds exactly when `w` occurs at some position of the text |
| `Text.IncludesTrim` | script.js:31 | trimming never changes whether a keyword without white space occurs |
| `Text.JoinSnoc` | script.js:213 | `join(sep)` builds left to right: joining one more part appends `sep` and that part to the join of the parts before it |
| `Teams.NormalizeTeam` | script.js:29-37 | the result is always one of "water", "zero", "renewables" or "" |
| `Teams.Classify` | script.js:32-36 | on lower-cased, trimmed text: "water" exactly when it contains "water"; "zero" exactly when it contains "zero" but not "water"; "" exactly when it contains none of the four keywords |
| `Teams.NormalizeTeamSpec` | script.js:29-37 | on the lower-cased input, the first keyword present decides, in the order water, zero, renew, power; the key is "" exactly when none of the four occurs |
| `Teams.WaterBeatsPower` | script.js:32-35 | an ambiguous value such as "Water Power" is classified as water |
| `Teams.ParseKey` | script.js:61 | a key names a team exactly when it is one of the three stored keys, and naming is the inverse of `Key` |
| `Teams.FormatTeamLabel` | script.js:39-44 | the label is the fallback "Team" exactly when the key is not a team key, and every label starts with "Team" |
| `Teams.Tally.Bump` | script.js:312 | `teams[teamKey] += 1` raises that team's counter by one and leaves the other two unchanged |
| `Winner.Entries` | script.js:48 | `Object.entries(teams)` lists the three teams once each, in key order water, zero, renewables, each with its own counter |
| `Winner.SortDesc` | script.js:49 | the comparator sort returns a permutation of its input, ordered by descending count |
| `Winner.SortDescStable` | script.js:49 | the sort is stable: for every count, the entries holding it keep their original order |
| `Winner.WithCount` | script.js:53 | the filter keeps only entries whose count is the given value, and never lengthens the list |
| `Winner.WithCountKeeps` | script.js:53 | the filter keeps every entry holding the value as often as it occurs, and drops every other entry |
| `Winner.TeamsOf` | script.js:53 | `map(([k]) => k)` gives one team per entry, the team of the entry at the same position |
| `Winner.ComputeWinner` | script.js:46-56 | the count is the largest counter; the result is a tie exactly when two or more teams hold it, and then lists exactly those teams in key order; otherwise the leader is the only team holding it |
| `Winner.LeaderIsStrict` | script.js:55 | a leader has strictly more check-ins than each other team |
| `Winner.TieExample` | script.js:46-56 | counts 3, 3 and 1 give a tie between water and zero at 3 |
| `Winner.LeaderExample` | script.js:46-56 | counts 5, 2 and 1 make water the leader at 5 |
| `Escape.EscapeHtml` | script.js:171-178 | the escaped text contains no `<`, `>`, `"` or `'` |
| `Escape.ReplaceAll` | script.js:173-177 | `replaceAll(c, rep)` leaves text without `c` unchanged, removes every `c` when `rep` has none, keeps every other character, and adds nothing beyond the kept characters and those of `rep` |
| `Escape.EscapeHtmlAmpersands` | script.js:173 | because `&` is replaced first, every `&` of the output begins `&amp;`, `&lt;`, `&gt;`, `&quot;` or `&#039;` |
| `Escape.EscapeHtmlPlain` | script.js:171-178 | text containing none of the five characters comes back unchanged |
| `Escape.PassesIsEachChar` | script.js:172-177 | the five passes together escape each character on its own: no pass rewrites an entity an earlier pass inserted |
| `Escape.UnescapeEscapeHtml` | script.js:171-178 | escaping loses nothing: decoding the five entities gives back the original text |
| `Attendance.Validate` | script.js:291-308 | a name that is all white space is refused first; otherwise a team value mentioning no keyword is refused; otherwise the trimmed, nonempty name and the classified team are accepted |
| `Attendance.AttendanceState.constructor` | script.js:59-63 | the initial state has total 0, all counters 0, an empty log, and satisfies the invariant |
| `Attendance.AttendanceState.CheckIn` | script.js:291-313 | the outcome is the validation's outcome; a refusal changes no field; an acceptance raises the total by one and that team's counter by one, keeps the other counters, and appends exactly one record with the trimmed name, the team and the time; the invariant is preserved |
| `Attendance.TallyOfAppend` | script.js:311-313 | appending a record raises exactly its team's count of records by one |
| `Attendance.TallyOfSum` | script.js:59-63 | the per-team record counts add up to the number of records |
| `Attendance.ValidTotals` | script.js:59-63 | under the invariant, the total equals water + zero + renewables |
| `Attendance.ValidStateTotals` | script.js:59-63 | in any attendance state satisfying the invariant, the total equals the sum of the three counters |
| `Attendance.BlankNameFirst` | script.js:299-303 | an empty or blank name is refused with the name error, even when the team is also missing |
| `View.Clamp` | script.js:25-27 | when min <= max the result lies in [min, max], equals n when n is already inside, and is the nearer bound otherwise; when max < min the result is min |
| `View.ProgressPercent` | script.js:278-281 | the bar width lies in [0, 100], is full exactly when the total reaches the goal of 50, and is proportional to the total below it |
| `View.Celebration` | script.js:202-219 | hidden exactly below the goal; at or above it, a tie banner exactly when two or more teams share the top count, carrying that count and the tied labels joined by " & ", otherwise the leader's label and count |
| `View.FullBarIffCelebration` | script.js:205 | the progress bar is full exactly when the banner is showing |
| `View.GoalReachedWithTie` | script.js:211-214 | at 50 check-ins split 20, 20 and 10, the banner shows a tie at 20 between "Team Water Wise" and "Team Net Zero" |
| `View.Labels` | script.js:213 | `teams.map(formatTeamLabel)` labels each tied team, in order |
| `View.Reverse` | script.js:142 | the reversed copy has the same length, with element i the (n-1-i)-th original |
| `View.AttendeeRows` | script.js:141-168 | the list has one item per record, newest first: item i shows record n-1-i; the state's own log is not reordered |
| `View.Row.NameHtml` | script.js:156 | the name markup of a list item carries no tag or attribute delimiter, and decodes back to the name |
| `View.Row.TeamLabel` | script.js:156 | the team line of a list item is a real team label, never the fallback |

## Left out

- DOM lookup and construction are not modelled: `$`, `getFirstExisting`, the element references, `ensureAttendeeListUI`, `ensureCelebrationUI` and all inline styles.
- Missing page elements are not modelled. A missing greeting, counter, attendance line or progress bar means that update is skipped (script.js:248, 260-281). A missing attendee list or celebration element is created (script.js:102-132, 183-200). A missing name input or team selector reads as the empty string (script.js:292-295), so every check-in is refused: with the name error when the name input is missing, otherwise with the team error.
- `saveState` and `loadState` are not modelled, because they are `localStorage` and JSON calls. The load check looks only at the shape (a numeric `total`, a truthy `teams`, an array `attendees`), so a loaded state need not satisfy the count invariant.
- `alert`, `focus`, the input reset, the event listeners, `init`, and the greeting with its `setTimeout` auto-hide are user-interface work, events and timers.
- The text counters and the "Attendance: X/50" line of `renderCounts` are direct projections of the state into DOM text.
- `Date.now()` becomes the `now` parameter of `CheckIn`. `toLocaleString()` formatting is locale-dependent, so a list item keeps the raw time.
- The banner's emoji and wording are left out; the banner is a datatype carrying its count and labels.
- Text.Lower: lower-cases ASCII letters only. No non-ASCII character lower-cases to one of the letters of "water", "zero", "renew" or "power", so the classifier's answer is the same as with full Unicode lower-casing.
- `teamValue || ""`, `rawName || ""` and `String(str)`: null or undefined inputs and non-string names are outside the model. Inputs are strings.
- View.ProgressPercent: states the exact value 2 × total, clamped. The source computes `(total / 50) * 100` in floating point, which can differ in the last digits (29 gives 57.99999999999999).
- Winner.ComputeWinner: relies on the counters' key order water, zero, renewables as created at script.js:61. A loaded `teams` object with other keys or another order is not modelled.
- Counters are unbounded naturals. JavaScript numbers are exact only up to 2^53, which a check-in counter never reaches.
