# Random lunch-team generator — Dafny model

This project models the logic of `src/App.tsx` of the random lunch-team
generator. That logic is a roster of member names that can be renamed,
extended and shortened, and a generator that cuts a shuffled copy of the
roster into two teams at the rounded-up midpoint. The generated teams become
the "current teams" and are prepended to a history of at most ten entries.
The page also offers a clipboard text built from the current teams.

Each React handler is a pure transition on an immutable `App.State`
(`members`, `teams`, `history`). The page's one session is a sequence of
`App.Event`s run from `App.Initial`. Modules follow the components:

- `Common`: the `Name` type, `Option`, `Min`, and `Take`, which is `slice(0, k)`.
- `Decimal`: JavaScript's printing of a non-negative integer, and the reading back of it.
- `Text`: `Array.prototype.join`.
- `Roster`: `editMember`, `addMember` and `removeMember` on the name list.
- `Partition`: `Math.ceil(n / 2)` and the cut of the shuffled roster into two teams.
- `History`: the ten-entry, newest-first ledger and the past-history view.
- `CopyText`: the clipboard text, and a reader for it that pins the format down.
- `App`: the state, the handlers, event traces and the whole-state invariant.

Three things the page takes from outside its own code are parameters here:

- The lodash shuffle is any `shuffled` with the same multiset of names as the roster.
- The locale timestamp is an opaque string.
- Typed names are strings without a line break, which is all an `<input type="text">` can hold.

Three facts about `src/App.tsx` shape the model:

- The clipboard labels are `팀1` and `팀2`.
- The copy action ends in an `alert`; there is no toast and no timer.
- `editMember` and `removeMember` perform no bounds check.

## Model

| member | source | states |
|---|---|---|
| Roster.Edit | src/App.tsx:17-21 | renaming slot `i` keeps the length, puts the new name at `i` verbatim and leaves every other slot unchanged |
| Roster.Add | src/App.tsx:23-25 | adding keeps the old roster as a prefix, grows it by one, and the new last name is `직원` followed by the new length |
| Roster.Remove | src/App.tsx:27-31 | removing slot `i` shortens the roster by one; names before `i` stay put, names after it move one left, and exactly one occurrence of the removed name leaves the multiset |
| Roster.DefaultNameInjective | src/App.tsx:24 | two default names are equal exactly when their numbers are equal |
| Roster.RemoveUndoesAdd | src/App.tsx:23-31 | removing the member just added gives back the previous roster |
| Roster.EditUndoAndOverwrite | src/App.tsx:17-21 | renaming a slot back to its old name restores the roster; a second rename of the same slot overrides the first |
| Roster.AddTimesNumbersSlots | src/App.tsx:23-25 | `k` presses of the add button keep the roster as a prefix and fill slot `j` with the default name numbered `j + 1` |
| Roster.RemoveThenAddRepeatsLastDefault | src/App.tsx:23-31 | for every roster whose last slot holds the default name for its length, removing any other member and then adding leaves that name in the last two slots |
| Roster.RemoveThenAddCanRepeatName | src/App.tsx:24 | because the number is taken from the current length, removing the first of `직원1, 직원2` and then adding gives `직원2` twice |
| Decimal.NatToDecimal | src/App.tsx:24 | the printed number is a canonical numeral (digits only, no leading zero) and is "0" exactly for zero |
| Decimal.DecimalRoundTrip | src/App.tsx:24 | reading a printed number gives the number back |
| Decimal.CanonicalRoundTrip | src/App.tsx:114 | printing the value of a canonical numeral gives that numeral back, so printing is a bijection onto canonical numerals |
| Decimal.NatToDecimalInjective | src/App.tsx:24 | two numbers print alike if and only if they are equal |
| Text.Join | src/App.tsx:114 | joining no names gives "", joining one name gives that name, and the joined length is the names' total length plus one separator between each pair of neighbours |
| Text.JoinSnoc | src/App.tsx:114 | joining one more name on the right appends one separator and that name |
| Text.JoinAppend | src/App.tsx:114 | joining two non-empty groups of names equals joining each group and putting one separator between them |
| Text.JoinAvoids | src/App.tsx:114 | a character that occurs in neither the separator nor any name does not occur in the joined text |
| Text.JoinLoop | src/App.tsx:114 | the engine's left-to-right accumulation of `join` produces the same text as the recursive definition |
| Partition.Midpoint | src/App.tsx:35 | the midpoint is the least `m` with `2m >= n`, which is `Math.ceil(n / 2)` |
| Partition.SplitAtMidpoint | src/App.tsx:35-38 | the two slices put back together give the shuffled roster, and the teams are balanced: the first is as large as the second or one larger |
| Partition.SplitSizes | src/App.tsx:35-38 | the first team has `(n+1)/2` members and the second `n/2`; an empty roster gives two empty teams, and a single member goes alone into the first team |
| Partition.SplitCoversRoster | src/App.tsx:34-38 | for every permutation of the roster, the two teams' multisets add up to the roster's multiset, and a name is on the roster exactly when it is in one of the teams |
| Partition.DistinctRosterGivesDisjointTeams | src/App.tsx:34-38 | when no name is repeated on the roster, no name is in both teams |
| Partition.EveryMemberCanLandInEitherTeam | src/App.tsx:34-38 | every member lands in the first team for some outcome of the shuffle, and in the second team for another once there are two or more members |
| Partition.FiveMemberScenario | src/App.tsx:34-38 | for every shuffle of the five distinct names A–E the teams have 3 and 2 members, cover all five names and share none |
| History.Record | src/App.tsx:45 | the ledger grows by one up to ten entries; the new entry is first, and the older entries follow in order with only the oldest dropped past ten |
| History.RecordKeepsValid | src/App.tsx:40-45 | recording a two-team entry on a valid ledger gives a valid ledger, meaning at most ten entries, each of two teams |
| History.RecordOnFullEvictsOldest | src/App.tsx:45 | on a full ledger, recording gives the new entry followed by the first nine old entries |
| History.RecordAllKeepsNewestTen | src/App.tsx:45 | after any series of recordings the ledger is the recorded entries newest first, then the older ledger, cut to ten |
| History.Past | src/App.tsx:127-131 | the past-history panel is non-empty exactly when the ledger has more than one entry, and shows every entry after the newest, in order |
| History.PastShowsAtMostNine | src/App.tsx:127-131 | for a valid ledger the panel shows at most nine entries, each of two teams |
| CopyText.ParseTeamLine | src/App.tsx:114 | one team's line reads back as the team's size and its names joined with ", " |
| CopyText.ComposeParses | src/App.tsx:114 | when no name of team 1 holds a line break, the clipboard text reads back as team 1's line and then team 2's line, giving the two team sizes and the two ", "-joined name texts |
| CopyText.ComposeDoesNotDetermineTeams | src/App.tsx:114 | teams `a, b` + `c` and `a` + `b, c` (each against `d`) copy to the same text, so the text does not determine the names when a name contains ", " |
| CopyText.ComposeExample | src/App.tsx:114 | teams `A, B` and `C` give exactly `팀1(2명): A, B` and `팀2(1명): C`, with a line break between them |
| App.EditMember | src/App.tsx:17-21 | the rename changes the roster as `Roster.Edit` does and leaves the current teams and the history unchanged |
| App.AddMember | src/App.tsx:23-25 | the add changes the roster as `Roster.Add` does and leaves the current teams and the history unchanged |
| App.RemoveMember | src/App.tsx:27-31 | the removal changes the roster as `Roster.Remove` does and leaves the current teams and the history unchanged |
| App.GenerateTeams | src/App.tsx:33-46 | for any shuffle outcome: the roster is unchanged; the current teams are exactly two, of sizes `ceil(n/2)` and `floor(n/2)`, that concatenate to the shuffle and together hold the roster's multiset; the history gains the same two teams in front and drops only its oldest entry past ten |
| App.CopyResult | src/App.tsx:92-114 | the copy text exists exactly when current teams are shown |
| App.InitialSatisfiesInv | src/App.tsx:10-15 | the first render (default roster, no teams, no history) satisfies the invariant |
| App.RosterEditsKeepInv | src/App.tsx:17-31 | renaming, adding and removing members keep the invariant |
| App.GenerateKeepsInv | src/App.tsx:33-46 | generating teams keeps the invariant, including that history entry 0 holds the current teams and every entry is balanced |
| App.StepKeepsInv | src/App.tsx:17-46 | every handler keeps the invariant |
| App.RunKeepsInv | src/App.tsx:17-46 | every sequence of events from an invariant state ends in an invariant state |
| App.ReachableSatisfiesInv | src/App.tsx:13-46 | every state reachable from the first render satisfies the invariant |
| App.ReachableStatesAreBounded | src/App.tsx:33-45 | in every reachable state the teams are empty or exactly two, the history holds at most ten entries of two teams each, and the past-history panel at most nine |
| App.CopiedTextReadsBack | src/App.tsx:114 | in every invariant state with teams, the copied text reads back as the two current team sizes and the two ", "-joined name texts, and the two sizes it shows differ by at most one with team 1 never the smaller |

The invariant `App.Inv` says the following:

- The teams are empty or exactly two.
- The history is valid.
- Every history entry is balanced.
- The history is empty exactly when the teams are.
- History entry 0 holds the current teams.
- No member or team name holds a line break.

## Left out

- Rendering, JSX and CSS classes (src/App.tsx:48-147) are presentation only. The team lines drawn at lines 100, 105, 136 and 139 have the same shape as `CopyText.TeamLine`, but they are not modelled separately.
- The uniformity of lodash's `_.shuffle` (src/App.tsx:34) is a probabilistic claim. The model quantifies over every permutation instead.
- `new Date().toLocaleString()` (src/App.tsx:44) depends on the clock and the locale. The timestamp is an opaque string parameter.
- `navigator.clipboard.writeText` and `alert` (src/App.tsx:115-116) are browser I/O. Only the string handed to them is modelled, and a clipboard failure is not.
- JavaScript's behaviour for an out-of-range or negative index in `newMembers[index] = …` and `splice` is not modelled. The page only passes indices of rendered roster slots, so these are preconditions (`Roster.Edit`, `Roster.Remove`) and enabling conditions (`App.Enabled`).
- App.CopyResult: it requires that `teams` is not a one-element list. The page would read `teams[1]` and fail for such a list, and `App.Inv` shows that no reachable state has one.
- The transient toast notifier, with its debounce and auto-hide timers, is not part of this model. `src/App.tsx` shows no toast; it calls `alert` after copying.
- The copied text does not determine the teams when a name contains ", ". The round trip recovers the two sizes and the two joined name texts, not the individual names (`CopyText.ComposeDoesNotDetermineTeams`).
- The model ignores the size of JavaScript numbers. Roster lengths are unbounded naturals, and `Math.ceil(n / 2)` is the exact integer `(n + 1) / 2`.
