/** The application session of `src/App.tsx`: the roster, the current teams and the
    history ledger, with each event handler as a transition from one state to the next. */
module App {
  import opened Common
  import Roster
  import Partition
  import History
  import CopyText
  import Text

  datatype State = State(members: seq<Name>, teams: seq<seq<Name>>, history: seq<History.Entry>)

  /** The eleven names the roster starts with. */
  const DefaultMembers: seq<Name> :=
    ["양현모", "오명진", "권금이", "장찬희", "한선우", "정수현", "이재현", "김광섭", "김종관", "김진홍", "안의성"]

  /** The session as the page first renders it: default roster, no teams, no history. */
  const Initial: State := State(DefaultMembers, [], [])

  /** `editMember`: renames one roster slot; teams and history are untouched. */
  function EditMember(s: State, i: nat, name: Name): (r: State)
    requires i < |s.members|
    ensures r.members == Roster.Edit(s.members, i, name)
    ensures r.teams == s.teams && r.history == s.history
  {
    s.(members := Roster.Edit(s.members, i, name))
  }

  /** `addMember`: appends a default name; teams and history are untouched. */
  function AddMember(s: State): (r: State)
    ensures r.members == Roster.Add(s.members)
    ensures r.teams == s.teams && r.history == s.history
  {
    s.(members := Roster.Add(s.members))
  }

  /** `removeMember`: deletes one roster slot; teams and history are untouched. */
  function RemoveMember(s: State, i: nat): (r: State)
    requires i < |s.members|
    ensures r.members == Roster.Remove(s.members, i)
    ensures r.teams == s.teams && r.history == s.history
  {
    s.(members := Roster.Remove(s.members, i))
  }

  /** `generateTeams`, given the outcome of the shuffle and the clock's reading.
      The roster is left as it was (the shuffle works on a copy); the two halves
      become the current teams and are recorded, newest first, in the history. */
  function GenerateTeams(s: State, shuffled: seq<Name>, timestamp: string): (r: State)
    requires Partition.IsPermutation(shuffled, s.members)
    ensures r.members == s.members
    ensures |r.teams| == 2 && r.teams[0] + r.teams[1] == shuffled
    ensures |r.teams[0]| == (|s.members| + 1) / 2 && |r.teams[1]| == |s.members| / 2
    ensures multiset(r.teams[0]) + multiset(r.teams[1]) == multiset(s.members)
    ensures |r.history| == Min(|s.history| + 1, History.Capacity)
    ensures r.history[0] == History.Entry(r.teams, timestamp)
    ensures r.history[1..] == s.history[..Min(|s.history|, History.Capacity - 1)]
  {
    var split := Partition.SplitAtMidpoint(shuffled);
    Partition.SplitCoversRoster(s.members, shuffled);
    assert |shuffled| == |multiset(s.members)| == |s.members|;
    var teams := [split.team1, split.team2];
    State(s.members, teams, History.Record(s.history, History.Entry(teams, timestamp)))
  }

  /** The copy button's text, when the current teams are shown at all. The page
      reads `teams[0]` and `teams[1]` whenever `teams` is non-empty. */
  function CopyResult(s: State): (r: Option<string>)
    requires |s.teams| == 0 || |s.teams| >= 2
    ensures r.Some? <==> |s.teams| > 0
  {
    if |s.teams| > 0 then Some(CopyText.Compose(s.teams[0], s.teams[1])) else None
  }

  /** One user action, with what the browser supplies for it. */
  datatype Event =
    | EditEvent(index: nat, name: Name)
    | AddEvent
    | RemoveEvent(index: nat)
    | GenerateEvent(shuffled: seq<Name>, timestamp: string)

  /** The events the page can produce in state `s`: indices come from the rendered
      roster, typed names come from a single-line text input, and the shuffle
      returns a rearrangement of the roster. */
  predicate Enabled(s: State, e: Event)
  {
    match e
    case EditEvent(i, name) => i < |s.members| && NoLineBreak(name)
    case AddEvent => true
    case RemoveEvent(i) => i < |s.members|
    case GenerateEvent(shuffled, _) => Partition.IsPermutation(shuffled, s.members)
  }

  function Step(s: State, e: Event): State
    requires Enabled(s, e)
  {
    match e
    case EditEvent(i, name) => EditMember(s, i, name)
    case AddEvent => AddMember(s)
    case RemoveEvent(i) => RemoveMember(s, i)
    case GenerateEvent(shuffled, timestamp) => GenerateTeams(s, shuffled, timestamp)
  }

  /** The state after the events in order, or None when one of them cannot occur. */
  function Run(s: State, es: seq<Event>): Option<State>
    decreases |es|
  {
    if |es| == 0 then Some(s)
    else if Enabled(s, es[0]) then Run(Step(s, es[0]), es[1..])
    else None
  }

  /** A recorded generation: two teams, split as the generator splits. */
  predicate BalancedEntry(e: History.Entry)
  {
    History.TwoTeams(e) && Partition.Balanced(e.teams[0], e.teams[1])
  }

  /** What holds of every state the page can reach. */
  predicate Inv(s: State)
  {
    && (|s.teams| == 0 || |s.teams| == 2)
    && History.Valid(s.history)
    && (forall i :: 0 <= i < |s.history| ==> BalancedEntry(s.history[i]))
    && (|s.history| == 0 <==> |s.teams| == 0)
    && (|s.history| > 0 ==> s.history[0].teams == s.teams)
    && AllNoLineBreak(s.members)
    && (forall k :: 0 <= k < |s.teams| ==> AllNoLineBreak(s.teams[k]))
  }

  lemma InitialSatisfiesInv()
    ensures Inv(Initial)
  {
  }

  /** Renaming, adding and removing members keep the invariant. */
  lemma RosterEditsKeepInv(s: State, e: Event)
    requires Inv(s) && Enabled(s, e) && !e.GenerateEvent?
    ensures Inv(Step(s, e))
  {
  }

  /** Generating teams keeps the invariant. */
  lemma GenerateKeepsInv(s: State, shuffled: seq<Name>, timestamp: string)
    requires Inv(s) && Partition.IsPermutation(shuffled, s.members)
    ensures Inv(GenerateTeams(s, shuffled, timestamp))
  {
    var r := GenerateTeams(s, shuffled, timestamp);
    History.RecordKeepsValid(s.history, History.Entry(r.teams, timestamp));
    forall i | 0 <= i < |r.history|
      ensures BalancedEntry(r.history[i])
    {
      if i > 0 {
        assert r.history[i] == r.history[1..][i - 1];
      }
    }
    assert AllNoLineBreak(shuffled) by {
      forall k | 0 <= k < |shuffled|
        ensures NoLineBreak(shuffled[k])
      {
        assert shuffled[k] in multiset(s.members);
        var j :| 0 <= j < |s.members| && s.members[j] == shuffled[k];
      }
    }
    assert forall k :: 0 <= k < |r.teams[0]| ==> r.teams[0][k] == shuffled[k];
    assert forall k :: 0 <= k < |r.teams[1]| ==> r.teams[1][k] == shuffled[|r.teams[0]| + k];
  }

  /** Every handler keeps the invariant. */
  lemma StepKeepsInv(s: State, e: Event)
    requires Inv(s) && Enabled(s, e)
    ensures Inv(Step(s, e))
  {
    if e.GenerateEvent? {
      GenerateKeepsInv(s, e.shuffled, e.timestamp);
    } else {
      RosterEditsKeepInv(s, e);
    }
  }

  /** Every sequence of events from an invariant state ends in an invariant state. */
  lemma {:induction false} RunKeepsInv(s: State, es: seq<Event>)
    requires Inv(s)
    requires Run(s, es).Some?
    ensures Inv(Run(s, es).value)
    decreases |es|
  {
    if |es| > 0 {
      StepKeepsInv(s, es[0]);
      RunKeepsInv(Step(s, es[0]), es[1..]);
    }
  }

  /** Every state reachable from the first render satisfies the invariant. */
  lemma ReachableSatisfiesInv(es: seq<Event>)
    requires Run(Initial, es).Some?
    ensures Inv(Run(Initial, es).value)
  {
    InitialSatisfiesInv();
    RunKeepsInv(Initial, es);
  }

  /** In every reachable state the history holds at most ten two-team entries, the
      past-history panel at most nine, and the current teams are empty or exactly two. */
  lemma ReachableStatesAreBounded(es: seq<Event>)
    requires Run(Initial, es).Some?
    ensures var s := Run(Initial, es).value;
      && (|s.teams| == 0 || |s.teams| == 2)
      && |s.history| <= History.Capacity
      && (forall i :: 0 <= i < |s.history| ==> History.TwoTeams(s.history[i]))
      && |History.Past(s.history)| <= History.Capacity - 1
  {
    ReachableSatisfiesInv(es);
    History.PastShowsAtMostNine(Run(Initial, es).value.history);
  }

  /** In every invariant state with teams, the copied text reads back as the two
      current team sizes and the two ", "-joined name texts, and the two sizes it
      shows differ by at most one. */
  lemma CopiedTextReadsBack(s: State)
    requires Inv(s)
    requires |s.teams| > 0
    ensures CopyResult(s).Some?
    ensures CopyText.Parse(CopyResult(s).value) == Some((
      CopyText.Line(|s.teams[0]|, Text.Join(s.teams[0], CopyText.NameSeparator)),
      CopyText.Line(|s.teams[1]|, Text.Join(s.teams[1], CopyText.NameSeparator))))
    ensures |s.teams[1]| <= |s.teams[0]| <= |s.teams[1]| + 1
  {
    CopyText.ComposeParses(s.teams[0], s.teams[1]);
  }
}
