/** The Partition Generator: a shuffled copy of the roster cut at the rounded-up
    midpoint. The shuffle itself (lodash `_.shuffle`) is outside the model; any
    rearrangement of the roster stands in for its outcome. */
module Partition {
  import opened Common

  /** `shuffled` is a rearrangement of `members`: the same names, each as often. */
  predicate IsPermutation(shuffled: seq<Name>, members: seq<Name>)
  {
    multiset(shuffled) == multiset(members)
  }

  /** `Math.ceil(n / 2)`: the least `m` with `2 * m >= n`. */
  function Midpoint(n: nat): (m: nat)
    ensures n <= 2 * m <= n + 1
  {
    (n + 1) / 2
  }

  datatype Split = Split(team1: seq<Name>, team2: seq<Name>)

  /** Two team sizes differ by at most one, the first team never the smaller. */
  predicate Balanced(team1: seq<Name>, team2: seq<Name>)
  {
    |team2| <= |team1| <= |team2| + 1
  }

  /** `slice(0, midpoint)` and `slice(midpoint)` of the shuffled roster. */
  function SplitAtMidpoint(shuffled: seq<Name>): (s: Split)
    ensures s.team1 + s.team2 == shuffled
    ensures Balanced(s.team1, s.team2)
  {
    var m := Midpoint(|shuffled|);
    Split(shuffled[..m], shuffled[m..])
  }

  /** Team sizes: the first team gets the odd member out. An empty roster gives two
      empty teams and a single member goes alone into the first team. */
  lemma SplitSizes(shuffled: seq<Name>)
    ensures |SplitAtMidpoint(shuffled).team1| == (|shuffled| + 1) / 2
    ensures |SplitAtMidpoint(shuffled).team2| == |shuffled| / 2
    ensures |shuffled| == 0 ==> SplitAtMidpoint(shuffled) == Split([], [])
    ensures |shuffled| == 1 ==> SplitAtMidpoint(shuffled) == Split(shuffled, [])
  {
  }

  /** Whatever the shuffle did, the two teams together hold every member of the
      roster exactly as often as the roster does. */
  lemma SplitCoversRoster(members: seq<Name>, shuffled: seq<Name>)
    requires IsPermutation(shuffled, members)
    ensures var s := SplitAtMidpoint(shuffled);
      multiset(s.team1) + multiset(s.team2) == multiset(members)
    ensures var s := SplitAtMidpoint(shuffled);
      forall x :: x in members <==> x in s.team1 || x in s.team2
  {
    var s := SplitAtMidpoint(shuffled);
    assert multiset(s.team1 + s.team2) == multiset(s.team1) + multiset(s.team2);
    forall x
      ensures x in members <==> x in s.team1 || x in s.team2
    {
      assert x in members <==> x in multiset(members);
      assert x in s.team1 <==> x in multiset(s.team1);
      assert x in s.team2 <==> x in multiset(s.team2);
    }
  }

  /** No name occurs twice. */
  predicate Distinct(names: seq<Name>)
  {
    forall i, j :: 0 <= i < j < |names| ==> names[i] != names[j]
  }

  /** A name occurring at two positions occurs at least twice in the multiset. */
  lemma {:induction false} TwoPositionsCountTwice(names: seq<Name>, i: nat, j: nat)
    requires i < j < |names| && names[i] == names[j]
    ensures multiset(names)[names[i]] >= 2
  {
    var x := names[i];
    assert names == names[..j] + [names[j]] + names[j + 1..];
    assert names[..j] == names[..i] + [names[i]] + names[i + 1..j];
    assert multiset(names[..j])[x] >= 1;
  }

  /** In a sequence without repetitions every name counts at most once. */
  lemma {:induction false} DistinctCountsAtMostOnce(names: seq<Name>, x: Name)
    requires Distinct(names)
    ensures multiset(names)[x] <= 1
    decreases |names|
  {
    if |names| > 0 {
      var rest := names[1..];
      assert names == [names[0]] + rest;
      assert Distinct(rest) by {
        forall i, j | 0 <= i < j < |rest|
          ensures rest[i] != rest[j]
        {
          assert rest[i] == names[i + 1] && rest[j] == names[j + 1];
        }
      }
      DistinctCountsAtMostOnce(rest, x);
      if x == names[0] {
        assert x !in rest by {
          forall k | 0 <= k < |rest|
            ensures rest[k] != x
          {
            assert rest[k] == names[k + 1];
          }
        }
      }
    }
  }

  /** A roster without repeated names splits into teams sharing no name. */
  lemma DistinctRosterGivesDisjointTeams(members: seq<Name>, shuffled: seq<Name>)
    requires IsPermutation(shuffled, members)
    requires Distinct(members)
    ensures var s := SplitAtMidpoint(shuffled);
      forall x :: !(x in s.team1 && x in s.team2)
  {
    var s := SplitAtMidpoint(shuffled);
    forall x | x in s.team1 && x in s.team2
      ensures false
    {
      var a :| 0 <= a < |s.team1| && s.team1[a] == x;
      var b :| 0 <= b < |s.team2| && s.team2[b] == x;
      assert shuffled[a] == x && shuffled[|s.team1| + b] == x;
      TwoPositionsCountTwice(shuffled, a, |s.team1| + b);
      DistinctCountsAtMostOnce(members, x);
    }
  }

  /** The rotation of `members` that starts at position `i`. */
  function Rotate(members: seq<Name>, i: nat): (r: seq<Name>)
    requires i <= |members|
    ensures IsPermutation(r, members)
  {
    assert members == members[..i] + members[i..];
    members[i..] + members[..i]
  }

  /** Every member can land in the first team, and once there are at least two
      members, in the second team too: no outcome is ruled out by the split. */
  lemma EveryMemberCanLandInEitherTeam(members: seq<Name>, i: nat)
    requires i < |members|
    ensures exists shuffled :: IsPermutation(shuffled, members) && members[i] in SplitAtMidpoint(shuffled).team1
    ensures |members| >= 2 ==>
      exists shuffled :: IsPermutation(shuffled, members) && members[i] in SplitAtMidpoint(shuffled).team2
  {
    var first := Rotate(members, i);
    assert first[0] == members[i];
    assert SplitAtMidpoint(first).team1[0] == members[i];
    if |members| >= 2 {
      var last := Rotate(members, i + 1);
      var n := |members|;
      assert last[n - 1] == members[i];
      var s := SplitAtMidpoint(last);
      assert s.team2[|s.team2| - 1] == members[i];
    }
  }

  /** Five distinct names: whatever the shuffle, the first team has three of them,
      the second two, and every name is in exactly one. */
  lemma FiveMemberScenario(shuffled: seq<Name>)
    requires IsPermutation(shuffled, ["A", "B", "C", "D", "E"])
    ensures var s := SplitAtMidpoint(shuffled);
      && |s.team1| == 3 && |s.team2| == 2
      && (forall x :: x in ["A", "B", "C", "D", "E"] <==> x in s.team1 || x in s.team2)
      && (forall x :: !(x in s.team1 && x in s.team2))
  {
    var members: seq<Name> := ["A", "B", "C", "D", "E"];
    assert |shuffled| == |multiset(members)| == 5;
    SplitCoversRoster(members, shuffled);
    DistinctRosterGivesDisjointTeams(members, shuffled);
  }
}
