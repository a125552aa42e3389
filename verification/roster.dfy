/** The Roster Store: the ordered list of member names and the three edits the
    roster panel offers (rename in place, append a default name, delete). */
module Roster {
  import opened Common
  import Decimal

  /** The prefix of every synthesised default name ("employee"). */
  const DefaultPrefix: string := "직원"

  /** The default name `addMember` synthesises for the `k`-th slot. */
  function DefaultName(k: nat): (name: Name)
  {
    DefaultPrefix + Decimal.NatToDecimal(k)
  }

  /** `editMember(index, newName)`: the name at `i` becomes `name` verbatim; nothing else moves. */
  function Edit(members: seq<Name>, i: nat, name: Name): (r: seq<Name>)
    requires i < |members|
    ensures |r| == |members|
    ensures r[i] == name
    ensures forall j :: 0 <= j < |r| && j != i ==> r[j] == members[j]
  {
    members[i := name]
  }

  /** `addMember()`: the old roster stays as a prefix and one default name numbered
      after the new length is appended. */
  function Add(members: seq<Name>): (r: seq<Name>)
    ensures |r| == |members| + 1
    ensures r[..|members|] == members
    ensures r[|members|] == DefaultName(|r|)
  {
    members + [DefaultName(|members| + 1)]
  }

  /** `removeMember(index)` (a `splice(index, 1)`): the name at `i` disappears and the
      names after it move one place to the left. */
  function Remove(members: seq<Name>, i: nat): (r: seq<Name>)
    requires i < |members|
    ensures |r| == |members| - 1
    ensures forall j :: 0 <= j < i ==> r[j] == members[j]
    ensures forall j :: i <= j < |r| ==> r[j] == members[j + 1]
    ensures multiset(r) + multiset{members[i]} == multiset(members)
  {
    assert members == members[..i] + [members[i]] + members[i + 1..];
    members[..i] + members[i + 1..]
  }

  /** Default names are pairwise distinct: the numbers differ, so the names do. */
  lemma DefaultNameInjective(j: nat, k: nat)
    ensures DefaultName(j) == DefaultName(k) <==> j == k
  {
    if DefaultName(j) == DefaultName(k) {
      assert Decimal.NatToDecimal(j) == DefaultName(j)[|DefaultPrefix|..];
      assert Decimal.NatToDecimal(k) == DefaultName(k)[|DefaultPrefix|..];
      Decimal.NatToDecimalInjective(j, k);
    }
  }

  /** Removing the member just added restores the roster. */
  lemma RemoveUndoesAdd(members: seq<Name>)
    ensures Remove(Add(members), |members|) == members
  {
  }

  /** Renaming a slot back to its previous name restores the roster; renaming it
      twice keeps only the second name. */
  lemma EditUndoAndOverwrite(members: seq<Name>, i: nat, a: Name, b: Name)
    requires i < |members|
    ensures Edit(Edit(members, i, a), i, members[i]) == members
    ensures Edit(Edit(members, i, a), i, b) == Edit(members, i, b)
  {
  }

  /** The roster after `k` presses of the add button. */
  function AddTimes(members: seq<Name>, k: nat): seq<Name>
    decreases k
  {
    if k == 0 then members else AddTimes(Add(members), k - 1)
  }

  /** `k` presses of the add button keep the roster as a prefix and fill the new
      slots with the default names numbered by position, counting from 1. */
  lemma {:induction false} AddTimesNumbersSlots(members: seq<Name>, k: nat)
    ensures |AddTimes(members, k)| == |members| + k
    ensures AddTimes(members, k)[..|members|] == members
    ensures forall j :: |members| <= j < |members| + k ==> AddTimes(members, k)[j] == DefaultName(j + 1)
    decreases k
  {
    if k > 0 {
      AddTimesNumbersSlots(Add(members), k - 1);
    }
  }

  /** Default names are numbered from the current length: when the last slot holds
      the default name for the current length, removing any other member and then
      adding one puts that same name on the roster twice. */
  lemma RemoveThenAddRepeatsLastDefault(members: seq<Name>, i: nat)
    requires i < |members| - 1
    requires members[|members| - 1] == DefaultName(|members|)
    ensures var r := Add(Remove(members, i));
      r[|r| - 2] == r[|r| - 1] == DefaultName(|members|)
  {
  }

  /** The instance on the roster `직원1, 직원2` with the first member removed. */
  lemma RemoveThenAddCanRepeatName()
    ensures var r := Add(Remove([DefaultName(1), DefaultName(2)], 0));
      r == [DefaultName(2), DefaultName(2)]
  {
  }
}
