/** The text the "copy result" button puts on the clipboard: one line per team,
    `팀1(<size>명): <names>` and `팀2(<size>명): <names>`, names separated by ", ".
    A reader of that text is given alongside, so that the format is pinned down by
    what can be recovered from it. */
module CopyText {
  import opened Common
  import Decimal
  import Text

  const Team1Label: string := "팀1"
  const Team2Label: string := "팀2"
  const NameSeparator: string := ", "
  /** What follows the size: the counter word for people, a closing parenthesis, ": ". */
  const CountSuffix: string := "명): "

  /** One team's line: tag, size in parentheses, then the joined names. */
  function TeamLine(tag: string, team: seq<Name>): string
  {
    tag + "(" + Decimal.NatToDecimal(|team|) + CountSuffix + Text.Join(team, NameSeparator)
  }

  /** The clipboard text for the current teams. */
  function Compose(team1: seq<Name>, team2: seq<Name>): string
  {
    TeamLine(Team1Label, team1) + "\n" + TeamLine(Team2Label, team2)
  }

  /** The fields a reader recovers from one team line. */
  datatype Line = Line(count: nat, names: string)

  /** The first position of `c` in `s`, if any. */
  function IndexOf(s: string, c: char): (r: Option<nat>)
    ensures r.None? ==> forall j :: 0 <= j < |s| ==> s[j] != c
    ensures r.Some? ==> r.value < |s| && s[r.value] == c
    ensures r.Some? ==> forall j :: 0 <= j < r.value ==> s[j] != c
  {
    if |s| == 0 then None
    else if s[0] == c then Some(0)
    else
      var rest := IndexOf(s[1..], c);
      if rest.None? then None else Some(rest.value + 1)
  }

  /** The longest prefix of `s` made of digits. */
  function TakeDigits(s: string): (d: string)
    ensures d <= s
    ensures Decimal.AllDigits(d)
    ensures |d| < |s| ==> !Decimal.IsDigit(s[|d|])
  {
    if |s| > 0 && Decimal.IsDigit(s[0]) then [s[0]] + TakeDigits(s[1..]) else []
  }

  /** Reads `tag(<digits>명): <rest>`; fails when the line has another shape. */
  function ParseLine(tag: string, line: string): (r: Option<Line>)
    ensures r.Some? ==> tag + "(" <= line
  {
    var head := tag + "(";
    if |line| < |head| || line[..|head|] != head then None
    else
      var rest := line[|head|..];
      var digits := TakeDigits(rest);
      var after := rest[|digits|..];
      if |digits| == 0 || |after| < |CountSuffix| || after[..|CountSuffix|] != CountSuffix then None
      else Some(Line(Decimal.DecimalValue(digits), after[|CountSuffix|..]))
  }

  /** Reads a clipboard text back into its two team lines. */
  function Parse(text: string): Option<(Line, Line)>
  {
    match IndexOf(text, '\n')
    case None => None
    case Some(p) =>
      match (ParseLine(Team1Label, text[..p]), ParseLine(Team2Label, text[p + 1..]))
      case (Some(a), Some(b)) => Some((a, b))
      case _ => None
  }

  /** A digit run followed by a non-digit is exactly what `TakeDigits` takes. */
  lemma {:induction false} TakeDigitsOfNumeral(d: string, rest: string)
    requires Decimal.AllDigits(d)
    requires |rest| > 0 && !Decimal.IsDigit(rest[0])
    ensures TakeDigits(d + rest) == d
    decreases |d|
  {
    if |d| > 0 {
      assert (d + rest)[1..] == d[1..] + rest;
      TakeDigitsOfNumeral(d[1..], rest);
    }
  }

  /** A line of the right shape reads back as the value of its numeral and the text after the suffix. */
  lemma ParseWellFormedLine(tag: string, num: string, names: string)
    requires 1 <= |num| && Decimal.AllDigits(num)
    ensures ParseLine(tag, tag + "(" + num + CountSuffix + names) == Some(Line(Decimal.DecimalValue(num), names))
  {
    var head := tag + "(";
    var line := tag + "(" + num + CountSuffix + names;
    assert line == head + (num + (CountSuffix + names));
    assert line[..|head|] == head;
    var rest := line[|head|..];
    assert rest == num + (CountSuffix + names);
    assert !Decimal.IsDigit((CountSuffix + names)[0]);
    TakeDigitsOfNumeral(num, CountSuffix + names);
    var after := rest[|num|..];
    assert after == CountSuffix + names;
    assert after[..|CountSuffix|] == CountSuffix;
    assert after[|CountSuffix|..] == names;
  }

  /** A team line reads back as the team's size and its joined names. */
  lemma ParseTeamLine(tag: string, team: seq<Name>)
    ensures ParseLine(tag, TeamLine(tag, team)) == Some(Line(|team|, Text.Join(team, NameSeparator)))
  {
    ParseWellFormedLine(tag, Decimal.NatToDecimal(|team|), Text.Join(team, NameSeparator));
    Decimal.DecimalRoundTrip(|team|);
  }

  /** A team line holds no line break when no name does. */
  lemma TeamLineNoLineBreak(tag: string, team: seq<Name>)
    requires NoLineBreak(tag)
    requires AllNoLineBreak(team)
    ensures NoLineBreak(TeamLine(tag, team))
  {
    Text.JoinAvoids(team, NameSeparator, '\n');
    NumeralNoLineBreak(|team|);
  }

  /** A numeral holds no line break. */
  lemma NumeralNoLineBreak(n: nat)
    ensures NoLineBreak(Decimal.NatToDecimal(n))
  {
  }

  /** In two lines joined by a line break, the first break is the one joining them. */
  lemma IndexOfFirstBreak(a: string, b: string)
    requires NoLineBreak(a)
    ensures IndexOf(a + "\n" + b, '\n') == Some(|a|)
  {
    var t := a + "\n" + b;
    assert t[|a|] == '\n';
    assert forall j :: 0 <= j < |a| ==> t[j] == a[j];
  }

  /** Clipboard round trip: when no name of the first team holds a line break, the
      copied text reads back as the two team sizes and the two ", "-joined name
      texts, in order. The names themselves are not recovered when a name contains
      ", " (see `ComposeDoesNotDetermineTeams`). */
  lemma ComposeParses(team1: seq<Name>, team2: seq<Name>)
    requires AllNoLineBreak(team1)
    ensures Parse(Compose(team1, team2))
      == Some((Line(|team1|, Text.Join(team1, NameSeparator)), Line(|team2|, Text.Join(team2, NameSeparator))))
  {
    var l1 := TeamLine(Team1Label, team1);
    var l2 := TeamLine(Team2Label, team2);
    var text := Compose(team1, team2);
    TeamLineNoLineBreak(Team1Label, team1);
    IndexOfFirstBreak(l1, l2);
    assert text[..|l1|] == l1;
    assert text[|l1| + 1..] == l2;
    ParseTeamLine(Team1Label, team1);
    ParseTeamLine(Team2Label, team2);
  }

  /** Teams ["A", "B"] and ["C"] give two lines with sizes 2 and 1. */
  lemma ComposeExample()
    ensures Compose(["A", "B"], ["C"]) == "팀1(2명): A, B\n팀2(1명): C"
  {
  }

  /** Names are free text, so a name holding ", " makes two different pairs of
      teams copy to the same text. */
  lemma ComposeDoesNotDetermineTeams()
    ensures ["a, b", "c"] != ["a", "b, c"]
    ensures Compose(["a, b", "c"], ["d"]) == Compose(["a", "b, c"], ["d"])
  {
    assert Text.Join(["a, b", "c"], NameSeparator) == "a, b, c";
    assert Text.Join(["a", "b, c"], NameSeparator) == "a, b, c";
  }
}
