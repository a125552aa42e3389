/** `Array.prototype.join`: the names of a team written one after another with
    a separator between neighbours. */
module Text {
  import opened Common

  /** The sum of the lengths of the parts. */
  function TotalLength(xs: seq<string>): nat
  {
    if |xs| == 0 then 0 else |xs[0]| + TotalLength(xs[1..])
  }

  /** `xs.join(sep)`: "" for no parts, the part itself for one, separators only between parts. */
  function Join(xs: seq<string>, sep: string): (r: string)
    ensures |xs| == 0 ==> r == ""
    ensures |xs| == 1 ==> r == xs[0]
    ensures |xs| >= 1 ==> |r| == TotalLength(xs) + |sep| * (|xs| - 1)
  {
    if |xs| == 0 then ""
    else if |xs| == 1 then xs[0]
    else xs[0] + sep + Join(xs[1..], sep)
  }

  /** A character found in neither the separator nor any part is not in the joined text. */
  lemma {:induction false} JoinAvoids(xs: seq<string>, sep: string, c: char)
    requires c !in sep
    requires forall i :: 0 <= i < |xs| ==> c !in xs[i]
    ensures c !in Join(xs, sep)
    decreases |xs|
  {
    if |xs| >= 2 {
      assert forall i :: 0 <= i < |xs[1..]| ==> xs[1..][i] == xs[i + 1];
      JoinAvoids(xs[1..], sep, c);
    }
  }

  /** Joining one more part on the right adds one separator and that part. */
  lemma {:induction false} JoinSnoc(xs: seq<string>, x: string, sep: string)
    requires |xs| >= 1
    ensures Join(xs + [x], sep) == Join(xs, sep) + sep + x
    decreases |xs|
  {
    if |xs| >= 2 {
      assert (xs + [x])[1..] == xs[1..] + [x];
      JoinSnoc(xs[1..], x, sep);
    } else {
      assert xs + [x] == [xs[0], x];
    }
  }

  /** Joining is the same whether the parts are split into two groups first. */
  lemma {:induction false} JoinAppend(xs: seq<string>, ys: seq<string>, sep: string)
    requires |xs| >= 1 && |ys| >= 1
    ensures Join(xs + ys, sep) == Join(xs, sep) + sep + Join(ys, sep)
    decreases |ys|
  {
    if |ys| == 1 {
      JoinSnoc(xs, ys[0], sep);
      assert ys == [ys[0]];
    } else {
      var init := ys[..|ys| - 1];
      var last := ys[|ys| - 1];
      assert ys == init + [last];
      assert xs + ys == (xs + init) + [last];
      JoinSnoc(xs + init, last, sep);
      JoinAppend(xs, init, sep);
      JoinSnoc(init, last, sep);
    }
  }

  /** The left-to-right accumulation a JavaScript engine performs: the first
      part, then for every further part a separator followed by the part. */
  method JoinLoop(xs: seq<string>, sep: string) returns (r: string)
    ensures r == Join(xs, sep)
  {
    if |xs| == 0 {
      return "";
    }
    r := xs[0];
    var i := 1;
    while i < |xs|
      invariant 1 <= i <= |xs|
      invariant r == Join(xs[..i], sep)
    {
      JoinSnoc(xs[..i], xs[i], sep);
      assert xs[..i + 1] == xs[..i] + [xs[i]];
      r := r + sep + xs[i];
      i := i + 1;
    }
    assert xs[..i] == xs;
  }
}
