/** The History Ledger: most-recent-first snapshots of generated partitions,
    capped at ten, and the "previous compositions" view that skips the newest. */
module History {
  import opened Common

  /** `HistoryEntry`: the two teams of one generation and when it happened. The
      timestamp is whatever the locale clock printed; the model treats it as opaque. */
  datatype Entry = Entry(teams: seq<seq<Name>>, timestamp: string)

  /** The most entries the ledger retains. */
  const Capacity: nat := 10

  /** Every recorded generation has exactly two teams. */
  predicate TwoTeams(e: Entry)
  {
    |e.teams| == 2
  }

  predicate Valid(h: seq<Entry>)
  {
    && |h| <= Capacity
    && forall i :: 0 <= i < |h| ==> TwoTeams(h[i])
  }

  /** `[entry, ...prev].slice(0, 10)`: the new entry goes in front, older entries keep
      their order, and only what falls past the tenth place is dropped. */
  function Record(h: seq<Entry>, e: Entry): (r: seq<Entry>)
    ensures |r| == Min(|h| + 1, Capacity)
    ensures r[0] == e
    ensures r[1..] == h[..Min(|h|, Capacity - 1)]
  {
    Take([e] + h, Capacity)
  }

  /** Recording keeps the ledger valid. */
  lemma RecordKeepsValid(h: seq<Entry>, e: Entry)
    requires Valid(h)
    requires TwoTeams(e)
    ensures Valid(Record(h, e))
  {
  }

  /** On a full ledger recording evicts exactly the oldest entry. */
  lemma RecordOnFullEvictsOldest(h: seq<Entry>, e: Entry)
    requires |h| == Capacity
    ensures Record(h, e) == [e] + h[..Capacity - 1]
  {
  }

  /** The ledger after recording each entry of `es`, first to last. */
  function RecordAll(h: seq<Entry>, es: seq<Entry>): seq<Entry>
    decreases |es|
  {
    if |es| == 0 then h else RecordAll(Record(h, es[0]), es[1..])
  }

  /** Whatever the order of recordings, the ledger is the ten most recent entries,
      newest first: the recorded entries in reverse, then the older ledger, cut at ten. */
  lemma {:induction false} RecordAllKeepsNewestTen(h: seq<Entry>, es: seq<Entry>)
    requires |h| <= Capacity
    ensures RecordAll(h, es) == Take(Reverse(es) + h, Capacity)
    decreases |es|
  {
    if |es| == 0 {
      assert Reverse(es) + h == h;
    } else {
      var rest := es[1..];
      RecordAllKeepsNewestTen(Record(h, es[0]), rest);
      TakeAbsorb(Reverse(rest), [es[0]] + h, Capacity);
      assert Reverse(es) == Reverse(rest) + [es[0]];
      assert Reverse(rest) + ([es[0]] + h) == Reverse(es) + h;
    }
  }

  /** `history.slice(1)` rendered under `history.length > 1`: every entry except the
      newest, which is already shown as the current teams. */
  function Past(h: seq<Entry>): (r: seq<Entry>)
    ensures |r| > 0 <==> |h| > 1
    ensures |h| >= 1 ==> |r| == |h| - 1
    ensures forall i :: 0 <= i < |r| ==> r[i] == h[i + 1]
  {
    if |h| > 1 then h[1..] else []
  }

  /** A valid ledger shows at most nine past entries. */
  lemma PastShowsAtMostNine(h: seq<Entry>)
    requires Valid(h)
    ensures |Past(h)| <= Capacity - 1
    ensures forall i :: 0 <= i < |Past(h)| ==> TwoTeams(Past(h)[i])
  {
  }
}
