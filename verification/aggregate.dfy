/** The per-region shaping between extraction and CSV writing: skip the
    municipalities whose page could not be fetched, collect the union of the
    party names, sort it, and expand every row to one cell per party. */
module Aggregate {
  import opened Wrappers
  import opened StringOrder

  /** What the driver knows about one municipality whose page was fetched:
      its listing id and name, the three lists read from the page (normally
      of length one) and the party -> votes dict. */
  datatype MunicipalityResult = MunicipalityResult(
    id: string,
    name: string,
    registeredVoters: seq<string>,
    envelopes: seq<string>,
    validVotes: seq<string>,
    partyVotes: map<string, string>)

  /** A row before expansion: its five leading cells and its votes dict. */
  datatype PendingRow = PendingRow(prefix: seq<string>, votes: map<string, string>)

  /** The state of the first loop over a region: the party names seen so far
      and the rows collected so far. */
  datatype Collected = Collected(parties: set<string>, pending: seq<PendingRow>)

  /** A finished region: the sorted party columns and the expanded rows. */
  datatype RegionTable = RegionTable(parties: seq<string>, rows: seq<seq<string>>)

  /** Number of cells in front of the party columns. */
  const PrefixWidth: nat := 5

  /** The cell written for a party the municipality did not report. */
  const MissingVote: string := "0"

  /** `xs[0] if xs else ""`. */
  function FirstOrEmpty(xs: seq<string>): string {
    if |xs| > 0 then xs[0] else ""
  }

  function RowPrefix(m: MunicipalityResult): seq<string> {
    [m.id, m.name, FirstOrEmpty(m.registeredVoters), FirstOrEmpty(m.envelopes), FirstOrEmpty(m.validVotes)]
  }

  /** The municipalities whose fetch succeeded, in listing order. */
  function Successes(results: seq<Option<MunicipalityResult>>): seq<MunicipalityResult>
    decreases |results|
  {
    if |results| == 0 then []
    else (if results[0].Some? then [results[0].value] else []) + Successes(results[1..])
  }

  /** Every party name reported by a municipality whose fetch succeeded. */
  ghost function PartyUniverse(results: seq<Option<MunicipalityResult>>): set<string> {
    set m, p | m in Successes(results) && p in m.partyVotes :: p
  }

  /** Some municipality among `fetched` reported the party `p`. */
  ghost predicate Reported(fetched: seq<MunicipalityResult>, p: string) {
    exists m :: m in fetched && p in m.partyVotes
  }

  /** The party universe is the set of parties the fetched municipalities report. */
  lemma PartyUniverseReported(results: seq<Option<MunicipalityResult>>)
    ensures forall p :: p in PartyUniverse(results) <==> Reported(Successes(results), p)
  {
  }

  /** `row` is the output row of `m` against the columns `parties`. */
  ghost predicate RowDescribes(row: seq<string>, m: MunicipalityResult, parties: seq<string>) {
    && |row| == PrefixWidth + |parties|
    && row[0] == m.id
    && row[1] == m.name
    && row[2] == (if |m.registeredVoters| > 0 then m.registeredVoters[0] else "")
    && row[3] == (if |m.envelopes| > 0 then m.envelopes[0] else "")
    && row[4] == (if |m.validVotes| > 0 then m.validVotes[0] else "")
    && forall i :: 0 <= i < |parties| ==>
         row[PrefixWidth + i] == (if parties[i] in m.partyVotes then m.partyVotes[parties[i]] else MissingVote)
  }

  lemma {:induction false} SuccessesAppend(a: seq<Option<MunicipalityResult>>, b: seq<Option<MunicipalityResult>>)
    ensures Successes(a + b) == Successes(a) + Successes(b)
    decreases |a|
  {
    if |a| == 0 {
      assert a + b == b;
    } else {
      var head := if a[0].Some? then [a[0].value] else [];
      assert (a + b)[0] == a[0];
      assert (a + b)[1..] == a[1..] + b;
      calc {
        Successes(a + b);
        head + Successes(a[1..] + b);
        { SuccessesAppend(a[1..], b); }
        head + (Successes(a[1..]) + Successes(b));
        (head + Successes(a[1..])) + Successes(b);
      }
    }
  }

  /** The first loop of a region (fetch, parse, remember the parties and the
      five leading cells), one municipality at a time. */
  function Collect(results: seq<Option<MunicipalityResult>>): (c: Collected)
    ensures c.parties == PartyUniverse(results)
    ensures |c.pending| == |Successes(results)|
    ensures forall k :: 0 <= k < |c.pending| ==>
              c.pending[k] == PendingRow(RowPrefix(Successes(results)[k]), Successes(results)[k].partyVotes)
    decreases |results|
  {
    if |results| == 0 then Collected({}, [])
    else
      var init := results[..|results| - 1];
      var c := Collect(init);
      assert results == init + [results[|results| - 1]];
      SuccessesAppend(init, [results[|results| - 1]]);
      match results[|results| - 1]
      case None =>
        assert Successes(results) == Successes(init);
        c
      case Some(m) =>
        assert Successes(results) == Successes(init) + [m];
        Collected(c.parties + m.partyVotes.Keys, c.pending + [PendingRow(RowPrefix(m), m.partyVotes)])
  }

  /** `[party_vote.get(party, "0") for party in all_parties]`. */
  function VotesRow(votes: map<string, string>, parties: seq<string>): (r: seq<string>)
    ensures |r| == |parties|
    ensures forall i :: 0 <= i < |parties| ==> r[i] == Get(votes, parties[i], MissingVote)
    decreases |parties|
  {
    if |parties| == 0 then []
    else [Get(votes, parties[0], MissingVote)] + VotesRow(votes, parties[1..])
  }

  function ExpandRow(p: PendingRow, parties: seq<string>): seq<string> {
    p.prefix + VotesRow(p.votes, parties)
  }

  /** Expanding the collected row of `m` yields the row that describes `m`. */
  lemma ExpandRowDescribes(m: MunicipalityResult, parties: seq<string>)
    ensures RowDescribes(ExpandRow(PendingRow(RowPrefix(m), m.partyVotes), parties), m, parties)
  {
    var row := ExpandRow(PendingRow(RowPrefix(m), m.partyVotes), parties);
    forall i | 0 <= i < |parties|
      ensures row[PrefixWidth + i] == Get(m.partyVotes, parties[i], MissingVote)
    {
    }
  }

  /** One region: collect, sort the party names, expand every row. */
  function AggregateRegion(results: seq<Option<MunicipalityResult>>): (t: RegionTable)
    ensures StrictlySorted(t.parties)
    ensures forall p :: p in t.parties <==> p in PartyUniverse(results)
    ensures |t.rows| == |Successes(results)|
    ensures forall k :: 0 <= k < |t.rows| ==> RowDescribes(t.rows[k], Successes(results)[k], t.parties)
  {
    var c := Collect(results);
    var parties := SortedOf(c.parties);
    var rows := seq(|c.pending|, k requires 0 <= k < |c.pending| => ExpandRow(c.pending[k], parties));
    assert forall k :: 0 <= k < |rows| ==> RowDescribes(rows[k], Successes(results)[k], parties) by {
      forall k | 0 <= k < |rows|
        ensures RowDescribes(rows[k], Successes(results)[k], parties)
      {
        ExpandRowDescribes(Successes(results)[k], parties);
      }
    }
    RegionTable(parties, rows)
  }

  /** A row is determined by the municipality and the columns it describes. */
  lemma RowDescribesUnique(r1: seq<string>, r2: seq<string>, m: MunicipalityResult, parties: seq<string>)
    requires RowDescribes(r1, m, parties) && RowDescribes(r2, m, parties)
    ensures r1 == r2
  {
    forall j | 0 <= j < |r1|
      ensures r1[j] == r2[j]
    {
      if j >= PrefixWidth {
        var i := j - PrefixWidth;
        var expected := if parties[i] in m.partyVotes then m.partyVotes[parties[i]] else MissingVote;
        assert r1[PrefixWidth + i] == expected == r2[PrefixWidth + i];
      }
    }
  }

  /** The rows of a region are the one sequence of rows that describe its
      fetched municipalities, in order. */
  lemma AggregateRowsDetermined(results: seq<Option<MunicipalityResult>>, expected: seq<seq<string>>)
    requires |expected| == |Successes(results)|
    requires forall k :: 0 <= k < |expected| ==>
               RowDescribes(expected[k], Successes(results)[k], AggregateRegion(results).parties)
    ensures AggregateRegion(results).rows == expected
  {
    var t := AggregateRegion(results);
    forall k | 0 <= k < |expected|
      ensures t.rows[k] == expected[k]
    {
      RowDescribesUnique(t.rows[k], expected[k], Successes(results)[k], t.parties);
    }
  }

  /** A region's table depends only on the municipalities that were fetched,
      in their order: failures leave no trace. */
  lemma AggregateDependsOnlyOnSuccesses(a: seq<Option<MunicipalityResult>>, b: seq<Option<MunicipalityResult>>)
    requires Successes(a) == Successes(b)
    ensures AggregateRegion(a) == AggregateRegion(b)
  {
    var ta, tb := AggregateRegion(a), AggregateRegion(b);
    SortedUnique(ta.parties, tb.parties);
    forall k | 0 <= k < |ta.rows|
      ensures ta.rows[k] == tb.rows[k]
    {
      RowDescribesUnique(ta.rows[k], tb.rows[k], Successes(a)[k], ta.parties);
    }
  }

  /** A municipality whose page could not be fetched contributes neither a
      row nor party names, wherever it stands in the listing. */
  lemma AggregateSkipsFailure(xs: seq<Option<MunicipalityResult>>, ys: seq<Option<MunicipalityResult>>)
    ensures AggregateRegion(xs + [None] + ys) == AggregateRegion(xs + ys)
  {
    SuccessesAppend(xs + [None], ys);
    SuccessesAppend(xs, [None]);
    SuccessesAppend(xs, ys);
    assert Successes([None]) == [];
    assert Successes(xs + [None]) == Successes(xs);
    AggregateDependsOnlyOnSuccesses(xs + [None] + ys, xs + ys);
  }
}
