/** Small concrete runs of the model: the behaviour a reader can check by hand. */
module Scenarios {
  import opened Wrappers
  import opened StringOrder
  import opened Pairing
  import opened Aggregate

  /** Two parties paired with two vote counts. */
  lemma PairingExample()
    ensures ZipMap(["Party A", "Party B"], ["120", "45"]) == map["Party A" := "120", "Party B" := "45"]
  {
  }

  /** A vote list shorter than the party list drops the unpaired party. */
  lemma PairingTruncates()
    ensures ZipMap(["A", "B", "C"], ["1", "2"]) == map["A" := "1", "B" := "2"]
  {
  }

  /** A repeated party name keeps the later vote count. */
  lemma PairingLastWins()
    ensures ZipMap(["A", "A"], ["1", "2"]) == map["A" := "2"]
  {
  }

  function One(): MunicipalityResult {
    MunicipalityResult("1", "One", ["100"], ["80"], ["75"], map["A" := "10", "B" := "5"])
  }

  function Two(): MunicipalityResult {
    MunicipalityResult("2", "Two", ["90"], [], ["60"], map["A" := "7", "C" := "3"])
  }

  function Three(): MunicipalityResult {
    MunicipalityResult("3", "Three", [], [], [], map["D" := "1"])
  }

  lemma AbcSorted()
    ensures StrictlySorted(["A", "B", "C"])
  {
    assert LexLess("A", "B") && LexLess("B", "C") && LexLess("A", "C");
  }

  lemma UniverseOneTwo(results: seq<Option<MunicipalityResult>>)
    requires results == [Some(One()), Some(Two())]
    ensures Successes(results) == [One(), Two()]
    ensures PartyUniverse(results) == {"A", "B", "C"}
  {
    assert results[1..] == [Some(Two())];
    assert Successes(results[1..]) == [Two()];
    assert One() in Successes(results) && Two() in Successes(results);
    assert "A" in One().partyVotes && "B" in One().partyVotes && "C" in Two().partyVotes;
  }

  lemma PartiesOneTwo(results: seq<Option<MunicipalityResult>>)
    requires results == [Some(One()), Some(Two())]
    ensures AggregateRegion(results).parties == ["A", "B", "C"]
    ensures Successes(results) == [One(), Two()]
  {
    var t := AggregateRegion(results);
    UniverseOneTwo(results);
    AbcSorted();
    SortedUnique(t.parties, ["A", "B", "C"]);
  }

  lemma RowOne(parties: seq<string>)
    requires parties == ["A", "B", "C"]
    ensures RowDescribes(["1", "One", "100", "80", "75", "10", "5", "0"], One(), parties)
  {
  }

  lemma RowTwo(parties: seq<string>)
    requires parties == ["A", "B", "C"]
    ensures RowDescribes(["2", "Two", "90", "", "60", "7", "0", "3"], Two(), parties)
  {
  }

  lemma TwoRows(t: RegionTable, m1: MunicipalityResult, m2: MunicipalityResult, row1: seq<string>, row2: seq<string>)
    requires |t.rows| == 2
    requires RowDescribes(t.rows[0], m1, t.parties) && RowDescribes(t.rows[1], m2, t.parties)
    requires RowDescribes(row1, m1, t.parties) && RowDescribes(row2, m2, t.parties)
    ensures t.rows == [row1, row2]
  {
    RowDescribesUnique(t.rows[0], row1, m1, t.parties);
    RowDescribesUnique(t.rows[1], row2, m2, t.parties);
  }

  /** Municipality one reports A:10, B:5 and municipality two A:7, C:3: the
      columns are A, B, C and each missing party reads "0". */
  lemma EndToEnd(results: seq<Option<MunicipalityResult>>)
    requires results == [Some(One()), Some(Two())]
    ensures AggregateRegion(results).parties == ["A", "B", "C"]
    ensures AggregateRegion(results).rows == [
              ["1", "One", "100", "80", "75", "10", "5", "0"],
              ["2", "Two", "90", "", "60", "7", "0", "3"]]
  {
    var parties := AggregateRegion(results).parties;
    PartiesOneTwo(results);
    var row1 := ["1", "One", "100", "80", "75", "10", "5", "0"];
    var row2 := ["2", "Two", "90", "", "60", "7", "0", "3"];
    RowOne(parties);
    RowTwo(parties);
    var t := AggregateRegion(results);
    assert Successes(results)[0] == One() && Successes(results)[1] == Two();
    TwoRows(t, One(), Two(), row1, row2);
  }

  lemma SuccessesOneThree(results: seq<Option<MunicipalityResult>>)
    requires results == [Some(One()), Some(Three())]
    ensures |Successes(results)| == 2
  {
    assert results[1..] == [Some(Three())];
    assert Successes(results[1..]) == [Three()];
  }

  /** Of three municipalities the second could not be fetched: the table is
      that of the first and the third alone. */
  lemma SkipsSecond(results: seq<Option<MunicipalityResult>>, survivors: seq<Option<MunicipalityResult>>)
    requires results == [Some(One()), None, Some(Three())]
    requires survivors == [Some(One()), Some(Three())]
    ensures AggregateRegion(results) == AggregateRegion(survivors)
    ensures |AggregateRegion(results).rows| == 2
  {
    var xs, ys := [Some(One())], [Some(Three())];
    assert results == xs + [None] + ys;
    assert survivors == xs + ys;
    AggregateSkipsFailure(xs, ys);
    SuccessesOneThree(survivors);
  }
}
