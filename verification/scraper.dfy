/** The driver: walk the country page, every region page and every
    municipality page, and decide what goes into each region's file. The
    network and the HTML selectors are behind `Site`. */
module Scraper {
  import opened Wrappers
  import opened StringOrder
  import opened Pairing
  import opened Aggregate
  import opened Output

  /** The two lists `parse_regions` reads from the country page: region links and region names. */
  datatype RegionIndex = RegionIndex(hrefs: seq<string>, names: seq<string>)

  /** The three lists `parse_municipalities` reads from a region page. */
  datatype MunicipalityIndex = MunicipalityIndex(hrefs: seq<string>, ids: seq<string>, names: seq<string>)

  /** The five lists `parse_results` reads from a municipality page. */
  datatype ResultPage = ResultPage(
    registeredVoters: seq<string>,
    envelopes: seq<string>,
    validVotes: seq<string>,
    parties: seq<string>,
    votes: seq<string>)

  /** The site as seen through fetching and the selectors: for every URL, the
      lists read from its page, or None when fetching it fails. */
  datatype Site = Site(
    rootPage: string -> Option<RegionIndex>,
    regionPage: string -> Option<MunicipalityIndex>,
    resultPage: string -> Option<ResultPage>)

  /** How many (party, votes) pairs `zip` forms: the length of the shorter list. */
  function Paired(page: ResultPage): nat {
    Min(|page.parties|, |page.votes|)
  }

  /** No position after `i` and before `n` repeats `s[i]`. */
  ghost predicate LastOccurrence(s: seq<string>, i: nat, n: nat)
    requires i < n <= |s|
  {
    s[i] !in s[i + 1..n]
  }

  /** `parse_results` plus the listing id and name: the party and vote lists
      are paired by position into a dict. */
  function ParseResults(id: string, name: string, page: ResultPage): (m: MunicipalityResult)
    ensures m.id == id && m.name == name
    ensures m.registeredVoters == page.registeredVoters
    ensures m.envelopes == page.envelopes
    ensures m.validVotes == page.validVotes
    ensures forall p :: p in m.partyVotes <==> p in page.parties[..Paired(page)]
    ensures forall i :: 0 <= i < Paired(page) && LastOccurrence(page.parties, i, Paired(page)) ==>
              page.parties[i] in m.partyVotes && m.partyVotes[page.parties[i]] == page.votes[i]
  {
    var votes := ZipMap(page.parties, page.votes);
    ZipMapKeys(page.parties, page.votes);
    forall i | 0 <= i < Paired(page) && LastOccurrence(page.parties, i, Paired(page))
      ensures page.parties[i] in votes && votes[page.parties[i]] == page.votes[i]
    {
      ZipMapLastWins(page.parties, page.votes, i);
    }
    MunicipalityResult(id, name, page.registeredVoters, page.envelopes, page.validVotes, votes)
  }

  /** The fetch of one municipality: None when its page cannot be fetched. */
  function FetchMunicipality(site: Site, id: string, name: string, href: string): Option<MunicipalityResult> {
    match site.resultPage(CreateLink(href))
    case None => None
    case Some(page) => Some(ParseResults(id, name, page))
  }

  /** The municipality loop of one region over its (id, name, href) triples. */
  function FetchMunicipalities(site: Site, entries: seq<(string, string, string)>): (r: seq<Option<MunicipalityResult>>)
    ensures |r| == |entries|
    ensures forall k :: 0 <= k < |entries| ==>
              (r[k].None? <==> site.resultPage(CreateLink(entries[k].2)).None?)
    ensures forall k :: 0 <= k < |entries| && r[k].Some? ==>
              r[k].value == ParseResults(entries[k].0, entries[k].1, site.resultPage(CreateLink(entries[k].2)).value)
    decreases |entries|
  {
    if |entries| == 0 then []
    else [FetchMunicipality(site, entries[0].0, entries[0].1, entries[0].2)] + FetchMunicipalities(site, entries[1..])
  }

  /** `zip(municipality_ids, municipality_names, municipality_hrefs)`, each fetched. */
  function RegionResults(site: Site, index: MunicipalityIndex): seq<Option<MunicipalityResult>> {
    FetchMunicipalities(site, Zip3(index.ids, index.names, index.hrefs))
  }

  /** Every data row has as many cells as the header. */
  ghost predicate Rectangular(f: CsvFile) {
    forall k :: 0 <= k < |f.rows| ==> |f.rows[k]| == |f.header|
  }

  /** The party columns of a file: everything after the fixed columns. */
  function PartyColumns(f: CsvFile): seq<string> {
    if |FixedColumns| <= |f.header| then f.header[|FixedColumns|..] else []
  }

  /** The header lists the fixed columns and then, strictly sorted, exactly
      the parties some fetched municipality reported; row `k` is the row of
      the `k`-th fetched municipality against those columns: its id, name,
      first registered-voters, envelopes and valid-votes cells, and under
      each party its votes for that party, or "0". */
  ghost predicate Aligned(f: CsvFile, fetched: seq<MunicipalityResult>) {
    && |FixedColumns| <= |f.header|
    && f.header[..|FixedColumns|] == FixedColumns
    && StrictlySorted(PartyColumns(f))
    && (forall p :: p in PartyColumns(f) <==> Reported(fetched, p))
    && |f.rows| == |fetched|
    && forall k :: 0 <= k < |f.rows| ==> RowDescribes(f.rows[k], fetched[k], PartyColumns(f))
  }

  /** `f` is the file of the region called `name` whose page is at `href`:
      named after the region's slug, rectangular and aligned with the
      municipalities of that region that were fetched. */
  ghost predicate RegionFile(site: Site, href: string, name: string, f: CsvFile) {
    && site.regionPage(CreateLink(href)).Some?
    && SlugOfFileName(f.name) == Some(Slug.Slugify(name))
    && Rectangular(f)
    && Aligned(f, Successes(RegionResults(site, site.regionPage(CreateLink(href)).value)))
  }

  /** One region: fetch its page (a failure here is not caught), walk its
      municipalities, aggregate and write. */
  function ProcessRegion(site: Site, href: string, name: string): (r: Option<CsvFile>)
    ensures r.Some? <==> site.regionPage(CreateLink(href)).Some?
    ensures r.Some? ==> RegionFile(site, href, name, r.value)
  {
    match site.regionPage(CreateLink(href))
    case None => None
    case Some(index) =>
      var results := RegionResults(site, index);
      WriteRegionAligned(name, results);
      Some(WriteRegion(name, results))
  }

  /** `write_municipality_csv(region_name, all_parties, final_rows)` for the
      aggregated municipalities of one region. */
  function WriteRegion(name: string, results: seq<Option<MunicipalityResult>>): CsvFile {
    var t := AggregateRegion(results);
    WriteCsv(name, t.parties, t.rows)
  }

  lemma FixedColumnsWidth()
    ensures |FixedColumns| == PrefixWidth
  {
  }

  /** The header and the rows of a written region line up column by column. */
  lemma WriteRegionAligned(name: string, results: seq<Option<MunicipalityResult>>)
    ensures Rectangular(WriteRegion(name, results))
    ensures Aligned(WriteRegion(name, results), Successes(results))
  {
    var t := AggregateRegion(results);
    PartyUniverseReported(results);
    TableAligned(WriteRegion(name, results), t, Successes(results));
  }

  lemma TableAligned(f: CsvFile, t: RegionTable, fetched: seq<MunicipalityResult>)
    requires f.header == Header(t.parties) && f.rows == t.rows
    requires StrictlySorted(t.parties)
    requires forall p :: p in t.parties <==> Reported(fetched, p)
    requires |t.rows| == |fetched|
    requires forall k :: 0 <= k < |t.rows| ==> RowDescribes(t.rows[k], fetched[k], t.parties)
    ensures Rectangular(f)
    ensures Aligned(f, fetched)
  {
    FixedColumnsWidth();
    var w := |FixedColumns|;
    assert f.header[..w] == FixedColumns;
    assert PartyColumns(f) == t.parties by {
      assert f.header[w..] == t.parties;
    }
    forall k | 0 <= k < |f.rows|
      ensures |f.rows[k]| == |f.header|
    {
      assert f.rows[k] == t.rows[k];
      assert RowDescribes(t.rows[k], fetched[k], t.parties);
      assert |t.rows[k]| == w + |t.parties|;
    }
  }

  /** How a run ended: the files written, in order, and the URL whose fetch
      stopped the run, if one did. */
  datatype RunOutcome = RunOutcome(files: seq<CsvFile>, failedUrl: Option<string>)

  /** The region loop over (href, name) pairs, with `process` standing for
      the work on one region: a region whose page cannot be fetched ends the
      run, after the files of the regions before it. */
  function ProcessRegions(process: ((string, string)) -> Option<CsvFile>, regions: seq<(string, string)>): (o: RunOutcome)
    ensures |o.files| <= |regions|
    ensures o.failedUrl.None? <==> |o.files| == |regions|
    ensures forall k :: 0 <= k < |o.files| ==> process(regions[k]) == Some(o.files[k])
    ensures o.failedUrl.Some? ==>
              && o.failedUrl.value == CreateLink(regions[|o.files|].0)
              && process(regions[|o.files|]).None?
    decreases |regions|
  {
    if |regions| == 0 then RunOutcome([], None)
    else
      var first := process(regions[0]);
      if first.None? then RunOutcome([], Some(CreateLink(regions[0].0)))
      else
        var rest := ProcessRegions(process, regions[1..]);
        var o := RunOutcome([first.value] + rest.files, rest.failedUrl);
        assert forall k :: 1 <= k < |o.files| ==> o.files[k] == rest.files[k - 1] && regions[k] == regions[1..][k - 1];
        assert rest.failedUrl.Some? ==> regions[1..][|rest.files|] == regions[|o.files|];
        o
  }

  /** `main()`: fetch the country page, then every region in listing order. */
  function Run(site: Site): (o: RunOutcome)
    ensures site.rootPage(CreateLink(StartPath)).None? ==> o == RunOutcome([], Some(CreateLink(StartPath)))
    ensures site.rootPage(CreateLink(StartPath)).Some? ==>
              var index := site.rootPage(CreateLink(StartPath)).value;
              && |o.files| <= Min(|index.hrefs|, |index.names|)
              && (o.failedUrl.None? <==> |o.files| == Min(|index.hrefs|, |index.names|))
  {
    var start := CreateLink(StartPath);
    match site.rootPage(start)
    case None => RunOutcome([], Some(start))
    case Some(index) => ProcessRegions((r: (string, string)) => ProcessRegion(site, r.0, r.1), Zip(index.hrefs, index.names))
  }

  /** Every file of a run belongs to the region at the same position of the
      country listing: named after that region and aligned with its fetched
      municipalities. */
  lemma RunFile(site: Site, k: nat)
    ensures k < |Run(site).files| ==>
              && site.rootPage(CreateLink(StartPath)).Some?
              && var index := site.rootPage(CreateLink(StartPath)).value;
                 && k < |index.hrefs| && k < |index.names|
                 && RegionFile(site, index.hrefs[k], index.names[k], Run(site).files[k])
  {
    if k >= |Run(site).files| { return; }
    var index := site.rootPage(CreateLink(StartPath)).value;
    var regions := Zip(index.hrefs, index.names);
    assert regions[k] == (index.hrefs[k], index.names[k]);
  }

  /** A run that stops early names the region URL whose page could not be
      fetched, the region right after the last file written. */
  lemma RunStopped(site: Site)
    requires site.rootPage(CreateLink(StartPath)).Some?
    requires Run(site).failedUrl.Some?
    ensures var index := site.rootPage(CreateLink(StartPath)).value;
            var n := |Run(site).files|;
            && n < |index.hrefs| && n < |index.names|
            && Run(site).failedUrl.value == CreateLink(index.hrefs[n])
            && site.regionPage(CreateLink(index.hrefs[n])).None?
  {
    var index := site.rootPage(CreateLink(StartPath)).value;
    var regions := Zip(index.hrefs, index.names);
    var n := |Run(site).files|;
    assert regions[n] == (index.hrefs[n], index.names[n]);
  }
}
