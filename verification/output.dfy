/** URLs of the results site, the CSV header and the output file name. */
module Output {
  import opened Wrappers
  import opened Slug

  /** Every page of the site lives under this prefix. */
  const BaseUrl: string := "https://www.volby.cz/pls/ps2017nss/"

  /** Relative path of the country-level listing of regions. */
  const StartPath: string := "ps3?xjazyk=CZ"

  /** `create_link(path)`. */
  function CreateLink(path: string): string {
    BaseUrl + path
  }

  /** The relative path of a URL under BaseUrl, or None for any other URL. */
  function PathOf(url: string): Option<string> {
    if |BaseUrl| <= |url| && url[..|BaseUrl|] == BaseUrl then Some(url[|BaseUrl|..]) else None
  }

  /** PathOf undoes CreateLink, and every URL it accepts is a CreateLink result. */
  lemma CreateLinkRoundTrip(path: string, url: string)
    ensures PathOf(CreateLink(path)) == Some(path)
    ensures PathOf(url) == Some(path) ==> CreateLink(path) == url
  {
    assert CreateLink(path)[..|BaseUrl|] == BaseUrl;
    assert CreateLink(path)[|BaseUrl|..] == path;
    if PathOf(url) == Some(path) {
      assert url == url[..|BaseUrl|] + url[|BaseUrl|..];
    }
  }

  /** Distinct relative paths give distinct URLs. */
  lemma CreateLinkInjective(p: string, q: string)
    ensures CreateLink(p) == CreateLink(q) <==> p == q
  {
    CreateLinkRoundTrip(p, CreateLink(p));
    CreateLinkRoundTrip(q, CreateLink(q));
  }

  /** The five columns in front of the party columns. */
  const FixedColumns: seq<string> := ["id", "location", "registered voters", "envelopes", "valid votes"]

  const FileNamePrefix: string := "vysledky_"
  const FileNameSuffix: string := ".csv"

  /** The header row of a region's file. */
  function Header(parties: seq<string>): (h: seq<string>)
    ensures |h| == |FixedColumns| + |parties|
    ensures h[..|FixedColumns|] == FixedColumns
    ensures forall i :: 0 <= i < |parties| ==> h[|FixedColumns| + i] == parties[i]
  {
    FixedColumns + parties
  }

  /** The name of a region's file. */
  function FileName(regionName: string): (f: string)
    ensures IsAscii(f)
    ensures ' ' !in f
    ensures forall i :: 0 <= i < |f| ==> !IsUpperAscii(f[i])
  {
    var s := Slugify(regionName);
    AffixesAreSafe();
    SafeAppend(FileNamePrefix, s);
    SafeAppend(FileNamePrefix + s, FileNameSuffix);
    FileNamePrefix + s + FileNameSuffix
  }

  /** Plain ASCII, no space, no capital letter. */
  ghost predicate Safe(s: string) {
    forall i :: 0 <= i < |s| ==> IsAsciiChar(s[i]) && s[i] != ' ' && !IsUpperAscii(s[i])
  }

  lemma AffixesAreSafe()
    ensures Safe(FileNamePrefix) && Safe(FileNameSuffix)
  {
  }

  lemma SafeAppend(a: string, b: string)
    requires Safe(a) && Safe(b)
    ensures Safe(a + b)
  {
    forall i | 0 <= i < |a + b|
      ensures IsAsciiChar((a + b)[i]) && (a + b)[i] != ' ' && !IsUpperAscii((a + b)[i])
    {
      if i >= |a| {
        assert (a + b)[i] == b[i - |a|];
      }
    }
  }

  /** The slug a file name was built from, or None for a name FileName cannot produce. */
  function SlugOfFileName(f: string): Option<string> {
    var n, m := |FileNamePrefix|, |FileNameSuffix|;
    if n + m <= |f| && f[..n] == FileNamePrefix && f[|f| - m..] == FileNameSuffix
    then Some(f[n..|f| - m])
    else None
  }

  /** The file name is the slug between the fixed prefix and suffix. */
  lemma FileNameRoundTrip(regionName: string)
    ensures SlugOfFileName(FileName(regionName)) == Some(Slugify(regionName))
  {
    var s := Slugify(regionName);
    var f := FileName(regionName);
    assert f == FileNamePrefix + s + FileNameSuffix;
    assert f[..|FileNamePrefix|] == FileNamePrefix;
    assert f[|f| - |FileNameSuffix|..] == FileNameSuffix;
    assert f[|FileNamePrefix|..|f| - |FileNameSuffix|] == s;
  }

  /** Two regions are written to the same file exactly when their slugs agree. */
  lemma FileNameCollision(a: string, b: string)
    ensures FileName(a) == FileName(b) <==> Slugify(a) == Slugify(b)
  {
    FileNameRoundTrip(a);
    FileNameRoundTrip(b);
  }

  /** A written file: its name, its header and its data rows. */
  datatype CsvFile = CsvFile(name: string, header: seq<string>, rows: seq<seq<string>>)

  /** `write_municipality_csv`, without the file system: what goes into which file. */
  function WriteCsv(regionName: string, parties: seq<string>, rows: seq<seq<string>>): (f: CsvFile)
    ensures SlugOfFileName(f.name) == Some(Slugify(regionName))
    ensures f.header == Header(parties)
    ensures |f.header| == |FixedColumns| + |parties|
    ensures f.rows == rows
  {
    FileNameRoundTrip(regionName);
    CsvFile(FileName(regionName), Header(parties), rows)
  }
}
