/** Which rows convert, to what, and which counter a rejected row goes to, by its own cells. */
module CorpusJudge {
  import opened Options
  import opened CorpusRows

  const FIVE_POINT := {"konvid-1k", "konvid-150k", "lsvq", "youtube-ugc"}
  const KNOWN := FIVE_POINT + {"waterloo-ivc-4k", "netflix-public"}

  /** The row's own label: `corpus_source`, or `corpus` when that is missing or empty. */
  predicate Labelled(row: RawRow, name: string) {
    row.corpusSource == Text(name) || (row.corpusSource in {Absent, Text("")} && row.corpus == Text(name))
  }

  predicate InRange(native: real, source: string) {
    if source in FIVE_POINT then 0.95 <= native <= 5.05 else -0.05 <= native <= 100.05
  }

  function Unified(native: real, source: string): real {
    if source in FIVE_POINT then 25.0 * (native - 1.0) else native
  }

  function NameOf(source: string): string {
    if source in FIVE_POINT then "1-5-acr" else if source == "waterloo-ivc-4k" then "0-100-dcr" else "vmaf"
  }

  lemma ScaleIs(source: string)
    ensures ScaleOf(source).Some? <==> source in KNOWN
    ensures source in FIVE_POINT ==> ScaleOf(source) == Some(Scale(25.0, -25.0, 1.0, 5.0, "1-5-acr"))
    ensures source in KNOWN - FIVE_POINT ==> ScaleOf(source) == Some(Scale(1.0, 0.0, 0.0, 100.0, NameOf(source)))
  {}

  /** A row without its keys stops the run; one without a known label and without an override is dropped for that. */
  lemma DropsExactlyWhen(row: RawRow, override: Option<string>)
    ensures Judge(row, override) == Invalid <==> !row.hasKeys
    ensures Judge(row, override) == UnknownCorpus <==>
            row.hasKeys && override.None? && forall name :: name in KNOWN ==> !Labelled(row, name)
  {
    var named := if row.corpusSource in {Absent, Text("")} then row.corpus else row.corpusSource;
    if named.Text? {
      ScaleIs(named.text);
      assert named.text in KNOWN ==> Labelled(row, named.text);
    }
    forall name | name in KNOWN && Labelled(row, name) ensures named == Text(name) {}
  }

  /** A row that has a corpus converts exactly when its cells are usable; otherwise its scale is bad. */
  lemma ConvertsExactlyWhen(row: RawRow, override: Option<string>, source: string)
    requires row.hasKeys
    requires override == Some(source) || (override.None? && source in KNOWN && Labelled(row, source))
    ensures Judge(row, override).Converted? <==>
            && source in KNOWN && row.mos.Number? && InRange(row.mos.value, source)
            && !row.deviation.Malformed? && row.rest.Usable?
    ensures !Judge(row, override).Converted? ==> Judge(row, override) == BadScale
    ensures Judge(row, override).Converted? ==>
              Judge(row, override).row ==
              Row(row.src, row.sha, Unified(row.mos.value, source), row.mos.value, NameOf(source),
                  row.deviation, source, row.rest.text)
  {
    ScaleIs(source);
    assert ResolveCorpusSource(row, override) == Some(source);
  }
}
