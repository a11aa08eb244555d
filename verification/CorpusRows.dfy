/** The rows of the MOS corpora and their conversion to the unified scale. */
module CorpusRows {
  import opened Options

  /** A numeric JSON cell: what float() makes of it, after a missing cell became zero. */
  datatype Cell = Malformed | NotANumber | Infinity(positive: bool) | Number(value: real)

  /** A label cell; Absent also stands for the falsy cells, Other for truthy non-strings. */
  datatype Label = Absent | Text(text: string) | Other

  /** The columns that are only copied; Unusable makes a conversion raise. */
  datatype Rest = Usable(text: string) | Unusable

  /** A src_sha256 cell, copied as it is; a truth value counts as the number 0 or 1. */
  datatype Sha = ShaText(text: string) | ShaNull | ShaNumber(value: real) | ShaObject(json: string)

  /** hasKeys: the row is an object with src, src_sha256, mos and corpus. */
  datatype RawRow = RawRow(hasKeys: bool, src: string, sha: Sha, corpusSource: Label, corpus: Label,
                           mos: Cell, deviation: Cell, rest: Rest)

  datatype Row = Row(src: string, sha: Sha, mos: real, native: real, scaleLabel: string,
                     deviation: Cell, source: string, rest: string)

  datatype Scale = Scale(slope: real, intercept: real, low: real, high: real, name: string)

  const SLACK: real := 0.05

  function ScaleOf(source: string): Option<Scale> {
    if source in ["konvid-1k", "konvid-150k", "lsvq", "youtube-ugc"] then
      Some(Scale(25.0, -25.0, 1.0, 5.0, "1-5-acr"))
    else if source == "waterloo-ivc-4k" then Some(Scale(1.0, 0.0, 0.0, 100.0, "0-100-dcr"))
    else if source == "netflix-public" then Some(Scale(1.0, 0.0, 0.0, 100.0, "vmaf"))
    else None
  }

  function ConvertMos(native: Cell, source: string): Result<real> {
    var scale := ScaleOf(source);
    if scale.None? then Raise("unknown corpus_source")
    else if native.Number? && scale.value.low - SLACK <= native.value <= scale.value.high + SLACK then
      Ok(scale.value.slope * native.value + scale.value.intercept)
    else Raise("native MOS is outside the published range")
  }

  function ResolveCorpusSource(row: RawRow, override: Option<string>): Option<string> {
    if override.Some? then override
    else
      var named := if row.corpusSource in {Absent, Text("")} then row.corpus else row.corpusSource;
      if named.Text? && ScaleOf(named.text).Some? then Some(named.text) else None
  }

  function TransformRow(row: RawRow, source: string): Result<Row> {
    if row.mos.Malformed? then Raise("could not convert mos to float")
    else
      match ConvertMos(row.mos, source)
      case Raise(message) => Raise(message)
      case Ok(mos) =>
        if row.deviation.Malformed? || row.rest.Unusable? then Raise("could not convert a cell")
        else Ok(Row(row.src, row.sha, mos, row.mos.value, ScaleOf(source).value.name,
                    row.deviation, source, row.rest.text))
  }

  /** What becomes of one input row. */
  datatype Verdict = Invalid | UnknownCorpus | BadScale | Converted(row: Row)

  function Judge(row: RawRow, override: Option<string>): Verdict {
    if !row.hasKeys then Invalid
    else
      var source := ResolveCorpusSource(row, override);
      if source.None? then UnknownCorpus
      else
        var converted := TransformRow(row, source.value);
        if converted.Raise? then BadScale else Converted(converted.result)
  }

  /** A converted row carries its native rating on the 0-100 scale, off by no more than the slack allows. */
  lemma ConvertedIsOnUnifiedScale(row: RawRow, override: Option<string>)
    requires Judge(row, override).Converted?
    ensures var r := Judge(row, override).row;
            var s := ScaleOf(r.source);
            s.Some? && -1.25 <= r.mos <= 101.25 && row.mos == Number(r.native) &&
            r.scaleLabel == s.value.name && (r.native - s.value.low) * 100.0 == r.mos * (s.value.high - s.value.low)
    ensures override.None? ==> Text(Judge(row, override).row.source) in {row.corpusSource, row.corpus}
    ensures override.Some? ==> Judge(row, override).row.source == override.value
  {}

  /** Conversion orders the ratings of one corpus as the raters did, and keeps distinct ones apart. */
  lemma ConversionKeepsOrder(a: real, b: real, source: string)
    requires ConvertMos(Number(a), source).Ok? && ConvertMos(Number(b), source).Ok?
    ensures a < b <==> ConvertMos(Number(a), source).result < ConvertMos(Number(b), source).result
  {}
}
