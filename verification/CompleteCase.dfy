/**
 Complete-case filtering: drop rows with a non-finite cell and columns that are
 constant on what remains, until neither happens.
 */
module CompleteCase {
  import opened Collections
  import opened Options

  datatype Cell = Missing | Infinite | Text | Finite(value: real)

  /** height rows; cell reads a column that exists at a row position. */
  datatype Frame = Frame(height: nat, cell: (nat, string) -> Cell)

  /** The retained row positions, the features kept, and the features dropped. */
  datatype Complete = Complete(rows: seq<nat>, usable: seq<string>, skipped: seq<string>)

  const NON_NUMERIC := "target and feature columns must contain numeric values"
  const NO_ROWS := "no complete rows remain after dropping non-finite feature/target values"
  const NO_COLUMNS := "no usable numeric feature columns remain after complete-case filtering"

  predicate RowIsFinite(df: Frame, row: nat, columns: seq<string>) {
    forall c :: c in columns ==> df.cell(row, c).Finite?
  }

  /** A row that survives dropping the missing ones and then cannot be read as numbers. */
  predicate RowIsNonNumeric(df: Frame, row: nat, columns: seq<string>) {
    (forall c :: c in columns ==> !df.cell(row, c).Missing?) && exists c :: c in columns && df.cell(row, c).Text?
  }

  predicate HasNonNumeric(df: Frame, columns: seq<string>) {
    exists row: nat :: row < df.height && RowIsNonNumeric(df, row, columns)
  }

  /** The first n rows that are finite on every column, in order. */
  function FiniteRows(df: Frame, columns: seq<string>, n: nat): seq<nat> {
    if n == 0 then []
    else FiniteRows(df, columns, n - 1) + if RowIsFinite(df, n - 1, columns) then [n - 1] else []
  }

  function Retained(df: Frame, columns: seq<string>): seq<nat> {
    FiniteRows(df, columns, df.height)
  }

  function Values(df: Frame, rows: seq<nat>, column: string): set<Cell> {
    set row | row in rows :: df.cell(row, column)
  }

  predicate IsConstant(df: Frame, rows: seq<nat>, column: string) {
    |Values(df, rows, column)| <= 1
  }

  /** The columns that are, or are not, constant on the rows, in order. */
  function Selected(df: Frame, rows: seq<nat>, columns: seq<string>, constant: bool): seq<string> {
    if columns == [] then []
    else
      var last := columns[|columns| - 1];
      Selected(df, rows, columns[..|columns| - 1], constant)
      + if IsConstant(df, rows, last) == constant then [last] else []
  }

  // ----- Rows

  lemma {:induction false} FiniteRowsAre(df: Frame, columns: seq<string>, n: nat)
    ensures forall row: nat :: row in FiniteRows(df, columns, n) <==> row < n && RowIsFinite(df, row, columns)
  {
    if n > 0 {
      FiniteRowsAre(df, columns, n - 1);
    }
  }

  lemma {:induction false} FiniteRowsIncrease(df: Frame, columns: seq<string>, n: nat)
    ensures forall i, j :: 0 <= i < j < |FiniteRows(df, columns, n)| ==>
              FiniteRows(df, columns, n)[i] < FiniteRows(df, columns, n)[j]
  {
    if n > 0 {
      FiniteRowsIncrease(df, columns, n - 1);
      FiniteRowsAre(df, columns, n - 1);
      var before := FiniteRows(df, columns, n - 1);
      assert forall i :: 0 <= i < |before| ==> before[i] in before;
    }
  }

  /** Fewer columns retain at least the same rows. */
  lemma RetainedGrows(df: Frame, columns: seq<string>, fewer: seq<string>)
    requires forall c :: c in fewer ==> c in columns
    ensures forall row :: row in Retained(df, columns) ==> row in Retained(df, fewer)
  {
    FiniteRowsAre(df, columns, df.height);
    FiniteRowsAre(df, fewer, df.height);
  }

  /** So a column that varies keeps varying. */
  lemma VaryingStays(df: Frame, rows: seq<nat>, more: seq<nat>, column: string)
    requires !IsConstant(df, rows, column) && forall row :: row in rows ==> row in more
    ensures !IsConstant(df, more, column)
  {
    SubsetSize(Values(df, rows, column), Values(df, more, column));
  }

  /** Two values means two rows that differ. */
  lemma VaryingMeans(df: Frame, rows: seq<nat>, column: string)
    ensures !IsConstant(df, rows, column) <==>
            exists i, j :: i in rows && j in rows && df.cell(i, column) != df.cell(j, column)
  {
    var values := Values(df, rows, column);
    if i, j :| i in rows && j in rows && df.cell(i, column) != df.cell(j, column) {
      SubsetSize({df.cell(i, column), df.cell(j, column)}, values);
    }
    if |values| > 1 {
      var x :| x in values;
      var y := Another(values, x);
    }
  }

  lemma Another<T>(s: set<T>, x: T) returns (y: T)
    requires |s| > 1
    ensures y in s && y != x
  {
    if s - {x} == {} {
      SubsetSize(s, {x});
    } else {
      y :| y in s - {x};
    }
  }

  // ----- Columns

  lemma {:induction false} SelectedAre(df: Frame, rows: seq<nat>, columns: seq<string>, constant: bool)
    ensures forall c :: c in Selected(df, rows, columns, constant) <==>
              c in columns && IsConstant(df, rows, c) == constant
  {
    if columns != [] {
      SelectedAre(df, rows, columns[..|columns| - 1], constant);
    }
  }

  lemma {:induction false} SelectionPartitions(df: Frame, rows: seq<nat>, columns: seq<string>)
    ensures multiset(Selected(df, rows, columns, true)) + multiset(Selected(df, rows, columns, false))
         == multiset(columns)
  {
    if columns != [] {
      var before, last := columns[..|columns| - 1], columns[|columns| - 1];
      SelectionPartitions(df, rows, before);
      assert columns == before + [last];
      SelectedSnoc(df, rows, before, last, columns);
      PartitionSnoc(Selected(df, rows, before, true), Selected(df, rows, before, false), before, last,
                    Selected(df, rows, columns, true), Selected(df, rows, columns, false), columns);
    }
  }

  lemma PartitionSnoc(a: seq<string>, b: seq<string>, all: seq<string>, x: string,
                      a': seq<string>, b': seq<string>, all': seq<string>)
    requires multiset(a) + multiset(b) == multiset(all) && all' == all + [x]
    requires (a' == a + [x] && b' == b) || (a' == a && b' == b + [x])
    ensures multiset(a') + multiset(b') == multiset(all')
  {}

  lemma {:induction false} SelectionLengths(df: Frame, rows: seq<nat>, columns: seq<string>)
    ensures |Selected(df, rows, columns, true)| + |Selected(df, rows, columns, false)| == |columns|
  {
    if columns != [] {
      SelectionLengths(df, rows, columns[..|columns| - 1]);
    }
  }

  /** Kept and skipped features keep their order. */
  lemma {:induction false} SelectionKeepsOrder(df: Frame, rows: seq<nat>, columns: seq<string>, constant: bool)
    ensures Among(Selected(df, rows, columns, constant), columns)
  {
    if columns != [] {
      var before, last := columns[..|columns| - 1], columns[|columns| - 1];
      SelectionKeepsOrder(df, rows, before, constant);
      assert columns == before + [last];
      if IsConstant(df, rows, last) == constant {
        AmongSnoc(Selected(df, rows, before, constant), before, last);
      } else {
        assert Selected(df, rows, columns, constant) == Selected(df, rows, before, constant);
        AmongSkip(Selected(df, rows, before, constant), before, last);
      }
    }
  }

  lemma {:induction false} AllSelected(df: Frame, rows: seq<nat>, columns: seq<string>, constant: bool)
    requires forall c :: c in columns ==> IsConstant(df, rows, c) == constant
    ensures Selected(df, rows, columns, constant) == columns && Selected(df, rows, columns, !constant) == []
  {
    if columns != [] {
      AllSelected(df, rows, columns[..|columns| - 1], constant);
    }
  }

  // ----- The loop, and its closed form

  /** One round of removals decides everything: the closed form of the loop. */
  function Filtered(df: Frame, features: seq<string>, target: string): Result<Complete> {
    if features == [] then Raise(NO_COLUMNS)
    else if HasNonNumeric(df, features + [target]) then Raise(NON_NUMERIC)
    else
      var first := Retained(df, features + [target]);
      if first == [] then Raise(NO_ROWS)
      else
        var usable := Selected(df, first, features, false);
        if usable == [] then Raise(NO_COLUMNS)
        else if HasNonNumeric(df, usable + [target]) then Raise(NON_NUMERIC)
        else Ok(Complete(Retained(df, usable + [target]), usable, Selected(df, first, features, true)))
  }

  /** After a first round that kept these features, the next finds nothing constant. */
  lemma SecondRoundIsLast(df: Frame, features: seq<string>, target: string, usable: seq<string>)
    requires usable == Selected(df, Retained(df, features + [target]), features, false)
    ensures Selected(df, Retained(df, usable + [target]), usable, true) == []
    ensures Retained(df, features + [target]) != [] ==> Retained(df, usable + [target]) != []
  {
    var first, second := Retained(df, features + [target]), Retained(df, usable + [target]);
    SelectedAre(df, first, features, false);
    RetainedGrows(df, features + [target], usable + [target]);
    forall c | c in usable ensures !IsConstant(df, second, c) {
      VaryingStays(df, first, second, c);
    }
    AllSelected(df, second, usable, false);
    if first != [] {
      assert first[0] in second;
    }
  }

  method CompleteCaseFeatures(df: Frame, features: seq<string>, target: string) returns (outcome: Result<Complete>)
    ensures outcome == Filtered(df, features, target)
  {
    var usable, skipped := features, [];
    ghost var first := Retained(df, features + [target]);
    while usable != []
      invariant (usable == features && skipped == []) ||
                (features != [] && !HasNonNumeric(df, features + [target]) && first != [] &&
                 usable == Selected(df, first, features, false) && skipped == Selected(df, first, features, true))
      decreases |usable|
    {
      var columns := usable + [target];
      if HasNonNumeric(df, columns) {
        return Raise(NON_NUMERIC);
      }
      var rows := Retained(df, columns);
      SecondRoundIsLast(df, features, target, Selected(df, first, features, false));
      if rows == [] {
        return Raise(NO_ROWS);
      }
      var constant := Selected(df, rows, usable, true);
      if constant == [] {
        NoneConstant(df, rows, usable);
        return Ok(Complete(rows, usable, skipped));
      }
      SelectionLengths(df, rows, usable);
      skipped := skipped + constant;
      usable := Selected(df, rows, usable, false);
    }
    return Raise(NO_COLUMNS);
  }

  lemma NoneConstant(df: Frame, rows: seq<nat>, columns: seq<string>)
    requires Selected(df, rows, columns, true) == []
    ensures Selected(df, rows, columns, false) == columns
  {}

  // ----- What the result satisfies

  /**
   The rows are exactly the original rows finite on every kept feature and the target,
   in order; every kept feature takes two values on them; kept and skipped partition
   the features; and a skipped feature is constant on the rows finite on all features.
   */
  lemma CompleteCaseIsSound(df: Frame, features: seq<string>, target: string)
    requires Filtered(df, features, target).Ok?
    ensures var c := Filtered(df, features, target).result;
            c.rows != [] && c.usable != [] &&
            (forall row: nat :: row in c.rows <==> row < df.height && RowIsFinite(df, row, c.usable + [target])) &&
            (forall i, j :: 0 <= i < j < |c.rows| ==> c.rows[i] < c.rows[j])
    ensures var c := Filtered(df, features, target).result;
            forall f :: f in c.usable ==>
              exists i, j :: i in c.rows && j in c.rows && df.cell(i, f) != df.cell(j, f)
    ensures var c := Filtered(df, features, target).result;
            multiset(c.skipped) + multiset(c.usable) == multiset(features) &&
            Among(c.skipped, features) && Among(c.usable, features)
    ensures var c := Filtered(df, features, target).result;
            forall f :: f in c.skipped ==> IsConstant(df, Retained(df, features + [target]), f)
  {
    var c := Filtered(df, features, target).result;
    var first := Retained(df, features + [target]);
    FiniteRowsAre(df, c.usable + [target], df.height);
    FiniteRowsIncrease(df, c.usable + [target], df.height);
    SelectionPartitions(df, first, features);
    SelectionKeepsOrder(df, first, features, true);
    SelectionKeepsOrder(df, first, features, false);
    SelectedAre(df, first, features, true);
    SecondRoundIsLast(df, features, target, c.usable);
    SelectedAre(df, c.rows, c.usable, true);
    forall f | f in c.usable
      ensures exists i, j :: i in c.rows && j in c.rows && df.cell(i, f) != df.cell(j, f)
    {
      assert f !in Selected(df, c.rows, c.usable, true);
      VaryingMeans(df, c.rows, f);
    }
  }

  /** A feature is kept exactly when two rows finite on all features differ in it. */
  lemma KeptExactlyWhen(df: Frame, features: seq<string>, target: string, f: string)
    requires Filtered(df, features, target).Ok?
    ensures f in Filtered(df, features, target).result.usable <==>
            f in features && exists i: nat, j: nat ::
              i < df.height && j < df.height && df.cell(i, f) != df.cell(j, f) &&
              RowIsFinite(df, i, features + [target]) && RowIsFinite(df, j, features + [target])
  {
    var first := Retained(df, features + [target]);
    FiniteRowsAre(df, features + [target], df.height);
    SelectedAre(df, first, features, false);
    VaryingMeans(df, first, f);
  }

  /** The errors: no row is finite in every feature; or nothing varies on those rows. */
  lemma RaisesExactlyWhen(df: Frame, features: seq<string>, target: string)
    ensures Filtered(df, features, target) == Raise(NO_ROWS) <==>
            features != [] && !HasNonNumeric(df, features + [target]) &&
            forall row: nat :: row < df.height ==> !RowIsFinite(df, row, features + [target])
    ensures Filtered(df, features, target) == Raise(NO_COLUMNS) <==>
            features == [] ||
            (!HasNonNumeric(df, features + [target]) && Retained(df, features + [target]) != [] &&
             forall f :: f in features ==> IsConstant(df, Retained(df, features + [target]), f))
  {
    var first := Retained(df, features + [target]);
    FiniteRowsAre(df, features + [target], df.height);
    if row: nat :| row < df.height && RowIsFinite(df, row, features + [target]) {
      assert row in first;
    } else {
      NoneRetained(df, features + [target], df.height);
    }
    SelectedAre(df, first, features, false);
    if forall f :: f in features ==> IsConstant(df, first, f) {
      AllSelected(df, first, features, true);
    }
  }

  /** The rows kept are those with a finite number in every kept feature and the target; no infinity passes. */
  lemma RowsHaveNumbers(df: Frame, features: seq<string>, target: string, row: nat)
    requires Filtered(df, features, target).Ok?
    ensures var c := Filtered(df, features, target).result;
            row in c.rows <==>
            row < df.height && df.cell(row, target).Finite? && forall f :: f in c.usable ==> df.cell(row, f).Finite?
  {
    var usable := Filtered(df, features, target).result.usable;
    FiniteRowsAre(df, usable + [target], df.height);
    assert target in usable + [target];
    assert forall f :: f in usable ==> f in usable + [target];
  }

  /** Some row misses no cell, and has a text that is no number. */
  ghost predicate TextSurvives(df: Frame, features: seq<string>, target: string) {
    exists row: nat, f ::
      row < df.height && (f in features || f == target) && df.cell(row, f) == Text &&
      df.cell(row, target) != Missing && forall g :: g in features ==> df.cell(row, g) != Missing
  }

  lemma TextSurvivesMeans(df: Frame, features: seq<string>, target: string)
    ensures HasNonNumeric(df, features + [target]) <==> TextSurvives(df, features, target)
  {
    var columns := features + [target];
    assert target in columns && forall f :: f in columns <==> f in features || f == target;
    if row: nat :| row < df.height && RowIsNonNumeric(df, row, columns) {
      var f :| f in columns && df.cell(row, f).Text?;
      assert f in features || f == target;
    }
    if TextSurvives(df, features, target) {
      var row: nat, f :| row < df.height && (f in features || f == target) && df.cell(row, f) == Text &&
        df.cell(row, target) != Missing && forall g :: g in features ==> df.cell(row, g) != Missing;
      assert RowIsNonNumeric(df, row, columns);
    }
  }

  /** A text among the features is an error at once, or when dropping features frees the row it is in. */
  lemma NonNumericExactlyWhen(df: Frame, features: seq<string>, target: string)
    ensures var first := Retained(df, features + [target]);
            var usable := Selected(df, first, features, false);
            Filtered(df, features, target) == Raise(NON_NUMERIC) <==>
            features != [] &&
            (TextSurvives(df, features, target) ||
             (first != [] && usable != [] && TextSurvives(df, usable, target)))
  {
    TextSurvivesMeans(df, features, target);
    TextSurvivesMeans(df, Selected(df, Retained(df, features + [target]), features, false), target);
  }

  lemma {:induction false} NoneRetained(df: Frame, columns: seq<string>, n: nat)
    requires forall row: nat :: row < n ==> !RowIsFinite(df, row, columns)
    ensures FiniteRows(df, columns, n) == []
  {
    if n > 0 {
      NoneRetained(df, columns, n - 1);
    }
  }

  // ----- When a larger set of features would have done

  /** Every column varies on the rows finite on all of them and the target. */
  ghost predicate AllVary(df: Frame, columns: seq<string>, target: string) {
    forall c :: c in columns ==> !IsConstant(df, Retained(df, columns + [target]), c)
  }

  ghost predicate Enlarges(columns: seq<string>, usable: seq<string>, features: seq<string>) {
    && (forall c :: c in usable ==> c in columns) && (forall c :: c in columns ==> c in features)
    && exists c :: c in columns && c !in usable
  }

  /** A skipped feature that two rows finite on it and on all kept features differ in. */
  predicate CouldRejoin(df: Frame, usable: seq<string>, target: string, f: string) {
    !IsConstant(df, Retained(df, usable + [f] + [target]), f)
  }

  lemma CouldRejoinMeans(df: Frame, usable: seq<string>, target: string, f: string)
    ensures CouldRejoin(df, usable, target, f) <==>
            exists i: nat, j: nat ::
              i < df.height && j < df.height && df.cell(i, f) != df.cell(j, f) &&
              RowIsFinite(df, i, usable + [f] + [target]) && RowIsFinite(df, j, usable + [f] + [target])
  {
    VaryingMeans(df, Retained(df, usable + [f] + [target]), f);
    FiniteRowsAre(df, usable + [f] + [target], df.height);
  }

  /** Adding one such feature keeps every kept feature varying. */
  lemma RejoiningIsSound(df: Frame, features: seq<string>, target: string, usable: seq<string>, f: string)
    requires usable == Selected(df, Retained(df, features + [target]), features, false)
    requires f in features && CouldRejoin(df, usable, target, f)
    ensures AllVary(df, usable + [f], target)
  {
    var first, more := Retained(df, features + [target]), Retained(df, usable + [f] + [target]);
    SelectedAre(df, first, features, false);
    RetainedGrows(df, features + [target], usable + [f] + [target]);
    forall c | c in usable + [f] ensures !IsConstant(df, more, c) {
      if c in usable {
        VaryingStays(df, first, more, c);
      }
    }
  }

  /** Any larger set that varies throughout contains such a feature. */
  lemma EnlargingRejoins(df: Frame, columns: seq<string>, usable: seq<string>, target: string, f: string)
    requires AllVary(df, columns, target) && f in columns && forall c :: c in usable ==> c in columns
    ensures CouldRejoin(df, usable, target, f)
  {
    RetainedGrows(df, columns + [target], usable + [f] + [target]);
    VaryingStays(df, Retained(df, columns + [target]), Retained(df, usable + [f] + [target]), f);
  }

  /** The kept set can be enlarged exactly when some single skipped feature could rejoin it. */
  lemma CanBeEnlargedExactlyWhen(df: Frame, features: seq<string>, target: string)
    requires Filtered(df, features, target).Ok?
    ensures var c := Filtered(df, features, target).result;
            (exists columns :: Enlarges(columns, c.usable, features) && AllVary(df, columns, target)) <==>
            (exists f :: f in c.skipped && CouldRejoin(df, c.usable, target, f))
  {
    var c := Filtered(df, features, target).result;
    var first := Retained(df, features + [target]);
    SelectedAre(df, first, features, true);
    SelectedAre(df, first, features, false);
    if columns :| Enlarges(columns, c.usable, features) && AllVary(df, columns, target) {
      var f :| f in columns && f !in c.usable;
      EnlargingRejoins(df, columns, c.usable, target, f);
      assert f in c.skipped;
    }
    if f :| f in c.skipped && CouldRejoin(df, c.usable, target, f) {
      RejoiningIsSound(df, features, target, c.usable, f);
      assert f in c.usable + [f] && f !in c.usable;
      assert Enlarges(c.usable + [f], c.usable, features);
    }
  }

  // ----- Such a feature exists

  /** Every column varies; dropping "b" frees row 1, on which the dropped "c" would vary. */
  function Sample(row: nat, column: string): Cell {
    if column == "a" then if row == 3 then Missing else Finite(row as real)
    else if column == "b" then if row == 1 then Missing else Finite(if row == 3 then 1.0 else 0.0)
    else if column == "c" then Finite(if row == 1 then 1.0 else 0.0)
    else Finite(row as real)
  }

  function SampleFrame(): Frame {
    Frame(4, (row: nat, column: string) => Sample(row, column))
  }

  lemma SampleRows(first: seq<nat>)
    requires first == Retained(SampleFrame(), ["a", "b", "c"] + ["y"])
    ensures 0 in first && 2 in first && forall row :: row in first ==> row == 0 || row == 2
  {
    FiniteRowsAre(SampleFrame(), ["a", "b", "c"] + ["y"], 4);
    assert "b" in ["a", "b", "c"] + ["y"] && SampleFrame().cell(1, "b").Missing?;
    assert "a" in ["a", "b", "c"] + ["y"] && SampleFrame().cell(3, "a").Missing?;
  }

  lemma SampleColumns(first: seq<nat>)
    requires 0 in first && 2 in first && forall row :: row in first ==> row == 0 || row == 2
    ensures !IsConstant(SampleFrame(), first, "a")
    ensures IsConstant(SampleFrame(), first, "b") && IsConstant(SampleFrame(), first, "c")
  {
    var df := SampleFrame();
    VaryingMeans(df, first, "a");
    assert df.cell(0, "a") != df.cell(2, "a");
    VaryingMeans(df, first, "b");
    VaryingMeans(df, first, "c");
  }

  lemma SelectedSnoc(df: Frame, rows: seq<nat>, columns: seq<string>, c: string, columns': seq<string>)
    requires columns' == columns + [c]
    ensures Selected(df, rows, columns', true)
         == if IsConstant(df, rows, c) then Selected(df, rows, columns, true) + [c]
            else Selected(df, rows, columns, true)
    ensures Selected(df, rows, columns', false)
         == if IsConstant(df, rows, c) then Selected(df, rows, columns, false)
            else Selected(df, rows, columns, false) + [c]
  {}

  lemma SampleSelection(first: seq<nat>)
    requires first == Retained(SampleFrame(), ["a", "b", "c"] + ["y"])
    ensures first != []
    ensures Selected(SampleFrame(), first, ["a", "b", "c"], false) == ["a"]
    ensures Selected(SampleFrame(), first, ["a", "b", "c"], true) == ["b", "c"]
  {
    SampleRows(first);
    SampleColumns(first);
    var df := SampleFrame();
    SelectedSnoc(df, first, [], "a", ["a"]);
    SelectedSnoc(df, first, ["a"], "b", ["a", "b"]);
    SelectedSnoc(df, first, ["a", "b"], "c", ["a", "b", "c"]);
  }

  lemma SampleIsFinite(row: nat)
    requires row < 3
    ensures RowIsFinite(SampleFrame(), row, ["a"] + ["c"] + ["y"])
    ensures RowIsFinite(SampleFrame(), row, ["a"] + ["y"])
  {}

  lemma SampleRejoins()
    ensures CouldRejoin(SampleFrame(), ["a"], "y", "c")
  {
    SampleIsFinite(0);
    SampleIsFinite(1);
    CouldRejoinMeans(SampleFrame(), ["a"], "y", "c");
  }

  lemma SampleIsFiltered()
    ensures Filtered(SampleFrame(), ["a", "b", "c"], "y")
         == Ok(Complete(Retained(SampleFrame(), ["a"] + ["y"]), ["a"], ["b", "c"]))
  {
    SampleSelection(Retained(SampleFrame(), ["a", "b", "c"] + ["y"]));
  }

  /** A skipped feature may vary on the rows that are finally kept, and could have been kept. */
  lemma SkippedMayVary()
    ensures var outcome := Filtered(SampleFrame(), ["a", "b", "c"], "y");
            outcome.Ok? && outcome.result.usable == ["a"] && "c" in outcome.result.skipped &&
            0 in outcome.result.rows && 1 in outcome.result.rows &&
            SampleFrame().cell(0, "c") != SampleFrame().cell(1, "c")
    ensures CouldRejoin(SampleFrame(), ["a"], "y", "c")
  {
    SampleIsFiltered();
    SampleIsFinite(0);
    SampleIsFinite(1);
    FiniteRowsAre(SampleFrame(), ["a"] + ["y"], 4);
    SampleRejoins();
  }
}
