/**
 * `train_model` (`ai-totem/src/ml_engine/trainer.py`): read the newest
 * rows, refuse to train on fewer than 50, coerce the two time columns to
 * numbers, hold out 30% of the rows, fit a 100-tree forest on the rest and
 * overwrite the artifact.
 *
 * The shuffle `train_test_split` draws from its seed is a parameter: any
 * permutation of the row indices.
 */
module Trainer {
  import opened Wrappers
  import opened Fields
  import opened Numbers
  import opened Frames
  import opened Backend
  import opened Artifact
  import Connector

  const MinRows := 50
  const ReadLimit := 1000
  const RandomState := 42
  const Estimators := 100

  /** `pd.to_numeric(..., errors='coerce').fillna(0)` on one cell. */
  function ToNumeric(v: Value): (x: real)
    ensures v.Num? ==> x == v.x
    ensures v.Str? && ParseDecimal(v.s).Some? ==> x == ParseDecimal(v.s).value
    ensures v.Null? || (v.Str? && ParseDecimal(v.s).None?) ==> x == 0.0
  {
    match v
    case Num(x) => x
    case Str(s) => ParseDecimal(s).GetOr(0.0)
    case Null => 0.0
  }

  /** Digit text counts as its number; text with a letter in it, like a missing value, counts as 0. */
  lemma CoercionOfText(digits: string, other: string)
    requires digits != [] && AllDigits(digits)
    requires exists k :: 0 <= k < |other| && !IsDigit(other[k]) && other[k] !in ".+-"
    ensures ToNumeric(Str(digits)) == DigitsValue(digits) as real
    ensures ToNumeric(Str(other)) == 0.0 && ToNumeric(Null) == 0.0
  {
    ParseWholeNumber(digits);
  }

  /** The feature columns of one row, after coercion. */
  function FeaturesOf(r: Row): Features {
    Features(ToNumeric(GetOr(r.cells, Dwell, Null)), ToNumeric(GetOr(r.cells, Interaction, Null)))
  }

  /** `X = df[features]` and `y = df['tipo_interacao']`, row by row. */
  function Matrix(rows: seq<Row>): (X: seq<Features>)
    ensures |X| == |rows| && forall i :: 0 <= i < |rows| ==> X[i] == FeaturesOf(rows[i])
  {
    seq(|rows|, i requires 0 <= i < |rows| => FeaturesOf(rows[i]))
  }

  function Targets(rows: seq<Row>): (y: seq<Value>)
    ensures |y| == |rows| && forall i :: 0 <= i < |rows| ==> y[i] == GetOr(rows[i].cells, Kind, Null)
  {
    seq(|rows|, i requires 0 <= i < |rows| => GetOr(rows[i].cells, Kind, Null))
  }

  function Indices(n: nat): (r: seq<nat>)
    ensures |r| == n && forall i :: 0 <= i < n ==> r[i] == i
  {
    seq(n, i requires 0 <= i < n => i)
  }

  /** `p` orders the row indices 0..n-1, each exactly once (the length and range follow from the multiset). */
  predicate IsPermutation(p: seq<nat>, n: nat) {
    && |p| == n
    && (forall k :: 0 <= k < |p| ==> p[k] < n)
    && multiset(p) == multiset(Indices(n))
  }

  lemma {:induction false} IndicesOnce(n: nat, i: nat)
    ensures multiset(Indices(n))[i] == (if i < n then 1 else 0)
  {
    if n > 0 {
      assert Indices(n) == Indices(n - 1) + [n - 1];
      IndicesOnce(n - 1, i);
    } else {
      assert Indices(0) == [];
    }
  }

  /** `test_size=0.3`: the test part has the ceiling of 0.3 n rows. */
  function TestCount(n: nat): (t: nat)
    ensures 3 * n <= 10 * t < 3 * n + 10
    ensures t <= n
  {
    (3 * n + 9) / 10
  }

  datatype Split = Split(trainX: seq<Features>, trainY: seq<Value>, testX: seq<Features>, testY: seq<Value>)

  /** `train_test_split`: the first TestCount(n) shuffled rows are held out, the rest train. */
  function TrainTestSplit(X: seq<Features>, y: seq<Value>, perm: seq<nat>): (s: Split)
    requires |X| == |y| && IsPermutation(perm, |X|)
    ensures |s.testX| == |s.testY| == TestCount(|X|)
    ensures |s.trainX| == |s.trainY| == |X| - TestCount(|X|)
  {
    var t := TestCount(|X|);
    Split(seq(|X| - t, i requires 0 <= i < |X| - t => X[perm[t + i]]),
          seq(|X| - t, i requires 0 <= i < |X| - t => y[perm[t + i]]),
          seq(t, i requires 0 <= i < t => X[perm[i]]),
          seq(t, i requires 0 <= i < t => y[perm[i]]))
  }

  /**
   * Every row is used exactly once: held out for the test or fitted on,
   * never both and never neither, and each pair of the split is one row's
   * features with that same row's label.
   */
  lemma SplitPartitionsRows(X: seq<Features>, y: seq<Value>, perm: seq<nat>)
    requires |X| == |y| && IsPermutation(perm, |X|)
    ensures var t := TestCount(|X|);
      forall r :: 0 <= r < |X| ==> (r in perm[..t]) != (r in perm[t..])
    ensures var t := TestCount(|X|); var s := TrainTestSplit(X, y, perm);
      && (forall i :: 0 <= i < |s.testX| ==> s.testX[i] == X[perm[i]] && s.testY[i] == y[perm[i]])
      && (forall i :: 0 <= i < |s.trainX| ==> s.trainX[i] == X[perm[t + i]] && s.trainY[i] == y[perm[t + i]])
  {
    var t := TestCount(|X|);
    assert perm == perm[..t] + perm[t..];
    forall r | 0 <= r < |X| ensures (r in perm[..t]) != (r in perm[t..]) {
      IndicesOnce(|X|, r);
      assert multiset(perm[..t])[r] + multiset(perm[t..])[r] == 1;
    }
  }

  /**
   * Every row has a label. A `None` label makes the learning library raise,
   * in `fit` when it falls in the training part and in `accuracy_score`
   * when it falls in the test part.
   */
  predicate Labelled(y: seq<Value>) {
    forall i :: 0 <= i < |y| ==> !y[i].Null?
  }

  /**
   * The classifier `train_model` produces from the frame it read, or None
   * when it stops early or raises before writing: `RandomForestClassifier(
   * n_estimators=100, random_state=42)` fitted on the training part of the split.
   */
  function Train(df: Frame, perm: seq<nat>): (m: Option<Classifier>)
    requires IsPermutation(perm, |df.rows|)
    ensures m.Some? <==> |df.rows| >= MinRows && Labelled(Targets(df.rows))
    ensures m.Some? ==> m.value.trees == Estimators && m.value.seed == RandomState
    ensures m.Some? ==> |m.value.trainX| == |m.value.trainY| == |df.rows| - TestCount(|df.rows|) >= 35
    ensures m.Some? ==> var t := TestCount(|df.rows|);
      forall i :: 0 <= i < |df.rows| - t ==>
        && m.value.trainX[i] == Matrix(df.rows)[perm[t + i]]
        && m.value.trainY[i] == Targets(df.rows)[perm[t + i]]
  {
    if |df.rows| < MinRows || !Labelled(Targets(df.rows)) then None
    else
      var split := TrainTestSplit(Matrix(df.rows), Targets(df.rows), perm);
      SplitPartitionsRows(Matrix(df.rows), Targets(df.rows), perm);
      Some(Forest(Estimators, RandomState, split.trainX, split.trainY))
  }

  /**
   * `train_model`. The connector is built from the `DB_TYPE` setting as in
   * the source; `trained` is false where it returns early or raises on a
   * missing label, and then the artifact is left as it was.
   */
  method TrainModel(dbType: Option<string>, oracleAvailable: bool, table: Table, reachable: bool,
                    shuffle: nat -> seq<nat>, file: ModelFile) returns (trained: bool)
    requires table.Valid() && table.name == Connector.TableName
    requires forall i :: 0 <= i < |table.rows| ==> table.rows[i].cells.Keys == Connector.DataKeys
    requires forall n :: IsPermutation(shuffle(n), n)
    modifies file
    ensures var df := Connector.Fetched(ChooseDriver(None, dbType), oracleAvailable, reachable,
                                        table.created, table.rows, ReadLimit);
      && trained == (|df.rows| >= MinRows && Labelled(Targets(df.rows)))
      && (trained ==> |df.rows| <= ReadLimit)
      && file.stored == (if trained then Train(df, shuffle(|df.rows|)) else old(file.stored))
  {
    var db := new Connector.DBConnector(None, dbType, oracleAvailable, table);
    var df := db.ReadData(ReadLimit, reachable);
    if |df.rows| < MinRows {
      return false;
    }
    var X := Matrix(df.rows);
    var y := Targets(df.rows);
    if !Labelled(y) {
      return false;
    }
    var split := TrainTestSplit(X, y, shuffle(|df.rows|));
    var clf := Forest(Estimators, RandomState, split.trainX, split.trainY);
    file.Write(clf);
    trained := true;
  }
}
