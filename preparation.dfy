/** The preparation steps both first-round map scripts apply to the results table:
    fixing the misspelled column prefix, the abstention rate and the scaling of shares to
    percentages. */
module Preparation {
  import opened Wrappers
  import opened Strings
  import opened Frames

  const ProportionPrefix: string := "Proportion_"
  const MisspelledPrefix: string := "Porportion_"

  /** One bureau's share columns, in frame order: column name and share (missing = NaN). */
  type ShareRow = seq<(string, Option<real>)>

  /** `col.startswith("Proportion_")`. */
  predicate IsProportionColumn(col: string) {
    ProportionPrefix <= col
  }

  /** `[col for col in columns if col.startswith("Proportion_")]`. */
  function ProportionColumns(columns: seq<string>): (r: seq<string>)
    ensures forall c :: c in r <==> c in columns && IsProportionColumn(c)
    ensures Distinct(columns) ==> Distinct(r)
  {
    if columns == [] then []
    else
      var rest := ProportionColumns(columns[1..]);
      assert forall c :: c in columns[1..] ==> c in columns;
      assert Distinct(columns) ==> columns[0] !in columns[1..] && Distinct(columns[1..]);
      if IsProportionColumn(columns[0]) then [columns[0]] + rest else rest
  }

  /** Appending a column appends it to the share columns exactly when it is one. */
  lemma {:induction false} ProportionColumnsAppend(columns: seq<string>, col: string)
    ensures ProportionColumns(columns + [col]) ==
      ProportionColumns(columns) + if IsProportionColumn(col) then [col] else []
    decreases |columns|
  {
    if columns == [] {
      assert ProportionColumns([col]) == (if IsProportionColumn(col) then [col] else []) + ProportionColumns([col][1..]);
    } else {
      assert (columns + [col])[1..] == columns[1..] + [col];
      ProportionColumnsAppend(columns[1..], col);
    }
  }

  /** `col.replace("Porportion_", "Proportion_")`. */
  function RenameColumn(col: string): string {
    ReplaceAll(col, MisspelledPrefix, ProportionPrefix)
  }

  /** After the rename no column name holds the misspelled prefix, and a name without it
      is left as it was. */
  lemma RenameFixesPrefix(col: string)
    ensures !Contains(RenameColumn(col), MisspelledPrefix)
    ensures !Contains(col, MisspelledPrefix) ==> RenameColumn(col) == col
  {
    assert MisspelledPrefix[0] == 'P' && ProportionPrefix[1..] == "roportion_";
    assert ProportionPrefix[0] == 'P' && MisspelledPrefix[1..] == "orportion_";
    ReplaceAllRemoves(col, MisspelledPrefix, ProportionPrefix);
    if !Contains(col, MisspelledPrefix) {
      ReplaceAllAbsent(col, MisspelledPrefix, ProportionPrefix);
    }
  }

  /** `col.replace("Proportion_", "")`: the candidate's display name. */
  function CandidateName(col: string): string {
    ReplaceAll(col, ProportionPrefix, "")
  }

  /** The share column of a candidate gives back the candidate's name. */
  lemma CandidateNameOfColumn(name: string)
    requires !Contains(name, ProportionPrefix)
    ensures CandidateName(ProportionPrefix + name) == name
  {
    RemovePrefixOccurrence(ProportionPrefix, name);
  }

  /** `(1 - participation) * 100`, NaN staying NaN. */
  function Abstention(participation: Option<real>): (rate: Option<real>)
    ensures rate.Some? <==> participation.Some?
    ensures rate.Some? ==> participation.value == 1.0 - rate.value / 100.0
    ensures rate.Some? ==> (0.0 <= participation.value <= 1.0 <==> 0.0 <= rate.value <= 100.0)
  {
    match participation
    case None => None
    case Some(p) => Some((1.0 - p) * 100.0)
  }

  /** `share * 100`, NaN staying NaN. */
  function Percent(share: Option<real>): (pct: Option<real>)
    ensures pct.Some? <==> share.Some?
    ensures pct.Some? ==> pct.value / 100.0 == share.value
  {
    match share
    case None => None
    case Some(s) => Some(s * 100.0)
  }

  function MapCells(cells: seq<Cell>, f: Cell -> Cell): (r: seq<Cell>)
    ensures |r| == |cells| && forall i :: 0 <= i < |cells| ==> r[i] == f(cells[i])
  {
    seq(|cells|, i requires 0 <= i < |cells| => f(cells[i]))
  }

  /** The column names after the rename, in frame order. */
  function RenamedColumns(cols: seq<string>): (r: seq<string>)
    ensures |r| == |cols| && forall i :: 0 <= i < |cols| ==> r[i] == RenameColumn(cols[i])
  {
    seq(|cols|, i requires 0 <= i < |cols| => RenameColumn(cols[i]))
  }

  /** A name that does not start with 'P' is no share column. */
  lemma NotAShareColumn(col: string)
    requires col != [] && col[0] != 'P'
    ensures !IsProportionColumn(col)
  {
  }

  /** The column vectors of `cols` stored under the names `names`, position by position. */
  function Rekeyed(cols: seq<string>, names: seq<string>, data: map<string, seq<Cell>>): map<string, seq<Cell>>
    requires |names| == |cols| && forall c :: c in cols ==> c in data
  {
    if cols == [] then map[]
    else
      assert forall c :: c in cols[1..] ==> c in cols;
      Rekeyed(cols[1..], names[1..], data)[names[0] := data[cols[0]]]
  }

  /** The table holds exactly the given names. */
  lemma {:induction false} RekeyedKeys(cols: seq<string>, names: seq<string>, data: map<string, seq<Cell>>)
    requires |names| == |cols| && forall c :: c in cols ==> c in data
    ensures Rekeyed(cols, names, data).Keys == set c | c in names
  {
    if cols != [] {
      assert forall c :: c in cols[1..] ==> c in cols;
      RekeyedKeys(cols[1..], names[1..], data);
      assert names == [names[0]] + names[1..];
    }
  }

  /** With distinct names, each name holds the vector of the column at its position. */
  lemma {:induction false} RekeyedAt(cols: seq<string>, names: seq<string>, data: map<string, seq<Cell>>, i: nat)
    requires |names| == |cols| && forall c :: c in cols ==> c in data
    requires Distinct(names) && i < |cols|
    ensures names[i] in Rekeyed(cols, names, data)
    ensures Rekeyed(cols, names, data)[names[i]] == data[cols[i]]
  {
    if i > 0 {
      assert forall c :: c in cols[1..] ==> c in cols;
      assert names[i] != names[0];
      assert names[1..][i - 1] == names[i] && cols[1..][i - 1] == cols[i];
      assert Distinct(names[1..]) by {
        assert forall a :: 0 <= a < |names| - 1 ==> names[1..][a] == names[a + 1];
      }
      RekeyedAt(cols[1..], names[1..], data, i - 1);
    }
  }

  /** The column vectors re-keyed by their renamed column names. */
  function RenamedData(cols: seq<string>, data: map<string, seq<Cell>>): map<string, seq<Cell>>
    requires forall c :: c in cols ==> c in data
  {
    Rekeyed(cols, RenamedColumns(cols), data)
  }

  /** No two columns get the same name from the rename. */
  predicate RenamesDistinct(cols: seq<string>) {
    Distinct(RenamedColumns(cols))
  }

  /** Corrects the "Porportion_" misspelling in every column name, in place. The names after
      the rename must stay distinct. */
  method RenameColumns(df: Frame)
    requires df.Valid()
    requires RenamesDistinct(df.columns)
    modifies df
    ensures df.Valid() && df.height == old(df.height)
    ensures df.columns == RenamedColumns(old(df.columns))
    ensures df.data == RenamedData(old(df.columns), old(df.data))
    ensures forall i :: 0 <= i < |df.columns| ==> df.data[df.columns[i]] == old(df.data)[old(df.columns)[i]]
  {
    RenamedFrame(df.columns, df.data, df.height);
    df.columns, df.data := RenamedColumns(df.columns), RenamedData(df.columns, df.data);
  }

  /** The renamed names and vectors still make a frame, each renamed column holding the
      vector of the column it was renamed from. */
  lemma RenamedFrame(cols: seq<string>, data: map<string, seq<Cell>>, height: nat)
    requires forall c :: c in data <==> c in cols
    requires forall c :: c in data ==> |data[c]| == height
    requires RenamesDistinct(cols)
    ensures Distinct(RenamedColumns(cols))
    ensures forall c :: c in RenamedData(cols, data) <==> c in RenamedColumns(cols)
    ensures forall i :: 0 <= i < |cols| ==> RenamedData(cols, data)[RenamedColumns(cols)[i]] == data[cols[i]]
    ensures forall c :: c in RenamedData(cols, data) ==> |RenamedData(cols, data)[c]| == height
  {
    var renamed, newData := RenamedColumns(cols), RenamedData(cols, data);
    RekeyedKeys(cols, renamed, data);
    forall i | 0 <= i < |cols| ensures newData[renamed[i]] == data[cols[i]] {
      RekeyedAt(cols, renamed, data, i);
    }
    forall c | c in newData ensures |newData[c]| == height {
      var i :| 0 <= i < |renamed| && renamed[i] == c;
      assert newData[c] == data[cols[i]];
    }
  }

  /** The frame data with the abstention rate of each bureau in `Taux_abstention`. */
  function WithAbstention(data: map<string, seq<Cell>>): map<string, seq<Cell>>
    requires "Participation" in data
  {
    data["Taux_abstention" := MapCells(data["Participation"], Abstention)]
  }

  /** `df["Taux_abstention"] = (1 - df["Participation"]) * 100`; a frame without a
      "Participation" column raises KeyError and is left as it was (`ok` false). */
  method AddAbstention(df: Frame) returns (ok: bool)
    requires df.Valid()
    modifies df
    ensures df.Valid() && df.height == old(df.height)
    ensures ok <==> "Participation" in old(df.data)
    ensures !ok ==> df.columns == old(df.columns) && df.data == old(df.data)
    ensures ok ==> df.data == WithAbstention(old(df.data))
    ensures ok ==> df.columns == WithColumn(old(df.columns), "Taux_abstention")
  {
    ok := "Participation" in df.data;
    if ok {
      df.SetColumn("Taux_abstention", MapCells(df.data["Participation"], Abstention));
    }
  }

  /** What scaling the share columns leaves in the frame: every "Proportion_" column is
      multiplied by 100, every other column is unchanged. */
  function Scaled(data: map<string, seq<Cell>>): map<string, seq<Cell>> {
    map c | c in data :: if IsProportionColumn(c) then MapCells(data[c], Percent) else data[c]
  }

  /** The columns named in `done` are scaled, every other column is as it was. */
  ghost predicate ScaledUpTo(data: map<string, seq<Cell>>, before: map<string, seq<Cell>>, done: seq<string>) {
    && data.Keys == before.Keys
    && forall c :: c in data ==> data[c] == if c in done then MapCells(before[c], Percent) else before[c]
  }

  /** Scaling one more, not yet scaled, column. */
  lemma ScaleStep(data: map<string, seq<Cell>>, before: map<string, seq<Cell>>, done: seq<string>, col: string)
    requires ScaledUpTo(data, before, done) && col in data && col !in done
    ensures ScaledUpTo(data[col := MapCells(data[col], Percent)], before, done + [col])
  {
  }

  /** Scaling the next column of a list of distinct columns. */
  lemma ScaleNext(data: map<string, seq<Cell>>, before: map<string, seq<Cell>>, cols: seq<string>, i: nat)
    requires i < |cols| && Distinct(cols) && cols[i] in data
    requires ScaledUpTo(data, before, cols[..i])
    ensures ScaledUpTo(data[cols[i] := MapCells(data[cols[i]], Percent)], before, cols[..i + 1])
  {
    assert cols[..i + 1] == cols[..i] + [cols[i]];
    assert cols[i] !in cols[..i];
    ScaleStep(data, before, cols[..i], cols[i]);
  }

  /** Passing the next column of the frame: scaled when it is a share column. */
  lemma ScaleNextShare(data: map<string, seq<Cell>>, before: map<string, seq<Cell>>, cols: seq<string>, i: nat)
    requires i < |cols| && Distinct(cols) && cols[i] in data
    requires ScaledUpTo(data, before, ProportionColumns(cols[..i]))
    ensures IsProportionColumn(cols[i]) ==>
      ScaledUpTo(data[cols[i] := MapCells(data[cols[i]], Percent)], before, ProportionColumns(cols[..i + 1]))
    ensures !IsProportionColumn(cols[i]) ==> ScaledUpTo(data, before, ProportionColumns(cols[..i + 1]))
  {
    var col := cols[i];
    assert cols[..i + 1] == cols[..i] + [col];
    ProportionColumnsAppend(cols[..i], col);
    if IsProportionColumn(col) {
      assert col !in cols[..i];
      ScaleStep(data, before, ProportionColumns(cols[..i]), col);
    }
  }

  /** Once exactly the share columns are scaled, the frame is scaled. */
  lemma ScaledAll(data: map<string, seq<Cell>>, before: map<string, seq<Cell>>, done: seq<string>)
    requires ScaledUpTo(data, before, done)
    requires forall c :: c in data ==> (c in done <==> IsProportionColumn(c))
    ensures data == Scaled(before)
  {
    assert data.Keys == Scaled(before).Keys;
  }

  // ---------------------------------------------------------------------------------------
  // The steps both first-round scripts share
  // ---------------------------------------------------------------------------------------

  /** The columns after the rename and the abstention rate. */
  function PreparedColumns(cols: seq<string>): seq<string> {
    WithColumn(RenamedColumns(cols), "Taux_abstention")
  }

  /** The data after the rename, the abstention rate and the scaling of the shares. */
  function PreparedData(cols: seq<string>, data: map<string, seq<Cell>>, height: nat): map<string, seq<Cell>>
    requires Shaped(cols, data, height) && RenamesDistinct(cols)
    requires "Participation" in RenamedColumns(cols)
  {
    RenamedFrame(cols, data, height);
    Scaled(WithAbstention(RenamedData(cols, data)))
  }

  /** Scaling the shares keeps the shape of a frame. */
  lemma ScaledShape(cols: seq<string>, data: map<string, seq<Cell>>, height: nat)
    requires Shaped(cols, data, height)
    ensures Shaped(cols, Scaled(data), height)
  {
  }

  /** Adding the abstention rate adds one column of the frame's height. */
  lemma WithAbstentionShape(cols: seq<string>, data: map<string, seq<Cell>>, height: nat)
    requires Shaped(cols, data, height) && "Participation" in data
    ensures Shaped(WithColumn(cols, "Taux_abstention"), WithAbstention(data), height)
  {
  }

  /** The prepared data is a frame over the prepared columns. */
  lemma PreparedShape(cols: seq<string>, data: map<string, seq<Cell>>, height: nat)
    requires Shaped(cols, data, height) && RenamesDistinct(cols)
    requires "Participation" in RenamedColumns(cols)
    ensures Shaped(PreparedColumns(cols), PreparedData(cols, data, height), height)
  {
    RenamedFrame(cols, data, height);
    var renamed := RenamedData(cols, data);
    assert Shaped(RenamedColumns(cols), renamed, height);
    WithAbstentionShape(RenamedColumns(cols), renamed, height);
    ScaledShape(PreparedColumns(cols), WithAbstention(renamed), height);
  }

  /** One input column in the prepared data. */
  lemma PreparedAt(cols: seq<string>, data: map<string, seq<Cell>>, height: nat, i: nat)
    requires Shaped(cols, data, height) && RenamesDistinct(cols)
    requires "Participation" in RenamedColumns(cols) && i < |cols|
    ensures RenameColumn(cols[i]) != "Taux_abstention" ==>
      && RenameColumn(cols[i]) in PreparedData(cols, data, height)
      && PreparedData(cols, data, height)[RenameColumn(cols[i])] ==
           if IsProportionColumn(RenameColumn(cols[i])) then MapCells(data[cols[i]], Percent) else data[cols[i]]
    ensures RenameColumn(cols[i]) == "Participation" ==>
      && "Taux_abstention" in PreparedData(cols, data, height)
      && PreparedData(cols, data, height)["Taux_abstention"] == MapCells(data[cols[i]], Abstention)
  {
    RenamedFrame(cols, data, height);
    var renamed := RenamedData(cols, data);
    var rated := WithAbstention(renamed);
    assert PreparedData(cols, data, height) == Scaled(rated);
    var name := RenameColumn(cols[i]);
    assert RenamedColumns(cols)[i] == name;
    assert name in renamed && renamed[name] == data[cols[i]];
    if name != "Taux_abstention" {
      assert rated[name] == data[cols[i]];
    }
    if name == "Participation" {
      NotAShareColumn("Taux_abstention");
      assert rated["Taux_abstention"] == MapCells(data[cols[i]], Abstention);
    }
  }

  /** Read against the input frame: the prepared data is a frame over the prepared columns;
      each renamed column holds its input vector, in percent when it is a share column; and
      `Taux_abstention` holds the rate of the input's participation. */
  lemma PreparedDataSpec(cols: seq<string>, data: map<string, seq<Cell>>, height: nat)
    requires Shaped(cols, data, height) && RenamesDistinct(cols)
    requires "Participation" in RenamedColumns(cols)
    ensures Shaped(PreparedColumns(cols), PreparedData(cols, data, height), height)
    ensures forall i :: 0 <= i < |cols| && RenameColumn(cols[i]) != "Taux_abstention" ==>
      PreparedData(cols, data, height)[RenameColumn(cols[i])] ==
        if IsProportionColumn(RenameColumn(cols[i])) then MapCells(data[cols[i]], Percent) else data[cols[i]]
    ensures forall i :: 0 <= i < |cols| && RenameColumn(cols[i]) == "Participation" ==>
      PreparedData(cols, data, height)["Taux_abstention"] == MapCells(data[cols[i]], Abstention)
  {
    PreparedShape(cols, data, height);
    forall i | 0 <= i < |cols| && RenameColumn(cols[i]) != "Taux_abstention"
      ensures PreparedData(cols, data, height)[RenameColumn(cols[i])] ==
        if IsProportionColumn(RenameColumn(cols[i])) then MapCells(data[cols[i]], Percent) else data[cols[i]]
    {
      PreparedAt(cols, data, height, i);
    }
    forall i | 0 <= i < |cols| && RenameColumn(cols[i]) == "Participation"
      ensures PreparedData(cols, data, height)["Taux_abstention"] == MapCells(data[cols[i]], Abstention)
    {
      PreparedAt(cols, data, height, i);
    }
  }
}
