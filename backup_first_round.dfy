/** The earlier first-round map script (scripts/Sauvegarde_1er_tour_municipales_2020.py): the
    same preparation steps, the same abstention colours, and a top-3 tooltip that labels each
    share by the candidate's full name rather than by a party. */
module Backup {
  import opened Wrappers
  import opened Strings
  import opened Frames
  import opened Preparation
  import opened Ranking
  import FirstRound

  /** `couleur_abstention`, an `if`/`elif` chain over the rate. */
  function AbstentionColour(rate: Option<real>): string {
    match rate
    case None => "#d9d9d9"
    case Some(t) =>
      if t < 30.0 then "#fef0d9"
      else if t < 40.0 then "#fdcc8a"
      else if t < 50.0 then "#fc8d59"
      else if t < 60.0 then "#e34a33"
      else "#b30000"
  }

  /** Both scripts colour every rate, missing or not, alike. */
  lemma SameAbstentionColour(rate: Option<real>)
    ensures AbstentionColour(rate) == FirstRound.AbstentionColour(rate)
    ensures rate.Some? ==> AbstentionColour(rate) == FirstRound.AbstentionPalette[FirstRound.AbstentionBucket(rate.value)]
  {
    FirstRound.AbstentionColourBuckets(rate);
  }

  /** Multiplies by 100, in place, every column whose name starts with "Proportion_". */
  method ScaleShareColumns(df: Frame)
    requires df.Valid()
    modifies df
    ensures df.Valid() && df.height == old(df.height) && df.columns == old(df.columns)
    ensures df.data == Scaled(old(df.data))
  {
    for i := 0 to |df.columns|
      invariant df.Valid() && df.height == old(df.height) && df.columns == old(df.columns)
      invariant ScaledUpTo(df.data, old(df.data), ProportionColumns(df.columns[..i]))
    {
      var col := df.columns[i];
      ghost var before := df.data;
      ScaleNextShare(before, old(df.data), df.columns, i);
      if IsProportionColumn(col) {
        df.SetColumn(col, MapCells(df.data[col], Percent));
      }
    }
    assert df.columns[..|df.columns|] == df.columns;
    ScaledAll(df.data, old(df.data), ProportionColumns(df.columns));
  }

  /** The preparation steps of the script: fix the misspelled prefix, compute the abstention
      rate, then scale the shares. `ok` is false where the script raises KeyError, for want of a
      "Participation" column. */
  method PrepareResults(df: Frame) returns (ok: bool)
    requires df.Valid()
    requires RenamesDistinct(df.columns)
    modifies df
    ensures df.Valid() && df.height == old(df.height)
    ensures ok <==> "Participation" in RenamedColumns(old(df.columns))
    ensures ok ==>
      && df.columns == PreparedColumns(old(df.columns))
      && df.data == PreparedData(old(df.columns), old(df.data), old(df.height))
  {
    RenameColumns(df);
    ok := AddAbstention(df);
    if ok {
      ScaleShareColumns(df);
    }
  }

  /** The first-round script prepares the same table, to which it adds `Score_majoritaire`. */
  lemma SamePreparation(cols: seq<string>, data: map<string, seq<Cell>>, height: nat)
    requires Shaped(cols, data, height) && RenamesDistinct(cols)
    requires FirstRound.Prepare(cols, data, height).Ok?
    ensures "Participation" in RenamedColumns(cols)
    ensures FirstRound.Prepare(cols, data, height).value.columns ==
      WithColumn(PreparedColumns(cols), "Score_majoritaire")
    ensures FirstRound.Prepare(cols, data, height).value.data ==
      PreparedData(cols, data, height)["Score_majoritaire" :=
        FirstRound.Prepare(cols, data, height).value.data["Score_majoritaire"]]
  {
    FirstRound.PrepareShape(cols, data, height);
  }

  /** The bureau's scores, in column order: each share that is present, filed under its
      column name with the "Proportion_" prefix taken out; missing shares are skipped. */
  function CandidateScores(row: ShareRow): seq<Entry> {
    Scores(row, CandidateName)
  }

  /** The per-row tooltip: the bureau and its three best candidates with their scores,
      built by appending one line per candidate. */
  method Top3Tooltip(bureau: string, row: ShareRow, fmt: real -> string) returns (tooltip: string)
    ensures tooltip == TooltipHeader(bureau) + TooltipLines(Top3(CandidateScores(row)), fmt)
  {
    var top := Top3(CandidateScores(row));
    tooltip := BuildTooltip(bureau, top, fmt);
  }

  /** Both scripts rank the same shares in the same order; the later one only replaces each
      candidate's name by its party. */
  lemma Top3PartiesOfCandidates(row: ShareRow)
    ensures FirstRound.PartyScores(row) == Relabel(CandidateScores(row), FirstRound.ExtractParty)
    ensures Top3(FirstRound.PartyScores(row)) == Relabel(Top3(CandidateScores(row)), FirstRound.ExtractParty)
  {
    ScoresRelabel(row, CandidateName, FirstRound.ExtractParty, FirstRound.PartyLabel);
    Top3Relabel(CandidateScores(row), FirstRound.ExtractParty);
  }
}
