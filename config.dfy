/** The two party colour tables: one for the "party in the lead" layer, one for the top-3 layer. */
module Config {

  const MajorityColours: map<string, string> := map[
    "PS" := "hotpink",
    "EELV" := "green",
    "LREM Buzyn" := "gold",
    "LREM Villani" := "orange",
    "LR" := "blue",
    "LFI" := "purple",
    "RN" := "navy",
    "DVD" := "lightblue",
    "DVG" := "pink",
    "UDI" := "skyblue",
    "LO" := "darkred",
    "UPR" := "blue",
    "DIV" := "grey",
    "SE" := "grey",
    "EXG" := "darkred",
    "LREM" := "gold",
    "Les écologiste" := "green",
    "Marcel Campion" := "grey"
  ]

  const Top3Colours: map<string, string> := map[
    "PS" := "hotpink",
    "EELV" := "green",
    "LREM Buzyn" := "gold",
    "LREM Villani" := "brown",
    "LFI" := "purple",
    "LR" := "blue",
    "LDVD" := "gray",
    "RN" := "navy",
    "DVD" := "lightblue",
    "DVG" := "pink",
    "UDI" := "skyblue",
    "LO" := "darkred",
    "UPR" := "blue",
    "DIV" := "grey",
    "SE" := "grey",
    "EXG" := "darkred",
    "LREM" := "gold",
    "Les écologiste" := "green",
    "Marcel Campion" := "grey"
  ]

  /** The tables disagree in exactly two places: "LREM Villani" has another colour and
      "LDVD" is known to the top-3 table only. */
  lemma TablesDiffer()
    ensures Top3Colours.Keys == MajorityColours.Keys + {"LDVD"}
    ensures forall k :: k in MajorityColours && k != "LREM Villani" ==> MajorityColours[k] == Top3Colours[k]
    ensures MajorityColours["LREM Villani"] == "orange" && Top3Colours["LREM Villani"] == "brown"
  {
    SameKeysButOne();
    SameColoursButOne();
  }

  lemma SameKeysButOne()
    ensures Top3Colours.Keys == MajorityColours.Keys + {"LDVD"}
  {
  }

  lemma SameColoursButOne()
    ensures forall k :: k in MajorityColours && k != "LREM Villani" ==> k in Top3Colours && MajorityColours[k] == Top3Colours[k]
  {
  }
}
