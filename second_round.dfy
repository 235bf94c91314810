/** The second-round preparation script (scripts/process_second_tour.py): the party of a
    candidate looked up in the name-to-party table, the per-party vote totals of a bureau and
    their shares, the bureau number read from the bureau identifier and the arrondissement
    read from the file name. */
module SecondRound {
  import opened Wrappers
  import opened Strings
  import opened Dicts
  import opened Preparation
  import FirstRound

  // ---------------------------------------------------------------------------------------
  // get_party_from_candidate_name
  // ---------------------------------------------------------------------------------------

  /** The labels the name heuristics and the fallback can give. */
  const FixedLabels: set<string> := {"EELV", "LREM", "LR", "PS", "LFI", "Sans étiquette"}

  /** The party of the first table entry, in insertion order, whose name occurs inside the
      candidate's name, if there is one. */
  function FirstSubstringMatch(mapping: Dict<string>, candidate: string): (r: Option<string>)
    ensures r.None? <==> forall i :: 0 <= i < |mapping| ==> !Contains(candidate, mapping[i].0)
    ensures r.Some? ==> exists i :: 0 <= i < |mapping| && mapping[i].1 == r.value && Contains(candidate, mapping[i].0)
  {
    if mapping == [] then None
    else
      assert forall i :: 1 <= i < |mapping| ==> mapping[i] == mapping[1..][i - 1];
      if Contains(candidate, mapping[0].0) then Some(mapping[0].1)
      else FirstSubstringMatch(mapping[1..], candidate)
  }

  /** The first entry, in insertion order, whose name occurs in the candidate's decides. */
  lemma {:induction false} FirstSubstringMatchAt(mapping: Dict<string>, candidate: string, i: nat)
    requires i < |mapping| && Contains(candidate, mapping[i].0)
    requires forall j :: 0 <= j < i ==> !Contains(candidate, mapping[j].0)
    ensures FirstSubstringMatch(mapping, candidate) == Some(mapping[i].1)
  {
    if i > 0 {
      assert mapping[1..][i - 1] == mapping[i];
      FirstSubstringMatchAt(mapping[1..], candidate, i - 1);
    }
  }

  /** The name heuristics, tried in order; "LREM" comes before "LR". */
  function PartyHeuristics(candidate: string): (party: string)
    ensures party in FixedLabels
  {
    if Contains(candidate, "EELV") then "EELV"
    else if Contains(candidate, "LREM") then "LREM"
    else if Contains(candidate, "LR") then "LR"
    else if Contains(candidate, "PS") then "PS"
    else if Contains(candidate, "LFI") then "LFI"
    else "Sans étiquette"
  }

  /** `get_party_from_candidate_name`: exact entry, else first entry whose name occurs in
      the candidate's, else the heuristics. It is total, and its answer is a party of the
      table or one of the fixed labels. */
  function GetParty(candidate: string, mapping: Dict<string>): (party: string)
    ensures party in FixedLabels || exists i :: 0 <= i < |mapping| && mapping[i].1 == party
  {
    match Get(mapping, candidate)
    case Some(p) =>
      GetFound(mapping, candidate);
      p
    case None =>
      match FirstSubstringMatch(mapping, candidate)
      case Some(p) => p
      case None => PartyHeuristics(candidate)
  }

  /** A value found by `Get` is stored in some entry. */
  lemma {:induction false} GetFound(d: Dict<string>, k: string)
    requires Get(d, k).Some?
    ensures exists i :: 0 <= i < |d| && d[i] == (k, Get(d, k).value)
  {
    if d[0].0 != k {
      GetFound(d[1..], k);
      var i :| 0 <= i < |d[1..]| && d[1..][i] == (k, Get(d[1..], k).value);
      assert d[i + 1] == d[1..][i];
    }
  }

  /** A name that is a key of the table gets its own entry's party, even when another
      entry's name also occurs in it. */
  lemma GetPartyExact(candidate: string, mapping: Dict<string>, i: nat)
    requires DistinctKeys(mapping) && i < |mapping| && mapping[i].0 == candidate
    ensures GetParty(candidate, mapping) == mapping[i].1
  {
    GetEntry(mapping, i);
  }

  /** The table built from the (candidate, party) rows of the mapping file: a candidate of the
      table gets the party of its last listing. */
  lemma GetPartyFromTable(pairs: seq<(string, string)>, i: nat)
    requires i < |pairs|
    requires forall j :: i < j < |pairs| ==> pairs[j].0 != pairs[i].0
    ensures GetParty(pairs[i].0, FromPairs(pairs)) == pairs[i].1
  {
    FromPairsLastWins(pairs, i);
  }

  /** A text contains itself. */
  lemma ContainsSelf(s: string)
    ensures Contains(s, s)
  {
    assert s[0..|s|] == s;
    OccursContains(s, s, 0);
  }

  /** A name that is not a key gets the party of the first entry whose name it contains. */
  lemma GetPartyFirstSubstring(candidate: string, mapping: Dict<string>, i: nat)
    requires candidate !in Keys(mapping)
    requires i < |mapping| && Contains(candidate, mapping[i].0)
    requires forall j :: 0 <= j < i ==> !Contains(candidate, mapping[j].0)
    ensures GetParty(candidate, mapping) == mapping[i].1
  {
    FirstSubstringMatchAt(mapping, candidate, i);
  }

  /** When no entry's name occurs in the candidate's, the heuristics decide: "EELV" first,
      then "LREM" (so a name holding "LREM" is never filed under "LR"), "LR", "PS", "LFI",
      and "Sans étiquette" when none occurs. */
  lemma GetPartyByHeuristics(candidate: string, mapping: Dict<string>)
    requires forall i :: 0 <= i < |mapping| ==> !Contains(candidate, mapping[i].0)
    ensures Contains(candidate, "EELV") ==> GetParty(candidate, mapping) == "EELV"
    ensures !Contains(candidate, "EELV") && Contains(candidate, "LREM") ==> GetParty(candidate, mapping) == "LREM"
    ensures !Contains(candidate, "EELV") && !Contains(candidate, "LREM") && Contains(candidate, "LR") ==>
      GetParty(candidate, mapping) == "LR"
    ensures (!Contains(candidate, "EELV") && !Contains(candidate, "LREM") && !Contains(candidate, "LR") &&
      Contains(candidate, "PS")) ==> GetParty(candidate, mapping) == "PS"
    ensures (!Contains(candidate, "EELV") && !Contains(candidate, "LREM") && !Contains(candidate, "LR") &&
      !Contains(candidate, "PS") && Contains(candidate, "LFI")) ==> GetParty(candidate, mapping) == "LFI"
    ensures (!Contains(candidate, "EELV") && !Contains(candidate, "LREM") && !Contains(candidate, "LR") &&
      !Contains(candidate, "PS") && !Contains(candidate, "LFI")) ==> GetParty(candidate, mapping) == "Sans étiquette"
  {
    ContainsSelf(candidate);
    assert candidate !in Keys(mapping);
  }

  /** A name holding "LREM" but matching no entry and no "EELV" is filed under "LREM":
      the "LR" heuristic, which it also matches, comes later. */
  lemma LremBeforeLr(candidate: string, mapping: Dict<string>)
    requires forall i :: 0 <= i < |mapping| ==> !Contains(candidate, mapping[i].0)
    requires Contains(candidate, "LREM") && !Contains(candidate, "EELV")
    ensures Contains(candidate, "LR")
    ensures GetParty(candidate, mapping) == "LREM"
  {
    ContainsPrefix(candidate, "LREM", "LR");
    GetPartyByHeuristics(candidate, mapping);
  }

  // ---------------------------------------------------------------------------------------
  // candidate columns and per-party totals
  // ---------------------------------------------------------------------------------------

  /** One bureau's vote counts, by column, in frame order. */
  type VoteRow = seq<(string, int)>

  /** `col.startswith('M.') or col.startswith('Mme')`. */
  predicate IsCandidateColumn(col: string) {
    "M." <= col || "Mme" <= col
  }

  /** The candidate columns of the row, in frame order. */
  function CandidateColumns(row: VoteRow): (cands: VoteRow)
    ensures forall e :: e in cands <==> e in row && IsCandidateColumn(e.0)
  {
    if row == [] then []
    else
      assert forall e :: e in row <==> e == row[0] || e in row[1..];
      var rest := CandidateColumns(row[1..]);
      if IsCandidateColumn(row[0].0) then [row[0]] + rest else rest
  }

  /** The filter keeps frame order: one more column is appended exactly when it is a
      candidate's. */
  lemma {:induction false} CandidateColumnsAppend(row: VoteRow, e: (string, int))
    ensures CandidateColumns(row + [e]) ==
      CandidateColumns(row) + if IsCandidateColumn(e.0) then [e] else []
    decreases |row|
  {
    if row == [] {
      assert [e][1..] == [];
    } else {
      assert (row + [e])[1..] == row[1..] + [e];
      CandidateColumnsAppend(row[1..], e);
    }
  }

  /** Each candidate's votes under its party, in candidate order. */
  function Filed(cands: VoteRow, mapping: Dict<string>): (filed: seq<(string, int)>)
    ensures |filed| == |cands|
    ensures forall i :: 0 <= i < |cands| ==> filed[i] == (GetParty(cands[i].0, mapping), cands[i].1)
  {
    seq(|cands|, i requires 0 <= i < |cands| => (GetParty(cands[i].0, mapping), cands[i].1))
  }

  /** Filing one more candidate appends one pair. */
  lemma FiledSnoc(cands: VoteRow, mapping: Dict<string>, i: nat)
    requires i < |cands|
    ensures Filed(cands[..i + 1], mapping) ==
      Filed(cands[..i], mapping) + [(GetParty(cands[i].0, mapping), cands[i].1)]
  {
    var a, b := Filed(cands[..i + 1], mapping), Filed(cands[..i], mapping);
    var c := b + [(GetParty(cands[i].0, mapping), cands[i].1)];
    assert |a| == |c|;
    forall j | 0 <= j < |a| ensures a[j] == c[j] {
      assert cands[..i + 1][j] == cands[j];
    }
  }

  /** The table the loop builds after the given candidates. */
  function PartyVotes(cands: VoteRow, mapping: Dict<string>): Dict<int> {
    SumByKey(Filed(cands, mapping))
  }

  /** Filing does not change the votes. */
  lemma {:induction false} FiledTotal(cands: VoteRow, mapping: Dict<string>)
    ensures TotalOf(Filed(cands, mapping)) == TotalOf(cands)
    decreases |cands|
  {
    if cands != [] {
      var init := cands[..|cands| - 1];
      assert Filed(cands, mapping)[..|cands| - 1] == Filed(init, mapping);
      FiledTotal(init, mapping);
    }
  }

  /** Each party appears once in the totals; each party's total is the sum of the votes of
      exactly the candidates filed under it; a party with no candidate has no entry; and
      the totals add up to the candidates' votes. */
  lemma PartyVotesSpec(cands: VoteRow, mapping: Dict<string>, party: string)
    ensures DistinctKeys(PartyVotes(cands, mapping))
    ensures Get(PartyVotes(cands, mapping), party) ==
      if exists i :: 0 <= i < |cands| && GetParty(cands[i].0, mapping) == party
      then Some(KeyTotal(Filed(cands, mapping), party)) else None
    ensures SumValues(PartyVotes(cands, mapping)) == TotalOf(cands)
  {
    var filed := Filed(cands, mapping);
    SumByKeyDistinct(filed);
    SumByKeyGet(filed, party);
    SumByKeyTotal(filed);
    FiledTotal(cands, mapping);
    if exists i :: 0 <= i < |cands| && GetParty(cands[i].0, mapping) == party {
      var i :| 0 <= i < |cands| && GetParty(cands[i].0, mapping) == party;
      assert filed[i].0 == party;
    } else {
      assert !HasKey(filed, party);
    }
  }

  /** The aggregation loop of `process_second_tour_data` for one bureau: the candidate
      columns are walked in frame order and each one's votes are added to its party. */
  method AggregatePartyVotes(row: VoteRow, mapping: Dict<string>) returns (votes: Dict<int>)
    ensures votes == PartyVotes(CandidateColumns(row), mapping)
  {
    var cands := CandidateColumns(row);
    votes := [];
    for i := 0 to |cands|
      invariant votes == SumByKey(Filed(cands[..i], mapping))
    {
      var (col, n) := cands[i];
      var party := GetParty(col, mapping);
      FiledSnoc(cands, mapping, i);
      SumByKeySnoc(Filed(cands[..i], mapping), (party, n));
      votes := Put(votes, party, Added(votes, party, n));
    }
    assert cands[..|cands|] == cands;
  }

  /** `df[f"Proportion_{party}"] = votes / df["NB_EXPRIM"]` for one bureau: a share column
      per party, in the order of the totals. A bureau with no expressed vote gets no share. */
  function PartyShares(votes: Dict<int>, expressed: int): (shares: seq<(string, Option<real>)>)
    ensures |shares| == |votes|
    ensures forall i :: 0 <= i < |votes| ==> shares[i].0 == ProportionPrefix + votes[i].0
    ensures forall i :: 0 <= i < |votes| ==> (shares[i].1.Some? <==> expressed != 0)
    ensures forall i :: 0 <= i < |votes| && shares[i].1.Some? ==> shares[i].1.value * (expressed as real) == votes[i].1 as real
  {
    seq(|votes|, i requires 0 <= i < |votes| =>
      (ProportionPrefix + votes[i].0, if expressed == 0 then None else Some(votes[i].1 as real / expressed as real)))
  }

  /** The defined shares of a bureau.  */
  function SumShares(shares: seq<(string, Option<real>)>): real {
    if shares == [] then 0.0
    else (match shares[0].1 case None => 0.0 case Some(v) => v) + SumShares(shares[1..])
  }

  /** The party shares add up to the candidates' votes over the expressed votes. */
  lemma {:induction false} PartySharesSum(votes: Dict<int>, expressed: int)
    requires expressed != 0
    ensures SumShares(PartyShares(votes, expressed)) * (expressed as real) == SumValues(votes) as real
    decreases |votes|
  {
    if votes != [] {
      PartySharesSum(votes[1..], expressed);
      assert PartyShares(votes, expressed)[1..] == PartyShares(votes[1..], expressed);
    }
  }

  /** The first-round scripts read the party back from its share column. */
  lemma ShareColumnNamesParty(party: string)
    requires !Contains(party, ProportionPrefix)
    ensures CandidateName(ProportionPrefix + party) == party
  {
    CandidateNameOfColumn(party);
  }

  // ---------------------------------------------------------------------------------------
  // NUM_BUREAU and NUM_ARROND
  // ---------------------------------------------------------------------------------------

  /** A cell of the `ID_BVOTE` column: text, a number, or missing. */
  datatype IdValue = IdText(text: string) | IdInt(number: int) | IdMissing

  /** `int(x.split("-")[1]) if isinstance(x, str) else x`. */
  function BureauNumber(id: IdValue): (r: Result<IdValue>)
    ensures !id.IdText? ==> r == Ok(id)
    ensures id.IdText? && !Contains(id.text, "-") ==> r == Err(IndexError)
    ensures id.IdText? && Contains(id.text, "-") && ParseInt(SplitOn(id.text, "-")[1]).Some? ==>
      r == Ok(IdInt(ParseInt(SplitOn(id.text, "-")[1]).value))
    ensures id.IdText? && Contains(id.text, "-") && ParseInt(SplitOn(id.text, "-")[1]).None? ==> r == Err(ValueError)
  {
    match id
    case IdText(s) =>
      var parts := SplitOn(s, "-");
      if |parts| < 2 then Err(IndexError)
      else (match ParseInt(parts[1]) case None => Err(ValueError) case Some(n) => Ok(IdInt(n)))
    case _ => Ok(id)
  }

  /** The bureau number of an identifier built as the first round builds its keys. */
  lemma BureauNumberOfKey(arrond: nat, bureau: nat)
    ensures BureauNumber(IdText(FirstRound.BureauKey(arrond, bureau))) == Ok(IdInt(bureau))
  {
    FirstRound.BureauKeySplit(arrond, bureau);
  }

  /** The arrondissement number read from a file name, after "Ardt_" and up to the next "_":
      IndexError without "Ardt_", ValueError when that text is no integer. */
  function Arrondissement(file: string): (r: Result<int>)
    ensures !Contains(file, "Ardt_") <==> r == Err(IndexError)
    ensures Contains(file, "Ardt_") && ParseInt(SplitOn(SplitOn(file, "Ardt_")[1], "_")[0]).Some? ==>
      r == Ok(ParseInt(SplitOn(SplitOn(file, "Ardt_")[1], "_")[0]).value)
    ensures Contains(file, "Ardt_") && ParseInt(SplitOn(SplitOn(file, "Ardt_")[1], "_")[0]).None? ==>
      r == Err(ValueError)
  {
    var parts := SplitOn(file, "Ardt_");
    if |parts| < 2 then Err(IndexError)
    else
      match ParseInt(SplitOn(parts[1], "_")[0])
      case None => Err(ValueError)
      case Some(n) => Ok(n)
  }

  /** The text after the first "Ardt_" starts with the digits and "_" that follow it when
      no "A" comes earlier. */
  lemma AfterMarker(dir: string, digits: string, rest: string)
    requires 'A' !in dir && AllDigits(digits)
    ensures |SplitOn(dir + "Ardt_" + digits + "_" + rest, "Ardt_")| >= 2
    ensures digits + "_" <= SplitOn(dir + "Ardt_" + digits + "_" + rest, "Ardt_")[1]
  {
    var u := digits + "_";
    assert dir + "Ardt_" + digits + "_" + rest == dir + "Ardt_" + (u + rest);
    SplitOnAfter(dir, "Ardt_", u + rest);
    NoMarkerInDigits(digits);
    SplitHeadKeeps(u, rest, "Ardt_");
    assert SplitOn(dir + "Ardt_" + (u + rest), "Ardt_")[1] == SplitOn(u + rest, "Ardt_")[0];
  }

  lemma NoMarkerInDigits(digits: string)
    requires AllDigits(digits)
    ensures 'A' !in digits + "_"
  {
    assert forall i :: 0 <= i < |digits| ==> IsDigit(digits[i]);
  }

  /** The text before the first "_" of a text starting with digits and "_" is the digits. */
  lemma BeforeUnderscore(digits: string, t: string)
    requires AllDigits(digits) && digits + "_" <= t
    ensures SplitOn(t, "_")[0] == digits
  {
    assert '_' !in digits;
    assert t == digits + "_" + t[|digits| + 1..];
    SplitOnAfter(digits, "_", t[|digits| + 1..]);
  }

  /** A file name whose first "Ardt_" is followed by the arrondissement and "_" gives that
      arrondissement. */
  lemma ArrondissementOfName(dir: string, n: nat, rest: string)
    requires 'A' !in dir
    ensures Arrondissement(dir + "Ardt_" + NatToString(n) + "_" + rest) == Ok(n)
  {
    var file := dir + "Ardt_" + NatToString(n) + "_" + rest;
    AfterMarker(dir, NatToString(n), rest);
    BeforeUnderscore(NatToString(n), SplitOn(file, "Ardt_")[1]);
    ParseIntOfNat(n);
  }
}
