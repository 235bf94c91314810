/** The first-round map script (scripts/1er_tour_municipales_2020.py): the party read off a
    candidate's name, the abstention colour scale, the bureau key, the scaling of shares, the
    majority party of a bureau and its top-3 ranking with tooltip and colour. */
module FirstRound {
  import opened Wrappers
  import opened Strings
  import opened Frames
  import opened Preparation
  import opened Ranking
  import Config

  // ---------------------------------------------------------------------------------------
  // extract_party_from_candidate
  // ---------------------------------------------------------------------------------------

  /** Where the lazy `(.*?)\)` part of the pattern stops in the text `t` following a `(`:
      at the first `)`, unless a newline (which `.` does not match) comes first. */
  function CloseParen(t: string): (r: Option<nat>)
    ensures r.Some? ==> r.value < |t| && t[r.value] == ')'
    ensures r.Some? ==> forall i :: 0 <= i < r.value ==> t[i] != ')' && t[i] != '\n'
    ensures r.None? ==> forall q :: 0 <= q < |t| && t[q] == ')' ==> '\n' in t[..q]
    decreases |t|
  {
    if t == [] then None
    else if t[0] == ')' then Some(0)
    else if t[0] == '\n' then
      assert forall q :: 0 < q <= |t| ==> t[..q][0] == '\n';
      None
    else
      var rest := CloseParen(t[1..]);
      assert forall q :: 0 < q < |t| ==> t[q] == t[1..][q - 1] && t[1..][..q - 1] == t[..q][1..];
      match rest
      case None => None
      case Some(q) => Some(q + 1)
  }

  /** The group captured by `re.search(r'\((.*?)\)', s)`: the search tries each `(` from
      the left and keeps the first one closed by a `)` on the same line. */
  function ParenGroup(s: string): (r: Option<string>)
    ensures r.Some? ==> ')' !in r.value && '\n' !in r.value
    ensures r.Some? ==> Contains(s, "(" + r.value + ")")
    decreases |s|
  {
    if s == [] then None
    else if s[0] == '(' && CloseParen(s[1..]).Some? then
      var q := CloseParen(s[1..]).value;
      var g := s[1..][..q];
      assert s[..q + 2] == "(" + g + ")";
      OccursContains(s, "(" + g + ")", 0);
      Some(g)
    else
      match ParenGroup(s[1..])
      case None => None
      case Some(g) =>
        ContainsTail(s, "(" + g + ")");
        Some(g)
  }

  /** `extract_party_from_candidate`: the first parenthesised group, else one of two known
      list names found in the text, else the name itself. */
  function ExtractParty(name: string): (party: string)
    ensures party == name || Contains(name, party)
  {
    match ParenGroup(name)
    case Some(g) =>
      ContainsInner(name, "(", g, ")");
      g
    case None =>
      if Contains(name, "Les écologiste") then "Les écologiste"
      else if Contains(name, "Marcel Campion") then "Marcel Campion"
      else name
  }

  /** The lazy group closes exactly at the first `)` when no newline comes before it. */
  lemma CloseParenAt(t: string, j: nat)
    requires j < |t| && t[j] == ')'
    requires forall k :: 0 <= k < j ==> t[k] != ')' && t[k] != '\n'
    ensures CloseParen(t) == Some(j)
  {
    assert '\n' !in t[..j];
  }

  /** The search finds the group after the first `(` when it is closed on the same line. */
  lemma {:induction false} ParenGroupAt(s: string, i: nat, j: nat)
    requires i < j < |s| && s[i] == '(' && s[j] == ')'
    requires '(' !in s[..i]
    requires forall k :: i < k < j ==> s[k] != ')' && s[k] != '\n'
    ensures ParenGroup(s) == Some(s[i + 1..j])
    decreases i
  {
    if i == 0 {
      CloseParenAt(s[1..], j - 1);
      assert s[1..][..j - 1] == s[1..j];
    } else {
      assert s[0] == s[..i][0];
      assert s[1..][..i - 1] == s[1..i];
      ParenGroupAt(s[1..], i - 1, j - 1);
      assert s[1..][i..j - 1] == s[i + 1..j];
    }
  }

  /** No group when no `)` follows any `(`. */
  lemma {:induction false} ParenGroupNoClosing(s: string)
    requires forall i, j :: 0 <= i < j < |s| && s[i] == '(' ==> s[j] != ')'
    ensures ParenGroup(s).None?
    decreases |s|
  {
    if s != [] {
      assert forall i :: 0 <= i < |s| - 1 ==> s[1..][i] == s[i + 1];
      assert s[0] == '(' ==> CloseParen(s[1..]).None?;
      ParenGroupNoClosing(s[1..]);
    }
  }

  /** A `(` whose group meets a newline before any `)` is passed over: the search goes on
      after it. */
  lemma {:induction false} ParenGroupSkip(s: string, i: nat)
    requires i < |s| && s[i] == '(' && '(' !in s[..i]
    requires forall q :: i < q < |s| && s[q] == ')' ==> '\n' in s[i + 1..q]
    ensures ParenGroup(s) == ParenGroup(s[i + 1..])
    decreases i
  {
    if i != 0 {
      assert s[0] == s[..i][0];
      assert s[1..][..i - 1] == s[1..i];
      forall q | i - 1 < q < |s[1..]| && s[1..][q] == ')' ensures '\n' in s[1..][i..q] {
        assert s[1..][i..q] == s[i + 1..q + 1];
      }
      ParenGroupSkip(s[1..], i - 1);
      assert s[1..][i..] == s[i + 1..];
    }
  }

  /** The search passes over a group broken by a newline and takes the next one. */
  lemma ParenGroupRetryExample()
    ensures ParenGroup("(\n)(P)") == Some("P")
  {
    var s := "(\n)(P)";
    assert ParenGroup(s) == ParenGroup(s[1..]) by {
      forall q | 0 < q < |s| && s[q] == ')' ensures '\n' in s[1..q] {
        assert s[1..q][0] == '\n';
      }
      ParenGroupSkip(s, 0);
    }
    var t := s[1..];
    assert t == "\n)(P)";
    ParenGroupAt(t, 2, 4);
    assert t[3..4] == "P";
  }

  /** Without both a `(` and a `)` there is no group. */
  lemma ParenGroupAbsent(s: string)
    requires '(' !in s || ')' !in s
    ensures ParenGroup(s).None?
  {
    ParenGroupNoClosing(s);
  }

  /** The party is the text strictly between the first `(` and the first `)` after it,
      provided no newline lies between them; it may be empty. */
  lemma ExtractPartyBetweenParens(name: string, i: nat, j: nat)
    requires i < j < |name| && name[i] == '(' && name[j] == ')'
    requires '(' !in name[..i]
    requires forall k :: i < k < j ==> name[k] != ')' && name[k] != '\n'
    ensures ExtractParty(name) == name[i + 1..j]
    ensures ')' !in ExtractParty(name)
  {
    ParenGroupAt(name, i, j);
  }

  /** When the search finds no group (for instance when the name lacks `(` or `)`, see
      ParenGroupAbsent), "Les écologiste" is looked for before "Marcel Campion", and a name
      holding neither is its own party. */
  lemma ExtractPartyWithoutParens(name: string)
    requires ParenGroup(name).None?
    ensures Contains(name, "Les écologiste") ==> ExtractParty(name) == "Les écologiste"
    ensures !Contains(name, "Les écologiste") && Contains(name, "Marcel Campion") ==> ExtractParty(name) == "Marcel Campion"
    ensures !Contains(name, "Les écologiste") && !Contains(name, "Marcel Campion") ==> ExtractParty(name) == name
  {
  }

  /** 'Mme MAZETIER Sandrine (LREM Buzyn)' -> 'LREM Buzyn'. */
  lemma ExtractPartyExample()
    ensures ExtractParty("Mme MAZETIER Sandrine (LREM Buzyn)") == "LREM Buzyn"
  {
    var name := "Mme MAZETIER Sandrine (LREM Buzyn)";
    assert name[22] == '(' && name[33] == ')';
    assert name[23..33] == "LREM Buzyn";
    ExtractPartyBetweenParens(name, 22, 33);
  }

  // ---------------------------------------------------------------------------------------
  // get_couleur_abstention
  // ---------------------------------------------------------------------------------------

  const MissingColour: string := "#d9d9d9"

  /** The five colours of the abstention scale, lowest rates first. */
  const AbstentionPalette: seq<string> := ["#fef0d9", "#fdcc8a", "#fc8d59", "#e34a33", "#b30000"]

  /** The lower bounds of the upper four buckets, in percent. */
  const AbstentionThresholds: seq<real> := [30.0, 40.0, 50.0, 60.0]

  /** `get_couleur_abstention`: grey for a missing rate, else the colour of its bucket. */
  function AbstentionColour(rate: Option<real>): string {
    if rate.None? then "#d9d9d9"
    else if rate.value < 30.0 then "#fef0d9"
    else if rate.value < 40.0 then "#fdcc8a"
    else if rate.value < 50.0 then "#fc8d59"
    else if rate.value < 60.0 then "#e34a33"
    else "#b30000"
  }

  /** The bucket of a rate: how many thresholds it reaches. Buckets are half-open,
      [30, 40) being bucket 1. */
  function AbstentionBucket(rate: real): (b: nat)
    ensures b < |AbstentionPalette|
    ensures forall i :: 0 <= i < |AbstentionThresholds| ==> (i < b <==> AbstentionThresholds[i] <= rate)
  {
    if rate < 30.0 then 0 else if rate < 40.0 then 1 else if rate < 50.0 then 2 else if rate < 60.0 then 3 else 4
  }

  /** A missing rate is grey; any other rate gets exactly the palette colour of its bucket,
      never grey. */
  lemma AbstentionColourBuckets(rate: Option<real>)
    ensures rate.None? ==> AbstentionColour(rate) == MissingColour
    ensures rate.Some? ==> AbstentionColour(rate) == AbstentionPalette[AbstentionBucket(rate.value)]
    ensures rate.Some? ==> AbstentionColour(rate) != MissingColour
    ensures rate.Some? ==> forall i :: 0 <= i < |AbstentionPalette| && AbstentionPalette[i] == AbstentionColour(rate) ==> i == AbstentionBucket(rate.value)
  {
  }

  /** A higher rate never falls in a lower bucket. */
  lemma AbstentionBucketMonotone(r1: real, r2: real)
    requires r1 <= r2
    ensures AbstentionBucket(r1) <= AbstentionBucket(r2)
  {
    assert forall i :: 0 <= i < |AbstentionThresholds| && AbstentionThresholds[i] <= r1 ==> AbstentionThresholds[i] <= r2;
  }

  /** The bucket boundaries belong to the upper bucket: 30 is orange-beige, 60 dark red. */
  lemma AbstentionBoundaries()
    ensures AbstentionColour(Some(30.0)) == "#fdcc8a"
    ensures AbstentionColour(Some(60.0)) == "#b30000"
    ensures AbstentionColour(Some(29.9)) == "#fef0d9"
  {
  }

  // ---------------------------------------------------------------------------------------
  // id_bv
  // ---------------------------------------------------------------------------------------

  /** The bureau key: the arrondissement's and the bureau's numbers written in decimal,
      joined by a dash. */
  function BureauKey(arrond: nat, bureau: nat): string {
    NatToString(arrond) + "-" + NatToString(bureau)
  }

  /** The key holds exactly one dash, and splitting on it gives back both numbers. */
  lemma BureauKeySplit(arrond: nat, bureau: nat)
    ensures multiset(BureauKey(arrond, bureau))['-'] == 1
    ensures SplitOn(BureauKey(arrond, bureau), "-") == [NatToString(arrond), NatToString(bureau)]
    ensures ParseInt(SplitOn(BureauKey(arrond, bureau), "-")[0]) == Some(arrond)
    ensures ParseInt(SplitOn(BureauKey(arrond, bureau), "-")[1]) == Some(bureau)
  {
    var a, b := NatToString(arrond), NatToString(bureau);
    NoDashInDigits(a);
    NoDashInDigits(b);
    assert multiset(a + "-" + b) == multiset(a) + multiset("-") + multiset(b);
    SplitParts(a, b);
    ParseIntOfNat(arrond);
    ParseIntOfNat(bureau);
  }

  lemma NoDashInDigits(s: string)
    requires AllDigits(s)
    ensures '-' !in s && multiset(s)['-'] == 0
  {
    assert forall i :: 0 <= i < |s| ==> IsDigit(s[i]);
  }

  lemma SplitParts(a: string, b: string)
    requires '-' !in a && '-' !in b
    ensures SplitOn(a + "-" + b, "-") == [a, b]
  {
    SplitOnAfter(a, "-", b);
    ContainsChar(b, '-');
    SplitOnAbsent(b, "-");
  }

  // ---------------------------------------------------------------------------------------
  // Taux_abstention, x100, Parti_majoritaire, Score_majoritaire, Couleur
  // ---------------------------------------------------------------------------------------

  /** `for col in part_cols: df[col] = df[col] * 100`, with `part_cols` the "Proportion_"
      columns in frame order. */
  method ScaleProportions(df: Frame) returns (partCols: seq<string>)
    requires df.Valid()
    modifies df
    ensures df.Valid() && df.height == old(df.height) && df.columns == old(df.columns)
    ensures partCols == ProportionColumns(df.columns)
    ensures df.data.Keys == old(df.data).Keys
    ensures df.data == Scaled(old(df.data))
  {
    partCols := ProportionColumns(df.columns);
    assert Distinct(partCols);
    for i := 0 to |partCols|
      invariant df.Valid() && df.height == old(df.height) && df.columns == old(df.columns)
      invariant ScaledUpTo(df.data, old(df.data), partCols[..i])
    {
      var col := partCols[i];
      ghost var before := df.data;
      df.SetColumn(col, MapCells(df.data[col], Percent));
      ScaleNext(before, old(df.data), partCols, i);
    }
    assert partCols[..|partCols|] == partCols;
    ScaledAll(df.data, old(df.data), partCols);
  }

  /** The shares of one bureau (row `r`) in the given columns, in column order. */
  function BureauRow(data: map<string, seq<Cell>>, cols: seq<string>, r: nat): (row: ShareRow)
    requires forall c :: c in cols ==> c in data && r < |data[c]|
    ensures |row| == |cols| && forall i :: 0 <= i < |cols| ==> row[i] == (cols[i], data[cols[i]][r])
  {
    seq(|cols|, i requires 0 <= i < |cols| => (cols[i], data[cols[i]][r]))
  }

  /** Rows read through columns whose vectors did not change are unchanged. */
  lemma BureauRowsUnchanged(data: map<string, seq<Cell>>, data': map<string, seq<Cell>>, cols: seq<string>, height: nat)
    requires forall c :: c in cols ==> c in data && c in data' && data'[c] == data[c] && |data[c]| == height
    ensures forall r :: 0 <= r < height ==> BureauRow(data', cols, r) == BureauRow(data, cols, r)
  {
  }

  /** Column `k` holds a highest defined share of the row, and no earlier column reaches it. */
  ghost predicate IsFirstMax(row: ShareRow, k: nat) {
    && k < |row| && row[k].1.Some?
    && (forall i :: 0 <= i < |row| && row[i].1.Some? ==> row[i].1.value <= row[k].1.value)
    && (forall i :: 0 <= i < k && row[i].1.Some? ==> row[i].1.value < row[k].1.value)
  }

  /** At most one column is the first to hold the highest share. */
  lemma FirstMaxUnique(row: ShareRow, k1: nat, k2: nat)
    requires IsFirstMax(row, k1) && IsFirstMax(row, k2)
    ensures k1 == k2
  {
  }

  /** `idxmax(axis=1)` over the share columns: the position of the first column holding the
      highest defined share, none when every share is missing. */
  function IdxMax(row: ShareRow): (k: Option<nat>)
    ensures k.Some? ==> IsFirstMax(row, k.value)
    ensures k.None? <==> forall i :: 0 <= i < |row| ==> row[i].1.None?
  {
    if row == [] then None
    else
      var rest := IdxMax(row[1..]);
      assert forall i :: 1 <= i < |row| ==> row[i] == row[1..][i - 1];
      match row[0].1
      case None => (match rest case None => None case Some(k) => Some(k + 1))
      case Some(v) =>
        match rest
        case None => Some(0)
        case Some(k) => if v >= row[k + 1].1.value then Some(0) else Some(k + 1)
  }

  /** `max(axis=1)` over the share columns: the highest defined share, missing when every
      share is missing. */
  function MaxShare(row: ShareRow): (m: Option<real>)
    decreases |row|
  {
    if row == [] then None
    else
      match (row[0].1, MaxShare(row[1..]))
      case (None, rest) => rest
      case (Some(v), None) => Some(v)
      case (Some(v), Some(w)) => Some(if v >= w then v else w)
  }

  /** The two pandas reductions agree: the maximum is the share of the arg-max column. */
  lemma {:induction false} MaxShareIsIdxMaxShare(row: ShareRow)
    ensures MaxShare(row) == match IdxMax(row) case None => None case Some(k) => row[k].1
    decreases |row|
  {
    if row != [] {
      MaxShareIsIdxMaxShare(row[1..]);
      match IdxMax(row[1..])
      case None =>
      case Some(k) => assert row[k + 1] == row[1..][k];
    }
  }

  /** The party label of a share column: the candidate's name without "Proportion_", then
      `extract_party_from_candidate`. */
  function PartyLabel(col: string): string {
    ExtractParty(CandidateName(col))
  }

  /** A bureau's majority: `Parti_majoritaire`, `Score_majoritaire` and `Couleur`. */
  datatype Majority = Majority(party: string, score: real, colour: Option<string>)

  /** The majority of a bureau. A bureau whose shares are all missing has none: `idxmax`
      yields NaN there, and `extract_party_from_candidate(NaN)` raises TypeError. */
  function MajorityOf(row: ShareRow): (m: Option<Majority>)
    ensures m.None? <==> forall i :: 0 <= i < |row| ==> row[i].1.None?
    ensures m.Some? ==> exists k: nat ::
      IsFirstMax(row, k) && m.value.score == row[k].1.value && m.value.party == PartyLabel(row[k].0)
    ensures m.Some? ==> forall i :: 0 <= i < |row| && row[i].1.Some? ==> row[i].1.value <= m.value.score
    ensures m.Some? && m.value.party in Config.MajorityColours ==> m.value.colour == Some(Config.MajorityColours[m.value.party])
    ensures m.Some? && m.value.party !in Config.MajorityColours ==> m.value.colour.None?
  {
    match IdxMax(row)
    case None => None
    case Some(k) =>
      var party := PartyLabel(row[k].0);
      Some(Majority(party, row[k].1.value,
        if party in Config.MajorityColours then Some(Config.MajorityColours[party]) else None))
  }

  /** `Score_majoritaire` is the row maximum. */
  lemma MajorityScoreIsMax(row: ShareRow)
    ensures MaxShare(row).Some? <==> MajorityOf(row).Some?
    ensures MajorityOf(row).Some? ==> MaxShare(row) == Some(MajorityOf(row).value.score)
  {
    MaxShareIsIdxMaxShare(row);
  }

  /** The majority score of each bureau: the highest of its shares in `partCols`. */
  function MajorityScores(data: map<string, seq<Cell>>, partCols: seq<string>, height: nat): (scores: seq<Cell>)
    requires forall c :: c in partCols ==> c in data && |data[c]| == height
    ensures |scores| == height
  {
    seq(height, r requires 0 <= r < height => MaxShare(BureauRow(data, partCols, r)))
  }

  /** Stores, as column "Score_majoritaire", each bureau's highest share over the party
      columns. */
  method AddMajorityScore(df: Frame, partCols: seq<string>)
    requires df.Valid() && forall c :: c in partCols ==> c in df.data
    modifies df
    ensures df.Valid() && df.height == old(df.height)
    ensures df.columns == WithColumn(old(df.columns), "Score_majoritaire")
    ensures df.data == old(df.data)["Score_majoritaire" := MajorityScores(old(df.data), partCols, old(df.height))]
  {
    df.SetColumn("Score_majoritaire", MajorityScores(df.data, partCols, df.height));
  }

  // ---------------------------------------------------------------------------------------
  // get_top3_and_color
  // ---------------------------------------------------------------------------------------

  /** The defined shares of a bureau under their party labels, in column order. */
  function PartyScores(row: ShareRow): (es: seq<Entry>)
    ensures |es| <= |row|
  {
    Scores(row, PartyLabel)
  }

  /** The first highest entry of the score list is the first column holding the highest share. */
  lemma {:induction false} ScoresFirstMax(row: ShareRow, labelOf: string -> string, k: nat)
    requires IsFirstMax(row, k)
    ensures Scores(row, labelOf) != []
    ensures Scores(row, labelOf)[FirstMaxIndex(Scores(row, labelOf))] == Entry(labelOf(row[k].0), row[k].1.value)
    decreases |row|
  {
    if row[0].1.None? || k > 0 {
      IsFirstMaxTail(row, k);
      ScoresFirstMax(row[1..], labelOf, k - 1);
      FirstMaxLater(row, labelOf, k);
    } else {
      HeadIsFirstMax(row, labelOf);
    }
  }

  /** The step of ScoresFirstMax when the first maximum is not in the first column. */
  lemma FirstMaxLater(row: ShareRow, labelOf: string -> string, k: nat)
    requires IsFirstMax(row, k) && k > 0
    requires var rest := Scores(row[1..], labelOf);
      rest != [] && rest[FirstMaxIndex(rest)] == Entry(labelOf(row[k].0), row[k].1.value)
    ensures Scores(row, labelOf) != []
    ensures Scores(row, labelOf)[FirstMaxIndex(Scores(row, labelOf))] == Entry(labelOf(row[k].0), row[k].1.value)
  {
    var rest := Scores(row[1..], labelOf);
    if row[0].1.Some? {
      var head := Entry(labelOf(row[0].0), row[0].1.value);
      assert Scores(row, labelOf) == [head] + rest;
      FirstMaxIndexCons(head, rest);
    }
  }

  /** Dropping a first column that is not the first maximum shifts the maximum by one. */
  lemma IsFirstMaxTail(row: ShareRow, k: nat)
    requires IsFirstMax(row, k) && (k > 0 || row[0].1.None?)
    ensures k > 0 && IsFirstMax(row[1..], k - 1) && row[1..][k - 1] == row[k]
  {
    assert forall i :: 1 <= i < |row| ==> row[i] == row[1..][i - 1];
  }

  /** A first column holding the highest share heads the score list as its first maximum. */
  lemma HeadIsFirstMax(row: ShareRow, labelOf: string -> string)
    requires IsFirstMax(row, 0)
    ensures Scores(row, labelOf) != []
    ensures Scores(row, labelOf)[FirstMaxIndex(Scores(row, labelOf))] == Entry(labelOf(row[0].0), row[0].1.value)
  {
    var head, rest := Entry(labelOf(row[0].0), row[0].1.value), Scores(row[1..], labelOf);
    assert Scores(row, labelOf) == [head] + rest;
    if rest != [] {
      ScoresFromRow(row[1..], labelOf);
      var m := FirstMaxIndex(rest);
      var i :| 0 <= i < |row[1..]| && row[1..][i].1 == Some(rest[m].score);
      assert row[i + 1].1.value <= row[0].1.value;
    }
    FirstMaxIndexCons(head, rest);
  }

  /** The head of the top 3 is the bureau's majority: same party, same score; a bureau
      without any share has an empty top 3 and no majority. */
  lemma Top3WinnerIsMajority(row: ShareRow)
    ensures Top3(PartyScores(row)) == [] <==> MajorityOf(row).None?
    ensures MajorityOf(row).Some? ==>
      Top3(PartyScores(row))[0] == Entry(MajorityOf(row).value.party, MajorityOf(row).value.score)
  {
    match IdxMax(row)
    case None =>
    case Some(k) =>
      var es := PartyScores(row);
      ScoresFirstMax(row, PartyLabel, k);
      SortDescFront(es);
      assert Top3(es)[0] == SortDesc(es)[0];
  }

  /** On a bureau of the prepared table, the top three start with its majority party and
      its `Score_majoritaire`. */
  lemma PreparedTop3(cols: seq<string>, data: map<string, seq<Cell>>, height: nat, r: nat)
    requires Shaped(cols, data, height) && RenamesDistinct(cols)
    requires Prepare(cols, data, height).Ok? && r < height
    ensures var p := Prepare(cols, data, height).value;
      && (forall c :: c in p.partCols ==> c in p.data && |p.data[c]| == height)
      && "Score_majoritaire" in p.data && |p.data["Score_majoritaire"]| == height
      && MajorityOf(BureauRow(p.data, p.partCols, r)).Some?
    ensures var p := Prepare(cols, data, height).value;
      var row := BureauRow(p.data, p.partCols, r);
      && Top3(PartyScores(row)) != []
      && Top3(PartyScores(row))[0].name == MajorityOf(row).value.party
      && p.data["Score_majoritaire"][r] == Some(Top3(PartyScores(row))[0].score)
  {
    PrepareScores(cols, data, height);
    var p := Prepare(cols, data, height).value;
    Top3WinnerIsMajority(BureauRow(p.data, p.partCols, r));
  }

  /** The configured colour of the party leading the top 3; white when there is no leader or
      it has no colour. */
  function Top3Colour(top: seq<Entry>): string {
    if top != [] && top[0].name in Config.Top3Colours then Config.Top3Colours[top[0].name] else "#ffffff"
  }

  /** The top-3 colour is the majority colour, except for "LREM Villani" (brown rather
      than orange) and "LDVD" (coloured here, uncoloured as a majority); without any
      share it is white. */
  lemma Top3ColourOfMajority(row: ShareRow)
    ensures MajorityOf(row).None? ==> Top3Colour(Top3(PartyScores(row))) == "#ffffff"
    ensures MajorityOf(row).Some? && MajorityOf(row).value.party != "LREM Villani" && MajorityOf(row).value.colour.Some? ==>
      Top3Colour(Top3(PartyScores(row))) == MajorityOf(row).value.colour.value
    ensures MajorityOf(row).Some? && MajorityOf(row).value.party == "LREM Villani" ==>
      MajorityOf(row).value.colour == Some("orange") && Top3Colour(Top3(PartyScores(row))) == "brown"
    ensures MajorityOf(row).Some? && MajorityOf(row).value.colour.None? ==>
      Top3Colour(Top3(PartyScores(row))) == if MajorityOf(row).value.party == "LDVD" then Config.Top3Colours["LDVD"] else "#ffffff"
  {
    Top3WinnerIsMajority(row);
    match MajorityOf(row)
    case None =>
    case Some(m) =>
      var top := Top3(PartyScores(row));
      assert top[0].name == m.party;
      PartyColours(m.party);
  }

  /** What the two colour tables say about one party. */
  lemma PartyColours(p: string)
    ensures p in Config.MajorityColours && p != "LREM Villani" ==>
      p in Config.Top3Colours && Config.Top3Colours[p] == Config.MajorityColours[p]
    ensures p !in Config.MajorityColours ==> (p in Config.Top3Colours <==> p == "LDVD")
    ensures p == "LREM Villani" ==> Config.MajorityColours[p] == "orange" && Config.Top3Colours[p] == "brown"
  {
    Config.TablesDiffer();
  }

  /** `get_top3_and_color`: the tooltip lists the bureau and its three best parties with
      their scores (formatted by `fmt`), and the colour is that of the best party. */
  method Top3AndColour(bureau: string, row: ShareRow, fmt: real -> string) returns (tooltip: string, colour: string)
    ensures tooltip == TooltipHeader(bureau) + TooltipLines(Top3(PartyScores(row)), fmt)
    ensures colour == Top3Colour(Top3(PartyScores(row)))
  {
    var top := Top3(PartyScores(row));
    tooltip := BuildTooltip(bureau, top, fmt);
    colour := Top3Colour(top);
  }

  // ---------------------------------------------------------------------------------------
  // charger_et_preparer_donnees
  // ---------------------------------------------------------------------------------------

  /** Bureau `r` has no defined share in `partCols`. */
  predicate NoShareAt(data: map<string, seq<Cell>>, partCols: seq<string>, r: nat) {
    forall c :: c in partCols && c in data && r < |data[c]| ==> data[c][r].None?
  }

  /** Some bureau has no defined share: `idxmax` gives it NaN, on which
      `extract_party_from_candidate` raises. */
  predicate SomeBureauWithoutShares(data: map<string, seq<Cell>>, partCols: seq<string>, height: nat) {
    exists r :: 0 <= r < height && NoShareAt(data, partCols, r)
  }

  /** The prepared results table: its columns, its data and the share columns `part_cols`. */
  datatype Prepared = Prepared(columns: seq<string>, data: map<string, seq<Cell>>, partCols: seq<string>)

  /** What `charger_et_preparer_donnees` makes of the results table before the join: the
      rename, the `id_bv` key (KeyError without `NUM_ARROND` or `NUM_BUREAU`), the abstention
      rate (KeyError without `Participation`), the shares in percent, then the majority of
      each bureau (an exception when a bureau has no share) and its score. */
  function Prepare(cols: seq<string>, data: map<string, seq<Cell>>, height: nat): Result<Prepared>
    requires Shaped(cols, data, height) && RenamesDistinct(cols)
  {
    var renamed := RenamedColumns(cols);
    if "NUM_ARROND" !in renamed || "NUM_BUREAU" !in renamed || "Participation" !in renamed then
      Err(KeyError)
    else
      var columns := PreparedColumns(cols);
      var shares := PreparedData(cols, data, height);
      var partCols := ProportionColumns(columns);
      PreparedShape(cols, data, height);
      if SomeBureauWithoutShares(shares, partCols, height) then Err(TypeError)
      else Ok(Prepared(WithColumn(columns, "Score_majoritaire"),
                       shares["Score_majoritaire" := MajorityScores(shares, partCols, height)], partCols))
  }

  /** Bureau `r` of the input table has no defined share in its (renamed) share columns. */
  predicate NoInputShareAt(cols: seq<string>, data: map<string, seq<Cell>>, r: nat) {
    forall i :: 0 <= i < |cols| && IsProportionColumn(RenameColumn(cols[i])) && cols[i] in data && r < |data[cols[i]]| ==>
      data[cols[i]][r].None?
  }

  /** The preparation fails with KeyError exactly when a column it reads is missing, and
      with no other exception than KeyError or TypeError. */
  lemma PrepareFails(cols: seq<string>, data: map<string, seq<Cell>>, height: nat)
    requires Shaped(cols, data, height) && RenamesDistinct(cols)
    ensures Prepare(cols, data, height).Err? ==> Prepare(cols, data, height).error in {KeyError, TypeError}
    ensures Prepare(cols, data, height) == Err(KeyError) <==>
      "NUM_ARROND" !in RenamedColumns(cols) || "NUM_BUREAU" !in RenamedColumns(cols) || "Participation" !in RenamedColumns(cols)
  {
  }

  /** Once the columns it reads are there, the preparation raises exactly when some bureau of
      the input has no share at all. */
  lemma PrepareRaises(cols: seq<string>, data: map<string, seq<Cell>>, height: nat)
    requires Shaped(cols, data, height) && RenamesDistinct(cols)
    requires "NUM_ARROND" in RenamedColumns(cols) && "NUM_BUREAU" in RenamedColumns(cols)
    requires "Participation" in RenamedColumns(cols)
    ensures Prepare(cols, data, height).Err? <==> exists r :: 0 <= r < height && NoInputShareAt(cols, data, r)
    ensures Prepare(cols, data, height).Err? ==> Prepare(cols, data, height).error == TypeError
  {
    var shares := PreparedData(cols, data, height);
    var partCols := ProportionColumns(PreparedColumns(cols));
    assert Prepare(cols, data, height).Err? <==> SomeBureauWithoutShares(shares, partCols, height);
    forall r | 0 <= r < height ensures NoShareAt(shares, partCols, r) <==> NoInputShareAt(cols, data, r) {
      NoShareSameAt(cols, data, height, r);
    }
  }

  /** One bureau: no share after the preparation exactly when none before it. */
  lemma NoShareSameAt(cols: seq<string>, data: map<string, seq<Cell>>, height: nat, r: nat)
    requires Shaped(cols, data, height) && RenamesDistinct(cols)
    requires "Participation" in RenamedColumns(cols) && r < height
    ensures NoShareAt(PreparedData(cols, data, height), ProportionColumns(PreparedColumns(cols)), r) <==>
      NoInputShareAt(cols, data, r)
  {
    var shares := PreparedData(cols, data, height);
    var renamed := RenamedColumns(cols);
    var partCols := ProportionColumns(PreparedColumns(cols));
    NotAShareColumn("Taux_abstention");
    if NoShareAt(shares, partCols, r) {
      forall i | 0 <= i < |cols| && IsProportionColumn(RenameColumn(cols[i])) ensures data[cols[i]][r].None? {
        PreparedAt(cols, data, height, i);
        assert renamed[i] == RenameColumn(cols[i]);
        assert RenameColumn(cols[i]) in partCols;
        assert shares[RenameColumn(cols[i])][r] == Percent(data[cols[i]][r]);
      }
    }
    if NoInputShareAt(cols, data, r) {
      forall c | c in partCols && c in shares && r < |shares[c]| ensures shares[c][r].None? {
        assert c in renamed;
        var i :| 0 <= i < |cols| && renamed[i] == c;
        PreparedAt(cols, data, height, i);
        assert shares[c][r] == Percent(data[cols[i]][r]);
      }
    }
  }

  /** A prepared table is a frame over its columns; its share columns are its "Proportion_"
      columns in order; besides `Score_majoritaire` it holds the shared preparation. */
  lemma PrepareShape(cols: seq<string>, data: map<string, seq<Cell>>, height: nat)
    requires Shaped(cols, data, height) && RenamesDistinct(cols)
    requires Prepare(cols, data, height).Ok?
    ensures "Participation" in RenamedColumns(cols)
    ensures var p := Prepare(cols, data, height).value;
      && Shaped(p.columns, p.data, height)
      && p.partCols == ProportionColumns(p.columns)
      && (forall c :: c in PreparedData(cols, data, height) && c != "Score_majoritaire" ==>
            c in p.data && p.data[c] == PreparedData(cols, data, height)[c])
  {
    var columns := PreparedColumns(cols);
    var shares := PreparedData(cols, data, height);
    var partCols := ProportionColumns(columns);
    PreparedShape(cols, data, height);
    var scores := MajorityScores(shares, partCols, height);
    assert Prepare(cols, data, height).value == Prepared(WithColumn(columns, "Score_majoritaire"), shares["Score_majoritaire" := scores], partCols);
    WithColumnShaped(columns, shares, height, "Score_majoritaire", scores);
    NotAShareColumn("Score_majoritaire");
    ProportionColumnsAppend(columns, "Score_majoritaire");
  }

  /** A bureau with some share has a majority, whose score the new `Score_majoritaire`
      column holds. */
  lemma ScoreOfBureau(data: map<string, seq<Cell>>, partCols: seq<string>, height: nat, r: nat)
    requires forall c :: c in partCols ==> c in data && |data[c]| == height
    requires "Score_majoritaire" !in partCols && r < height && !NoShareAt(data, partCols, r)
    ensures var scored := data["Score_majoritaire" := MajorityScores(data, partCols, height)];
      && MajorityOf(BureauRow(scored, partCols, r)).Some?
      && scored["Score_majoritaire"][r] == Some(MajorityOf(BureauRow(scored, partCols, r)).value.score)
  {
    var scored := data["Score_majoritaire" := MajorityScores(data, partCols, height)];
    var row := BureauRow(scored, partCols, r);
    assert row == BureauRow(data, partCols, r);
    MajorityScoreIsMax(row);
  }

  /** Every bureau of a prepared table has a majority, whose score is `Score_majoritaire`. */
  lemma PrepareScores(cols: seq<string>, data: map<string, seq<Cell>>, height: nat)
    requires Shaped(cols, data, height) && RenamesDistinct(cols)
    requires Prepare(cols, data, height).Ok?
    ensures var p := Prepare(cols, data, height).value;
      && (forall c :: c in p.partCols ==> c in p.data && |p.data[c]| == height)
      && "Score_majoritaire" in p.data && |p.data["Score_majoritaire"]| == height
    ensures var p := Prepare(cols, data, height).value;
      forall r :: 0 <= r < height ==>
        && MajorityOf(BureauRow(p.data, p.partCols, r)).Some?
        && p.data["Score_majoritaire"][r] == Some(MajorityOf(BureauRow(p.data, p.partCols, r)).value.score)
  {
    PrepareShape(cols, data, height);
    var p := Prepare(cols, data, height).value;
    var shares := PreparedData(cols, data, height);
    NotAShareColumn("Score_majoritaire");
    assert p.data == shares["Score_majoritaire" := MajorityScores(shares, p.partCols, height)];
    forall r | 0 <= r < height
      ensures MajorityOf(BureauRow(p.data, p.partCols, r)).Some?
      ensures p.data["Score_majoritaire"][r] == Some(MajorityOf(BureauRow(p.data, p.partCols, r)).value.score)
    {
      assert !NoShareAt(shares, p.partCols, r);
      ScoreOfBureau(shares, p.partCols, height, r);
    }
  }

  /** `charger_et_preparer_donnees` up to the join, on the frame in place; it returns
      `part_cols`, or the exception the script raises. */
  method PrepareResults(df: Frame) returns (result: Result<seq<string>>)
    requires df.Valid()
    requires RenamesDistinct(df.columns)
    modifies df
    ensures df.Valid() && df.height == old(df.height)
    ensures result == match Prepare(old(df.columns), old(df.data), old(df.height))
      case Err(e) => Err(e)
      case Ok(p) => Ok(p.partCols)
    ensures result.Ok? ==>
      && df.columns == Prepare(old(df.columns), old(df.data), old(df.height)).value.columns
      && df.data == Prepare(old(df.columns), old(df.data), old(df.height)).value.data
  {
    var ok := RenameAndAbstention(df);
    if !ok {
      return Err(KeyError);
    }
    result := ScaleAndScore(df);
  }

  /** The last steps of the preparation: the shares to percentages, then the majority score
      of each bureau over the scaled shares; a bureau without any share raises. */
  method ScaleAndScore(df: Frame) returns (result: Result<seq<string>>)
    requires df.Valid()
    modifies df
    ensures df.Valid() && df.height == old(df.height)
    ensures result.Err? <==> SomeBureauWithoutShares(Scaled(old(df.data)), ProportionColumns(old(df.columns)), old(df.height))
    ensures result.Err? ==> result.error == TypeError
    ensures result.Ok? ==> result.value == ProportionColumns(old(df.columns))
    ensures result.Ok? ==> df.columns == WithColumn(old(df.columns), "Score_majoritaire")
    ensures result.Ok? ==>
      df.data == Scaled(old(df.data))["Score_majoritaire" :=
        MajorityScores(Scaled(old(df.data)), ProportionColumns(old(df.columns)), old(df.height))]
  {
    var partCols := ScaleProportions(df);
    if SomeBureauWithoutShares(df.data, partCols, df.height) {
      return Err(TypeError);
    }
    AddMajorityScore(df, partCols);
    result := Ok(partCols);
  }

  /** The first steps of the preparation: the rename, the columns of the bureau key, then the
      abstention rate. `ok` is false where the script raises KeyError. */
  method RenameAndAbstention(df: Frame) returns (ok: bool)
    requires df.Valid()
    requires RenamesDistinct(df.columns)
    modifies df
    ensures df.Valid() && df.height == old(df.height)
    ensures ok <==>
      "NUM_ARROND" in RenamedColumns(old(df.columns)) && "NUM_BUREAU" in RenamedColumns(old(df.columns))
      && "Participation" in RenamedColumns(old(df.columns))
    ensures ok ==>
      && df.columns == PreparedColumns(old(df.columns))
      && "Participation" in RenamedData(old(df.columns), old(df.data))
      && df.data == WithAbstention(RenamedData(old(df.columns), old(df.data)))
  {
    ghost var renamed := RenamedColumns(df.columns);
    ghost var renamedData := RenamedData(df.columns, df.data);
    RenameColumns(df);
    assert df.columns == renamed && df.data == renamedData;
    if "NUM_ARROND" !in df.columns || "NUM_BUREAU" !in df.columns {
      return false;
    }
    ok := AddAbstention(df);
  }
}
