# Paris 2020 municipal election maps — a Dafny model of the data preparation

The scripts of `cartes-elections` turn the Paris 2020 municipal election results into
choropleth maps. This project models the part of them that computes, not the part that draws.
All figures are per polling station (a "bureau").

- **First round** (`scripts/1er_tour_municipales_2020.py`). The script:
  - renames the misspelled `Porportion_` columns;
  - builds the `arrondissement-bureau` join key;
  - derives the abstention rate from the participation;
  - scales the `Proportion_` shares to percentages;
  - finds the bureau's leading candidate (`idxmax`), reduces that candidate's name to a party
    label with the regular expression `\((.*?)\)` and two fixed name fragments, and colours it
    from the majority table;
  - ranks the parties for the top-3 tooltip (a stable sort, descending), colours the winner
    from the top-3 table, and colours the abstention rate in five buckets.
- **Backup first-round script** (`scripts/Sauvegarde_1er_tour_municipales_2020.py`): the same
  preparation without the majority columns. Its tooltip ranks candidates, not parties.
- **Second round** (`scripts/process_second_tour.py`). The script:
  - reads the arrondissement from the file name and the bureau number from `ID_BVOTE`;
  - finds each candidate's party in the name-to-party table. It tries an exact key first, then
    the first key the name contains, then five name heuristics, then "Sans étiquette";
  - adds up the votes of each party and divides them by the expressed votes.
- **Party table** (`scripts/create_party_mapping.py`): the name-to-party table, built from the
  first-round share columns by splitting each name on `(` and `)`.
- **Colour tables** (`scripts/config.py`): the two colour tables, as constants.

## How things are represented

- **Missing values:** a pandas NaN is `None`.
- **Numbers:** shares and rates are exact reals.
- **Dicts:** a Python `dict` is an insertion-ordered sequence of key/value pairs (`Dicts`).
  Order matters here, because the substring search walks the table in insertion order.
- **Frames:** a numeric pandas frame is the class `Frames.Frame`. It has an ordered column
  list, a map from column name to column vector, and a height. The statements that assign
  whole columns are methods on it, proved against functions of the old frame.
- **Per-row text:** the text a row produces (party label, colours, tooltips) is a function of
  the row (`ShareRow`, `VoteRow`).
- **Errors:** a Python exception becomes the `Err` side of a `Result` (`IndexError`,
  `ValueError`, `KeyError`, `TypeError`), or `None` where the script yields NaN.

Where the code and the design description differ, the model follows the code:

- **Majority:** the majority is the arg-max over the candidate share columns, ties going to
  the first column. Shares are not summed per party first. A label missing from the colour
  table gets no colour (NaN), not a fallback colour.
- **Second-round shares:** these are fractions (`votes / NB_EXPRIM`), not percentages.

## Model

| member | source | states |
|---|---|---|
| Strings.FindFirst | scripts/1er_tour_municipales_2020.py:24-27 | Python's `pat in s`: the leftmost occurrence, no occurrence before it, and `None` exactly when the pattern occurs nowhere |
| Strings.NotContains | scripts/1er_tour_municipales_2020.py:24-27 | a text lacks a pattern if and only if the pattern occurs at no position |
| Strings.SplitOn | scripts/create_party_mapping.py:17 | `str.split(sep)`: at least one part; the first part is a prefix of the text, the whole text when there is one part and followed by the separator otherwise; two or more parts if and only if the separator occurs; no part holds the separator |
| Strings.JoinSplit | scripts/create_party_mapping.py:17 | joining the parts of a split with the separator gives the text back |
| Strings.JoinCons | scripts/create_party_mapping.py:17 | joining a head before further parts puts the separator between the head and the rest |
| Strings.SplitOnAfter | scripts/process_second_tour.py:44 | splitting `u + sep + w`, where `u` holds no separator, gives `u` followed by the parts of `w` |
| Strings.SplitOnAbsent | scripts/create_party_mapping.py:17 | a text without the separator splits into itself alone |
| Strings.SplitHeadKeeps | scripts/process_second_tour.py:44 | a prefix free of the separator's first character survives into the first part |
| Strings.ReplaceAll | scripts/1er_tour_municipales_2020.py:42 | definition of `str.replace`; specified by `Strings.ReplaceAllAbsent`, `Strings.ReplaceAllRemoves` and `Strings.PrefixSurvivesReplace` |
| Strings.ReplaceAllAbsent | scripts/1er_tour_municipales_2020.py:42 | `str.replace` leaves a text without the pattern unchanged |
| Strings.ReplaceAllRemoves | scripts/1er_tour_municipales_2020.py:42 | after replacing a pattern by a different one of the same length that cannot overlap it, the pattern no longer occurs |
| Strings.RemovePrefixOccurrence | scripts/1er_tour_municipales_2020.py:60 | removing `Proportion_` from `Proportion_ + name` gives `name`, when `name` does not hold the prefix |
| Strings.PrefixSurvivesReplace | scripts/1er_tour_municipales_2020.py:42 | a prefix that a replacement cannot produce was there before the replacement |
| Strings.NatToString | scripts/1er_tour_municipales_2020.py:49 | `str(n)` is a non-empty run of digits with no leading zero |
| Strings.DigitsValueOfNat | scripts/1er_tour_municipales_2020.py:49 | reading the digits of `str(n)` gives `n` back |
| Strings.TrimStart | scripts/process_second_tour.py:48 | `int()` strips leading whitespace: the result is a suffix that does not start with whitespace, and every character removed is whitespace |
| Strings.TrimEnd | scripts/process_second_tour.py:48 | `int()` strips trailing whitespace: the result is a prefix that does not end with whitespace, and every character removed is whitespace |
| Strings.ParseInt | scripts/process_second_tour.py:48 | definition of `int()` on text; specified by `Strings.ParseIntOfDigits` and `Strings.ParseIntOfNat` |
| Strings.ParseIntOfDigits | scripts/process_second_tour.py:48 | `int()` of a non-empty run of ASCII digits is its decimal value |
| Strings.ParseIntOfNat | scripts/process_second_tour.py:45 | `int(str(n)) == n` |
| Dicts.Get | scripts/process_second_tour.py:10-11 | a lookup fails if and only if the key is not in the dict |
| Dicts.GetEntry | scripts/process_second_tour.py:11 | in a dict with distinct keys, the lookup of an entry's key gives that entry's value |
| Dicts.Put | scripts/create_party_mapping.py:18 | definition of `d[k] = v`; specified by `Dicts.PutKeys`, `Dicts.PutDistinct` and `Dicts.PutGet` |
| Dicts.PutKeys | scripts/create_party_mapping.py:18 | an assignment keeps the key order and appends a new key at the end |
| Dicts.PutDistinct | scripts/create_party_mapping.py:18 | an assignment keeps keys distinct |
| Dicts.PutGet | scripts/create_party_mapping.py:18 | after `d[k] = v`, `k` maps to `v` and every other key to what it held before |
| Dicts.FromPairs | scripts/process_second_tour.py:33 | definition of `dict(zip(..))`; specified by `Dicts.FromPairsKeys` and `Dicts.FromPairsLastWins` |
| Dicts.FromPairsKeys | scripts/process_second_tour.py:33 | `dict(zip(..))` has distinct keys, exactly the keys among the pairs |
| Dicts.FromPairsLastWins | scripts/process_second_tour.py:33 | in `dict(zip(..))` the last pair with a key gives its value |
| Dicts.SumValuesAdd | scripts/process_second_tour.py:56-59 | adding `n` under one key raises the sum of the values by `n` |
| Dicts.SumByKey | scripts/process_second_tour.py:52-59 | definition of the per-key totals; specified by `Dicts.SumByKeySnoc`, `Dicts.SumByKeyDistinct`, `Dicts.SumByKeyGet` and `Dicts.SumByKeyTotal` |
| Dicts.SumByKeySnoc | scripts/process_second_tour.py:53-59 | one more loop round adds the new votes to the entry of their party, or creates it |
| Dicts.SumByKeyDistinct | scripts/process_second_tour.py:52-59 | the per-party totals have one entry per party |
| Dicts.SumByKeyGet | scripts/process_second_tour.py:52-59 | a party has an entry if and only if some vote was filed under it, and the entry is the sum of that party's votes |
| Dicts.SumByKeyTotal | scripts/process_second_tour.py:52-59 | the per-party totals add up to all the votes filed |
| Config.SameKeysButOne | scripts/config.py:15-57 | the top-3 table knows the parties of the majority table and "LDVD", nothing else |
| Config.SameColoursButOne | scripts/config.py:15-57 | every party of the majority table, "LREM Villani" aside, has the same colour in both tables |
| Config.TablesDiffer | scripts/config.py:15-57 | the two colour tables differ in exactly "LDVD" (top-3 only) and "LREM Villani" (orange against brown) |
| Frames.Frame.constructor | scripts/1er_tour_municipales_2020.py:38 | a frame read from a table holds that table's columns, with all columns of one height |
| Frames.Frame.SetColumn | scripts/1er_tour_municipales_2020.py:57 | `df[name] = values` replaces or appends the column and changes no other column |
| Preparation.ProportionColumns | scripts/1er_tour_municipales_2020.py:55 | the share columns are exactly the columns starting with `Proportion_`, in frame order, distinct when the columns are |
| Preparation.ProportionColumnsAppend | scripts/Sauvegarde_1er_tour_municipales_2020.py:34-35 | scanning one more column adds it to the share columns exactly when it starts with `Proportion_` |
| Preparation.RenameFixesPrefix | scripts/1er_tour_municipales_2020.py:42 | no renamed column holds `Porportion_`, and a name without it is unchanged |
| Preparation.RenamedColumns | scripts/1er_tour_municipales_2020.py:42 | the renamed column list is the old list with each name renamed, position by position |
| Preparation.RenamedFrame | scripts/1er_tour_municipales_2020.py:42 | after the rename each new name holds the old column of its position, the names stay distinct and every column keeps the frame height |
| Preparation.RenameColumns | scripts/1er_tour_municipales_2020.py:42 | `df.rename(...)`: the columns are the renamed columns, each holding the vector of the column it came from |
| Preparation.CandidateNameOfColumn | scripts/1er_tour_municipales_2020.py:60 | removing the prefix from a share column's name gives back the candidate's name |
| Preparation.Abstention | scripts/1er_tour_municipales_2020.py:52 | the rate is missing exactly when the participation is; participation = 1 − rate/100; participation is in [0, 1] if and only if the rate is in [0, 100] |
| Preparation.Percent | scripts/1er_tour_municipales_2020.py:57 | `× 100` keeps a missing share missing and is undone by dividing by 100 |
| Preparation.AddAbstention | scripts/1er_tour_municipales_2020.py:52 | with a `Participation` column, `Taux_abstention` is the participation's rate cell by cell and nothing else changes; without one, the frame is untouched and the call reports the KeyError |
| Preparation.ScaleStep | scripts/1er_tour_municipales_2020.py:56-57 | scaling one more column extends the set of scaled columns by it |
| Preparation.ScaleNext | scripts/1er_tour_municipales_2020.py:56-57 | scaling the next column of the share list keeps "the first `i` share columns are scaled" true for `i + 1` |
| Preparation.ScaleNextShare | scripts/Sauvegarde_1er_tour_municipales_2020.py:34-36 | scanning the next column, and scaling it if it is a share column, keeps "the share columns seen so far are scaled" |
| Preparation.WithAbstention | scripts/1er_tour_municipales_2020.py:52 | definition of the data after the abstention rate; specified by `Preparation.AddAbstention`, `Preparation.WithAbstentionShape` and `Preparation.PreparedAt` |
| Preparation.Scaled | scripts/1er_tour_municipales_2020.py:55-57 | definition of the data after the ×100 loop; specified by `Preparation.ScaledAll`, `Preparation.ScaledShape` and `Preparation.PreparedAt` |
| Preparation.PreparedData | scripts/Sauvegarde_1er_tour_municipales_2020.py:28-36 | definition of the prepared data; specified by `Preparation.PreparedShape`, `Preparation.PreparedAt` and `Preparation.PreparedDataSpec` |
| Preparation.ScaledAll | scripts/1er_tour_municipales_2020.py:56-57 | once every share column and no other column is scaled, the data is `Scaled` of the old data: every share column times 100, every other column unchanged |
| Preparation.ScaledShape | scripts/1er_tour_municipales_2020.py:56-57 | scaling keeps the columns and the height of a frame |
| Preparation.WithAbstentionShape | scripts/1er_tour_municipales_2020.py:52 | adding `Taux_abstention` adds one column of the frame height |
| Preparation.PreparedShape | scripts/1er_tour_municipales_2020.py:42-57 | the renamed, rated and scaled data is a frame over the renamed columns plus `Taux_abstention` |
| Preparation.PreparedAt | scripts/1er_tour_municipales_2020.py:42-57 | an input column lands under its renamed name, ×100 when it is a share column, and the renamed `Participation` gives `Taux_abstention` its rate |
| Preparation.PreparedDataSpec | scripts/Sauvegarde_1er_tour_municipales_2020.py:28-36 | the prepared table read against the input: every renamed column holds its input vector, in percent if it is a share column; `Taux_abstention` is the rate of the input participation |
| Ranking.FirstMaxIndex | scripts/1er_tour_municipales_2020.py:80 | the position of the first entry with the highest score: none scores more, none before it scores as much |
| Ranking.SortDesc | scripts/1er_tour_municipales_2020.py:80 | the ranking is a permutation of the scores |
| Ranking.SortDescOrdered | scripts/1er_tour_municipales_2020.py:80 | the ranking is ordered by score, highest first |
| Ranking.SortDescStable | scripts/1er_tour_municipales_2020.py:80 | entries of equal score keep their relative order (Python's sort is stable) |
| Ranking.Top3 | scripts/1er_tour_municipales_2020.py:80 | `[:3]` keeps three entries, or all when fewer, ordered by score |
| Ranking.Top3Best | scripts/1er_tour_municipales_2020.py:80 | the top three are taken from the scores, and no score left out beats the third |
| Ranking.Top3Stable | scripts/1er_tour_municipales_2020.py:80 | among equal scores, the top three keep the first ones in their order |
| Ranking.Top3OfRow | scripts/1er_tour_municipales_2020.py:79-80 | a row with a present share has a non-empty top three, and each present share is in it or scores no more than its third |
| Ranking.Scores | scripts/1er_tour_municipales_2020.py:79 | at most one entry per column, and none at all exactly when every share is missing |
| Ranking.ScoresFromRow | scripts/1er_tour_municipales_2020.py:79 | every entry is the label and the share of some column whose share is present |
| Ranking.ScoresAppend | scripts/1er_tour_municipales_2020.py:79 | the scores of two column runs are the scores of the first followed by those of the second: the list keeps column order |
| Ranking.ScoresSnoc | scripts/1er_tour_municipales_2020.py:79 | one more column adds its label and share at the end when the share is present, and nothing when it is missing |
| Ranking.ScoresListsEveryShare | scripts/1er_tour_municipales_2020.py:79 | every present share is listed, under its column's label |
| Ranking.ScoresRelabel | scripts/1er_tour_municipales_2020.py:79 | labelling in two steps gives the same entries as relabelling the entries of the first step |
| Ranking.FirstMaxIndexRelabel | scripts/1er_tour_municipales_2020.py:80 | relabelling does not move the first maximum |
| Ranking.SortDescRelabel | scripts/1er_tour_municipales_2020.py:80 | ranking commutes with relabelling |
| Ranking.Top3Relabel | scripts/1er_tour_municipales_2020.py:80 | the top three commute with relabelling |
| Ranking.TooltipLines | scripts/1er_tour_municipales_2020.py:83-84 | definition of the tooltip lines; specified by `Ranking.TooltipLinesFront` and `Ranking.BuildTooltip` |
| Ranking.TooltipLinesFront | scripts/1er_tour_municipales_2020.py:83-84 | the tooltip lines are the first entry's line followed by the others' |
| Ranking.BuildTooltip | scripts/1er_tour_municipales_2020.py:82-84 | the loop's tooltip is the bureau header followed by one line per entry, in order |
| FirstRound.CloseParen | scripts/1er_tour_municipales_2020.py:19 | the lazy `.*?` stops at the first `)`, and fails when a newline comes first |
| FirstRound.ParenGroup | scripts/1er_tour_municipales_2020.py:19-21 | a match is a `(…)` group of the name holding no `)` and no newline |
| FirstRound.ExtractParty | scripts/1er_tour_municipales_2020.py:14-29 | the label is the name itself or a part of it |
| FirstRound.CloseParenAt | scripts/1er_tour_municipales_2020.py:19 | the lazy group closes at the first `)` when no newline lies before it |
| FirstRound.ParenGroupAt | scripts/1er_tour_municipales_2020.py:19-21 | with the first `(` at `i` and the next `)` at `j`, and no newline between, the group is the text between them |
| FirstRound.ParenGroupNoClosing | scripts/1er_tour_municipales_2020.py:19-20 | without a `)` after any `(`, the search fails |
| FirstRound.ParenGroupAbsent | scripts/1er_tour_municipales_2020.py:19-20 | without `(` or without `)`, the search fails |
| FirstRound.ParenGroupSkip | scripts/1er_tour_municipales_2020.py:19 | a first `(` whose group meets a newline before any `)` is passed over, and the search goes on after it |
| FirstRound.ParenGroupRetryExample | scripts/1er_tour_municipales_2020.py:19 | `(`, a newline, `)(P)` gives the group "P" |
| FirstRound.ExtractPartyBetweenParens | scripts/1er_tour_municipales_2020.py:19-21 | the label of a name with a closed group is the group's text |
| FirstRound.ExtractPartyWithoutParens | scripts/1er_tour_municipales_2020.py:23-29 | when the regular expression finds no group: "Les écologiste" first, then "Marcel Campion", else the whole name |
| FirstRound.ExtractPartyExample | scripts/1er_tour_municipales_2020.py:17 | 'Mme MAZETIER Sandrine (LREM Buzyn)' gives 'LREM Buzyn' |
| FirstRound.AbstentionColour | scripts/1er_tour_municipales_2020.py:94-101 | definition of `couleur_abstention`; specified by `FirstRound.AbstentionColourBuckets`, `FirstRound.AbstentionBucketMonotone` and `FirstRound.AbstentionBoundaries` |
| FirstRound.AbstentionBucket | scripts/1er_tour_municipales_2020.py:97-101 | a rate's bucket is the number of thresholds 30, 40, 50, 60 it reaches |
| FirstRound.AbstentionColourBuckets | scripts/1er_tour_municipales_2020.py:94-101 | a missing rate is grey; a rate gets its bucket's colour, a colour no other bucket and no missing rate has |
| FirstRound.AbstentionBucketMonotone | scripts/1er_tour_municipales_2020.py:97-101 | a higher rate never falls in a lower bucket |
| FirstRound.AbstentionBoundaries | scripts/1er_tour_municipales_2020.py:97-101 | the buckets are closed below: 30 is in the second and 60 in the last, 29.9 in the first |
| FirstRound.BureauKey | scripts/1er_tour_municipales_2020.py:49 | definition of the `id_bv` key; specified by `FirstRound.BureauKeySplit` and `SecondRound.BureauNumberOfKey` |
| FirstRound.BureauKeySplit | scripts/1er_tour_municipales_2020.py:49 | the `id_bv` key holds one dash, and splitting on it gives both numbers back |
| FirstRound.ScaleProportions | scripts/1er_tour_municipales_2020.py:55-57 | returns the share columns, and afterwards every share column is in percent and every other column is unchanged |
| FirstRound.FirstMaxUnique | scripts/1er_tour_municipales_2020.py:60 | the column `idxmax` picks is unique |
| FirstRound.IdxMax | scripts/1er_tour_municipales_2020.py:60 | `idxmax` skips missing shares and picks the first column holding the highest share; it is NaN exactly when all shares are missing |
| FirstRound.PartyLabel | scripts/1er_tour_municipales_2020.py:60-61 | definition of the majority label: the party cut out of the display name of the column `idxmax` picks; specified by `FirstRound.MajorityOf` and `FirstRound.ScoresFirstMax` |
| FirstRound.MaxShare | scripts/1er_tour_municipales_2020.py:62 | definition of `max(axis=1)`; specified by `FirstRound.MaxShareIsIdxMaxShare` and `FirstRound.MajorityScoreIsMax` |
| FirstRound.MaxShareIsIdxMaxShare | scripts/1er_tour_municipales_2020.py:60-62 | `max` gives the share of the column `idxmax` picks |
| FirstRound.MajorityOf | scripts/1er_tour_municipales_2020.py:60-63 | no majority exactly when all shares are missing; otherwise the label of the first column holding the highest share, that share, and the majority-table colour when the table has the label, none otherwise |
| FirstRound.MajorityScoreIsMax | scripts/1er_tour_municipales_2020.py:60-62 | `Score_majoritaire` is present exactly when a majority is, and equals its score |
| FirstRound.MajorityScores | scripts/1er_tour_municipales_2020.py:62 | definition of the `Score_majoritaire` column, each bureau's `max(axis=1)` over the share columns; specified by `FirstRound.AddMajorityScore`, `FirstRound.ScoreOfBureau` and `FirstRound.PrepareScores` |
| FirstRound.AddMajorityScore | scripts/1er_tour_municipales_2020.py:62 | `Score_majoritaire` is appended or overwritten with each bureau's highest share, and no other column changes |
| FirstRound.PartyScores | scripts/1er_tour_municipales_2020.py:79 | definition of the scores list, (party of the display name, share) for each present share in column order; specified by `FirstRound.ScoresFirstMax`, `FirstRound.Top3WinnerIsMajority` and `Backup.Top3PartiesOfCandidates` |
| FirstRound.ScoresFirstMax | scripts/1er_tour_municipales_2020.py:60 | the first maximum of the scores list is the entry of the column `idxmax` picks |
| FirstRound.Top3WinnerIsMajority | scripts/1er_tour_municipales_2020.py:86 | the top-3 list is empty exactly when there is no majority, and otherwise starts with the majority party and its score |
| FirstRound.Top3Colour | scripts/1er_tour_municipales_2020.py:86-87 | definition of the top-3 colour; specified by `FirstRound.Top3ColourOfMajority` and `FirstRound.Top3AndColour` |
| FirstRound.Top3ColourOfMajority | scripts/1er_tour_municipales_2020.py:87 | the top-3 colour is the majority colour, except brown for "LREM Villani" and gray for "LDVD", which has no majority colour; white without a winner or a table entry |
| FirstRound.PartyColours | scripts/config.py:15-57 | the per-party form of the table comparison, for any label |
| FirstRound.Top3AndColour | scripts/1er_tour_municipales_2020.py:78-89 | the tooltip lists the party top three under the bureau header, and the colour is the winner's top-3 colour or white |
| FirstRound.RenameAndAbstention | scripts/1er_tour_municipales_2020.py:42-52 | KeyError exactly when one of `NUM_ARROND`, `NUM_BUREAU`, `Participation` is not among the renamed columns; otherwise the columns are renamed plus `Taux_abstention`, and the data is the renamed data with the participation's rate |
| FirstRound.ScaleAndScore | scripts/1er_tour_municipales_2020.py:55-62 | the shares in percent; an exception exactly when some bureau has no share; otherwise returns the share columns, and the data is the scaled data plus `Score_majoritaire`, each bureau's highest share |
| FirstRound.Prepare | scripts/1er_tour_municipales_2020.py:42-62 | definition of the prepared table or its exception; specified by `FirstRound.PrepareFails`, `FirstRound.PrepareRaises`, `FirstRound.PrepareShape`, `FirstRound.PrepareScores` and `FirstRound.PreparedTop3` |
| FirstRound.PrepareResults | scripts/1er_tour_municipales_2020.py:42-62 | returns the error of `Prepare` on the input frame, or its share columns; on success the frame holds `Prepare`'s columns and data |
| FirstRound.PrepareFails | scripts/1er_tour_municipales_2020.py:49-52 | KeyError exactly when one of `NUM_ARROND`, `NUM_BUREAU`, `Participation` is not among the renamed columns; no exception but KeyError and TypeError |
| FirstRound.PrepareRaises | scripts/1er_tour_municipales_2020.py:60-61 | with those columns, the preparation raises TypeError exactly when some bureau of the input has no share |
| FirstRound.NoShareSameAt | scripts/1er_tour_municipales_2020.py:55-61 | a bureau has no share after the rename and scaling exactly when it had none before |
| FirstRound.PrepareShape | scripts/1er_tour_municipales_2020.py:42-62 | the prepared table is a frame; `part_cols` are its `Proportion_` columns in order; apart from `Score_majoritaire` it is the shared preparation of the backup script |
| FirstRound.ScoreOfBureau | scripts/1er_tour_municipales_2020.py:60-62 | a bureau with some share has a majority, and its new `Score_majoritaire` cell is the majority's score |
| FirstRound.PrepareScores | scripts/1er_tour_municipales_2020.py:60-63 | every bureau of a prepared table has a majority, and `Score_majoritaire` holds its score |
| FirstRound.PreparedTop3 | scripts/1er_tour_municipales_2020.py:78-87 | on a bureau of the prepared table the top three start with the majority party, whose score is that bureau's `Score_majoritaire` |
| Backup.AbstentionColour | scripts/Sauvegarde_1er_tour_municipales_2020.py:46-52 | definition of the backup's `couleur_abstention`; specified by `Backup.SameAbstentionColour` |
| Backup.SameAbstentionColour | scripts/Sauvegarde_1er_tour_municipales_2020.py:46-52 | the backup colours every rate, missing or not, as the first-round script does |
| Backup.ScaleShareColumns | scripts/Sauvegarde_1er_tour_municipales_2020.py:34-36 | after the loop, every share column is in percent and every other column is unchanged |
| Backup.PrepareResults | scripts/Sauvegarde_1er_tour_municipales_2020.py:28-36 | KeyError exactly when `Participation` is not among the renamed columns; otherwise the columns are the renamed ones plus `Taux_abstention` and the data is the prepared data of `Preparation.PreparedDataSpec` |
| Backup.SamePreparation | scripts/Sauvegarde_1er_tour_municipales_2020.py:28-36 | the first-round table is the backup's prepared table plus `Score_majoritaire` |
| Backup.CandidateScores | scripts/Sauvegarde_1er_tour_municipales_2020.py:78 | definition of the scores list, (display name, share) for each present share in column order; specified by `Backup.Top3Tooltip` and `Backup.Top3PartiesOfCandidates` |
| Backup.Top3Tooltip | scripts/Sauvegarde_1er_tour_municipales_2020.py:77-83 | the tooltip lists the candidate top three under the bureau header |
| Backup.Top3PartiesOfCandidates | scripts/Sauvegarde_1er_tour_municipales_2020.py:78-79 | the party ranking is the candidate ranking with each name reduced to its party label |
| SecondRound.FirstSubstringMatch | scripts/process_second_tour.py:14-16 | no match exactly when the name contains no key; a match is the party of a key the name contains |
| SecondRound.FirstSubstringMatchAt | scripts/process_second_tour.py:14-16 | the match is the party of the first key, in table order, that the name contains |
| SecondRound.PartyHeuristics | scripts/process_second_tour.py:19-25 | the heuristics give one of the five labels or "Sans étiquette" |
| SecondRound.GetParty | scripts/process_second_tour.py:5-25 | the party is a party of the table or one of the fixed labels |
| SecondRound.GetPartyExact | scripts/process_second_tour.py:10-11 | a name that is a key gets its own entry's party, before any substring match |
| SecondRound.GetPartyFirstSubstring | scripts/process_second_tour.py:13-16 | a name that is not a key gets the party of the first key it contains |
| SecondRound.GetPartyByHeuristics | scripts/process_second_tour.py:18-25 | a name containing no key: EELV, then LREM, LR, PS, LFI, in that order, else "Sans étiquette" |
| SecondRound.LremBeforeLr | scripts/process_second_tour.py:20-21 | an LREM name also contains "LR", and still gets LREM because that test comes first |
| SecondRound.GetPartyFromTable | scripts/process_second_tour.py:33 | a candidate of the loaded table gets the party of its last row |
| SecondRound.CandidateColumns | scripts/process_second_tour.py:51 | the candidate columns are exactly the columns starting with `M.` or `Mme` |
| SecondRound.CandidateColumnsAppend | scripts/process_second_tour.py:51 | one more column adds itself at the end when it is a candidate column: the candidate columns keep frame order |
| SecondRound.Filed | scripts/process_second_tour.py:53-55 | each candidate's votes are filed under that candidate's party, in column order |
| SecondRound.FiledTotal | scripts/process_second_tour.py:53-59 | filing keeps the total of the votes |
| SecondRound.PartyVotes | scripts/process_second_tour.py:52-59 | definition of the per-party vote totals; specified by `SecondRound.PartyVotesSpec` |
| SecondRound.PartyVotesSpec | scripts/process_second_tour.py:52-59 | one entry per party that some candidate was filed under, holding the sum of that party's votes; the entries add up to all candidate votes |
| SecondRound.AggregatePartyVotes | scripts/process_second_tour.py:51-59 | the loop builds the per-party totals of the candidate columns |
| SecondRound.PartyShares | scripts/process_second_tour.py:61-62 | one `Proportion_<party>` column per party; missing when no vote was expressed, else share × expressed = votes |
| SecondRound.PartySharesSum | scripts/process_second_tour.py:61-62 | the party shares add up to the candidate votes over the expressed votes |
| SecondRound.ShareColumnNamesParty | scripts/process_second_tour.py:62 | the share column gives back its party name when the prefix is removed |
| SecondRound.BureauNumber | scripts/process_second_tour.py:48 | a non-text identifier passes through; text without a dash raises IndexError; when the text after the first dash is an integer the result is that integer, and otherwise ValueError |
| SecondRound.BureauNumberOfKey | scripts/process_second_tour.py:48 | the bureau number of an `arrondissement-bureau` key is the bureau |
| SecondRound.Arrondissement | scripts/process_second_tour.py:44 | IndexError exactly when the file name lacks "Ardt_"; when the text after it up to the next "_" is an integer the result is that integer, and otherwise ValueError |
| SecondRound.ArrondissementOfName | scripts/process_second_tour.py:44-45 | a file named `…Ardt_<n>_…` gives arrondissement `n` |
| PartyMapping.MappingParty | scripts/create_party_mapping.py:17 | the party holds no parenthesis, starts the text after the first `(`, and runs to the first `)` after it or to the end |
| PartyMapping.CreatePartyMapping | scripts/create_party_mapping.py:9-20 | the loop builds the table of the share columns, in column order |
| PartyMapping.MappingAfter | scripts/create_party_mapping.py:12-18 | definition of the table the loop builds; specified by `PartyMapping.MappingAfterSpec` and `PartyMapping.CreatePartyMapping` |
| PartyMapping.MappingAfterSpec | scripts/create_party_mapping.py:12-18 | one entry per distinct candidate name having both parentheses, holding the party cut out of it; other names have none |
| PartyMapping.MappingAfterKeys | scripts/create_party_mapping.py:12-18 | the table's keys, in insertion order, are the candidate names having both parentheses, each once, at its first column |
| PartyMapping.MappingPartyExample | scripts/create_party_mapping.py:15 | "NOM Prénom (Parti)" gives the party "Parti" |
| PartyMapping.MappingPartyOfSingleGroup | scripts/create_party_mapping.py:17 | with a single `(` and a `)` after it, the party is the text between them |
| PartyMapping.MappingAgreesWithExtraction | scripts/create_party_mapping.py:17 | on such names, without a newline inside the group, the table agrees with the first round's label |
| PartyMapping.MappingDiffersWithoutClosingParen | scripts/create_party_mapping.py:16-17 | when the only `(` has no `)` after it, the party cut out is the text after the `(`; the table files the name under it only if a `)` comes before the `(`, while the first round's regular expression finds no group |

## Left out

- Reading and writing files is not modelled. This covers `read_excel`, `read_csv`, `read_file`,
  `to_excel`, `to_csv` and `glob`. Their results are parameters: the frame, the column list,
  the table pairs, the file name.
- The geometry join (`merge`, `set_geometry`) is not modelled, nor the Folium map layers, legends
  and HTML output. They are rendering, not computation.
- The `:.1f` number formatting is not modelled; it is the parameter `fmt` of the tooltip
  members. The `_str` columns (`1er_tour_municipales_2020.py:66-67`) are left out, because they
  are only formatting.
- The datetime-to-text conversion (`1er_tour_municipales_2020.py:45-46`) is left out. The frame
  model holds numeric cells only.
- Frames.Frame: holds numeric or missing cells only. The text columns (`id_bv`,
  `Parti_majoritaire`, `Couleur`, the tooltips, `NUM_BUREAU` as written) are per-row functions,
  not stored columns.
- FirstRound.MajorityOf: gives `None` for a bureau whose shares are all missing, where the
  script raises (`1er_tour_municipales_2020.py:60-61`). `FirstRound.PrepareResults` turns such a
  bureau into `Err(TypeError)`. The kind of exception is not told apart: depending on the
  pandas version `idxmax` itself may raise `ValueError` first, as it does when there is no share
  column at all; the model reports `TypeError` in each case.
- FirstRound.PrepareResults: on an exception the script stops and the frame is lost. The model
  states nothing about the frame after an `Err`.
- FirstRound.Prepare: the `id_bv` column (`1er_tour_municipales_2020.py:49`) is not stored,
  since frames hold no text. Only its KeyError, for a missing `NUM_ARROND` or `NUM_BUREAU`, is
  modelled; `FirstRound.BureauKey` models its value.
- FirstRound.BureauKey: models the key from integer bureau numbers. The `astype(str)` of a
  float column (`12.0`) is not modelled.
- SecondRound.BureauNumber: is modelled per identifier. The column writes at
  `process_second_tour.py:45`, `:48` and `:62` are left out, as is the frame-wide broadcasting.
- SecondRound.AggregatePartyVotes: works per bureau on integer votes. The aliasing of
  `party_votes[party] = df[col]` followed by `+=` (`process_second_tour.py:57-59`), which
  writes into the frame's own column, is not modelled.
- The loop over the files and `pd.concat` (`process_second_tour.py:39-67`) are not modelled.
  Each file is processed independently.
- SecondRound.PartyShares: a zero expressed count gives `None` where pandas gives `inf` or NaN.
- Strings.ParseInt: handles ASCII whitespace, a sign and ASCII digits. Underscores between
  digits and non-ASCII digits, which Python's `int()` also accepts, are not modelled.
- Preparation.RenameColumns: requires the renamed column names to be distinct. pandas would keep
  duplicate labels, which the map-based frame cannot represent.
- SecondRound.ArrondissementOfName: requires that no `A` comes before the `Ardt_` marker.
  Other file names are covered by `SecondRound.Arrondissement`, whose contract gives the result
  for every name.
- The backup script reads `row.get('Taux_abstention', 0)` while rendering
  (`Sauvegarde_1er_tour_municipales_2020.py:61-64`). This is part of the rendering, which is not
  modelled.
- Frames hold exact reals. Floating-point rounding, and comparisons between values that
  differ only by it, are not modelled.
- `scripts/.py`, the scrapers and the other script copies are not part of this model.
  `scripts/config.py` enters only as its two colour tables.
