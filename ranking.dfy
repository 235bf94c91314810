/** Ranking a bureau's scores: Python's `sorted(scores, key=lambda x: x[1], reverse=True)[:3]`
    (a stable sort, so equal scores keep their order) and the tooltip built from the result. */
module Ranking {
  import opened Wrappers

  /** A name (party or candidate) with its score, in percent. */
  datatype Entry = Entry(name: string, score: real)

  /** Index of the first entry holding the highest score. */
  function FirstMaxIndex(xs: seq<Entry>): (k: nat)
    requires |xs| > 0
    ensures k < |xs|
    ensures forall i :: 0 <= i < |xs| ==> xs[i].score <= xs[k].score
    ensures forall i :: 0 <= i < k ==> xs[i].score < xs[k].score
  {
    if |xs| == 1 then 0
    else
      var k := FirstMaxIndex(xs[1..]);
      assert forall i :: 1 <= i < |xs| ==> xs[i] == xs[1..][i - 1];
      if xs[0].score >= xs[k + 1].score then 0 else k + 1
  }

  /** The first highest entry after putting one entry in front. */
  lemma FirstMaxIndexCons(head: Entry, rest: seq<Entry>)
    ensures (rest == [] || head.score >= rest[FirstMaxIndex(rest)].score) ==>
      FirstMaxIndex([head] + rest) == 0 && ([head] + rest)[0] == head
    ensures (rest != [] && head.score < rest[FirstMaxIndex(rest)].score) ==>
      FirstMaxIndex([head] + rest) == FirstMaxIndex(rest) + 1 &&
      ([head] + rest)[FirstMaxIndex([head] + rest)] == rest[FirstMaxIndex(rest)]
  {
    assert ([head] + rest)[1..] == rest;
  }

  function RemoveAt(xs: seq<Entry>, k: nat): (r: seq<Entry>)
    requires k < |xs|
    ensures |r| == |xs| - 1
    ensures multiset(r) + multiset{xs[k]} == multiset(xs)
  {
    assert xs == xs[..k] + [xs[k]] + xs[k + 1..];
    xs[..k] + xs[k + 1..]
  }

  /** The entries by non-increasing score, equal scores in their original order: take the
      first highest entry, then rank the rest. */
  function SortDesc(xs: seq<Entry>): (r: seq<Entry>)
    ensures multiset(r) == multiset(xs)
    ensures |r| == |xs|
    decreases |xs|
  {
    if xs == [] then []
    else
      var k := FirstMaxIndex(xs);
      [xs[k]] + SortDesc(RemoveAt(xs, k))
  }

  ghost predicate NonIncreasing(r: seq<Entry>) {
    forall i, j :: 0 <= i < j < |r| ==> r[i].score >= r[j].score
  }

  /** The ranking is ordered by score. */
  lemma {:induction false} SortDescOrdered(xs: seq<Entry>)
    ensures NonIncreasing(SortDesc(xs))
    decreases |xs|
  {
    if xs != [] {
      var k := FirstMaxIndex(xs);
      var sorted := SortDesc(RemoveAt(xs, k));
      SortDescOrdered(RemoveAt(xs, k));
      forall i | 0 <= i < |sorted| ensures sorted[i].score <= xs[k].score {
        assert sorted[i] in multiset(sorted);
        assert sorted[i] in multiset(xs);
      }
      ConsNonIncreasing(xs[k], sorted);
    }
  }

  /** An entry scoring at least as much as every entry of a ranking can go in front of it. */
  lemma ConsNonIncreasing(x: Entry, r: seq<Entry>)
    requires NonIncreasing(r) && forall i :: 0 <= i < |r| ==> r[i].score <= x.score
    ensures NonIncreasing([x] + r)
  {
    assert forall i :: 1 <= i < |[x] + r| ==> ([x] + r)[i] == r[i - 1];
  }

  /** The entries with a given score, in order. */
  function WithScore(xs: seq<Entry>, v: real): seq<Entry>
  {
    if xs == [] then []
    else (if xs[0].score == v then [xs[0]] else []) + WithScore(xs[1..], v)
  }

  lemma {:induction false} WithScoreAppend(a: seq<Entry>, b: seq<Entry>, v: real)
    ensures WithScore(a + b, v) == WithScore(a, v) + WithScore(b, v)
  {
    if a == [] {
      assert a + b == b;
    } else {
      var h := if a[0].score == v then [a[0]] else [];
      assert (a + b)[1..] == a[1..] + b;
      assert WithScore(a + b, v) == h + WithScore(a[1..] + b, v);
      WithScoreAppend(a[1..], b, v);
    }
  }

  lemma {:induction false} WithScoreNone(xs: seq<Entry>, v: real)
    requires forall i :: 0 <= i < |xs| ==> xs[i].score != v
    ensures WithScore(xs, v) == []
  {
    if xs != [] {
      WithScoreNone(xs[1..], v);
    }
  }

  /** Helper for SortDescStable: moving an entry in front of entries that do not share its
      score keeps every score's entries in order. */
  lemma StableStep(left: seq<Entry>, e: Entry, right: seq<Entry>, ranked: seq<Entry>, v: real)
    requires WithScore(ranked, v) == WithScore(left + right, v)
    requires e.score == v ==> WithScore(left, v) == []
    ensures WithScore([e] + ranked, v) == WithScore(left + ([e] + right), v)
  {
    WithScoreAppend([e], ranked, v);
    WithScoreAppend(left, right, v);
    WithScoreAppend(left, [e] + right, v);
    WithScoreAppend([e], right, v);
    assert WithScore([e], v) == if e.score == v then [e] else [];
  }

  /** Ranking a non-empty sequence puts its first highest entry in front of the ranked rest. */
  lemma SortDescFront(xs: seq<Entry>)
    requires xs != []
    ensures SortDesc(xs) == [xs[FirstMaxIndex(xs)]] + SortDesc(RemoveAt(xs, FirstMaxIndex(xs)))
  {
  }

  /** No entry before the first highest one shares its score. */
  lemma BeforeFirstMax(xs: seq<Entry>, v: real)
    requires xs != [] && xs[FirstMaxIndex(xs)].score == v
    ensures WithScore(xs[..FirstMaxIndex(xs)], v) == []
  {
    var left := xs[..FirstMaxIndex(xs)];
    assert forall i :: 0 <= i < |left| ==> left[i].score != v;
    WithScoreNone(left, v);
  }

  lemma SplitAround(xs: seq<Entry>, k: nat)
    requires k < |xs|
    ensures xs == xs[..k] + ([xs[k]] + xs[k + 1..])
  {
    assert xs[..k] + ([xs[k]] + xs[k + 1..]) == xs[..k] + xs[k..];
  }

  /** The ranking is stable: for every score, the entries holding it appear in the same
      order as in the input. */
  lemma {:induction false} SortDescStable(xs: seq<Entry>, v: real)
    ensures WithScore(SortDesc(xs), v) == WithScore(xs, v)
    decreases |xs|
  {
    if xs != [] {
      var k := FirstMaxIndex(xs);
      var e, left, right := xs[k], xs[..k], xs[k + 1..];
      var rest := RemoveAt(xs, k);
      assert rest == left + right;
      SortDescStable(rest, v);
      if e.score == v {
        BeforeFirstMax(xs, v);
      }
      StableStep(left, e, right, SortDesc(rest), v);
      SortDescFront(xs);
      SplitAround(xs, k);
    }
  }

  /** `[(labelOf(col), row[col]) for col in part_cols if notna(row[col])]`: the defined shares
      of a bureau, in column order, each under the label its column name gives. */
  function Scores(row: seq<(string, Option<real>)>, labelOf: string -> string): (es: seq<Entry>)
    ensures |es| <= |row|
    ensures es == [] <==> forall i :: 0 <= i < |row| ==> row[i].1.None?
  {
    if row == [] then []
    else
      var rest := Scores(row[1..], labelOf);
      assert forall i :: 1 <= i < |row| ==> row[i] == row[1..][i - 1];
      match row[0].1
      case None => rest
      case Some(v) => [Entry(labelOf(row[0].0), v)] + rest
  }

  /** Entry `e` is a defined share of the row under its column's label. */
  ghost predicate FromRow(row: seq<(string, Option<real>)>, labelOf: string -> string, e: Entry) {
    exists i :: 0 <= i < |row| && row[i].1 == Some(e.score) && labelOf(row[i].0) == e.name
  }

  lemma FromRowTail(row: seq<(string, Option<real>)>, labelOf: string -> string, e: Entry)
    requires row != [] && FromRow(row[1..], labelOf, e)
    ensures FromRow(row, labelOf, e)
  {
    var i :| 0 <= i < |row[1..]| && row[1..][i].1 == Some(e.score) && labelOf(row[1..][i].0) == e.name;
    assert row[i + 1] == row[1..][i];
  }

  /** Every entry is a defined share of the row under its column's label. */
  lemma {:induction false} ScoresFromRow(row: seq<(string, Option<real>)>, labelOf: string -> string)
    ensures forall j :: 0 <= j < |Scores(row, labelOf)| ==> FromRow(row, labelOf, Scores(row, labelOf)[j])
  {
    if row != [] {
      ScoresFromRow(row[1..], labelOf);
      var es, rest := Scores(row, labelOf), Scores(row[1..], labelOf);
      var front := if row[0].1.Some? then [Entry(labelOf(row[0].0), row[0].1.value)] else [];
      assert es == front + rest;
      forall j | 0 <= j < |es| ensures FromRow(row, labelOf, es[j]) {
        if j < |front| {
          assert row[0].1 == Some(es[0].score);
        } else {
          assert es[j] == rest[j - |front|];
          FromRowTail(row, labelOf, es[j]);
        }
      }
    }
  }

  /** The entries of two runs of columns are the entries of the first run followed by
      those of the second: the comprehension keeps column order. */
  lemma {:induction false} ScoresAppend(a: seq<(string, Option<real>)>, b: seq<(string, Option<real>)>, labelOf: string -> string)
    ensures Scores(a + b, labelOf) == Scores(a, labelOf) + Scores(b, labelOf)
    decreases |a|
  {
    if a == [] {
      assert a + b == b;
    } else {
      assert (a + b)[1..] == a[1..] + b;
      ScoresAppend(a[1..], b, labelOf);
    }
  }

  /** One more column adds its labelled share at the end when the share is present, and
      nothing when it is missing. */
  lemma ScoresSnoc(row: seq<(string, Option<real>)>, col: string, cell: Option<real>, labelOf: string -> string)
    ensures cell.None? ==> Scores(row + [(col, cell)], labelOf) == Scores(row, labelOf)
    ensures cell.Some? ==> Scores(row + [(col, cell)], labelOf) == Scores(row, labelOf) + [Entry(labelOf(col), cell.value)]
  {
    ScoresAppend(row, [(col, cell)], labelOf);
    assert [(col, cell)][1..] == [];
  }

  /** Every present share of the row is listed under its column's label. */
  lemma {:induction false} ScoresListsEveryShare(row: seq<(string, Option<real>)>, labelOf: string -> string)
    ensures forall i :: 0 <= i < |row| && row[i].1.Some? ==>
      Entry(labelOf(row[i].0), row[i].1.value) in Scores(row, labelOf)
  {
    if row != [] {
      ScoresListsEveryShare(row[1..], labelOf);
      forall i | 1 <= i < |row| && row[i].1.Some?
        ensures Entry(labelOf(row[i].0), row[i].1.value) in Scores(row, labelOf)
      {
        assert row[i] == row[1..][i - 1];
      }
    }
  }

  /** `sorted(xs, key=score, reverse=True)[:3]`: the three best entries, best first. */
  function Top3(xs: seq<Entry>): (r: seq<Entry>)
    ensures |r| == if |xs| < 3 then |xs| else 3
    ensures NonIncreasing(r)
  {
    SortDescOrdered(xs);
    SortDesc(xs)[..if |xs| < 3 then |xs| else 3]
  }

  /** Every entry left out of the top 3 scores no more than the last one kept, and every
      entry kept comes from the input. */
  lemma Top3Best(xs: seq<Entry>)
    ensures multiset(Top3(xs)) <= multiset(xs)
    ensures forall e :: e in multiset(xs) - multiset(Top3(xs)) ==> e.score <= Top3(xs)[|Top3(xs)| - 1].score
  {
    var sorted := SortDesc(xs);
    var top := Top3(xs);
    var n := |top|;
    SortDescOrdered(xs);
    assert sorted == top + sorted[n..];
    assert multiset(xs) == multiset(top) + multiset(sorted[n..]);
    forall e | e in multiset(xs) - multiset(top) ensures e.score <= top[n - 1].score {
      assert e in multiset(sorted[n..]);
      var j :| 0 <= j < |sorted[n..]| && sorted[n..][j] == e;
      assert sorted[n + j] == e;
    }
  }

  /** The top-3 ranking keeps, for every score, the earliest entries holding it. */
  lemma Top3Stable(xs: seq<Entry>, v: real)
    ensures WithScore(Top3(xs), v) <= WithScore(xs, v)
  {
    var sorted := SortDesc(xs);
    var n := |Top3(xs)|;
    assert sorted == Top3(xs) + sorted[n..];
    WithScoreAppend(Top3(xs), sorted[n..], v);
    SortDescStable(xs, v);
  }

  /** Read on a bureau's row: each present share is in the top three, or scores no more
      than the third. */
  lemma Top3OfRow(row: seq<(string, Option<real>)>, labelOf: string -> string, i: nat)
    requires i < |row| && row[i].1.Some?
    ensures Top3(Scores(row, labelOf)) != []
    ensures var top, e := Top3(Scores(row, labelOf)), Entry(labelOf(row[i].0), row[i].1.value);
      e in top || e.score <= top[|top| - 1].score
  {
    var xs, e := Scores(row, labelOf), Entry(labelOf(row[i].0), row[i].1.value);
    ScoresListsEveryShare(row, labelOf);
    assert e in xs;
    Top3Best(xs);
    if e !in Top3(xs) {
      assert e in multiset(xs) - multiset(Top3(xs));
    }
  }

  /** The same entries under other names. */
  function Relabel(es: seq<Entry>, f: string -> string): (r: seq<Entry>)
    ensures |r| == |es| && forall i :: 0 <= i < |es| ==> r[i] == Entry(f(es[i].name), es[i].score)
  {
    seq(|es|, i requires 0 <= i < |es| => Entry(f(es[i].name), es[i].score))
  }

  /** Labelling a row through `g` and then `f` is labelling it through their composition. */
  lemma {:induction false} ScoresRelabel(row: seq<(string, Option<real>)>, g: string -> string, f: string -> string, h: string -> string)
    requires forall c :: h(c) == f(g(c))
    ensures Scores(row, h) == Relabel(Scores(row, g), f)
  {
    if row != [] {
      var rest := Scores(row[1..], g);
      ScoresRelabel(row[1..], g, f, h);
      if row[0].1.Some? {
        var e := Entry(g(row[0].0), row[0].1.value);
        assert Scores(row, g) == [e] + rest;
        RelabelCons(e, rest, f);
      }
    }
  }

  /** Ranking looks at scores only: the first highest entry does not depend on names. */
  lemma {:induction false} FirstMaxIndexRelabel(xs: seq<Entry>, f: string -> string)
    requires xs != []
    ensures FirstMaxIndex(Relabel(xs, f)) == FirstMaxIndex(xs)
  {
    if |xs| > 1 {
      assert Relabel(xs, f)[1..] == Relabel(xs[1..], f);
      FirstMaxIndexRelabel(xs[1..], f);
    }
  }

  /** Renaming the entries and ranking them commute. */
  lemma {:induction false} SortDescRelabel(xs: seq<Entry>, f: string -> string)
    ensures SortDesc(Relabel(xs, f)) == Relabel(SortDesc(xs), f)
    decreases |xs|
  {
    if xs != [] {
      var k := FirstMaxIndex(xs);
      var rest := RemoveAt(xs, k);
      FirstMaxIndexRelabel(xs, f);
      RemoveAtRelabel(xs, k, f);
      SortDescRelabel(rest, f);
      SortDescFront(xs);
      SortDescFront(Relabel(xs, f));
      RelabelCons(xs[k], SortDesc(rest), f);
    }
  }

  lemma RemoveAtRelabel(xs: seq<Entry>, k: nat, f: string -> string)
    requires k < |xs|
    ensures RemoveAt(Relabel(xs, f), k) == Relabel(RemoveAt(xs, k), f)
  {
  }

  lemma RelabelCons(e: Entry, ys: seq<Entry>, f: string -> string)
    ensures Relabel([e] + ys, f) == [Entry(f(e.name), e.score)] + Relabel(ys, f)
  {
  }

  /** The top 3 of renamed entries is the renamed top 3. */
  lemma Top3Relabel(xs: seq<Entry>, f: string -> string)
    ensures Top3(Relabel(xs, f)) == Relabel(Top3(xs), f)
  {
    SortDescRelabel(xs, f);
  }

  /** `f"<b>Bureau :</b> {bureau}<br><hr>"`. */
  function TooltipHeader(bureau: string): string {
    "<b>Bureau :</b> " + bureau + "<br><hr>"
  }

  /** `f"{labelOf} : {score:.1f}%<br>"`, with the number formatting given as `fmt`. */
  function TooltipLine(e: Entry, fmt: real -> string): string {
    e.name + " : " + fmt(e.score) + "%<br>"
  }

  /** One line per entry, in order. */
  function TooltipLines(es: seq<Entry>, fmt: real -> string): string
    decreases |es|
  {
    if es == [] then "" else TooltipLines(es[..|es| - 1], fmt) + TooltipLine(es[|es| - 1], fmt)
  }

  /** The lines of a ranking are the line of its first entry followed by those of the rest. */
  lemma {:induction false} TooltipLinesFront(es: seq<Entry>, fmt: real -> string)
    requires es != []
    ensures TooltipLines(es, fmt) == TooltipLine(es[0], fmt) + TooltipLines(es[1..], fmt)
    decreases |es|
  {
    if |es| > 1 {
      var init := es[..|es| - 1];
      TooltipLinesFront(init, fmt);
      assert init[1..] == es[1..][..|es[1..]| - 1];
      assert es[1..][|es[1..]| - 1] == es[|es| - 1];
    }
  }

  /** `tooltip_html = header; for parti, score in top3: tooltip_html += line`. */
  method BuildTooltip(bureau: string, top: seq<Entry>, fmt: real -> string) returns (html: string)
    ensures html == TooltipHeader(bureau) + TooltipLines(top, fmt)
  {
    html := TooltipHeader(bureau);
    for i := 0 to |top|
      invariant html == TooltipHeader(bureau) + TooltipLines(top[..i], fmt)
    {
      assert top[..i + 1][..i] == top[..i];
      html := html + TooltipLine(top[i], fmt);
    }
    assert top[..|top|] == top;
  }
}
