/** The table builder of scripts/create_party_mapping.py: from the first round's
    "Proportion_" column names, a candidate-name-to-party table, the party being cut out of
    the name by splitting on "(" and ")". */
module PartyMapping {
  import opened Wrappers
  import opened Strings
  import opened Dicts
  import opened Preparation
  import FirstRound

  /** `"(" in name and ")" in name`: the names that get an entry. */
  predicate HasParens(name: string) {
    Contains(name, "(") && Contains(name, ")")
  }

  /** The party cut out of a name: the text after the first "(" up to the next "(", cut at
      the first ")". */
  function MappingParty(name: string): (party: string)
    requires Contains(name, "(")
    ensures '(' !in party && ')' !in party
    ensures party <= SplitOn(name, "(")[1]
    ensures |party| == |SplitOn(name, "(")[1]| || SplitOn(name, "(")[1][|party|] == ')'
  {
    var afterOpen := SplitOn(name, "(")[1];
    var parts := SplitOn(afterOpen, ")");
    var party := parts[0];
    ContainsChar(afterOpen, '(');
    ContainsChar(party, ')');
    assert forall c :: c in party ==> c in afterOpen;
    assert |parts| >= 2 ==> afterOpen[|party|..][0] == ')';
    party
  }

  /** The table after the loop has seen the given share columns. */
  function MappingAfter(cols: seq<string>): Dict<string>
    decreases |cols|
  {
    if cols == [] then []
    else
      var mapping := MappingAfter(cols[..|cols| - 1]);
      var name := CandidateName(cols[|cols| - 1]);
      if HasParens(name) then Put(mapping, name, MappingParty(name)) else mapping
  }

  /** `create_party_mapping` without the spreadsheet: the loop over the "Proportion_"
      columns in frame order. */
  method CreatePartyMapping(columns: seq<string>) returns (mapping: Dict<string>)
    ensures mapping == MappingAfter(ProportionColumns(columns))
  {
    var cols := ProportionColumns(columns);
    mapping := [];
    for i := 0 to |cols|
      invariant mapping == MappingAfter(cols[..i])
    {
      var name := CandidateName(cols[i]);
      assert cols[..i + 1][..i] == cols[..i];
      if Contains(name, "(") && Contains(name, ")") {
        mapping := Put(mapping, name, MappingParty(name));
      }
    }
    assert cols[..|cols|] == cols;
  }

  /** Some share column carries the candidate name `k`. */
  ghost predicate Named(cols: seq<string>, k: string) {
    exists i :: 0 <= i < |cols| && CandidateName(cols[i]) == k
  }

  lemma NamedInit(cols: seq<string>, k: string)
    requires cols != []
    ensures Named(cols, k) <==> Named(cols[..|cols| - 1], k) || CandidateName(cols[|cols| - 1]) == k
  {
    var init := cols[..|cols| - 1];
    assert forall i :: 0 <= i < |init| ==> init[i] == cols[i];
  }

  /** The table has one entry per distinct name having both parentheses, holding the party
      cut out of that name; every other name is absent. */
  lemma {:induction false} MappingAfterSpec(cols: seq<string>, k: string)
    ensures DistinctKeys(MappingAfter(cols))
    ensures Get(MappingAfter(cols), k) == if Named(cols, k) && HasParens(k) then Some(MappingParty(k)) else None
    decreases |cols|
  {
    if cols != [] {
      var init := cols[..|cols| - 1];
      var name := CandidateName(cols[|cols| - 1]);
      var mapping := MappingAfter(init);
      MappingAfterSpec(init, k);
      NamedInit(cols, k);
      if HasParens(name) {
        PutDistinct(mapping, name, MappingParty(name));
        PutGet(mapping, name, MappingParty(name), k);
      }
    }
  }

  /** The candidate names that get an entry, in column order, repeats included. */
  function FiledNames(cols: seq<string>): (names: seq<string>)
    ensures forall k :: k in names <==> Named(cols, k) && HasParens(k)
    decreases |cols|
  {
    if cols == [] then []
    else
      var init := cols[..|cols| - 1];
      var name := CandidateName(cols[|cols| - 1]);
      assert forall k :: Named(cols, k) <==> Named(init, k) || name == k by {
        forall k ensures Named(cols, k) <==> Named(init, k) || name == k {
          NamedInit(cols, k);
        }
      }
      FiledNames(init) + if HasParens(name) then [name] else []
  }

  /** Each name once, at the place where it first occurs. */
  function FirstOccurrences(names: seq<string>): (r: seq<string>)
    ensures forall k :: k in r <==> k in names
    decreases |names|
  {
    if names == [] then []
    else
      var init := FirstOccurrences(names[..|names| - 1]);
      var last := names[|names| - 1];
      assert forall k :: k in names <==> k in names[..|names| - 1] || k == last by {
        assert names == names[..|names| - 1] + [last];
      }
      if last in init then init else init + [last]
  }

  /** The table's keys, the order in which `items()` writes them out, are the names that
      get an entry, each at its first column. */
  lemma {:induction false} MappingAfterKeys(cols: seq<string>)
    ensures Keys(MappingAfter(cols)) == FirstOccurrences(FiledNames(cols))
    decreases |cols|
  {
    if cols != [] {
      var init := cols[..|cols| - 1];
      var name := CandidateName(cols[|cols| - 1]);
      MappingAfterKeys(init);
      if HasParens(name) {
        var names := FiledNames(init) + [name];
        assert FiledNames(cols) == names;
        assert names[..|names| - 1] == FiledNames(init);
        assert FirstOccurrences(names) == if name in FirstOccurrences(FiledNames(init))
          then FirstOccurrences(FiledNames(init)) else FirstOccurrences(FiledNames(init)) + [name];
        PutKeys(MappingAfter(init), name, MappingParty(name));
      } else {
        assert FiledNames(cols) == FiledNames(init);
      }
    }
  }

  /** "NOM Prénom (Parti)" is filed under "Parti". */
  lemma MappingPartyExample()
    ensures Contains("NOM Prénom (Parti)", "(")
    ensures MappingParty("NOM Prénom (Parti)") == "Parti"
  {
    var pre, mid := "NOM Prénom ", "Parti";
    assert "NOM Prénom (Parti)" == pre + "(" + mid + ")" + "";
    MappingPartyOfSingleGroup(pre, mid, "");
  }

  /** For a name with a single "(" and a ")" after it, the party is the text between them. */
  lemma MappingPartyOfSingleGroup(pre: string, mid: string, post: string)
    requires '(' !in pre && '(' !in mid && ')' !in mid && '(' !in post
    ensures Contains(pre + "(" + mid + ")" + post, "(")
    ensures MappingParty(pre + "(" + mid + ")" + post) == mid
  {
    var name := pre + "(" + mid + ")" + post;
    var after := mid + ")" + post;
    assert Contains(name, "(") && SplitOn(name, "(")[1] == after by {
      assert name == pre + "(" + after;
      SplitOnAfter(pre, "(", after);
      assert '(' !in after;
      ContainsChar(after, '(');
      SplitOnAbsent(after, "(");
    }
    assert SplitOn(after, ")")[0] == mid by {
      SplitOnAfter(mid, ")", post);
    }
  }

  /** On such names the table's party is the one the first-round script extracts, provided
      no newline lies between the parentheses. */
  lemma MappingAgreesWithExtraction(pre: string, mid: string, post: string)
    requires '(' !in pre && '(' !in mid && ')' !in mid && '(' !in post && '\n' !in mid
    ensures Contains(pre + "(" + mid + ")" + post, "(")
    ensures MappingParty(pre + "(" + mid + ")" + post) == FirstRound.ExtractParty(pre + "(" + mid + ")" + post)
  {
    var name := pre + "(" + mid + ")" + post;
    assert Contains(name, "(") && MappingParty(name) == mid by {
      MappingPartyOfSingleGroup(pre, mid, post);
    }
    assert FirstRound.ExtractParty(name) == mid by {
      GroupPositions(pre, mid, post);
      FirstRound.ExtractPartyBetweenParens(name, |pre|, |pre| + |mid| + 1);
    }
  }

  /** Where the pieces of `pre + "(" + mid + ")" + post` lie. */
  lemma GroupPositions(pre: string, mid: string, post: string)
    ensures var name, i, j := pre + "(" + mid + ")" + post, |pre|, |pre| + |mid| + 1;
      && j < |name| && name[..i] == pre && name[i] == '(' && name[j] == ')'
      && name[i + 1..j] == mid
      && (forall k :: i < k < j ==> name[k] == mid[k - i - 1])
  {
    var name, i, j := pre + "(" + mid + ")" + post, |pre|, |pre| + |mid| + 1;
    assert forall k :: i < k < j ==> name[k] == mid[k - i - 1];
    assert name[i + 1..j] == mid;
  }

  /** The two extractions part ways when the only "(" has no ")" after it: the split yields
      the text after the "(", which the table files the name under when a ")" comes before
      the "(", while the first-round script finds no group. */
  lemma MappingDiffersWithoutClosingParen(pre: string, post: string, cols: seq<string>)
    requires '(' !in pre && '(' !in post && ')' !in post
    ensures Contains(pre + "(" + post, "(")
    ensures MappingParty(pre + "(" + post) == post
    ensures Named(cols, pre + "(" + post) ==>
      Get(MappingAfter(cols), pre + "(" + post) == if ')' in pre then Some(post) else None
    ensures FirstRound.ParenGroup(pre + "(" + post).None?
  {
    var name := pre + "(" + post;
    MappingAfterSpec(cols, name);
    ContainsChar(name, ')');
    assert name[|pre|..|pre| + 1] == "(";
    OccursContains(name, "(", |pre|);
    SplitOnAfter(pre, "(", post);
    ContainsChar(post, '(');
    SplitOnAbsent(post, "(");
    ContainsChar(post, ')');
    SplitOnAbsent(post, ")");
    assert forall a :: 0 <= a < |pre| ==> name[a] == pre[a];
    assert forall b :: |pre| < b < |name| ==> name[b] == post[b - |pre| - 1];
    FirstRound.ParenGroupNoClosing(name);
  }
}
