/** Comma separated lists: `split_csv` of the daemon's reader and `JoinCsv` of webd's writer. */
module Csv {
  import opened Text

  /** Empty items are dropped. */
  function Kept(item: string): seq<string> {
    if item == "" then [] else [item]
  }

  /** What is left of the text after its first item and comma. */
  function AfterComma(csv: string): (rest: string)
    ensures csv != "" ==> |rest| < |csv|
  {
    var i := IndexOf(csv, ',');
    if i == |csv| then "" else csv[i + 1..]
  }

  function SplitCsv(csv: string): (items: seq<string>)
    decreases |csv|
  {
    if csv == "" then []
    else
      var i := IndexOf(csv, ',');
      var item := Trim(csv[..i]);
      Kept(item) + SplitCsv(AfterComma(csv))
  }

  lemma SplitStep(result: seq<string>, remaining: string)
    requires remaining != ""
    ensures var kept := Kept(Trim(remaining[..IndexOf(remaining, ',')]));
            result + SplitCsv(remaining) == (result + kept) + SplitCsv(AfterComma(remaining))
  {
    var kept := Kept(Trim(remaining[..IndexOf(remaining, ',')]));
    var rest := SplitCsv(AfterComma(remaining));
    assert result + (kept + rest) == (result + kept) + rest;
  }

  method SplitCsvLoop(csv: string) returns (result: seq<string>)
    ensures result == SplitCsv(csv)
  {
    result := [];
    var remaining := csv;
    while remaining != ""
      invariant SplitCsv(csv) == result + SplitCsv(remaining)
      decreases |remaining|
    {
      var pos := IndexOf(remaining, ',');
      var cleaned := Trim(remaining[..pos]);
      SplitStep(result, remaining);
      assert result + [] == result;
      if cleaned != "" {
        result := result + [cleaned];
      }
      if pos == |remaining| {
        break;
      }
      remaining := remaining[pos + 1..];
    }
  }

  function JoinCsv(items: seq<string>): string {
    if items == [] then ""
    else if |items| == 1 then items[0]
    else JoinCsv(items[..|items| - 1]) + "," + items[|items| - 1]
  }

  method JoinCsvLoop(items: seq<string>) returns (out: string)
    ensures out == JoinCsv(items)
  {
    out := "";
    for i := 0 to |items|
      invariant out == JoinCsv(items[..i])
    {
      assert items[..i + 1][..i] == items[..i];
      if i > 0 {
        out := out + ",";
      }
      out := out + items[i];
    }
    assert items[..|items|] == items;
  }

  lemma JoinCsvSnoc(init: seq<string>, last: string)
    requires init != []
    ensures JoinCsv(init + [last]) == JoinCsv(init) + "," + last
  {
    assert (init + [last])[..|init|] == init;
  }

  lemma {:induction false} JoinCsvCons(first: string, rest: seq<string>)
    requires rest != []
    ensures JoinCsv([first] + rest) == first + "," + JoinCsv(rest)
  {
    var n := |rest| - 1;
    var init, last := rest[..n], rest[n];
    assert rest == init + [last] && [first] + rest == ([first] + init) + [last];
    JoinCsvSnoc([first] + init, last);
    if n > 0 {
      JoinCsvCons(first, init);
      JoinCsvSnoc(init, last);
    } else {
      assert [first] + init == [first];
    }
  }

  /** Items that survive the comma separated form. */
  predicate PlainItem(item: string) {
    item != "" && Trimmed(item) && ',' !in item
  }

  predicate PlainItems(items: seq<string>) {
    forall i | 0 <= i < |items| :: PlainItem(items[i])
  }

  lemma {:induction false} SplitItemsArePlain(csv: string)
    ensures PlainItems(SplitCsv(csv))
    decreases |csv|
  {
    if csv != "" {
      var i := IndexOf(csv, ',');
      var item := Trim(csv[..i]);
      var l, r := TrimSplit(csv[..i]);
      if ',' in item {
        TrimKeepsChars(csv[..i], ',');
      }
      SplitItemsArePlain(AfterComma(csv));
    }
  }

  lemma {:induction false} SplitOfJoin(items: seq<string>)
    requires PlainItems(items)
    ensures SplitCsv(JoinCsv(items)) == items
  {
    if items != [] {
      var first := items[0];
      TrimFixed(first);
      var joined := JoinCsv(items);
      if |items| == 1 {
        IndexOfIs(joined, ',', |joined|);
        assert joined[..|joined|] == first;
      } else {
        JoinCsvCons(first, items[1..]);
        assert items == [first] + items[1..];
        IndexOfIs(joined, ',', |first|);
        assert joined[..|first|] == first && AfterComma(joined) == JoinCsv(items[1..]);
        SplitOfJoin(items[1..]);
        assert [first] + items[1..] == items;
      }
    }
  }

  /** The items without their outer blanks, and without those that are blank. */
  ghost function Cleaned(items: seq<string>): seq<string> {
    if items == [] then [] else (if AllBlank(items[0]) then [] else [Trim(items[0])]) + Cleaned(items[1..])
  }

  ghost predicate CommaFree(items: seq<string>) {
    forall i | 0 <= i < |items| :: ',' !in items[i]
  }

  /** Items between commas are read with their blanks taken off, and blank ones are dropped. */
  lemma {:induction false} ItemsAreRead(items: seq<string>)
    requires CommaFree(items)
    ensures SplitCsv(JoinCsv(items)) == Cleaned(items)
    decreases |items|
  {
    hide Trim;
    if items != [] {
      var first, rest, joined := items[0], items[1..], JoinCsv(items);
      TrimIsEmpty(first);
      assert ',' !in first;
      if rest == [] {
        IndexOfIs(first, ',', |first|);
        assert first[..|first|] == first && joined == first;
        assert AfterComma(first) == "" && SplitCsv("") == [];
      } else {
        assert items == [first] + rest;
        JoinCsvCons(first, rest);
        IndexOfIs(joined, ',', |first|);
        assert joined[..|first|] == first && AfterComma(joined) == JoinCsv(rest);
        ItemsAreRead(rest);
      }
    }
  }

  /** A list survives being joined and split exactly when every item is plain. */
  lemma CsvRoundTrip(items: seq<string>)
    ensures SplitCsv(JoinCsv(items)) == items <==> PlainItems(items)
  {
    if PlainItems(items) {
      SplitOfJoin(items);
    } else {
      SplitItemsArePlain(JoinCsv(items));
    }
  }

  lemma JoinOfPlainItems(items: seq<string>)
    requires PlainItems(items)
    ensures Trimmed(JoinCsv(items)) && (items != [] ==> JoinCsv(items) != "")
    ensures items != [] ==> items[0] != "" && JoinCsv(items)[0] == items[0][0]
  {
    if |items| >= 2 {
      JoinOfPlainItems(items[..|items| - 1]);
      assert items[..|items| - 1][0] == items[0];
      assert PlainItem(items[|items| - 1]);
    } else if |items| == 1 {
      assert PlainItem(items[0]);
    }
  }

  /** A character that makes a list non-empty: neither a comma nor a blank. */
  predicate Substance(c: char) {
    c != ',' && !IsBlank(c)
  }

  predicate HasSubstance(s: string) {
    exists i | 0 <= i < |s| :: Substance(s[i])
  }

  lemma FirstItemIsKept(item: string)
    requires ',' !in item
    ensures Kept(Trim(item)) != [] <==> HasSubstance(item)
  {
    TrimIsEmpty(item);
  }

  lemma SubstanceAfterComma(csv: string)
    ensures HasSubstance(csv) <==> HasSubstance(csv[..IndexOf(csv, ',')]) || HasSubstance(AfterComma(csv))
  {
    var i := IndexOf(csv, ',');
    if i == |csv| {
      assert csv[..i] == csv;
    } else {
      assert csv == csv[..i] + "," + csv[i + 1..];
      SubstanceOfConcat(csv[..i] + ",", csv[i + 1..]);
      SubstanceOfConcat(csv[..i], ",");
    }
  }

  lemma {:induction false} SplitIsEmpty(csv: string)
    ensures SplitCsv(csv) != [] <==> HasSubstance(csv)
    decreases |csv|
  {
    if csv != "" {
      FirstItemIsKept(csv[..IndexOf(csv, ',')]);
      SubstanceAfterComma(csv);
      SplitIsEmpty(AfterComma(csv));
    }
  }

  lemma TrimIsEmpty(s: string)
    ensures Trim(s) == "" <==> AllBlank(s)
  {
    var l, r := TrimSplit(s);
    if Trim(s) != "" {
      assert Trim(s)[0] in s;
    }
  }

  lemma {:induction false} SubstanceOfJoin(items: seq<string>)
    ensures HasSubstance(JoinCsv(items)) <==> exists i | 0 <= i < |items| :: HasSubstance(items[i])
  {
    if |items| >= 2 {
      var n := |items| - 1;
      SubstanceOfJoin(items[..n]);
      SubstanceOfConcat(JoinCsv(items[..n]) + ",", items[n]);
      SubstanceOfConcat(JoinCsv(items[..n]), ",");
      if i :| 0 <= i < n && HasSubstance(items[..n][i]) {
        assert items[i] == items[..n][i];
      }
      if i :| 0 <= i < |items| && HasSubstance(items[i]) {
        assert i < n ==> items[..n][i] == items[i];
      }
    }
  }

  lemma SubstanceOfConcat(a: string, b: string)
    ensures HasSubstance(a + b) <==> HasSubstance(a) || HasSubstance(b)
  {
    if i :| 0 <= i < |a + b| && Substance((a + b)[i]) {
      assert if i < |a| then a[i] == (a + b)[i] else b[i - |a|] == (a + b)[i];
    }
    if i :| 0 <= i < |a| && Substance(a[i]) {
      assert (a + b)[i] == a[i];
    }
    if i :| 0 <= i < |b| && Substance(b[i]) {
      assert (a + b)[|a| + i] == b[i];
    }
  }

  lemma BlanksHaveNoSubstance(s: string)
    requires AllBlank(s)
    ensures !HasSubstance(s)
  {
  }

  /** The joined list is read as a non-empty list exactly when some item has substance. */
  lemma JoinedListIsRead(items: seq<string>)
    ensures SplitCsv(Trim(JoinCsv(items))) != [] <==> exists i | 0 <= i < |items| :: HasSubstance(items[i])
  {
    var csv := JoinCsv(items);
    var l, r := TrimSplit(csv);
    SplitIsEmpty(Trim(csv));
    SubstanceOfConcat(l + Trim(csv), r);
    SubstanceOfConcat(l, Trim(csv));
    BlanksHaveNoSubstance(l);
    BlanksHaveNoSubstance(r);
    SubstanceOfJoin(items);
  }
}
