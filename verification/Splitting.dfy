/** Splitting a text at a separator, and joining the parts again. */
module Splitting {
  import opened Text

  /** The parts between the separators; a text without one is its only part. */
  function Split(s: string, sep: char): (parts: seq<string>)
    ensures |parts| >= 1
    decreases |s|
  {
    var i := IndexOf(s, sep);
    if i == |s| then [s] else [s[..i]] + Split(s[i + 1..], sep)
  }

  function Join(parts: seq<string>, sep: char): string
    requires |parts| >= 1
  {
    if |parts| == 1 then parts[0] else parts[0] + [sep] + Join(parts[1..], sep)
  }

  ghost predicate Free(parts: seq<string>, sep: char) {
    forall p <- parts :: sep !in p
  }

  lemma {:induction false} SplitStep(s: string, sep: char)
    ensures var i := IndexOf(s, sep);
            Split(s, sep) == if i == |s| then [s] else [s[..i]] + Split(s[i + 1..], sep)
  {
  }

  /** Splitting and joining are inverse: every text is the join of its parts, and no other parts join to it. */
  lemma {:induction false} JoinOfSplit(s: string, sep: char)
    ensures Join(Split(s, sep), sep) == s && Free(Split(s, sep), sep)
    decreases |s|
  {
    var i := IndexOf(s, sep);
    if i < |s| {
      JoinOfSplit(s[i + 1..], sep);
      assert Split(s, sep)[1..] == Split(s[i + 1..], sep);
      assert s == s[..i] + [sep] + s[i + 1..];
    }
  }

  lemma {:induction false} SplitOfJoin(parts: seq<string>, sep: char)
    requires |parts| >= 1 && Free(parts, sep)
    ensures Split(Join(parts, sep), sep) == parts
  {
    var p, s := parts[0], Join(parts, sep);
    assert sep !in p;
    IndexOfIs(s, sep, |p|);
    if |parts| > 1 {
      SplitOfJoin(parts[1..], sep);
      assert s[..|p|] == p && s[|p| + 1..] == Join(parts[1..], sep);
    }
  }

  lemma {:induction false} JoinSnoc(parts: seq<string>, last: string, sep: char)
    requires |parts| >= 1
    ensures Join(parts + [last], sep) == Join(parts, sep) + [sep] + last
  {
    assert (parts + [last])[1..] == parts[1..] + [last];
    if |parts| > 1 {
      JoinSnoc(parts[1..], last, sep);
    }
  }

  lemma SplitAppend(s: string, last: string, sep: char)
    requires sep !in last
    ensures Split(s + [sep] + last, sep) == Split(s, sep) + [last]
  {
    JoinOfSplit(s, sep);
    JoinSnoc(Split(s, sep), last, sep);
    var parts := Split(s, sep) + [last];
    assert Free(parts, sep);
    SplitOfJoin(parts, sep);
  }
}
