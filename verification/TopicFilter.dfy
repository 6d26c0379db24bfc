/** MQTT topic filters of the chime service, section 4.7.1 of MQTT Version 3.1.1 (without the `$` rule of 4.7.2). */
module TopicFilter {
  import opened Text
  import opened Splitting

  const SLASH := '/'
  const ANY_LEVEL := "+"
  const ANY_REST := "#"

  /** The levels of a topic: the parts between slashes. */
  function Levels(topic: string): (levels: seq<string>)
    ensures |levels| >= 1
  {
    Split(topic, SLASH)
  }

  method SplitTopic(topic: string) returns (levels: seq<string>)
    ensures levels == Levels(topic)
  {
    hide Split;
    levels := [];
    var start := 0;
    assert topic[0..] == topic && [] + Levels(topic) == Levels(topic);
    while start <= |topic|
      invariant start <= |topic|
      invariant Levels(topic) == levels + Levels(topic[start..])
      decreases |topic| - start
    {
      var slash := start + IndexOf(topic[start..], SLASH);
      SplitStep(topic[start..], SLASH);
      if slash == |topic| {
        levels := levels + [topic[start..]];
        return;
      }
      assert topic[start..][..slash - start] == topic[start..slash] &&
             topic[start..][slash - start + 1..] == topic[slash + 1..];
      assert Levels(topic) == (levels + [topic[start..slash]]) + Levels(topic[slash + 1..]);
      levels := levels + [topic[start..slash]];
      start := slash + 1;
      if start == |topic| {
        SplitStep("", SLASH);
        levels := levels + [""];
        return;
      }
    }
  }

  // ---------------------------------------------------------------- matching

  /** The meaning of a filter, level by level. */
  predicate Matches(filter: seq<string>, topic: seq<string>) {
    if filter == [] then topic == []
    else if filter[0] == ANY_REST then |filter| == 1
    else topic != [] && LevelMatches(filter[0], topic[0]) && Matches(filter[1..], topic[1..])
  }

  predicate LevelMatches(filter: string, level: string) {
    filter == ANY_LEVEL || filter == level
  }

  method TopicMatchesFilter(filter: string, topic: string) returns (matches: bool)
    ensures matches <==> Matches(Levels(filter), Levels(topic))
  {
    var filterLevels := SplitTopic(filter);
    var topicLevels := SplitTopic(topic);
    assert filterLevels[0..] == filterLevels && topicLevels[0..] == topicLevels;
    var t := 0;
    for f := 0 to |filterLevels|
      invariant t == f <= |topicLevels|
      invariant Matches(filterLevels, topicLevels) <==> Matches(filterLevels[f..], topicLevels[t..])
    {
      var level := filterLevels[f];
      if level == ANY_REST {
        return f + 1 == |filterLevels|;
      }
      if t >= |topicLevels| {
        return false;
      }
      if level != ANY_LEVEL && level != topicLevels[t] {
        return false;
      }
      assert filterLevels[f..][1..] == filterLevels[f + 1..] && topicLevels[t..][1..] == topicLevels[t + 1..];
      t := t + 1;
    }
    return t == |topicLevels|;
  }

  ghost predicate NoRest(filter: seq<string>) {
    forall i | 0 <= i < |filter| :: filter[i] != ANY_REST
  }

  ghost predicate EachLevelMatches(filter: seq<string>, topic: seq<string>) {
    |filter| == |topic| && forall i | 0 <= i < |filter| :: LevelMatches(filter[i], topic[i])
  }

  /** Without `#`, a filter matches level for level. */
  lemma {:induction false} MatchesWithoutRest(filter: seq<string>, topic: seq<string>)
    requires NoRest(filter)
    ensures Matches(filter, topic) <==> EachLevelMatches(filter, topic)
  {
    if filter != [] && topic != [] {
      MatchesWithoutRest(filter[1..], topic[1..]);
      EachLevelStep(filter, topic);
    }
  }

  lemma EachLevelStep(filter: seq<string>, topic: seq<string>)
    requires filter != [] && topic != []
    ensures EachLevelMatches(filter, topic) <==>
            LevelMatches(filter[0], topic[0]) && EachLevelMatches(filter[1..], topic[1..])
  {
    if EachLevelMatches(filter[1..], topic[1..]) && LevelMatches(filter[0], topic[0]) {
      forall i | 1 <= i < |filter| ensures LevelMatches(filter[i], topic[i]) {
        assert filter[i] == filter[1..][i - 1] && topic[i] == topic[1..][i - 1];
      }
    }
  }

  /** With a final `#`, the levels before it match the topic's first levels, and the rest is free. */
  lemma {:induction false} MatchesWithRest(filter: seq<string>, topic: seq<string>)
    requires NoRest(filter)
    ensures Matches(filter + [ANY_REST], topic) <==>
            |filter| <= |topic| && EachLevelMatches(filter, topic[..|filter|])
  {
    var whole := filter + [ANY_REST];
    if filter != [] {
      assert whole[1..] == filter[1..] + [ANY_REST];
      if topic != [] {
        MatchesWithRest(filter[1..], topic[1..]);
        if |filter| <= |topic| {
          assert topic[..|filter|][1..] == topic[1..][..|filter| - 1];
          EachLevelStep(filter, topic[..|filter|]);
        }
      }
    }
  }

  /** A `#` before the last level matches nothing. */
  lemma {:induction false} EarlyRestMatchesNothing(filter: seq<string>, i: nat, topic: seq<string>)
    requires i + 1 < |filter| && filter[i] == ANY_REST
    ensures !Matches(filter, topic)
  {
    if filter[0] != ANY_REST && topic != [] {
      EarlyRestMatchesNothing(filter[1..], i - 1, topic[1..]);
    }
  }

  /** Together: exactly when any filter matches. */
  lemma MatchesExactly(filter: seq<string>, topic: seq<string>)
    requires |filter| >= 1
    ensures Matches(filter, topic) <==>
            var n := |filter| - 1;
            NoRest(filter[..n])
            && if filter[n] == ANY_REST then n <= |topic| && EachLevelMatches(filter[..n], topic[..n])
               else EachLevelMatches(filter, topic)
  {
    var n := |filter| - 1;
    assert filter == filter[..n] + [filter[n]];
    if !NoRest(filter[..n]) {
      var i :| 0 <= i < n && filter[..n][i] == ANY_REST;
      EarlyRestMatchesNothing(filter, i, topic);
    } else if filter[n] == ANY_REST {
      MatchesWithRest(filter[..n], topic);
    } else {
      MatchesWithoutRest(filter, topic);
    }
  }

  /** Adding `/#` to a filter without `#` adds every topic below the ones it matched, and those themselves. */
  lemma SubtreeFilter(filter: string, topic: string)
    requires NoRest(Levels(filter))
    ensures Matches(Levels(filter + "/#"), Levels(topic)) <==>
            exists n | 0 <= n <= |Levels(topic)| :: Matches(Levels(filter), Levels(topic)[..n])
  {
    hide Split, Matches;
    var f, t := Levels(filter), Levels(topic);
    assert filter + "/#" == filter + [SLASH] + ANY_REST;
    SplitAppend(filter, ANY_REST, SLASH);
    MatchesWithRest(f, t);
    forall n | 0 <= n <= |t| ensures Matches(f, t[..n]) <==> EachLevelMatches(f, t[..n]) {
      MatchesWithoutRest(f, t[..n]);
    }
    if |f| <= |t| && EachLevelMatches(f, t[..|f|]) {
      assert Matches(f, t[..|f|]);
    }
  }

  /** A filter without wildcards matches its own topic only. */
  lemma PlainFilter(filter: string, topic: string)
    requires NoRest(Levels(filter)) && ANY_LEVEL !in Levels(filter)
    ensures Matches(Levels(filter), Levels(topic)) <==> filter == topic
  {
    hide Split, Matches;
    var f, t := Levels(filter), Levels(topic);
    MatchesWithoutRest(f, t);
    JoinOfSplit(filter, SLASH);
    JoinOfSplit(topic, SLASH);
    if EachLevelMatches(f, t) {
      forall i | 0 <= i < |f| ensures f[i] == t[i] {
        assert LevelMatches(f[i], t[i]);
      }
      assert f == t;
    }
  }
}
