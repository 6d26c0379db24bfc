/** The topics that the chime service has seen: a bounded list with a set index, kept in a file. */
module ObservedTopics {
  import opened Wrappers
  import opened Text

  const MAX_TOPICS: nat := 256

  function Last(topics: seq<string>, n: nat): (r: seq<string>)
    ensures |r| <= n
  {
    if |topics| <= n then topics else topics[|topics| - n..]
  }

  ghost predicate Distinct(topics: seq<string>) {
    forall i, j | 0 <= i < j < |topics| :: topics[i] != topics[j]
  }

  ghost function Elements(topics: seq<string>): (r: set<string>)
    ensures forall t :: t in r <==> t in topics
  {
    set t | t in topics
  }

  lemma ElementsSnoc(topics: seq<string>, topic: string)
    ensures Elements(topics + [topic]) == Elements(topics) + {topic}
    ensures Distinct(topics) && topic !in topics ==> Distinct(topics + [topic])
  {
  }

  lemma ElementsTail(topics: seq<string>)
    requires Distinct(topics) && topics != []
    ensures Elements(topics[1..]) == Elements(topics) - {topics[0]} && Distinct(topics[1..])
  {
    assert topics == [topics[0]] + topics[1..];
    assert topics[0] !in topics[1..];
  }

  /** One message: a new topic comes last, and the oldest goes if there are too many. */
  function Insert(topics: seq<string>, topic: string): seq<string> {
    if topic == "" || topic in topics then topics else Last(topics + [topic], MAX_TOPICS)
  }

  /** The first occurrence of each. */
  function FirstSeen(topics: seq<string>): (r: seq<string>)
    ensures Distinct(r)
    ensures forall t :: t in r <==> t in topics
  {
    if topics == [] then []
    else
      var n := |topics| - 1;
      var r := FirstSeen(topics[..n]);
      assert topics == topics[..n] + [topics[n]];
      if topics[n] in r then r else r + [topics[n]]
  }

  /** The topics in the lines of a file: trimmed, and not empty. */
  function TopicsIn(lines: seq<string>): (r: seq<string>)
    ensures forall t <- r :: t != "" && Trimmed(t)
  {
    if lines == [] then []
    else
      var n := |lines| - 1;
      var t := Trim(lines[n]);
      TrimTwice(lines[n]);
      TopicsIn(lines[..n]) + if t == "" then [] else [t]
  }

  lemma TrimTwice(s: string)
    ensures Trimmed(Trim(s))
  {
    var l, r := TrimSplit(s);
  }

  function LoadedFrom(content: string): seq<string> {
    Last(FirstSeen(TopicsIn(Lines(content))), MAX_TOPICS)
  }

  class TopicLog {
    var topics: seq<string>
    var index: set<string>
    var loaded: bool
    var file: Option<string>

    ghost predicate Valid()
      reads this
    {
      Distinct(topics) && index == Elements(topics) && |topics| <= MAX_TOPICS
    }

    /** The list as the next message finds it. */
    ghost function Contents(): seq<string>
      reads this
    {
      if loaded then topics else if file.Some? then LoadedFrom(file.value) else []
    }

    constructor (saved: Option<string>)
      ensures Valid() && file == saved && Contents() == if saved.Some? then LoadedFrom(saved.value) else []
    {
      topics, index, loaded, file := [], {}, false, saved;
    }

    method Evict()
      requires Distinct(topics) && index == Elements(topics)
      modifies this`topics, this`index
      ensures Valid() && topics == Last(old(topics), MAX_TOPICS)
    {
      hide Distinct, Elements;
      while |topics| > MAX_TOPICS
        invariant Distinct(topics) && index == Elements(topics)
        invariant |topics| <= |old(topics)| && topics == old(topics)[|old(topics)| - |topics|..]
        invariant |topics| >= MAX_TOPICS || topics == old(topics)
      {
        ElementsTail(topics);
        index := index - {topics[0]};
        topics := topics[1..];
      }
    }

    method LoadObservedTopics()
      modifies this`topics, this`index, this`loaded
      ensures Valid() && loaded && topics == old(if file.Some? then LoadedFrom(file.value) else [])
    {
      hide Distinct, Elements, FirstSeen, TopicsIn, Trim, Last;
      NoTopics();
      loaded, topics, index := true, [], {};
      if file.None? {
        return;
      }
      var lines := ReadAllLines(file.value);
      for i := 0 to |lines|
        invariant loaded && Distinct(topics) && index == Elements(topics)
        invariant topics == FirstSeen(TopicsIn(lines[..i]))
      {
        assert lines[..i + 1][..i] == lines[..i];
        var topic := Trim(lines[i]);
        TopicsInSnoc(lines[..i], lines[i]);
        assert lines[..i] + [lines[i]] == lines[..i + 1];
        ElementsSnoc(topics, topic);
        FirstSeenSnoc(TopicsIn(lines[..i]), topic);
        if topic != "" {
          if topic !in index {
            index := index + {topic};
            topics := topics + [topic];
          }
        }
      }
      assert lines[..|lines|] == lines;
      Evict();
    }

    method PersistObservedTopics(written: bool)
      modifies this`file
      ensures file == if written then Some(Terminated(topics)) else old(file)
    {
      var content := "";
      for i := 0 to |topics|
        invariant content == Terminated(topics[..i]) && file == old(file)
      {
        assert topics[..i + 1][..i] == topics[..i];
        content := content + topics[i] + "\n";
      }
      assert topics[..|topics|] == topics;
      if written {
        file := Some(content);
      }
    }

    /** `RecordObservedTopic`; writing the file may fail. */
    method RecordObservedTopic(topic: string, written: bool)
      requires Valid()
      modifies this
      ensures Valid() && Contents() == Insert(old(Contents()), topic)
      ensures topic != "" ==> loaded
      ensures file ==
              if topic != "" && topic !in old(Contents()) && written then Some(Terminated(topics)) else old(file)
    {
      hide Distinct, Elements;
      if topic == "" {
        return;
      }
      if !loaded {
        LoadObservedTopics();
      }
      if topic in index {
        return;
      }
      ElementsSnoc(topics, topic);
      index := index + {topic};
      topics := topics + [topic];
      Evict();
      PersistObservedTopics(written);
    }
  }

  lemma NoTopics()
    ensures FirstSeen(TopicsIn([])) == [] && Distinct([]) && Elements([]) == {} && Last([], MAX_TOPICS) == []
  {
  }

  lemma TopicsInSnoc(lines: seq<string>, line: string)
    ensures TopicsIn(lines + [line]) == TopicsIn(lines) + if Trim(line) == "" then [] else [Trim(line)]
  {
    assert (lines + [line])[..|lines|] == lines;
  }

  lemma FirstSeenSnoc(topics: seq<string>, topic: string)
    ensures FirstSeen(topics + [topic]) ==
            if topic in FirstSeen(topics) then FirstSeen(topics) else FirstSeen(topics) + [topic]
    ensures FirstSeen(topics + []) == FirstSeen(topics)
  {
    assert (topics + [topic])[..|topics|] == topics;
    assert topics + [] == topics;
  }

  // ----------------------------------------------------------------- history

  /** The list after these messages. */
  function After(topics: seq<string>, messages: seq<string>): seq<string> {
    if messages == [] then topics
    else Insert(After(topics, messages[..|messages| - 1]), messages[|messages| - 1])
  }

  /** The topics that these messages added, in order; one that was evicted may be added again. */
  function Added(topics: seq<string>, messages: seq<string>): seq<string> {
    if messages == [] then []
    else
      var n := |messages| - 1;
      var m := messages[n];
      Added(topics, messages[..n]) + if m == "" || m in After(topics, messages[..n]) then [] else [m]
  }

  lemma LastSnoc(topics: seq<string>, topic: string, n: nat)
    requires n >= 1
    ensures Last(Last(topics, n) + [topic], n) == Last(topics + [topic], n)
  {
  }

  lemma DistinctInsert(topics: seq<string>, topic: string)
    requires Distinct(topics) && |topics| <= MAX_TOPICS
    ensures Distinct(Insert(topics, topic)) && |Insert(topics, topic)| <= MAX_TOPICS
  {
  }

  /**
    Over every history the list has no duplicates and at most 256 entries, and it is the last 256 of the
    topics it started with and those that were added.
   */
  lemma {:induction false} ListIsTheLatest(topics: seq<string>, messages: seq<string>)
    requires Distinct(topics) && |topics| <= MAX_TOPICS
    ensures Distinct(After(topics, messages)) && |After(topics, messages)| <= MAX_TOPICS
    ensures var all := topics + Added(topics, messages);
            After(topics, messages) == all[if |all| <= 256 then 0 else |all| - 256..]
  {
    hide Distinct;
    if messages == [] {
      assert topics + [] == topics;
    } else {
      var n := |messages| - 1;
      ListIsTheLatest(topics, messages[..n]);
      var before := After(topics, messages[..n]);
      DistinctInsert(before, messages[n]);
      LastSnoc(topics + Added(topics, messages[..n]), messages[n], MAX_TOPICS);
      assert topics + (Added(topics, messages[..n]) + [messages[n]]) ==
             topics + Added(topics, messages[..n]) + [messages[n]];
      assert Added(topics, messages[..n]) + [] == Added(topics, messages[..n]);
    }
  }

  /** The non-empty ones. */
  function NonEmpty(messages: seq<string>): (r: seq<string>) {
    if messages == [] then []
    else
      var n := |messages| - 1;
      NonEmpty(messages[..n]) + if messages[n] == "" then [] else [messages[n]]
  }

  /** Until there are more than 256 topics in all, the list is every topic in the order first seen. */
  lemma {:induction false} NothingIsForgottenEarly(messages: seq<string>)
    requires |FirstSeen(NonEmpty(messages))| <= MAX_TOPICS
    ensures After([], messages) == FirstSeen(NonEmpty(messages))
  {
    if messages != [] {
      var n := |messages| - 1;
      var before := NonEmpty(messages[..n]);
      FirstSeenSnoc(before, messages[n]);
      assert before + [] == before;
      NothingIsForgottenEarly(messages[..n]);
    }
  }

  // -------------------------------------------------------------------- file

  ghost predicate Storable(topics: seq<string>) {
    forall t <- topics :: t != "" && Trimmed(t) && LfFree(t)
  }

  ghost predicate Kept(topics: seq<string>) {
    forall i | 0 <= i < |topics| :: topics[i] != "" && Trim(topics[i]) == topics[i]
  }

  lemma {:induction false} TopicsInKept(topics: seq<string>)
    requires Kept(topics)
    ensures TopicsIn(topics) == topics
  {
    hide Trim;
    if topics != [] {
      var n := |topics| - 1;
      TopicsInKept(topics[..n]);
    }
  }

  lemma StorableIsKept(topics: seq<string>)
    requires Storable(topics)
    ensures Kept(topics) && LinesLfFree(topics)
  {
    forall i | 0 <= i < |topics| ensures topics[i] != "" && Trim(topics[i]) == topics[i] && LfFree(topics[i]) {
      assert topics[i] in topics;
      TrimFixed(topics[i]);
    }
  }

  lemma {:induction false} FirstSeenOfDistinct(topics: seq<string>)
    requires Distinct(topics)
    ensures FirstSeen(topics) == topics
  {
    if topics != [] {
      var n := |topics| - 1;
      FirstSeenOfDistinct(topics[..n]);
    }
  }

  lemma {:induction false} TopicsAreLfFree(lines: seq<string>)
    requires LinesLfFree(lines)
    ensures forall t <- TopicsIn(lines) :: LfFree(t)
  {
    if lines != [] {
      var n := |lines| - 1;
      TopicsAreLfFree(lines[..n]);
      assert LfFree(lines[n]);
      if '\n' in Trim(lines[n]) {
        TrimKeepsChars(lines[n], '\n');
      }
    }
  }

  /** A stored list is loaded again exactly when every topic is trimmed, not empty and free of line feeds. */
  lemma StoredListIsLoaded(topics: seq<string>)
    requires Distinct(topics) && |topics| <= MAX_TOPICS
    ensures LoadedFrom(Terminated(topics)) == topics <==> Storable(topics)
  {
    var lines := Lines(Terminated(topics));
    if Storable(topics) {
      StorableIsKept(topics);
      LinesOfTerminated(topics);
      TopicsInKept(topics);
      FirstSeenOfDistinct(topics);
    }
    if LoadedFrom(Terminated(topics)) == topics {
      TopicsAreLfFree(lines);
      assert forall t <- topics :: t in FirstSeen(TopicsIn(lines));
    }
  }

  /** What a load gives can be stored and loaded again, whatever the file held. */
  lemma LoadedIsStorable(content: string)
    ensures var topics := LoadedFrom(content);
            Storable(topics) && Distinct(topics) && |topics| <= MAX_TOPICS && LoadedFrom(Terminated(topics)) == topics
  {
    TopicsAreLfFree(Lines(content));
    var all := FirstSeen(TopicsIn(Lines(content)));
    assert forall t <- LoadedFrom(content) :: t in all;
    StoredListIsLoaded(LoadedFrom(content));
  }
}
