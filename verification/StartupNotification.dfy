/** The sound that tells the user, once after the start, whether Wi-Fi and the MQTT broker were reached. */
module StartupNotification {
  import opened Wrappers

  const TIMEOUT_S := 10
  const UNKNOWN_TIMEOUT_S := 30

  /** One turn of the service loop: milliseconds since the start, the Wi-Fi state if it can be read, MQTT. */
  datatype Tick = Tick(time: nat, wifi: Option<bool>, mqtt: bool)

  datatype Sound = Success | Failure

  function Seconds(milliseconds: nat): nat {
    milliseconds / 1000
  }

  lemma SecondsAtLeast(milliseconds: nat, n: nat)
    ensures Seconds(milliseconds) >= n <==> milliseconds >= 1000 * n
  {
  }

  predicate Up(t: Tick) {
    t.wifi == Some(true) && t.mqtt
  }

  predicate Late(t: Tick) {
    Seconds(t.time) >= TIMEOUT_S
  }

  ghost predicate Ordered(ticks: seq<Tick>) {
    forall i, j | 0 <= i < j < |ticks| :: ticks[i].time <= ticks[j].time
  }

  /** The first turn after the timeout, or the length if there was none. */
  function FirstLate(ticks: seq<Tick>): (i: nat)
    ensures i <= |ticks| && (i < |ticks| ==> Late(ticks[i])) && forall j | 0 <= j < i :: !Late(ticks[j])
  {
    if ticks == [] || Late(ticks[0]) then 0 else 1 + FirstLate(ticks[1..])
  }

  /** What the last of these turns calls for, whatever happened before. */
  function Due(ticks: seq<Tick>): Option<Sound>
    requires ticks != []
  {
    var now := ticks[|ticks| - 1];
    if Up(now) then Some(Success)
    else if !Late(now) then None
    else if now.wifi.Some? then Some(Failure)
    else
      var first := ticks[FirstLate(ticks)].time;
      if now.time >= first && Seconds(now.time - first) >= UNKNOWN_TIMEOUT_S then Some(Failure) else None
  }

  /** The sounds played, with their turns: the first one that was due, and no other. */
  function Sounds(ticks: seq<Tick>): (r: seq<(nat, Sound)>)
    ensures |r| <= 1
  {
    if ticks == [] then []
    else
      var n := |ticks| - 1;
      var earlier := Sounds(ticks[..n]);
      if earlier != [] then earlier else match Due(ticks) case None => [] case Some(s) => [(n, s)]
  }

  lemma SoundsSnoc(ticks: seq<Tick>, now: Tick)
    ensures var earlier := Sounds(ticks);
            Sounds(ticks + [now]) ==
            if earlier != [] then earlier else match Due(ticks + [now]) case None => [] case Some(s) => [(|ticks|, s)]
  {
    assert (ticks + [now])[..|ticks|] == ticks;
  }

  lemma {:induction false} FirstLateSnoc(ticks: seq<Tick>, now: Tick)
    ensures FirstLate(ticks + [now]) ==
            if FirstLate(ticks) < |ticks| || Late(now) then FirstLate(ticks) else |ticks| + 1
  {
    hide FirstLate;
    var all := ticks + [now];
    var f, g := FirstLate(all), FirstLate(ticks);
    assert forall j | 0 <= j < |ticks| :: all[j] == ticks[j];
    if g < |ticks| {
      assert Late(all[g]);
    }
    if f < |ticks| {
      assert Late(ticks[f]);
    } else {
      assert all[|ticks|] == now;
    }
  }

  /** The startup part of `Run`. */
  method Run(ticks: seq<Tick>, audioEnabled: bool) returns (sounds: seq<(nat, Sound)>)
    requires Ordered(ticks)
    ensures sounds == if audioEnabled then Sounds(ticks) else []
  {
    hide Sounds, FirstLate, Seconds;
    sounds := [];
    var played, logged := !audioEnabled, false;
    var unknownBegin: Option<nat> := None;
    NothingYet();
    assert ticks[..0] == [];
    for i := 0 to |ticks|
      invariant sounds == if audioEnabled then Sounds(ticks[..i]) else []
      invariant played <==> !audioEnabled || sounds != []
      invariant !played ==> (logged <==> FirstLate(ticks[..i]) < i)
      invariant !played ==> unknownBegin == if logged then Some(ticks[FirstLate(ticks[..i])].time) else None
    {
      var now := ticks[i];
      assert ticks[..i + 1] == ticks[..i] + [now];
      SoundsSnoc(ticks[..i], now);
      FirstLateSnoc(ticks[..i], now);
      if !played {
        var known := now.wifi.Some?;
        if known && now.wifi.value && now.mqtt {
          sounds, played := sounds + [(i, Success)], true;
        } else if Seconds(now.time) >= TIMEOUT_S {
          if !known {
            if !logged {
              logged, unknownBegin := true, Some(now.time);
            }
            if unknownBegin.Some? {
              if Seconds(now.time - unknownBegin.value) >= UNKNOWN_TIMEOUT_S {
                sounds, played := sounds + [(i, Failure)], true;
              }
            }
          } else {
            unknownBegin := None;
            sounds, played := sounds + [(i, Failure)], true;
          }
        }
      }
    }
    assert ticks[..|ticks|] == ticks;
  }

  lemma NothingYet()
    ensures Sounds([]) == [] && FirstLate([]) == 0
  {
  }

  /** Why a sound is right at a turn. */
  predicate Justified(t: Tick, sound: Sound) {
    && (sound == Success <==> Up(t))
    && (sound == Failure ==> t.time >= 1000 * TIMEOUT_S)
    && (sound == Failure && t.wifi.None? ==> t.time >= 1000 * (TIMEOUT_S + UNKNOWN_TIMEOUT_S))
  }

  lemma DueIsJustified(ticks: seq<Tick>)
    requires ticks != []
    ensures var now := ticks[|ticks| - 1];
            if Due(ticks).Some? then Justified(now, Due(ticks).value) else !Up(now)
  {
    hide Seconds;
    var now := ticks[|ticks| - 1];
    SecondsAtLeast(now.time, TIMEOUT_S);
    if Late(now) {
      var first := ticks[FirstLate(ticks)];
      SecondsAtLeast(first.time, TIMEOUT_S);
      if now.time >= first.time {
        SecondsAtLeast(now.time - first.time, UNKNOWN_TIMEOUT_S);
      }
    }
  }

  /** The sound is right: success only with both connections up, failure only after the timeout without them. */
  lemma {:induction false} SoundIsJustified(ticks: seq<Tick>)
    ensures Sounds(ticks) != [] ==>
              var (i, sound) := Sounds(ticks)[0];
              i < |ticks| && Justified(ticks[i], sound) && forall j | 0 <= j < i :: !Up(ticks[j])
    ensures Sounds(ticks) == [] ==> forall j | 0 <= j < |ticks| :: !Up(ticks[j])
  {
    hide Due, Justified;
    if ticks != [] {
      var n := |ticks| - 1;
      SoundIsJustified(ticks[..n]);
      DueIsJustified(ticks);
      var before := ticks[..n];
      if Sounds(before) != [] {
        assert Sounds(ticks) == Sounds(before);
        assert before[Sounds(before)[0].0] == ticks[Sounds(before)[0].0];
      }
      assert forall j | 0 <= j < n :: before[j] == ticks[j];
    }
  }

  lemma DueInTime(ticks: seq<Tick>)
    requires ticks != [] && FirstLate(ticks) < |ticks|
    requires ticks[|ticks| - 1].time >= ticks[FirstLate(ticks)].time + 1000 * UNKNOWN_TIMEOUT_S
    ensures Due(ticks).Some?
  {
    hide Seconds, FirstLate;
    var now, first := ticks[|ticks| - 1], ticks[FirstLate(ticks)];
    assert Late(first);
    SecondsAtLeast(now.time, TIMEOUT_S);
    SecondsAtLeast(first.time, TIMEOUT_S);
    SecondsAtLeast(now.time - first.time, UNKNOWN_TIMEOUT_S);
  }

  /** And it comes: by the first turn that is 30 seconds past the first one after the timeout. */
  lemma {:induction false} SoundIsPlayedInTime(ticks: seq<Tick>, i: nat)
    requires FirstLate(ticks) <= i < |ticks|
    requires ticks[i].time >= ticks[FirstLate(ticks)].time + 1000 * UNKNOWN_TIMEOUT_S
    ensures Sounds(ticks) != [] && Sounds(ticks)[0].0 <= i
  {
    hide Due, FirstLate;
    var n := |ticks| - 1;
    var before := ticks[..n];
    assert ticks == before + [ticks[n]];
    SoundsSnoc(before, ticks[n]);
    FirstLateSnoc(before, ticks[n]);
    SoundIsJustified(before);
    if i < n {
      SoundIsPlayedInTime(before, i);
    } else {
      DueInTime(ticks);
    }
  }

  /**
    No sound is called for at this turn: not both connections are up, and after ten seconds the Wi-Fi state has been
    unknown at every turn up to it, for less than thirty seconds.
   */
  predicate Quiet(ticks: seq<Tick>, i: nat)
    requires i < |ticks|
  {
    var now := ticks[i];
    && !(now.wifi == Some(true) && now.mqtt)
    && (now.time >= 10_000 ==>
          && now.wifi.None?
          && var first := FirstLate(ticks[..i + 1]);
             first < |ticks| && now.time - ticks[first].time < 30_000)
  }

  lemma QuietIsNotDue(ticks: seq<Tick>, i: nat)
    requires Ordered(ticks) && i < |ticks|
    ensures Quiet(ticks, i) <==> Due(ticks[..i + 1]).None?
  {
    hide Seconds;
    var now, upTo := ticks[i], ticks[..i + 1];
    SecondsAtLeast(now.time, TIMEOUT_S);
    if Late(now) {
      assert upTo[i] == now;
      var first := FirstLate(upTo);
      assert first <= i && upTo[first] == ticks[first];
      assert ticks[first].time <= now.time;
      SecondsAtLeast(now.time - ticks[first].time, UNKNOWN_TIMEOUT_S);
    }
  }

  /** Exactly when there is no sound yet: every turn so far was quiet.  So a failure that is known is played at once. */
  lemma {:induction false} SilentExactly(ticks: seq<Tick>)
    requires Ordered(ticks)
    ensures Sounds(ticks) == [] <==> forall i | 0 <= i < |ticks| :: Quiet(ticks, i)
  {
    hide Due, FirstLate, Quiet;
    if ticks != [] {
      var n := |ticks| - 1;
      var before := ticks[..n];
      SilentExactly(before);
      QuietIsNotDue(ticks, n);
      assert ticks[..n + 1] == ticks;
      forall i | 0 <= i < n ensures Quiet(before, i) == Quiet(ticks, i) {
        QuietBefore(ticks, n, i);
      }
    }
  }

  lemma QuietBefore(ticks: seq<Tick>, n: nat, i: nat)
    requires i < n <= |ticks|
    ensures Quiet(ticks[..n], i) == Quiet(ticks, i)
  {
    assert ticks[..n][..i + 1] == ticks[..i + 1];
    assert FirstLate(ticks[..i + 1]) <= i + 1;
    if Late(ticks[i]) {
      assert ticks[..i + 1][i] == ticks[i];
      assert FirstLate(ticks[..i + 1]) <= i;
    }
    assert Late(ticks[i]) <==> ticks[i].time >= 10_000 by { SecondsAtLeast(ticks[i].time, TIMEOUT_S); }
  }
}
