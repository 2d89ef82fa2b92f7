/**
 * Voice-activity detection with hysteresis and hang-over
 * (packages/sdk-video/src/client.ts, `checkSpeakingLevels`).
 */
module VoiceActivity {
  import opened Prelude

  const THRESHOLD_ON: real := 22.0
  const THRESHOLD_OFF: real := 12.0
  const MAX_SILENCE_TICKS: nat := 8
  const VOICE_BIN_START: nat := 1
  const VOICE_BIN_END: nat := 12
  const BINS: nat := 256

  /** One analyser read-out: frequency bins of 0..255. */
  type Spectrum = s: seq<nat> | |s| == BINS witness seq(BINS, _ => 0)

  function Sum(data: seq<nat>, from: nat, to: nat): nat
    requires from <= to <= |data|
  {
    if from == to then 0 else Sum(data, from, to - 1) + data[to - 1]
  }

  /** The average over the voice bins only. */
  function Level(data: Spectrum): real {
    Sum(data, VOICE_BIN_START, VOICE_BIN_END) as real / (VOICE_BIN_END - VOICE_BIN_START) as real
  }

  // ── One participant ──

  datatype Voice = Voice(speaking: bool, silence: nat)

  function Tick(v: Voice, level: real): Voice {
    if v.speaking then
      if level < THRESHOLD_OFF then
        if v.silence + 1 >= MAX_SILENCE_TICKS then Voice(false, 0) else Voice(true, v.silence + 1)
      else Voice(true, 0)
    else if level > THRESHOLD_ON then Voice(true, 0)
    else v
  }

  /** A participant that starts silent, after a trace of levels. */
  function Listen(levels: seq<real>): Voice {
    if levels == [] then Voice(false, 0)
    else Tick(Listen(levels[..|levels| - 1]), levels[|levels| - 1])
  }

  // ── The object: all participants, polled in turn ──

  datatype SpeakingChanged = SpeakingChanged(participant: string, speaking: bool)

  /** The analysers in their map's order, with what each reads now. */
  type Nodes = seq<(string, Spectrum)>

  /** All voices after a poll of `nodes`; those who have left are passed over. */
  function Polled(nodes: Nodes, voices: map<string, Voice>): map<string, Voice> {
    if nodes == [] then voices
    else
      var before, (pid, data) := Polled(nodes[..|nodes| - 1], voices), nodes[|nodes| - 1];
      if pid in before then before[pid := Tick(before[pid], Level(data))] else before
  }

  /** One event for each polled participant whose flag differs, in polling order. */
  function Changes(nodes: Nodes, before: map<string, Voice>, after: map<string, Voice>): seq<SpeakingChanged> {
    if nodes == [] then []
    else Changes(nodes[..|nodes| - 1], before, after) + Change(nodes[|nodes| - 1].0, before, after)
  }

  function Change(pid: string, before: map<string, Voice>, after: map<string, Voice>): seq<SpeakingChanged> {
    if pid in before && pid in after && before[pid].speaking != after[pid].speaking
    then [SpeakingChanged(pid, after[pid].speaking)] else []
  }

  ghost predicate Analysed(nodes: Nodes, pid: string) {
    exists i :: 0 <= i < |nodes| && nodes[i].0 == pid
  }

  ghost predicate Distinct(nodes: Nodes) {
    forall i, j {:trigger nodes[i], nodes[j]} :: 0 <= i < j < |nodes| ==> nodes[i].0 != nodes[j].0
  }

  class VideoClient {
    var isSpeaking: map<string, bool>
    var vadSilenceTicks: map<string, nat>
    var emitted: seq<SpeakingChanged>

    constructor ()
      ensures isSpeaking == map[] && vadSilenceTicks == map[] && emitted == []
    {
      isSpeaking, vadSilenceTicks, emitted := map[], map[], [];
    }

    function Voices(): map<string, Voice>
      reads this
    {
      map pid | pid in isSpeaking :: Voice(isSpeaking[pid], if pid in vadSilenceTicks then vadSilenceTicks[pid] else 0)
    }

    /** The state machine of one present participant. */
    method Poll(pid: string, level: real)
      requires pid in isSpeaking
      modifies this
      ensures Voices() == old(Voices())[pid := Tick(old(Voices()[pid]), level)]
      ensures emitted == old(emitted) + Change(pid, old(Voices()), Voices())
    {
      var wasSpeaking := isSpeaking[pid];
      var silenceTicks := if pid in vadSilenceTicks then vadSilenceTicks[pid] else 0;
      var newSpeaking := wasSpeaking;
      if wasSpeaking {
        if level < THRESHOLD_OFF {
          silenceTicks := silenceTicks + 1;
          if silenceTicks >= MAX_SILENCE_TICKS {
            newSpeaking, silenceTicks := false, 0;
          }
        } else {
          silenceTicks := 0;
        }
      } else if level > THRESHOLD_ON {
        newSpeaking, silenceTicks := true, 0;
      }
      vadSilenceTicks := vadSilenceTicks[pid := silenceTicks];
      if newSpeaking != wasSpeaking {
        isSpeaking := isSpeaking[pid := newSpeaking];
        emitted := emitted + [SpeakingChanged(pid, newSpeaking)];
      }
    }

    /** One poll. `nodes` has one entry per participant id, as the map it is read from. */
    method CheckSpeakingLevels(nodes: Nodes)
      requires Distinct(nodes)
      modifies this
      ensures Voices() == Polled(nodes, old(Voices()))
      ensures emitted == old(emitted) + Changes(nodes, old(Voices()), Voices())
    {
      ghost var was, emitted0 := Voices(), emitted;
      var i := 0;
      while i < |nodes|
        invariant i <= |nodes|
        invariant Voices() == Polled(nodes[..i], was)
        invariant emitted == emitted0 + Changes(nodes[..i], was, Voices())
      {
        var level := MeasureLevel(nodes[i].1);
        PollNext(nodes, i, was);
        if nodes[i].0 in isSpeaking {
          Poll(nodes[i].0, level);
        }
        i := i + 1;
      }
      assert nodes[..|nodes|] == nodes;
    }
  }

  lemma PollNext(nodes: Nodes, i: nat, was: map<string, Voice>)
    requires i < |nodes| && Distinct(nodes)
    ensures var (pid, data) := nodes[i];
            var before, after := Polled(nodes[..i], was), Polled(nodes[..i + 1], was);
            && after == (if pid in before then before[pid := Tick(before[pid], Level(data))] else before)
            && Changes(nodes[..i + 1], was, after)
               == Changes(nodes[..i], was, before) + if pid in before then Change(pid, before, after) else []
  {
    assert nodes[..i + 1][..i] == nodes[..i];
    PolledKeys(nodes[..i], was);
    PolledKeys(nodes[..i + 1], was);
    if nodes[i].0 in was {
      PolledOther(nodes[..i], was, nodes[i].0);
    }
    ChangesAgree(nodes[..i], was, Polled(nodes[..i], was), Polled(nodes[..i + 1], was));
  }

  lemma {:induction false} PolledKeys(nodes: Nodes, voices: map<string, Voice>)
    ensures Polled(nodes, voices).Keys == voices.Keys
  {
    if nodes != [] {
      PolledKeys(nodes[..|nodes| - 1], voices);
    }
  }

  lemma {:induction false} PolledOther(nodes: Nodes, voices: map<string, Voice>, pid: string)
    requires pid in voices && forall i {:trigger nodes[i]} :: 0 <= i < |nodes| ==> nodes[i].0 != pid
    ensures pid in Polled(nodes, voices) && Polled(nodes, voices)[pid] == voices[pid]
  {
    if nodes != [] {
      PolledOther(nodes[..|nodes| - 1], voices, pid);
    }
  }

  lemma {:induction false} PolledNode(nodes: Nodes, voices: map<string, Voice>, i: nat)
    requires Distinct(nodes) && i < |nodes| && nodes[i].0 in voices
    ensures nodes[i].0 in Polled(nodes, voices)
    ensures Polled(nodes, voices)[nodes[i].0] == Tick(voices[nodes[i].0], Level(nodes[i].1))
    decreases |nodes|
  {
    var front := nodes[..|nodes| - 1];
    if i < |front| {
      PolledNode(front, voices, i);
    } else {
      PolledOther(front, voices, nodes[i].0);
    }
  }

  /** A poll moves every present participant with an analyser by one tick, and nobody else. */
  lemma PolledOnce(nodes: Nodes, voices: map<string, Voice>)
    requires Distinct(nodes)
    ensures Polled(nodes, voices).Keys == voices.Keys
    ensures forall i {:trigger nodes[i]} :: 0 <= i < |nodes| && nodes[i].0 in voices ==>
              Polled(nodes, voices)[nodes[i].0] == Tick(voices[nodes[i].0], Level(nodes[i].1))
    ensures forall pid :: pid in voices && !Analysed(nodes, pid) ==> Polled(nodes, voices)[pid] == voices[pid]
  {
    PolledKeys(nodes, voices);
    forall i: nat | i < |nodes| && nodes[i].0 in voices
      ensures Polled(nodes, voices)[nodes[i].0] == Tick(voices[nodes[i].0], Level(nodes[i].1))
    {
      PolledNode(nodes, voices, i);
    }
    forall pid | pid in voices && !Analysed(nodes, pid) ensures Polled(nodes, voices)[pid] == voices[pid] {
      PolledOther(nodes, voices, pid);
    }
  }

  /** Events come in polling order: those of the first analysers before those of the others. */
  lemma {:induction false} ChangesInOrder(a: Nodes, b: Nodes, before: map<string, Voice>, after: map<string, Voice>)
    ensures Changes(a + b, before, after) == Changes(a, before, after) + Changes(b, before, after)
    decreases |b|
  {
    if b == [] {
      assert a + b == a;
    } else {
      assert (a + b)[..|a + b| - 1] == a + b[..|b| - 1];
      ChangesInOrder(a, b[..|b| - 1], before, after);
    }
  }

  lemma {:induction false} ChangesAgree(nodes: Nodes, before: map<string, Voice>,
                                        a: map<string, Voice>, b: map<string, Voice>)
    requires a.Keys == b.Keys
    requires forall i {:trigger nodes[i]} :: 0 <= i < |nodes| && nodes[i].0 in a ==> a[nodes[i].0] == b[nodes[i].0]
    ensures Changes(nodes, before, a) == Changes(nodes, before, b)
    decreases |nodes|
  {
    if nodes != [] {
      ChangesAgree(nodes[..|nodes| - 1], before, a, b);
    }
  }

  method MeasureLevel(data: Spectrum) returns (avg: real)
    ensures avg == Level(data)
  {
    var sum := 0;
    var i := VOICE_BIN_START;
    while i < VOICE_BIN_END
      invariant VOICE_BIN_START <= i <= VOICE_BIN_END
      invariant sum == Sum(data, VOICE_BIN_START, i)
    {
      sum := sum + data[i];
      i := i + 1;
    }
    avg := sum as real / (VOICE_BIN_END - VOICE_BIN_START) as real;
  }

  // ── What a level is ──

  lemma {:induction false} SumBetween(data: seq<nat>, first: nat, end: nat, low: nat, high: nat)
    requires first <= end <= |data| && forall i :: first <= i < end ==> low <= data[i] <= high
    ensures low * (end - first) <= Sum(data, first, end) <= high * (end - first)
    decreases end
  {
    if first < end {
      SumBetween(data, first, end - 1, low, high);
      OneMoreTimes(low, end - first - 1);
      OneMoreTimes(high, end - first - 1);
    }
  }

  lemma OneMoreTimes(a: nat, n: nat)
    ensures a * (n + 1) == a * n + a
  {
  }

  lemma {:induction false} SumAgrees(a: seq<nat>, b: seq<nat>, first: nat, end: nat)
    requires first <= end <= |a| && end <= |b| && forall i :: first <= i < end ==> a[i] == b[i]
    ensures Sum(a, first, end) == Sum(b, first, end)
    decreases end
  {
    if first < end {
      SumAgrees(a, b, first, end - 1);
    }
  }

  lemma {:induction false} SumRaised(data: seq<nat>, first: nat, end: nat, k: nat, more: nat)
    requires first <= k < end <= |data|
    ensures Sum(data[k := data[k] + more], first, end) == Sum(data, first, end) + more
    decreases end
  {
    var raised := data[k := data[k] + more];
    if k < end - 1 {
      SumRaised(data, first, end - 1, k, more);
    } else {
      SumAgrees(raised, data, first, end - 1);
    }
  }

  /** The level lies between the least and the greatest of bins 1 to 11. */
  lemma LevelIsBetween(data: Spectrum, low: nat, high: nat)
    requires forall i :: 1 <= i <= 11 ==> low <= data[i] <= high
    ensures low as real <= Level(data) <= high as real
  {
    SumBetween(data, 1, 12, low, high);
    Elevenths(Sum(data, 1, 12), low, high);
  }

  lemma Elevenths(sum: nat, low: nat, high: nat)
    requires 11 * low <= sum <= 11 * high
    ensures low as real <= sum as real / 11.0 <= high as real
  {
  }

  /** No other bin has any influence on it. */
  lemma OtherBinsDoNotCount(a: Spectrum, b: Spectrum)
    requires forall i :: 1 <= i <= 11 ==> a[i] == b[i]
    ensures Level(a) == Level(b)
  {
    SumAgrees(a, b, 1, 12);
  }

  /** Each of the eleven bins counts for one eleventh. */
  lemma BinsCountEqually(data: Spectrum, k: nat)
    requires 1 <= k <= 11
    ensures Level(data[k := data[k] + 11]) == Level(data) + 1.0
  {
    SumRaised(data, 1, 12, k, 11);
  }

  /**
   * A silent participant whose voice bins all exceed 22 is speaking after one poll; one
   * whose voice bins are all at most 22 is not.
   */
  lemma LoudBinsAreHeard(nodes: Nodes, voices: map<string, Voice>, i: nat)
    requires Distinct(nodes) && i < |nodes| && nodes[i].0 in voices && voices[nodes[i].0] == Voice(false, 0)
    ensures nodes[i].0 in Polled(nodes, voices)
    ensures (forall k :: 1 <= k <= 11 ==> nodes[i].1[k] > 22) ==> Polled(nodes, voices)[nodes[i].0].speaking
    ensures (forall k :: 1 <= k <= 11 ==> nodes[i].1[k] <= 22) ==> !Polled(nodes, voices)[nodes[i].0].speaking
  {
    var data := nodes[i].1;
    PolledNode(nodes, voices, i);
    if forall k :: 1 <= k <= 11 ==> data[k] > 22 {
      LevelIsBetween(data, 23, Highest(data));
    } else if forall k :: 1 <= k <= 11 ==> data[k] <= 22 {
      LevelIsBetween(data, 0, 22);
    }
  }

  function Highest(data: seq<nat>): (high: nat)
    ensures forall i :: 0 <= i < |data| ==> data[i] <= high
  {
    if data == [] then 0
    else
      var rest := Highest(data[..|data| - 1]);
      assert forall i :: 0 <= i < |data| - 1 ==> data[i] == data[..|data| - 1][i];
      if data[|data| - 1] > rest then data[|data| - 1] else rest
  }

  // ── What the indicator means ──

  predicate Quiet(level: real) {
    level < 12.0
  }

  predicate Loud(level: real) {
    level > 22.0
  }

  /** Eight quiet ticks in a row, starting at position k. */
  ghost predicate QuietRun(levels: seq<real>, k: nat) {
    k + 8 <= |levels| && forall i {:trigger levels[i]} :: k <= i < k + 8 ==> Quiet(levels[i])
  }

  /** Tick i was loud and no eight quiet ticks in a row came after it. */
  ghost predicate StillHeard(levels: seq<real>, i: nat) {
    i < |levels| && Loud(levels[i]) && forall k {:trigger QuietRun(levels, k)} :: k > i ==> !QuietRun(levels, k)
  }

  /** While speaking, the counter is the length of the current quiet stretch. */
  ghost predicate CountsQuiet(levels: seq<real>, silence: nat) {
    && silence < 8 && silence < |levels|
    && (forall i {:trigger levels[i]} :: |levels| - silence <= i < |levels| ==> Quiet(levels[i]))
    && !Quiet(levels[|levels| - silence - 1])
  }

  lemma QuietRunOfPrefix(levels: seq<real>, level: real, k: nat)
    ensures QuietRun(levels, k) ==> QuietRun(levels + [level], k)
    ensures QuietRun(levels + [level], k) ==> QuietRun(levels, k) || k + MAX_SILENCE_TICKS == |levels| + 1
  {
    var longer := levels + [level];
    assert forall i {:trigger levels[i]} :: 0 <= i < |levels| ==> longer[i] == levels[i];
    if QuietRun(longer, k) && k + MAX_SILENCE_TICKS <= |levels| {
      assert forall i {:trigger levels[i]} :: k <= i < k + MAX_SILENCE_TICKS ==> levels[i] == longer[i];
    }
  }

  /**
   * After any trace of levels, a participant that started silent is shown as speaking
   * exactly when some tick was above 22 and no 8 consecutive ticks below 12 followed it.
   */
  lemma {:induction false} SpeakingIff(levels: seq<real>)
    ensures Listen(levels).speaking <==> exists i :: StillHeard(levels, i)
    ensures if Listen(levels).speaking then CountsQuiet(levels, Listen(levels).silence) else Listen(levels).silence == 0
    ensures Listen(levels).silence < 8
    decreases |levels|
  {
    if levels != [] {
      var n := |levels| - 1;
      var before, level := levels[..n], levels[n];
      assert levels == before + [level];
      SpeakingIff(before);
      HeardAfterTick(before, level);
    }
  }

  /** One tick changes what is still heard just as it changes the flag. */
  lemma HeardAfterTick(before: seq<real>, level: real)
    requires Listen(before).speaking <==> exists i :: StillHeard(before, i)
    requires if Listen(before).speaking then CountsQuiet(before, Listen(before).silence)
             else Listen(before).silence == 0
    ensures var levels := before + [level];
            var v := Tick(Listen(before), level);
            && (v.speaking <==> exists i :: StillHeard(levels, i))
            && (if v.speaking then CountsQuiet(levels, v.silence) else v.silence == 0)
  {
    var levels, n := before + [level], |before|;
    var v := Tick(Listen(before), level);
    forall k: nat ensures QuietRun(before, k) ==> QuietRun(levels, k) {
      QuietRunOfPrefix(before, level, k);
    }
    forall k: nat ensures QuietRun(levels, k) ==> QuietRun(before, k) || k + MAX_SILENCE_TICKS == n + 1 {
      QuietRunOfPrefix(before, level, k);
    }
    assert forall i {:trigger before[i]} :: 0 <= i < n ==> levels[i] == before[i];
    if v.speaking && !Listen(before).speaking {
      assert StillHeard(levels, n);
    } else if v.speaking {
      var i :| StillHeard(before, i);
      assert !Quiet(levels[n - v.silence]);
      assert StillHeard(levels, i);
    } else if Listen(before).speaking {
      EightQuietTicks(before, level);
      forall i: nat ensures !StillHeard(levels, i) {
        NotHeardBeforeQuiet(levels, n + 1 - MAX_SILENCE_TICKS, i);
      }
    } else {
      forall i: nat ensures !StillHeard(levels, i) {
        assert !StillHeard(before, i);
      }
    }
  }

  /** A quiet run at the very end silences everything. */
  lemma NotHeardBeforeQuiet(levels: seq<real>, k: nat, i: nat)
    requires QuietRun(levels, k) && k + MAX_SILENCE_TICKS == |levels|
    ensures !StillHeard(levels, i)
  {
    if i < |levels| && i >= k {
      assert Quiet(levels[i]);
    }
  }

  lemma EightQuietTicks(before: seq<real>, level: real)
    requires Listen(before).speaking && CountsQuiet(before, Listen(before).silence)
    requires !Tick(Listen(before), level).speaking
    ensures |before| + 1 >= MAX_SILENCE_TICKS && QuietRun(before + [level], |before| + 1 - MAX_SILENCE_TICKS)
  {
  }

  /** The values announced for one participant over a trace. */
  function Announced(levels: seq<real>): seq<bool> {
    if levels == [] then []
    else
      var before := levels[..|levels| - 1];
      Announced(before) + if Listen(levels).speaking != Listen(before).speaking then [Listen(levels).speaking] else []
  }

  /** Announcements alternate, starting with "speaking", and end with the current value. */
  lemma {:induction false} AnnouncementsAlternate(levels: seq<real>)
    ensures forall i {:trigger Announced(levels)[i]} :: 0 <= i < |Announced(levels)| ==>
            Announced(levels)[i] == (i % 2 == 0)
    ensures Listen(levels).speaking <==> |Announced(levels)| % 2 == 1
    decreases |levels|
  {
    if levels != [] {
      AnnouncementsAlternate(levels[..|levels| - 1]);
    }
  }

  // ── The client over a whole run ──

  /** A poll, or a participant that joins (with any voice) or leaves. */
  datatype Happening =
    | Poll(nodes: Nodes)
    | Join(pid: string, voice: Voice)
    | Leave(pid: string)

  function Afterwards(voices: map<string, Voice>, h: Happening): map<string, Voice> {
    match h
    case Poll(nodes) => Polled(nodes, voices)
    case Join(pid, voice) => voices[pid := voice]
    case Leave(pid) => voices - {pid}
  }

  function VoicesAfter(run: seq<Happening>, start: map<string, Voice>): map<string, Voice> {
    if run == [] then start else Afterwards(VoicesAfter(run[..|run| - 1], start), run[|run| - 1])
  }

  /** Everything the client emits during the run, poll by poll. */
  function EmittedOver(run: seq<Happening>, start: map<string, Voice>): seq<SpeakingChanged> {
    if run == [] then []
    else
      var before, last := VoicesAfter(run[..|run| - 1], start), run[|run| - 1];
      EmittedOver(run[..|run| - 1], start)
      + if last.Poll? then Changes(last.nodes, before, Afterwards(before, last)) else []
  }

  /** The level a poll reads for a participant, if it has an analyser. */
  function LevelsIn(nodes: Nodes, pid: string): seq<real> {
    if nodes == [] then []
    else
      LevelsIn(nodes[..|nodes| - 1], pid) + if nodes[|nodes| - 1].0 == pid then [Level(nodes[|nodes| - 1].1)] else []
  }

  function LevelsOver(run: seq<Happening>, pid: string): seq<real> {
    if run == [] then []
    else LevelsOver(run[..|run| - 1], pid) + if run[|run| - 1].Poll? then LevelsIn(run[|run| - 1].nodes, pid) else []
  }

  /** What a listener for one participant is told. */
  function ToldAbout(events: seq<SpeakingChanged>, pid: string): seq<bool> {
    if events == [] then []
    else
      ToldAbout(events[..|events| - 1], pid)
      + if events[|events| - 1].participant == pid then [events[|events| - 1].speaking] else []
  }

  lemma {:induction false} ToldAppend(a: seq<SpeakingChanged>, b: seq<SpeakingChanged>, pid: string)
    ensures ToldAbout(a + b, pid) == ToldAbout(a, pid) + ToldAbout(b, pid)
  {
    if b == [] {
      assert a + b == a;
    } else {
      assert (a + b)[..|a + b| - 1] == a + b[..|b| - 1];
      ToldAppend(a, b[..|b| - 1], pid);
    }
  }

  lemma {:induction false} NoLevelForOther(nodes: Nodes, pid: string)
    requires forall i {:trigger nodes[i]} :: 0 <= i < |nodes| ==> nodes[i].0 != pid
    ensures LevelsIn(nodes, pid) == []
  {
    if nodes != [] {
      NoLevelForOther(nodes[..|nodes| - 1], pid);
    }
  }

  /** A poll is one tick on the participant's own level, or nothing. */
  lemma {:induction false} PollIsTick(nodes: Nodes, voices: map<string, Voice>, pid: string)
    requires Distinct(nodes) && pid in voices
    ensures |LevelsIn(nodes, pid)| <= 1 && pid in Polled(nodes, voices)
    ensures Polled(nodes, voices)[pid]
         == if LevelsIn(nodes, pid) == [] then voices[pid] else Tick(voices[pid], LevelsIn(nodes, pid)[0])
  {
    if nodes != [] {
      var front := nodes[..|nodes| - 1];
      PollIsTick(front, voices, pid);
      if nodes[|nodes| - 1].0 == pid {
        NoLevelForOther(front, pid);
      }
    }
  }

  lemma ToldChange(other: string, pid: string, before: map<string, Voice>, after: map<string, Voice>)
    requires pid in before && pid in after
    ensures ToldAbout(Change(other, before, after), pid)
         == if other == pid && before[pid].speaking != after[pid].speaking then [after[pid].speaking] else []
  {
    var told := Change(other, before, after);
    assert told != [] ==> told[..0] == [];
  }

  /** A poll tells about a participant it has an analyser for exactly if its flag changed. */
  lemma {:induction false} PollTells(nodes: Nodes, before: map<string, Voice>, after: map<string, Voice>, pid: string)
    requires Distinct(nodes) && pid in before && pid in after
    ensures ToldAbout(Changes(nodes, before, after), pid)
         == if LevelsIn(nodes, pid) != [] && before[pid].speaking != after[pid].speaking then [after[pid].speaking]
           else []
  {
    if nodes != [] {
      var front, last := nodes[..|nodes| - 1], nodes[|nodes| - 1].0;
      PollTells(front, before, after, pid);
      ToldAppend(Changes(front, before, after), Change(last, before, after), pid);
      ToldChange(last, pid, before, after);
      if last == pid {
        NoLevelForOther(front, pid);
      }
    }
  }

  /** Polls read one analyser per participant, and `pid` neither joins nor leaves. */
  ghost predicate PresentThroughout(run: seq<Happening>, pid: string) {
    forall h :: h in run ==>
      match h
      case Poll(nodes) => Distinct(nodes)
      case Join(p, _) => p != pid
      case Leave(p) => p != pid
  }

  lemma {:induction false} ClientFollowsTrace(run: seq<Happening>, start: map<string, Voice>, pid: string)
    requires PresentThroughout(run, pid) && pid in start && start[pid] == Voice(false, 0)
    ensures pid in VoicesAfter(run, start) && VoicesAfter(run, start)[pid] == Listen(LevelsOver(run, pid))
    ensures ToldAbout(EmittedOver(run, start), pid) == Announced(LevelsOver(run, pid))
  {
    if run != [] {
      var front, last := run[..|run| - 1], run[|run| - 1];
      assert last in run && forall h :: h in front ==> h in run;
      ClientFollowsTrace(front, start, pid);
      if last.Poll? {
        PollFollowsTrace(last.nodes, VoicesAfter(front, start), pid, LevelsOver(front, pid));
        var before := VoicesAfter(front, start);
        ToldAppend(EmittedOver(front, start), Changes(last.nodes, before, Polled(last.nodes, before)), pid);
      } else {
        assert EmittedOver(run, start) == EmittedOver(front, start);
        assert LevelsOver(run, pid) == LevelsOver(front, pid);
      }
    }
  }

  lemma PollFollowsTrace(nodes: Nodes, before: map<string, Voice>, pid: string, levels: seq<real>)
    requires Distinct(nodes) && pid in before && before[pid] == Listen(levels)
    ensures var after, longer := Polled(nodes, before), levels + LevelsIn(nodes, pid);
            && pid in after && after[pid] == Listen(longer)
            && Announced(longer) == Announced(levels) + ToldAbout(Changes(nodes, before, after), pid)
  {
    PollIsTick(nodes, before, pid);
    PollTells(nodes, before, Polled(nodes, before), pid);
    if LevelsIn(nodes, pid) == [] {
      assert levels + LevelsIn(nodes, pid) == levels;
    } else {
      var longer := levels + LevelsIn(nodes, pid);
      assert longer[..|longer| - 1] == levels && longer[|longer| - 1] == LevelsIn(nodes, pid)[0];
    }
  }

  /**
   * Over every run of polls in which others come and go: for a participant that is there
   * throughout and starts silent, the indicator is on exactly when, among the levels read
   * for that participant, one was above 22 and no 8 in a row below 12 followed; and the
   * events the client emits for that participant alternate, beginning with "speaking" and
   * ending with the current value, whatever the other participants do.
   */
  lemma IndicatorFollowsOwnVoice(run: seq<Happening>, start: map<string, Voice>, pid: string)
    requires PresentThroughout(run, pid) && pid in start && start[pid] == Voice(false, 0)
    ensures pid in VoicesAfter(run, start)
    ensures VoicesAfter(run, start)[pid].silence < 8
    ensures VoicesAfter(run, start)[pid].speaking <==> exists i :: StillHeard(LevelsOver(run, pid), i)
    ensures var told := ToldAbout(EmittedOver(run, start), pid);
            && (forall i {:trigger told[i]} :: 0 <= i < |told| ==> told[i] == (i % 2 == 0))
            && (VoicesAfter(run, start)[pid].speaking <==> |told| % 2 == 1)
  {
    ClientFollowsTrace(run, start, pid);
    SpeakingIff(LevelsOver(run, pid));
    AnnouncementsAlternate(LevelsOver(run, pid));
  }
}
