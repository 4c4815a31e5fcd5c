/** Sequence playback: displayColors' pad table and the timeline of timer
    callbacks that gameRound registers, with time in milliseconds from the
    start of playback. */
module SequencePlayer {
  import opened Wrappers
  import opened Palette

  /** The two backgrounds a pad takes during playback. */
  datatype Shade = Original | Active

  /** The CSS background displayColors writes for each pad and shade. */
  function Background(pad: Color, shade: Shade): string {
    match pad
    case Red => if shade == Original then "#e74c3c" else "#73261e"
    case Yellow => if shade == Original then "#f1c40f" else "#776209"
    case Green => if shade == Original then "#2ecc71" else "#186639"
    case Blue => if shade == Original then "#3498db" else "#1a4c6d"
  }

  /** Every pad and shade has its own background, so a highlight is always visible
      and restoring it brings back the pad's own colour. */
  lemma BackgroundsDistinct(c: Color, s: Shade, d: Color, t: Shade)
    requires (c, s) != (d, t)
    ensures Background(c, s) != Background(d, t)
  {
    var x, y := Background(c, s), Background(d, t);
    assert x[1] != y[1] || x[2] != y[2] || x[3] != y[3] || x[6] != y[6];
  }

  /** What a timer callback does: set a pad's background, or settle gameRound's promise. */
  datatype Action = Paint(pad: Color, shade: Shade) | Complete

  /** An action taken `at` ms after playback starts, by the callback of sequence position `index`. */
  datatype Event = Event(at: int, index: nat, action: Action)

  /** displayColors(value, speed) run at time `at` by the callback of position `index`.
      Its branch chain compares the value with the four pad values: a match highlights
      that pad now and restores it half an interval later. */
  function Display(value: string, at: int, index: nat, speed: nat): seq<Event> {
    match Named(value)
    case None => []
    case Some(pad) => [Event(at, index, Paint(pad, Active)),
                       Event(at + speed / 2, index, Paint(pad, Original))]
  }

  /** A pad value touches only its own pad, highlighting and then restoring it;
      any other value touches nothing. */
  lemma DisplayTouchesOnlyNamedPad(value: string, at: int, index: nat, speed: nat)
    ensures Display(value, at, index, speed) == [] <==> Named(value).None?
    ensures forall e <- Display(value, at, index, speed) ::
              e.index == index && e.action.Paint? && Named(value) == Some(e.action.pad)
    ensures Named(value).Some? ==>
              var d := Display(value, at, index, speed);
              |d| == 2 && d[0].at == at && d[1].at == at + speed / 2 &&
              d[0].action.shade == Active && d[1].action.shade == Original
  {
  }

  /** What the callback of position `i` does: display the value, and for the
      last position also complete one interval later. */
  function Step(sequence: seq<string>, speed: nat, i: nat): seq<Event>
    requires i < |sequence|
  {
    Display(sequence[i], i * speed, i, speed) +
    (if i == |sequence| - 1 then [Event(i * speed + speed, i, Complete)] else [])
  }

  /** The callbacks of the first `k` positions, in order. */
  function Steps(sequence: seq<string>, speed: nat, k: nat): seq<Event>
    requires k <= |sequence|
  {
    if k == 0 then [] else Steps(sequence, speed, k - 1) + Step(sequence, speed, k - 1)
  }

  /** Everything gameRound(sequence, speed) causes, in the order it happens. */
  function Playback(sequence: seq<string>, speed: nat): seq<Event> {
    Steps(sequence, speed, |sequence|)
  }

  /** gameRound: one timer per position; the loop registers them in index order. */
  method GameRound(sequence: seq<string>, speed: nat) returns (events: seq<Event>)
    ensures events == Playback(sequence, speed)
  {
    events := [];
    for i := 0 to |sequence|
      invariant events == Steps(sequence, speed, i)
    {
      var at := i * speed;
      var callback := Display(sequence[i], at, i, speed);
      if i == |sequence| - 1 {
        callback := callback + [Event(at + speed, i, Complete)];
      }
      events := events + callback;
    }
  }

  /** The events playback consists of, stated independently of how they are produced:
      a recognised value at position i is highlighted at i*speed and restored at
      i*speed + speed/2; completion belongs to the last position, at |sequence|*speed. */
  ghost predicate Scheduled(sequence: seq<string>, speed: nat, e: Event) {
    e.index < |sequence| &&
    match e.action
    case Paint(pad, shade) =>
      Named(sequence[e.index]) == Some(pad) &&
      ((e.at == e.index * speed && shade == Active) ||
       (e.at == e.index * speed + speed / 2 && shade == Original))
    case Complete => e.index == |sequence| - 1 && e.at == |sequence| * speed
  }

  lemma StepMembers(sequence: seq<string>, speed: nat, i: nat, e: Event)
    requires i < |sequence|
    ensures e in Step(sequence, speed, i) <==> Scheduled(sequence, speed, e) && e.index == i
  {
    var d := Display(sequence[i], i * speed, i, speed);
    var last := if i == |sequence| - 1 then [Event(i * speed + speed, i, Complete)] else [];
    assert Step(sequence, speed, i) == d + last;
    assert e in d + last <==> e in d || e in last;
    if i == |sequence| - 1 {
      assert i * speed + speed == |sequence| * speed;
    }
    if e.index == i && e.action.Complete? {
      assert e !in d;
    }
  }

  /** Every event of position i's callback carries index i and happens in its step:
      not before i*speed, and, except for the last position, by i*speed + speed/2. */
  lemma StepTimes(sequence: seq<string>, speed: nat, i: nat)
    requires i < |sequence|
    ensures forall e <- Step(sequence, speed, i) ::
              e.index == i && i * speed <= e.at &&
              (i < |sequence| - 1 ==> e.action.Paint? && e.at <= i * speed + speed / 2)
  {
  }

  lemma StepIndex(sequence: seq<string>, speed: nat, i: nat)
    requires i < |sequence|
    ensures forall e <- Step(sequence, speed, i) :: e.index == i
  {
  }

  /** Position k - 1's step joined to the first k - 1 positions keeps each event with its own position. */
  lemma StepsJoinMembers(sequence: seq<string>, speed: nat, k: nat, e: Event)
    requires 0 < k <= |sequence|
    requires e in Steps(sequence, speed, k - 1) <==> e.index < k - 1 && e in Step(sequence, speed, e.index)
    ensures e in Steps(sequence, speed, k - 1) + Step(sequence, speed, k - 1) <==>
              e.index < k && e in Step(sequence, speed, e.index)
  {
    StepIndex(sequence, speed, k - 1);
  }

  /** An event belongs to the first k positions exactly when it belongs to its own position's step. */
  lemma {:induction false} StepsStructure(sequence: seq<string>, speed: nat, k: nat, e: Event)
    requires k <= |sequence|
    ensures e in Steps(sequence, speed, k) <==> e.index < k && e in Step(sequence, speed, e.index)
  {
    if k > 0 {
      assert Steps(sequence, speed, k) == Steps(sequence, speed, k - 1) + Step(sequence, speed, k - 1);
      StepsStructure(sequence, speed, k - 1, e);
      StepsJoinMembers(sequence, speed, k, e);
    }
  }

  /** Playback does exactly what Scheduled describes, nothing more and nothing less. */
  lemma PlaybackMembers(sequence: seq<string>, speed: nat, e: Event)
    ensures e in Playback(sequence, speed) <==> Scheduled(sequence, speed, e)
  {
    StepsStructure(sequence, speed, |sequence|, e);
    if e.index < |sequence| {
      StepMembers(sequence, speed, e.index, e);
    }
  }

  /** Events never go back in time or in sequence position, and with a positive
      interval everything of one position happens strictly before the next position starts. */
  ghost predicate InOrder(es: seq<Event>, speed: nat) {
    forall j, k :: 0 <= j < k < |es| ==>
      es[j].index <= es[k].index && es[j].at <= es[k].at &&
      (speed > 0 && es[j].index < es[k].index ==> es[j].at < es[k].at)
  }

  lemma MulMono(a: nat, b: nat, speed: nat)
    requires a <= b
    ensures a * speed <= b * speed
  {
  }

  /** Every event has an index below `idx` and happens no later than `t`. */
  ghost predicate Below(es: seq<Event>, idx: nat, t: int) {
    forall j :: 0 <= j < |es| ==> es[j].index < idx && es[j].at <= t
  }

  /** Every event has index `idx` and happens no earlier than `t`. */
  ghost predicate From(es: seq<Event>, idx: nat, t: int) {
    forall j :: 0 <= j < |es| ==> es[j].index == idx && es[j].at >= t
  }

  /** Two in-order runs, the first wholly before the second, stay in order when joined. */
  lemma AppendInOrder(a: seq<Event>, b: seq<Event>, speed: nat, idx: nat, t: int, u: int)
    requires InOrder(a, speed) && InOrder(b, speed)
    requires Below(a, idx, t) && From(b, idx, u)
    requires t <= u && (speed > 0 ==> t < u)
    ensures InOrder(a + b, speed)
  {
    var s := a + b;
    forall j, l | 0 <= j < l < |s|
      ensures s[j].index <= s[l].index && s[j].at <= s[l].at &&
              (speed > 0 && s[j].index < s[l].index ==> s[j].at < s[l].at)
    {
      if l < |a| {
        assert s[j] == a[j] && s[l] == a[l];
      } else if j >= |a| {
        assert s[j] == b[j - |a|] && s[l] == b[l - |a|];
      } else {
        assert s[j] == a[j] && s[l] == b[l - |a|];
      }
    }
  }

  lemma StepInOrder(sequence: seq<string>, speed: nat, i: nat)
    requires i < |sequence|
    ensures InOrder(Step(sequence, speed, i), speed)
    ensures From(Step(sequence, speed, i), i, i * speed)
    ensures i < |sequence| - 1 ==> Below(Step(sequence, speed, i), i + 1, i * speed + speed / 2)
  {
  }

  /** Half an interval after one position's start comes before any later position's start. */
  lemma Gap(i: nat, j: nat, speed: nat)
    requires i < j
    ensures i * speed + speed / 2 <= j * speed
    ensures speed > 0 ==> i * speed + speed / 2 < j * speed
  {
    MulMono(i + 1, j, speed);
    assert (i + 1) * speed == i * speed + speed;
  }

  lemma BelowWeaken(es: seq<Event>, idx: nat, t: int, idx': nat, t': int)
    requires Below(es, idx, t) && idx <= idx' && t <= t'
    ensures Below(es, idx', t')
  {
  }

  lemma BelowAppend(a: seq<Event>, b: seq<Event>, idx: nat, t: int)
    requires Below(a, idx, t) && Below(b, idx, t)
    ensures Below(a + b, idx, t)
  {
    forall j | 0 <= j < |a + b| ensures (a + b)[j].index < idx && (a + b)[j].at <= t {
      if j < |a| { assert (a + b)[j] == a[j]; } else { assert (a + b)[j] == b[j - |a|]; }
    }
  }

  /** Short of the last position, the first k positions all happen by half an
      interval after position k - 1 starts. */
  lemma {:induction false} StepsBelow(sequence: seq<string>, speed: nat, k: nat)
    requires 0 < k < |sequence|
    ensures Below(Steps(sequence, speed, k), k, (k - 1) * speed + speed / 2)
  {
    var a, b := Steps(sequence, speed, k - 1), Step(sequence, speed, k - 1);
    assert Steps(sequence, speed, k) == a + b;
    StepInOrder(sequence, speed, k - 1);
    if k > 1 {
      StepsBelow(sequence, speed, k - 1);
      Gap(k - 2, k - 1, speed);
      BelowWeaken(a, k - 1, (k - 2) * speed + speed / 2, k, (k - 1) * speed + speed / 2);
    }
    BelowAppend(a, b, k, (k - 1) * speed + speed / 2);
  }

  /** Joining the first k - 1 positions with position k - 1 keeps the order. */
  lemma StepsJoinInOrder(sequence: seq<string>, speed: nat, k: nat)
    requires 1 < k <= |sequence|
    requires InOrder(Steps(sequence, speed, k - 1), speed)
    ensures InOrder(Steps(sequence, speed, k - 1) + Step(sequence, speed, k - 1), speed)
  {
    StepInOrder(sequence, speed, k - 1);
    StepsBelow(sequence, speed, k - 1);
    Gap(k - 2, k - 1, speed);
    AppendInOrder(Steps(sequence, speed, k - 1), Step(sequence, speed, k - 1), speed,
                  k - 1, (k - 2) * speed + speed / 2, (k - 1) * speed);
  }

  lemma {:induction false} StepsInOrder(sequence: seq<string>, speed: nat, k: nat)
    requires k <= |sequence|
    ensures InOrder(Steps(sequence, speed, k), speed)
  {
    if k == 1 {
      assert Steps(sequence, speed, 1) == Step(sequence, speed, 0);
      StepInOrder(sequence, speed, 0);
    } else if k > 1 {
      StepsInOrder(sequence, speed, k - 1);
      StepsJoinInOrder(sequence, speed, k);
    }
  }

  /** gameRound presents strictly in index order, as its timers are multiples of the interval. */
  lemma PlaybackInOrder(sequence: seq<string>, speed: nat)
    ensures InOrder(Playback(sequence, speed), speed)
  {
    StepsInOrder(sequence, speed, |sequence|);
  }

  /** An empty sequence schedules nothing, so its promise never settles.  Otherwise
      completion is the single last event, at |sequence|*speed, and with a positive
      interval every repaint (the last restore included) happens strictly before it. */
  lemma PlaybackCompletion(sequence: seq<string>, speed: nat)
    ensures |sequence| == 0 ==> Playback(sequence, speed) == []
    ensures |sequence| > 0 ==>
              var p := Playback(sequence, speed);
              |p| > 0 && p[|p| - 1] == Event(|sequence| * speed, |sequence| - 1, Complete) &&
              forall j :: 0 <= j < |p| - 1 ==>
                p[j].action.Paint? && (speed > 0 ==> p[j].at < |sequence| * speed)
  {
    if |sequence| > 0 {
      var n := |sequence|;
      var p := Playback(sequence, speed);
      var a := Steps(sequence, speed, n - 1);
      var d := Display(sequence[n - 1], (n - 1) * speed, n - 1, speed);
      assert p == (a + d) + [Event((n - 1) * speed + speed, n - 1, Complete)];
      assert (n - 1) * speed + speed == n * speed;
      forall j | 0 <= j < |p| - 1
        ensures p[j].action.Paint? && (speed > 0 ==> p[j].at < n * speed)
      {
        var x := p[j];
        assert x == (a + d)[j];
        if j < |a| {
          assert x in a;
          StepsStructure(sequence, speed, n - 1, x);
          StepTimes(sequence, speed, x.index);
          Gap(x.index, n, speed);
        } else {
          assert x in d;
          Gap(n - 1, n, speed);
        }
      }
    }
  }

  /** Three values at the lowest tier: highlights at 0, 2000 and 4000 ms, completion at 6000 ms. */
  lemma ThreeStepScenario()
    ensures Playback(["red", "yellow", "green"], 2000) ==
      [Event(0, 0, Paint(Red, Active)), Event(1000, 0, Paint(Red, Original)),
       Event(2000, 1, Paint(Yellow, Active)), Event(3000, 1, Paint(Yellow, Original)),
       Event(4000, 2, Paint(Green, Active)), Event(5000, 2, Paint(Green, Original)),
       Event(6000, 2, Complete)]
  {
    var sq := ["red", "yellow", "green"];
    assert Step(sq, 2000, 0) == [Event(0, 0, Paint(Red, Active)), Event(1000, 0, Paint(Red, Original))];
    assert Step(sq, 2000, 1) == [Event(2000, 1, Paint(Yellow, Active)), Event(3000, 1, Paint(Yellow, Original))];
    assert Step(sq, 2000, 2) == [Event(4000, 2, Paint(Green, Active)), Event(5000, 2, Paint(Green, Original)),
                                 Event(6000, 2, Complete)];
    assert Steps(sq, 2000, 1) == Step(sq, 2000, 0);
    assert Steps(sq, 2000, 2) == Step(sq, 2000, 0) + Step(sq, 2000, 1);
  }
}
